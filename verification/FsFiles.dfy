// balloc, bfree, bmap, itrunc, iupdate, readi and writei of xv6-x86/fs.c. Blocks are what the
// buffer cache shows, inodes what is in memory. The inode blocks, sb.inodestart and on, are
// kept apart in itable: only iupdate writes them.
module FsFiles {
  import opened FsLayout
  import opened FsInodes
  import opened FsState
  import opened FsSteps
  import opened FsRoom

  lemma BitOf(sb: Super, base: nat, bi: nat)
    requires base % BPB == 0 && bi < BPB
    ensures sb.BBlock(base + bi) == sb.BBlock(base) && (base + bi) % BPB == bi
  {
  }

  lemma LongerRun(c: seq<Byte>, off: nat, o: nat, m: nat)
    requires off <= o && o + m <= |c|
    ensures c[off..o] + c[o..o + m] == c[off..o + m]
  {
  }

  class FileSystem {
    const sb: Super
    var disk: seq<seq<Byte>>
    var inodes: map<nat, Inode>
    var itable: seq<seq<Byte>>
    ghost var nb: map<nat, nat>
    ghost var logged: set<nat>                    // blocks given to log_write

    ghost function Now(): St reads this`disk, this`inodes { St(disk, inodes) }

    ghost function Free(): set<nat> reads this`disk { FreeBlocks(sb, disk) }

    // balloc(): the lowest free block, marked and cleared; 0 stands for the panic.
    method Balloc() returns (b: nat)
      requires sb.Sane() && Blocks(sb, disk) && MetaMarked(sb, disk)
      modifies this`disk, this`logged
      ensures b == 0 ==> disk == old(disk) && logged == old(logged) && forall x: nat :: x < sb.size ==>
          Marked(sb, disk, x)
      ensures b != 0 ==> b < sb.size && !Marked(sb, old(disk), b) && disk == Taken(sb, old(disk), b) && Blocks(sb, disk)
      ensures b != 0 ==> forall x: nat :: x < b ==> Marked(sb, old(disk), x)
      ensures b != 0 ==> logged == old(logged) + {sb.BBlock(b), b}
      ensures b == 0 ==> Free() == {}
      ensures b != 0 ==> |Free()| == old(|Free()|) - 1
      ensures old(logged) <= logged && Touched(old(disk), disk, logged)
    {
      hide BitAt, SetBit, Zeros, Touched, FreeBlocks;
      TouchedNone(disk, logged);
      var base := 0;
      while base < sb.size
        invariant base % BPB == 0 && disk == old(disk) && logged == old(logged)
        invariant forall x: nat :: x < base && x < sb.size ==> Marked(sb, disk, x)
        decreases sb.size - base
      {
        var bp := sb.BBlock(base);
        var bi := 0;
        while bi < BPB && base + bi < sb.size
          invariant bi <= BPB && base + bi <= sb.size + BPB && disk == old(disk) && logged == old(logged)
          invariant forall x: nat :: x < base + bi && x < sb.size ==> Marked(sb, disk, x)
        {
          BitOf(sb, base, bi);
          if !BitAt(disk[bp], bi) {
            assert !Marked(sb, disk, base + bi);
            b := base + bi;
            TakenFree(sb, disk, b);
            TakenTouches(sb, disk, b, logged);
            disk := disk[bp := SetBit(disk[bp], bi)];
            logged := logged + {bp};
            disk := disk[b := Zeros(BSIZE)];
            logged := logged + {b};
            return;
          }
          bi := bi + 1;
        }
        base := base + BPB;
      }
      b := 0;
      NoneFree(sb, disk);
    }

    // bfree(): the bit of b is cleared; false stands for the panic.
    method Bfree(b: nat) returns (ok: bool)
      requires sb.Sane() && Blocks(sb, disk) && b < sb.size
      modifies this`disk, this`logged
      ensures ok <==> old(Marked(sb, disk, b))
      ensures !ok ==> disk == old(disk)
      ensures ok ==> Blocks(sb, disk) && Unmarked(sb, old(disk), disk, {b})
    {
      var bp := sb.BBlock(b);
      var bi := b % BPB;
      if !BitAt(disk[bp], bi) {
        return false;
      }
      FreedMarks(sb, disk, b);
      disk := disk[bp := ClearBit(disk[bp], bi)];
      logged := logged + {bp};
      ok := true;
    }

    // bmap(): the block that holds block bn of the file, given to it if it has none there;
    // 0 stands for balloc's panic.
    method Bmap(i: nat, bn: nat) returns (addr: nat)
      requires Good(sb, Now(), nb) && i in nb && bn < MAXFILE && bn <= nb[i]
      modifies this`disk, this`inodes, this`nb, this`logged
      ensures bn < old(nb)[i] ==> addr != 0 && unchanged(this`disk, this`inodes, this`nb, this`logged)
      ensures addr != 0 ==> Good(sb, Now(), nb) && Slot(Now(), i, bn) == addr
      ensures addr != 0 && bn == old(nb)[i] ==> Grown(old(Now()), Now(), old(nb), nb, i)
      ensures addr != 0 ==> Extra(sb, old(Now()), i) <= Extra(sb, Now(), i)
      ensures addr != 0 && bn == old(nb)[i] ==> logged <= old(logged) + {addr, sb.BBlock(addr)} + Extra(sb, Now(), i)
      ensures addr != 0 ==> |Free()| == old(|Free()|) - Grows(old(nb)[i], nb[i])
      ensures addr == 0 ==> Free() == {} && old(|Free()|) < Grows(old(nb)[i], bn + 1)
      ensures old(logged) <= logged && Touched(old(disk), disk, logged)
    {
      hide Good, Base, Slot, Marked, Taken, Shapes, UintAt, SetUint, FreeBlocks;
      ghost var s := Now();
      GoodParts(sb, s, nb, i);
      if bn < NDIRECT {
        SlotDirect(s, i, bn);
        addr := inodes[i].addrs[bn];
        if addr == 0 {
          addr := Balloc();
          if addr == 0 {
            return;
          }
          inodes := inodes[i := inodes[i].(addrs := inodes[i].addrs[bn := addr])];
          GivenStep(sb, s, i, bn, addr);
          nb := nb[i := bn + 1];
          OneGiven(sb, s, Now(), old(nb), i, addr);
        }
        return;
      }
      addr := BmapIndirect(i, bn);
    }

    // bmap() behind the direct blocks.
    method BmapIndirect(i: nat, bn: nat) returns (addr: nat)
      requires Good(sb, Now(), nb) && i in nb && NDIRECT <= bn < MAXFILE && bn <= nb[i]
      modifies this`disk, this`inodes, this`nb, this`logged
      ensures bn < old(nb)[i] ==> addr != 0 && unchanged(this`disk, this`inodes, this`nb, this`logged)
      ensures addr != 0 ==> Good(sb, Now(), nb) && Slot(Now(), i, bn) == addr
      ensures addr != 0 && bn == old(nb)[i] ==> Grown(old(Now()), Now(), old(nb), nb, i)
      ensures addr != 0 ==> Extra(sb, old(Now()), i) <= Extra(sb, Now(), i)
      ensures addr != 0 && bn == old(nb)[i] ==> logged <= old(logged) + {addr, sb.BBlock(addr)} + Extra(sb, Now(), i)
      ensures addr != 0 ==> |Free()| == old(|Free()|) - Grows(old(nb)[i], nb[i])
      ensures addr == 0 ==> Free() == {} && old(|Free()|) < Grows(old(nb)[i], bn + 1)
      ensures old(logged) <= logged && Touched(old(disk), disk, logged)
    {
      hide Good, Base, Slot, Marked, Taken, Shapes, UintAt, SetUint, FreeBlocks;
      ghost var s := Now();
      GoodParts(sb, s, nb, i);
      SlotIndirect(s, i);
      addr := inodes[i].addrs[NDIRECT];
      if addr == 0 {
        addr := Balloc();
        if addr == 0 {
          return;
        }
        inodes := inodes[i := inodes[i].(addrs := inodes[i].addrs[NDIRECT := addr])];
        GivenStep(sb, s, i, INDIRECT, addr);
      }
      ghost var t := Now();
      var bp := addr;
      SlotEntry(sb, t, i, bn);
      addr := UintAt(disk[bp], bn - NDIRECT);
      if addr == 0 {
        addr := Balloc();
        if addr == 0 {
          return;
        }
        IndirectData(sb, t, i);
        FreeSame(sb, disk, bp, SetUint(disk[bp], bn - NDIRECT, addr));
        disk := disk[bp := SetUint(disk[bp], bn - NDIRECT, addr)];
        logged := logged + {bp};
        GivenStep(sb, t, i, bn, addr);
        nb := nb[i := bn + 1];
        EntryGiven(sb, s, t, Now(), old(nb), i, bp, addr);
      }
    }

    /** iupdate(): the inode's slot of its block holds what is in memory, and every other
        inode on disk is as it was, the seven in the same block included. */
    method Iupdate(i: nat)
      requires i in inodes && Encodable(inodes[i]) && Table(itable) && i / IPB < |itable|
      modifies this`itable, this`logged
      ensures Table(itable) && |itable| == |old(itable)| && logged == old(logged) + {IBlock(i)}
      ensures OnDisk(itable, i) == inodes[i]
      ensures forall j: nat :: j / IPB < |itable| && j != i ==> OnDisk(itable, j) == OnDisk(old(itable), j)
      ensures forall b :: 0 <= b < |itable| && b != i / IPB ==> itable[b] == old(itable)[b]
    {
      hide ShortAt, UintAt, SetUint, InodeAt, PutShorts, HasShorts, Elsewhere;
      var bp, k, ip := i / IPB, i % IPB, inodes[i];
      ghost var was := itable[bp];
      var data := PutShorts(itable[bp], k, ip);
      ShortsPut(was, k, ip);
      ghost var e := data;
      WordPut(data, k, ip, 2, ip.size);
      data := SetUint(data, 16 * k + 2, ip.size);
      ElsewhereThen(was, e, data, k);
      var l := 0;
      while l <= NDIRECT
        invariant unchanged(this`itable, this`logged)
        invariant l <= NDIRECT + 1 && |data| == BSIZE && HasShorts(data, k, ip) && Elsewhere(was, data, k)
        invariant UintAt(data, 16 * k + 2) == ip.size
        invariant forall m :: 0 <= m < l ==> UintAt(data, 16 * k + 3 + m) == ip.addrs[m]
      {
        e := data;
        WordPut(data, k, ip, 3 + l, ip.addrs[l]);
        data := SetUint(data, 16 * k + 3 + l, ip.addrs[l]);
        ElsewhereThen(was, e, data, k);
        l := l + 1;
      }
      InodeIs(data, k, ip);
      forall j: nat | j / IPB < |itable| && j != i
        ensures OnDisk(itable[bp := data], j) == OnDisk(itable, j)
      {
        OthersOnDisk(itable, i, data, j);
      }
      itable := itable[bp := data];
      logged := logged + {IBlock(i)};
    }

    function IBlock(i: nat): nat { i / IPB + sb.inodestart }

    // What holds between operations: every file tight, and the inodes on disk up to date.
    ghost predicate Quiet() reads this`disk, this`inodes, this`itable, this`nb {
      Good(sb, Now(), nb) && Tight(inodes, nb) && Synced(itable, inodes)
    }

    // readi() of a file that is no device.
    method Readi(i: nat, off: nat, n: nat) returns (r: int, dst: seq<Byte>)
      requires Quiet() && i in inodes && off < WORD && n < WORD
      modifies this`disk, this`inodes, this`nb, this`logged
      ensures unchanged(this)
      ensures r == -1 <==> off > inodes[i].size || off + n >= WORD
      ensures r != -1 ==> r == |dst|
      ensures r != -1 ==> dst == Content(Now(), i)[off..if off + n < inodes[i].size then off + n else inodes[i].size]
    {
      hide Good, Slot, Shapes, Marked, ByteAt, Bytes, Tight, Synced, Content;
      TightOf(inodes, nb, i);
      dst := [];
      if off > inodes[i].size || (off + n) % WORD < off {
        return -1, dst;
      }
      var n1 := n;
      if off + n > inodes[i].size {
        n1 := inodes[i].size - off;
      }
      ghost var c := Content(Now(), i);
      GoodParts(sb, Now(), nb, i);
      var tot, o := 0, off;
      while tot < n1
        invariant unchanged(this) && tot <= n1 && o == off + tot && dst == c[off..o]
      {
        var b := Bmap(i, o / BSIZE);
        var m := if n1 - tot < BSIZE - o % BSIZE then n1 - tot else BSIZE - o % BSIZE;
        BlockBytes(sb, Now(), nb, i, o, m, b);
        LongerRun(c, off, o, m);
        dst := dst + disk[b][o % BSIZE..o % BSIZE + m];
        tot := tot + m;
        o := o + m;
      }
      r := n1;
    }

    // writei() to a file that is no device; ok is false where balloc panics.
    method Writei(i: nat, src: seq<Byte>, off: nat, n: nat) returns (r: int, ok: bool)
      requires Quiet() && i in inodes && off < WORD && n < WORD && n <= |src|
      modifies this`disk, this`inodes, this`itable, this`nb, this`logged
      ensures r == -1 <==> off > old(inodes)[i].size || off + n >= WORD || off + n > MAXFILE * BSIZE
      ensures r == -1 ==> unchanged(this) && ok
      ensures r != -1 && ok ==> r == n && Quiet() && inodes.Keys == old(inodes).Keys
      ensures r != -1 && ok ==> Content(Now(), i) == Splice(Content(old(Now()), i), off, src[..n])
      ensures r != -1 && ok ==> SameBut(old(Now()), Now(), i)
      ensures r != -1 && ok && n <= CHUNK ==> |logged - old(logged)| <= MAXOPBLOCKS
      ensures r != -1 ==> (ok <==> Needed(old(inodes)[i].size, off + n) <= old(|Free()|))
      ensures r != -1 && ok ==> |Free()| == old(|Free()|) - Needed(old(inodes)[i].size, off + n)
      ensures r != -1 && ok ==> inodes[i].size == Max(old(inodes)[i].size, off + n)
      ensures !ok ==> Free() == {}
      ensures old(logged) <= logged && Touched(old(disk), disk, logged)
      ensures |itable| == |old(itable)|
      ensures forall b :: 0 <= b < |itable| && b + sb.inodestart !in logged ==> itable[b] == old(itable)[b]
    {
      hide Good, Slot, Shapes, Marked, ByteAt, Base, Reaching, Splice, Counted, Extra, RoundsTo, BlocksFor, Content;
      hide Synced, OnDisk, Table, Encodable, Tight, Writing, FreeBlocks, Needed;
      ok := true;
      if off > inodes[i].size || (off + n) % WORD < off {
        return -1, ok;
      }
      if off + n > MAXFILE * BSIZE {
        return -1, ok;
      }
      r := n;
      ok := WriteLoop(i, src, off, n);
      if !ok {
        return;
      }
      ghost var t := Now();
      AddrsAlone(old(Now()), old(nb), t, nb, i, src, off, off + n);
      SubsetSize(logged - old(logged), logged + {IBlock(i)} - old(logged));
      WritingInodes(old(Now()), old(nb), t, nb, i, src, off, off + n);
      if n > 0 && off + n > inodes[i].size {
        inodes := inodes[i := inodes[i].(size := off + n)];
        Resizes(sb, old(Now()), old(nb), t, nb, i, src, off, off + n, itable);
        Iupdate(i);
        Updated(old(itable), old(inodes), itable, inodes, i);
      }
      WritingEnds(sb, old(Now()), old(nb), t, nb, i, src, off, off + n, Now());
    }

    // One round: m bytes into the block that o lies in.
    method WriteBlock(i: nat, src: seq<Byte>, off: nat, o: nat, m: nat, ghost s: St, ghost nb0: map<nat, nat>)
      returns (b: nat)
      requires Good(sb, Now(), nb) && Writing(s, nb0, Now(), nb, i, src, off, o) && o < MAXFILE * BSIZE
      requires 0 < m && o % BSIZE + m <= BSIZE && off <= o && o - off + m <= |src|
      modifies this`disk, this`inodes, this`nb, this`logged
      ensures b != 0 ==> Good(sb, Now(), nb) && Writing(s, nb0, Now(), nb, i, src, off, o + m)
      ensures i in old(nb) && (b != 0 ==> i in nb && i in nb0 && nb0[i] <= old(nb)[i] <= nb[i] <= old(nb)[i] + 1)
      ensures b != 0 ==> Extra(sb, old(Now()), i) <= Extra(sb, Now(), i)
      ensures b != 0 ==> if nb[i] == old(nb)[i] then logged == old(logged) + {b}
          else logged <= old(logged) + {b, sb.BBlock(b)} + Extra(sb, Now(), i)
      ensures b != 0 ==> |Free()| == old(|Free()|) - Grows(old(nb)[i], nb[i])
      ensures b == 0 ==> Free() == {} && old(|Free()|) < Grows(old(nb)[i], o / BSIZE + 1)
      ensures old(logged) <= logged && Touched(old(disk), disk, logged)
    {
      hide Good, Slot, Shapes, Marked, ByteAt, Base, Writing, Reaching, Extra, BlocksFor, FreeBlocks;
      ghost var before, nb1 := Now(), nb;
      InReach(s, nb0, before, nb, i, src, off, o);
      b := Bmap(i, o / BSIZE);
      if b == 0 {
        return;
      }
      BmapKeeps(s, nb0, before, nb1, Now(), nb, i, src, off, o);
      BlockIs(sb, Now(), nb, i, o / BSIZE);
      ghost var mid := Now();
      var d := disk[b][..o % BSIZE] + src[o - off..o - off + m] + disk[b][o % BSIZE + m..];
      WriteKeeps(sb, s, nb0, mid, nb, i, src, off, o, m, d);
      SlotData(sb, mid, nb, i, o / BSIZE);
      FreeSame(sb, disk, b, d);
      disk := disk[b := d];
      logged := logged + {b};
      SameExtra(sb, mid, Now(), i);
    }

    // The loop of writei: the bytes are in the file's blocks, new ones where it grows.
    method WriteLoop(i: nat, src: seq<Byte>, off: nat, n: nat) returns (ok: bool)
      requires Good(sb, Now(), nb) && Tight(inodes, nb) && i in inodes && n <= |src|
      requires off <= inodes[i].size && off + n <= MAXFILE * BSIZE
      modifies this`disk, this`inodes, this`nb, this`logged
      ensures ok ==> Good(sb, Now(), nb) && Writing(old(Now()), old(nb), Now(), nb, i, src, off, off + n)
      ensures ok && n <= CHUNK ==> |logged + {IBlock(i)} - old(logged)| <= MAXOPBLOCKS
      ensures ok <==> Needed(old(inodes)[i].size, off + n) <= old(|Free()|)
      ensures ok ==> |Free()| == old(|Free()|) - Needed(old(inodes)[i].size, off + n)
      ensures !ok ==> Free() == {}
      ensures old(logged) <= logged && Touched(old(disk), disk, logged)
    {
      hide Good, Slot, Shapes, Marked, ByteAt, Base, Writing, Reaching, Counted, Extra, RoundsTo, BlocksFor, Content,
        Tight, FreeBlocks, Needed, Grows, Blocks, MetaMarked, InodesOk, Touched, Underway;
      TightOf(inodes, nb, i);
      ghost var s, nb0, logged0 := Now(), nb, logged;
      ghost var t := Tally({}, {}, 0);
      UnderwayStarts(sb, s, nb0, logged0, t, i, src, off);
      var tot, o := 0, off;
      while tot < n
        invariant tot <= n && o == off + tot && (o == off || o % BSIZE == 0 || o == off + n)
        invariant Underway(sb, s, nb0, logged0, Now(), nb, logged, t, i, src, off, o)
      {
        var m := if n - tot < BSIZE - o % BSIZE then n - tot else BSIZE - o % BSIZE;
        PieceEnds(o, m, n - tot);
        ok, t := WriteRound(i, src, off, o, m, s, nb0, logged0, t);
        if !ok {
          TooFewAtAll(|FreeBlocks(sb, s.disk)|, s.inodes[i].size, o, off + n);
          return;
        }
        tot := tot + m;
        o := o + m;
      }
      ok := true;
      UnderwayEnds(sb, s, nb0, logged0, Now(), nb, logged, t, i, src, off, off + n);
      if n <= CHUNK {
        ExtraSize(sb, Now(), i);
        LoopCount(s, nb0, Now(), nb, i, src, off, n, t, Extra(sb, Now(), i), logged0, logged, IBlock(i));
      }
    }

    // A round of the loop with what it is counted by.
    method WriteRound(i: nat, src: seq<Byte>, off: nat, o: nat, m: nat, ghost s: St, ghost nb0: map<nat, nat>,
        ghost logged0: set<nat>, ghost t: Tally) returns (ok: bool, ghost t1: Tally)
      requires Underway(sb, s, nb0, logged0, Now(), nb, logged, t, i, src, off, o) && o < MAXFILE * BSIZE
      requires 0 < m && o % BSIZE + m <= BSIZE && off <= o && o - off + m <= |src| && (o == off || o % BSIZE == 0)
      modifies this`disk, this`inodes, this`nb, this`logged
      ensures ok ==> Underway(sb, s, nb0, logged0, Now(), nb, logged, t1, i, src, off, o + m)
      ensures logged0 <= logged && Touched(s.disk, disk, logged)
      ensures !ok ==> Free() == {} && i in s.inodes
      ensures !ok ==> |FreeBlocks(sb, s.disk)| < Grows(BlocksFor(s.inodes[i].size), o / BSIZE + 1)
    {
      hide Good, Slot, Shapes, Marked, ByteAt, Base, Writing, Reaching, Counted, Extra, RoundsTo, BlocksFor, FreeBlocks,
        Needed, Grows, Touched;
      ghost var extra, nb1, logged1, was := Extra(sb, Now(), i), nb, logged, disk;
      var b := WriteBlock(i, src, off, o, m, s, nb0);
      TouchedThen(s.disk, was, disk, logged1, logged);
      if b == 0 {
        GrowsMore(nb0[i], nb1[i], o / BSIZE + 1);
        return false, t;
      }
      GrowsSum(nb0[i], nb1[i], nb[i]);
      TallyMore(t, extra, Extra(sb, Now(), i), logged0, logged1, logged, nb1[i] - nb0[i], nb[i] - nb0[i], b,
        sb.BBlock(b));
      RoundMore(off, o, m);
      ok, t1 := true, t.Next(b, sb.BBlock(b), nb[i] != nb1[i]);
    }

    /** What was written is what is read back at the same place. */
    method WriteThenRead(i: nat, src: seq<Byte>, off: nat, n: nat) returns (r: int, ok: bool, back: int, dst: seq<Byte>)
      requires Quiet() && i in inodes && off < WORD && n < WORD && n <= |src|
      modifies this`disk, this`inodes, this`itable, this`nb, this`logged
      ensures r == -1 <==> off > old(inodes)[i].size || off + n >= WORD || off + n > MAXFILE * BSIZE
      ensures r != -1 ==> (ok <==> Needed(old(inodes)[i].size, off + n) <= old(|Free()|))
      ensures ok && r != -1 ==> back == r == n && dst == src[..n]
      ensures ok ==> Quiet() && inodes.Keys == old(inodes).Keys
      ensures !ok ==> r != -1 && Free() == {}
    {
      hide Good, Slot, Shapes, Marked, Tight, Synced, Content, Splice, Quiet, FreeBlocks, Needed;
      ghost var c := Content(Now(), i);
      back, dst := -1, [];
      r, ok := Writei(i, src, off, n);
      if ok && r != -1 {
        ContentSize(old(Now()), i);
        ContentSize(Now(), i);
        ReadBack(c, off, src[..n]);
        back, dst := Readi(i, off, n);
      }
    }

    // The loop of filewrite: chunks, each an operation of its own; count is what it returns,
    // done how much has been written, and ops what each operation has logged.
    method FileWrite(i: nat, addr: seq<Byte>, off: nat) returns (count: int, done: nat, ok: bool,
        ghost ops: seq<set<nat>>)
      requires Quiet() && i in inodes && off < WORD && |addr| < WORD / 2
      modifies this`disk, this`inodes, this`itable, this`nb, this`logged
      ensures ok ==> Quiet() && i in inodes && done <= |addr| && count == (if done == |addr| then |addr| else -1)
      ensures ok ==> Written(Content(old(Now()), i), Content(Now(), i), off, addr, done)
      ensures ok && done < |addr| ==> off > old(inodes)[i].size || off + |addr| > MAXFILE * BSIZE
      ensures ok ==> done <= |ops| * CHUNK && forall k :: 0 <= k < |ops| ==> |ops[k]| <= MAXOPBLOCKS
      ensures ok ==> SameBut(old(Now()), Now(), i)
      ensures ok ==> inodes[i].size == if done == 0 then old(inodes)[i].size else Max(old(inodes)[i].size, off + done)
      ensures off <= old(inodes)[i].size && off + |addr| <= MAXFILE * BSIZE ==>
        (ok <==> Needed(old(inodes)[i].size, off + |addr|) <= old(|Free()|))
      ensures !ok ==> Free() == {} && off <= old(inodes)[i].size
      ensures !ok ==> Needed(old(inodes)[i].size, off + |addr|) > old(|Free()|)
    {
      hide Good, Slot, Shapes, Marked, ByteAt, Base, Splice, Tight, Written, Content, Quiet, FreeBlocks, Needed,
          SameBut;
      SameButNone(Now(), i);
      ghost var size := inodes[i].size;
      NeededNone(size, off);
      ghost var c := Content(Now(), i);
      WrittenNone(c, off, addr);
      ok, ops := true, [];
      done := 0;
      while done < |addr|
        invariant done <= |ops| * CHUNK && forall k :: 0 <= k < |ops| ==> |ops[k]| <= MAXOPBLOCKS
        invariant done <= |addr| && ok && Quiet() && i in inodes && inodes.Keys == old(inodes).Keys
        invariant Written(c, Content(Now(), i), off, addr, done)
        invariant SameBut(old(Now()), Now(), i)
        invariant inodes[i].size == if done == 0 then size else Max(size, off + done)
        invariant done > 0 ==> off <= size
        invariant off <= size ==> |Free()| == old(|Free()|) - Needed(size, off + done)
      {
        var n1 := if |addr| - done > CHUNK then CHUNK else |addr| - done;
        logged := {};
        ghost var before := Now();
        ghost var cur := Content(before, i);
        WrittenSize(c, cur, off, addr, done);
        var r: int;
        ghost var cursize := inodes[i].size;
        r, ok := Writei(i, addr[done..], off + done, n1);
        if off <= size { ChunkNeeds(size, off, done, n1, |addr|, cursize); }
        if !ok {
          return -1, done, ok, ops;
        }
        if r < 0 {
          break;
        }
        assert logged - {} == logged;
        ops := ops + [logged];
        WrittenMore(c, cur, Content(Now(), i), off, addr, done, n1);
        SameButNext(old(Now()), before, Now(), i);
        done := done + n1;
      }
      count := if done == |addr| then |addr| else -1;
    }

    // The direct blocks of a file freed.
    method TruncDirect(i: nat, ghost s: St)
      requires s == Now() && Good(sb, s, nb) && i in inodes && i in nb
      modifies this`disk, this`inodes, this`logged
      ensures Blocks(sb, disk) && Unmarked(sb, s.disk, disk, Freed(s, i, NDIRECT)) && i in inodes &&
          |inodes[i].addrs| == NDIRECT + 1
      ensures inodes == s.inodes[i := s.inodes[i].(addrs := inodes[i].addrs)]
      ensures forall l :: 0 <= l < NDIRECT ==> inodes[i].addrs[l] == 0
      ensures inodes[i].addrs[NDIRECT] == Slot(s, i, INDIRECT)
    {
      hide Good, Slot, Shapes, Marked, ByteAt, Base, Unmarked, Freed;
      GoodParts(sb, s, nb, i);
      UnmarkedNone(sb, disk);
      SlotIndirect(s, i);
      FreedNone(s, i);
      var k := 0;
      while k < NDIRECT
        invariant k <= NDIRECT && Blocks(sb, disk) && i in inodes && |inodes[i].addrs| == NDIRECT + 1
        invariant Unmarked(sb, s.disk, disk, Freed(s, i, k))
        invariant inodes == s.inodes[i := s.inodes[i].(addrs := inodes[i].addrs)]
        invariant forall l :: 0 <= l <= NDIRECT ==> inodes[i].addrs[l] == if l < k then 0 else s.inodes[i].addrs[l]
      {
        SlotDirect(s, i, k);
        FreeNext(sb, s, nb, i, disk, k);
        if inodes[i].addrs[k] != 0 {
          ghost var d := disk;
          var freed := Bfree(inodes[i].addrs[k]);
          assert freed;
          UnmarkedMore(sb, s.disk, d, disk, Freed(s, i, k), Slot(s, i, k));
          inodes := inodes[i := inodes[i].(addrs := inodes[i].addrs[k := 0])];
        }
        k := k + 1;
      }
    }

    // The blocks named in the indirect block freed; ind is that block.
    method TruncEntries(i: nat, ind: nat, ghost s: St)
      requires Good(sb, s, nb) && i in s.inodes && i in nb && ind == Slot(s, i, INDIRECT) && ind != 0
      requires Blocks(sb, disk) && Unmarked(sb, s.disk, disk, Freed(s, i, NDIRECT))
      modifies this`disk, this`logged
      ensures Blocks(sb, disk) && Unmarked(sb, s.disk, disk, Freed(s, i, INDIRECT))
    {
      hide Good, Slot, Shapes, Marked, ByteAt, Base, Unmarked, Freed;
      GoodParts(sb, s, nb, i);
      SlotIndirect(s, i);
      var j := 0;
      while j < NINDIRECT
        invariant j <= NINDIRECT && Blocks(sb, disk) && Unmarked(sb, s.disk, disk, Freed(s, i, NDIRECT + j))
      {
        SlotEntry(sb, s, i, NDIRECT + j);
        FreeNext(sb, s, nb, i, disk, NDIRECT + j);
        KeptBlock(sb, s, nb, i, disk, Freed(s, i, NDIRECT + j));
        var a := UintAt(disk[ind], j);
        if a != 0 {
          ghost var d := disk;
          var freed := Bfree(a);
          assert freed;
          UnmarkedMore(sb, s.disk, d, disk, Freed(s, i, NDIRECT + j), a);
        }
        j := j + 1;
      }
    }

    // The indirect block and what it names freed, if there is one.
    method TruncIndirect(i: nat, ghost s: St)
      requires Good(sb, s, nb) && i in s.inodes && i in nb && i in inodes && |inodes[i].addrs| == NDIRECT + 1
      requires Blocks(sb, disk) && Unmarked(sb, s.disk, disk, Freed(s, i, NDIRECT)) &&
          inodes[i].addrs[NDIRECT] == Slot(s, i, INDIRECT)
      modifies this`disk, this`inodes, this`logged
      ensures Blocks(sb, disk) && Unmarked(sb, s.disk, disk, Freed(s, i, INDIRECT + 1))
      ensures inodes == old(inodes)[i := old(inodes)[i].(addrs := old(inodes)[i].addrs[NDIRECT := 0])]
    {
      hide Good, Slot, Shapes, Marked, ByteAt, Base, Unmarked, Freed;
      GoodParts(sb, s, nb, i);
      var ind := inodes[i].addrs[NDIRECT];
      if ind != 0 {
        TruncEntries(i, ind, s);
        FreeNext(sb, s, nb, i, disk, INDIRECT);
        ghost var d := disk;
        var freed := Bfree(ind);
        assert freed;
        UnmarkedMore(sb, s.disk, d, disk, Freed(s, i, INDIRECT), ind);
        inodes := inodes[i := inodes[i].(addrs := inodes[i].addrs[NDIRECT := 0])];
      } else {
        NoIndirect(s, i, INDIRECT + 1);
        assert inodes[i].addrs[NDIRECT := 0] == inodes[i].addrs;
      }
    }

    // itrunc(): the file's blocks become free, and only they; bfree never panics.
    method Itrunc(i: nat)
      requires Quiet() && i in inodes
      modifies this`disk, this`inodes, this`itable, this`nb, this`logged
      ensures Quiet() && nb == old(nb)[i := 0] && inodes.Keys == old(inodes).Keys
      ensures inodes[i] == old(inodes)[i].(size := 0, addrs := inodes[i].addrs)
      ensures forall b: nat :: b < sb.size ==> (Marked(sb, disk, b) <==>
          Marked(sb, old(disk), b) && !Owns(old(Now()), i, b))
      ensures forall j :: j in inodes && j != i ==>
          j in old(inodes) && inodes[j] == old(inodes)[j] && Content(Now(), j) == Content(old(Now()), j)
    {
      hide Good, Slot, Shapes, Marked, ByteAt, Base, Unmarked, Freed, Owns, Content, Tight, Synced, OnDisk, Table,
          Encodable;
      TightOf(inodes, nb, i);
      ghost var s := Now();
      GoodParts(sb, s, nb, i);
      TruncDirect(i, s);
      TruncIndirect(i, s);
      inodes := inodes[i := inodes[i].(size := 0)];
      Emptied(itable, s.inodes, inodes[i], i);
      Iupdate(i);
      Updated(old(itable), old(inodes), itable, inodes, i);
      nb := nb[i := 0];
      Truncated(sb, s, old(nb), Now(), i);
    }
  }

  // Only the size and the blocks of file i have changed, and its bytes.
  ghost predicate SameBut(s: St, t: St, i: nat) {
    && i in s.inodes && t.inodes.Keys == s.inodes.Keys
    && t.inodes[i] == s.inodes[i].(size := t.inodes[i].size, addrs := t.inodes[i].addrs)
    && forall j :: j in t.inodes && j != i ==> t.inodes[j] == s.inodes[j] && Content(t, j) == Content(s, j)
  }

  lemma SameButNone(s: St, i: nat)
    requires i in s.inodes
    ensures SameBut(s, s, i)
  {
  }

  lemma SameButNext(s: St, t: St, u: St, i: nat)
    requires SameBut(s, t, i) && SameBut(t, u, i)
    ensures SameBut(s, u, i)
  {
  }

  lemma ContentSize(st: St, i: nat)
    requires i in st.inodes
    ensures |Content(st, i)| == st.inodes[i].size
  {
  }

  // The one inode that changed has been written, so all of them are on disk as in memory.
  lemma Updated(itable: seq<seq<Byte>>, inodes: map<nat, Inode>, itable': seq<seq<Byte>>, inodes': map<nat, Inode>,
      i: nat)
    requires Synced(itable, inodes) && i in inodes && i in inodes' && inodes' == inodes[i := inodes'[i]]
    requires Table(itable') && |itable'| == |itable| && Shorts(inodes'[i])
    requires i / IPB < |itable| && OnDisk(itable', i) == inodes'[i]
    requires Table(itable) && forall j: nat :: j / IPB < |itable'| && j != i ==> OnDisk(itable', j) == OnDisk(itable, j)
    ensures Synced(itable', inodes')
  {
    hide OnDisk, Table;
  }

  lemma SlotsFit(sb: Super, st: St, nb: map<nat, nat>, i: nat)
    requires Good(sb, st, nb) && i in nb
    ensures i in st.inodes && |st.inodes[i].addrs| == NDIRECT + 1
    ensures forall l :: 0 <= l <= NDIRECT ==> st.inodes[i].addrs[l] < 0x1_0000_0000
  {
    GoodParts(sb, st, nb, i);
    forall l | 0 <= l <= NDIRECT
      ensures st.inodes[i].addrs[l] < 0x1_0000_0000
    {
      var k := if l == NDIRECT then INDIRECT else l;
      if Slot(st, i, k) != 0 { HeldAt(sb, st, i, k); }
    }
  }

  // A file that has grown still fits its inode on disk.
  lemma Resizes(sb: Super, s: St, nb0: map<nat, nat>, t: St, nb: map<nat, nat>, i: nat, src: seq<Byte>, off: nat,
      o: nat,
                itable: seq<seq<Byte>>)
    requires Good(sb, t, nb) && Writing(s, nb0, t, nb, i, src, off, o) && Synced(itable, s.inodes)
    requires o <= MAXFILE * BSIZE
    ensures i in s.inodes && i in t.inodes && Encodable(t.inodes[i].(size := o)) && Shorts(t.inodes[i].(size := o))
    ensures Table(itable) && i / IPB < |itable|
  {
    hide Good, Writing, Synced, OnDisk;
    AddrsAlone(s, nb0, t, nb, i, src, off, o);
    SyncedShorts(itable, s.inodes, i);
    SlotsFit(sb, t, nb, i);
  }

  lemma AddrsAlone(s: St, nb0: map<nat, nat>, t: St, nb: map<nat, nat>, i: nat, src: seq<Byte>, off: nat, o: nat)
    requires Writing(s, nb0, t, nb, i, src, off, o)
    ensures i in s.inodes && i in t.inodes && i in nb && t.inodes[i] == s.inodes[i].(addrs := t.inodes[i].addrs)
  {
    hide Slot, ByteAt, BlocksFor;
  }

  lemma SyncedShorts(itable: seq<seq<Byte>>, inodes: map<nat, Inode>, i: nat)
    requires Synced(itable, inodes) && i in inodes
    ensures Table(itable) && i / IPB < |itable| && Shorts(inodes[i])
  {
  }

  // And so does one that has been emptied.
  lemma Emptied(itable: seq<seq<Byte>>, inodes: map<nat, Inode>, ip: Inode, i: nat)
    requires Synced(itable, inodes) && i in inodes
    requires ip == inodes[i].(addrs := ip.addrs, size := 0) && |ip.addrs| == NDIRECT + 1
    requires forall l :: 0 <= l <= NDIRECT ==> ip.addrs[l] == 0
    ensures Encodable(ip) && Shorts(ip) && Table(itable) && i / IPB < |itable|
  {
  }
}
