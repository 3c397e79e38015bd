// xv6-x86/log.c as a mutable object over a cached disk. Every block write appends the
// disk image it leaves behind to the ghost field `crashes`: these are the images a power
// failure can leave, and the contracts say what recovery makes of each of them.
module LogDevice {
  import opened LogFormat
  import opened LogCache
  import opened LogReserve

  // Images from index i up to j all recover to home image m.
  ghost predicate AllRecover(crashes: seq<Disk>, i: nat, j: nat, m: Disk, L: Layout) {
    && i <= j <= |crashes|
    && forall k :: i <= k < j ==> GoodDisk(crashes[k], L) && SameHome(Recovered(crashes[k], L), m, L)
  }

  lemma OneMoreCrash(crashes: seq<Disk>, i: nat, d: Disk, m: Disk, L: Layout)
    requires AllRecover(crashes, i, |crashes|, m, L)
    requires GoodDisk(d, L) && SameHome(Recovered(d, L), m, L)
    ensures AllRecover(crashes + [d], i, |crashes| + 1, m, L)
  {
  }

  lemma LaterCrashes(crashes: seq<Disk>, later: seq<Disk>, i: nat, j: nat, m: Disk, L: Layout)
    requires crashes <= later && AllRecover(crashes, i, j, m, L)
    ensures AllRecover(later, i, j, m, L)
  {
  }

  lemma JoinCrashes(crashes: seq<Disk>, i: nat, j: nat, k: nat, m: Disk, L: Layout)
    requires AllRecover(crashes, i, j, m, L) && AllRecover(crashes, j, k, m, L)
    ensures AllRecover(crashes, i, k, m, L)
  {
  }

  // One block write c is the commit: images before it recover to `was`, from it on to `now`.
  ghost predicate CommitPoint(crashes: seq<Disk>, from: nat, c: nat, was: Disk, now: Disk, L: Layout) {
    AllRecover(crashes, from, c, was, L) && AllRecover(crashes, c, |crashes|, now, L)
  }

  class Log {
    const L: Layout
    const block: array<int>
    var disk: Disk
    var cache: Cache
    var n: nat
    var outstanding: int
    var committing: bool
    ghost var crashes: seq<Disk>
    ghost var open: map<nat, set<int>>    // outstanding operation -> the blocks it has named
    ghost var within: bool                // all of them have stayed within MAXOPBLOCKS blocks

    // log.lh as a list
    function Listed(): seq<int>
      requires n <= block.Length
      reads this, block
    {
      block[..n]
    }

    ghost predicate Wf()
      reads this
    {
      Coherent(disk, cache, L) && block.Length == LOGSIZE && n <= LOGSIZE
    }

    ghost predicate Valid()
      reads this, block
    {
      Wf() && Quiet(disk, cache, Listed(), L)
    }

    // As long as operations keep to their allowance, what is left of it is reserved.
    ghost predicate Granted()
      reads this, block
    {
      && n <= block.Length && outstanding == |open|
      && (within ==> Reserved(Listed(), open))
    }

    // initlog on an image left by a crash.
    constructor (layout: Layout, image: Disk)
      requires GoodDisk(image, layout)
      ensures Valid() && Granted() && fresh(block) && L == layout && open == map[] && within
      ensures n == 0 && outstanding == 0 && !committing
      ensures SameHome(disk, Recovered(image, layout), layout)
      ensures AllRecover(crashes, 0, |crashes|, Recovered(image, layout), layout)
    {
      L := layout;
      disk := image;
      cache := map[];
      n := 0;
      block := new int[LOGSIZE](_ => 0);
      outstanding := 0;
      committing := false;
      crashes := [];
      open, within := map[], true;
      new;
      RecoverFromLog();
      NoneOpen(Listed());
    }

    // bread: the block is cached clean if it was not there.
    method BRead(b: int) returns (data: Block)
      requires Wf() && 0 <= b < |disk|
      modifies this`cache
      ensures Wf() && data == View(disk, old(cache), b) && |data| == WORDS
      ensures cache == Fetched(disk, old(cache), b)
    {
      if b !in cache {
        cache := cache[b := Buf(disk[b], false)];
      }
      data := cache[b].data;
    }

    // bwrite: one atomic block write, which also clears B_DIRTY.
    method BWrite(b: int, data: Block)
      requires Wf() && 0 <= b < |disk| && |data| == WORDS
      modifies this`disk, this`cache, this`crashes
      ensures Wf()
      ensures disk == old(disk)[b := data]
      ensures cache == Stored(old(cache), b, data)
      ensures crashes == old(crashes) + [disk]
    {
      disk := disk[b := data];
      cache := Stored(cache, b, data);
      crashes := crashes + [disk];
    }

    // A clean, unreferenced buffer may be recycled at any time.
    method Evict(b: int)
      requires Valid() && b in cache && !cache[b].dirty
      modifies this`cache
      ensures Valid() && cache == old(cache) - {b}
      ensures Merged(disk, cache) == old(Merged(disk, cache))
    {
      EvictClean(disk, cache, b, L);
      cache := cache - {b};
    }

    /** begin_op's test: false where the source goes to sleep and tries again. An operation
        let in has room reserved for MAXOPBLOCKS blocks, and so have the others for what is
        left to them. */
    method BeginOp(ghost op: nat) returns (ok: bool)
      requires Granted() && op !in open
      modifies this`outstanding, this`open
      ensures Granted()
      ensures ok ==> !committing && open == old(open)[op := {}] && outstanding == old(outstanding) + 1
      ensures !ok ==> open == old(open) && outstanding == old(outstanding)
      ensures !ok <==> committing || LOGSIZE < n + (old(outstanding) + 1) * MAXOPBLOCKS
      ensures ok && within ==> n + MAXOPBLOCKS + Spare(old(open)) <= LOGSIZE
    {
      if committing {
        return false;
      } else if n + (outstanding + 1) * MAXOPBLOCKS > LOGSIZE {
        return false;
      }
      if within {
        Admitted(Listed(), open, op);
        SparePut(open, op, {});
      }
      outstanding, open := outstanding + 1, open[op := {}];
      return true;
    }

    /** log_write of block b holding data; false where the source panics. It does not panic
        while its operation has named fewer blocks than its allowance, in a log of more than
        LOGSIZE blocks. */
    method LogWrite(ghost op: nat, b: int, data: Block) returns (ok: bool)
      requires Valid() && Granted() && L.IsHome(b) && |data| == WORDS
      requires outstanding >= 1 ==> op in open
      modifies this`cache, this`n, this`open, this`within, block
      ensures Valid() && Granted()
      ensures ok <==> old(n) < LOGSIZE && old(n) < L.size - 1 && outstanding >= 1
      ensures old(within) && op in old(open) && |old(open)[op]| < MAXOPBLOCKS && LOGSIZE < L.size ==> ok
      ensures !ok ==> cache == old(cache) && Listed() == old(Listed()) && open == old(open) && within == old(within)
      ensures ok ==> Merged(disk, cache) == old(Merged(disk, cache))[b := data] && Dirty(cache, b)
      ensures ok ==> Listed() == Absorb(old(Listed()), b)
      ensures ok ==> op in old(open) && open == old(open)[op := old(open)[op] + {b}]
      ensures ok ==> within == (old(within) && |open[op]| <= MAXOPBLOCKS)
    {
      if within && op in open && |open[op]| < MAXOPBLOCKS {
        RoomLeft(Listed(), open, op);
        OutstandingSome(open, op);
      }
      if n >= LOGSIZE || n >= L.size - 1 || outstanding < 1 {
        return false;
      }
      ghost var bs, m := Listed(), Merged(disk, cache);
      Pin(b, data, m);
      if within && |open[op] + {b}| <= MAXOPBLOCKS {
        Named(bs, open, op, b);
      }
      within := within && |open[op] + {b}| <= MAXOPBLOCKS;
      SameSize(open, op, open[op] + {b});
      open := open[op := open[op] + {b}];
      return true;
    }

    // The loop of log_write that looks for the block, and the pinning.
    method Pin(b: int, data: Block, ghost m: Disk)
      requires Valid() && L.IsHome(b) && |data| == WORDS && n < LOGSIZE && n < L.size - 1
      requires m == Merged(disk, cache)
      modifies this`cache, this`n, block
      ensures Valid() && Listed() == Absorb(old(Listed()), b)
      ensures Merged(disk, cache) == m[b := data] && Dirty(cache, b)
    {
      ghost var bs := Listed();
      var i := 0;
      while i < n && block[i] != b
        invariant 0 <= i <= n
        invariant b !in bs[..i]
      {
        i := i + 1;
      }
      assert i == n ==> bs[..i] == bs;
      assert i < n ==> bs[i] == b;
      block[i] := b;
      if i == n {
        n := n + 1;
      }
      assert Listed() == Absorb(bs, b);
      LogWriteStep(m, disk, cache, bs, b, data, L);
      cache := cache[b := Buf(data, true)];
    }

    // write_log: copy the pinned blocks to the log slots.
    method WriteLog()
      requires Valid()
      modifies this`disk, this`cache, this`crashes
      ensures Wf() && Logging(old(Merged(disk, cache)), disk, cache, Listed(), n, L)
      ensures SameHome(disk, old(disk), L)
      ensures old(crashes) <= crashes && AllRecover(crashes, |old(crashes)|, |crashes|, old(disk), L)
    {
      ghost var d0, m, bs, c0 := disk, Merged(disk, cache), Listed(), |crashes|;
      var tail := 0;
      while tail < n
        invariant 0 <= tail <= n && Listed() == bs
        invariant Wf() && Logging(m, disk, cache, bs, tail, L)
        invariant SameHome(disk, d0, L)
        invariant old(crashes) <= crashes && AllRecover(crashes, c0, |crashes|, d0, L)
      {
        ghost var was := crashes;
        CopyToLog(tail, m, bs);
        OneMoreCrash(was, c0, disk, d0, L);
        tail := tail + 1;
      }
    }

    // One turn of write_log's loop.
    method CopyToLog(tail: nat, ghost m: Disk, ghost bs: seq<int>)
      requires Wf() && Logging(m, disk, cache, bs, tail, L)
      requires tail < |bs| && block[tail] == bs[tail]
      modifies this`disk, this`cache, this`crashes
      ensures Wf() && Logging(m, disk, cache, bs, tail + 1, L)
      ensures SameHome(disk, old(disk), L) && crashes == old(crashes) + [disk]
      ensures GoodDisk(disk, L) && SameHome(Recovered(disk, L), old(disk), L)
    {
      hide Logging, SameHome, Recovered, GoodDisk, Coherent;
      var slot := L.start + tail + 1;
      LoggingParts(m, disk, cache, bs, tail, L);
      LoggingFetched(m, disk, cache, bs, tail, slot, L);
      var to := BRead(slot);
      LoggingFetched(m, disk, cache, bs, tail, block[tail], L);
      var from := BRead(block[tail]);
      LogStep(m, disk, cache, bs, tail, L);
      BWrite(slot, from);
      LoggingParts(m, disk, cache, bs, tail + 1, L);
    }

    // write_head: read the header block, lay n and block[0..n) over it, write it back.
    method WriteHead()
      requires Wf()
      modifies this`disk, this`cache, this`crashes
      ensures Wf()
      ensures |old(View(disk, cache, L.start))| == WORDS
      ensures var h := PutHeader(old(View(disk, cache, L.start)), Listed());
              disk == old(disk)[L.start := h] && cache == Stored(old(cache), L.start, h)
      ensures crashes == old(crashes) + [disk]
    {
      var h := BRead(L.start);
      BWrite(L.start, PutHeader(h, Listed()));
    }

    // install_trans: copy each log slot to its home block. A crash at any of these writes
    // recovers to the image m the slots hold.
    method InstallTrans(ghost m: Disk)
      requires Wf() && Installing(m, disk, cache, Listed(), 0, L)
      modifies this`disk, this`cache, this`crashes
      ensures Wf() && Installing(m, disk, cache, Listed(), n, L)
      ensures old(crashes) <= crashes && |crashes| == |old(crashes)| + n
      ensures AllRecover(crashes, |old(crashes)|, |crashes|, m, L)
    {
      ghost var bs, c0 := Listed(), |crashes|;
      var tail := 0;
      while tail < n
        invariant 0 <= tail <= n && Listed() == bs
        invariant Wf() && Installing(m, disk, cache, bs, tail, L)
        invariant old(crashes) <= crashes && |crashes| == c0 + tail
        invariant AllRecover(crashes, c0, |crashes|, m, L)
      {
        ghost var was := crashes;
        CopyHome(tail, m, bs);
        OneMoreCrash(was, c0, disk, m, L);
        tail := tail + 1;
      }
    }

    // One turn of install_trans's loop.
    method CopyHome(tail: nat, ghost m: Disk, ghost bs: seq<int>)
      requires Wf() && Installing(m, disk, cache, bs, tail, L)
      requires tail < |bs| && block[tail] == bs[tail]
      modifies this`disk, this`cache, this`crashes
      ensures Wf() && Installing(m, disk, cache, bs, tail + 1, L)
      ensures crashes == old(crashes) + [disk]
      ensures GoodDisk(disk, L) && SameHome(Recovered(disk, L), m, L)
    {
      var slot := L.start + tail + 1;
      assert L.InLog(slot) && L.IsHome(bs[tail]);
      InstallingFetched(m, disk, cache, bs, tail, slot, L);
      SlotIsClean(m, disk, cache, bs, tail, L);
      var lbuf := BRead(slot);
      assert lbuf == m[bs[tail]];
      CopyOver(tail, lbuf, m, bs);
    }

    method CopyOver(tail: nat, lbuf: Block, ghost m: Disk, ghost bs: seq<int>)
      requires Wf() && Installing(m, disk, cache, bs, tail, L)
      requires tail < |bs| && block[tail] == bs[tail] && lbuf == m[bs[tail]]
      modifies this`disk, this`cache, this`crashes
      ensures Wf() && Installing(m, disk, cache, bs, tail + 1, L)
      ensures crashes == old(crashes) + [disk]
      ensures GoodDisk(disk, L) && SameHome(Recovered(disk, L), m, L)
    {
      assert L.IsHome(bs[tail]);
      InstallingFetched(m, disk, cache, bs, tail, block[tail], L);
      var dbuf := BRead(block[tail]);
      InstallStep(m, disk, cache, bs, tail, L);
      BWrite(block[tail], lbuf);
      CrashWhileInstalling(m, disk, cache, bs, tail + 1, L);
    }

    // commit: there is one block write such that every image before it recovers to the old
    // home blocks and every image from it on to what the file system saw.
    method Commit()
      requires Valid()
      modifies this`disk, this`cache, this`crashes, this`n
      ensures Valid() && n == 0
      ensures SameHome(disk, old(Merged(disk, cache)), L)
      ensures Shows(old(Merged(disk, cache)), disk, cache, L)
      ensures old(crashes) <= crashes
      ensures exists c :: CommitPoint(crashes, |old(crashes)|, c, old(disk), old(Merged(disk, cache)), L)
    {
      if n > 0 {
        ghost var c := WriteAndInstall();
      } else {
        assert Listed() == [];
        NothingLogged(disk, cache, L);
        assert CommitPoint(crashes, |crashes|, |crashes|, disk, Merged(disk, cache), L);
      }
    }

    method WriteAndInstall() returns (ghost c: nat)
      requires Valid()
      modifies this`disk, this`cache, this`crashes, this`n
      ensures Valid() && n == 0
      ensures SameHome(disk, old(Merged(disk, cache)), L)
      ensures Shows(old(Merged(disk, cache)), disk, cache, L)
      ensures old(crashes) <= crashes
      ensures CommitPoint(crashes, |old(crashes)|, c, old(disk), old(Merged(disk, cache)), L)
    {
      ghost var m := Merged(disk, cache);
      WriteLog();
      c := |crashes|;
      ghost var logged := crashes;
      HeadAndInstall(m);
      LaterCrashes(logged, crashes, |old(crashes)|, c, old(disk), L);
    }

    method HeadAndInstall(ghost m: Disk)
      requires Wf() && Logging(m, disk, cache, Listed(), n, L)
      modifies this`disk, this`cache, this`crashes, this`n
      ensures Valid() && n == 0
      ensures SameHome(disk, m, L) && Shows(m, disk, cache, L)
      ensures old(crashes) <= crashes && AllRecover(crashes, |old(crashes)|, |crashes|, m, L)
    {
      hide Logging, Installing, SameHome, Shows, AllRecover;
      ghost var c0, bs := crashes, Listed();
      HeadStep(m, disk, cache, bs, L);
      WriteHead();
      CrashWhileInstalling(m, disk, cache, bs, 0, L);
      OneMoreCrash(c0, |c0|, disk, m, L);
      InstallAndErase(m);
      LaterCrashes(c0 + [crashes[|c0|]], crashes, |c0|, |c0| + 1, m, L);
      JoinCrashes(crashes, |c0|, |c0| + 1, |crashes|, m, L);
    }

    // From the header's commit to the empty log.
    method InstallAndErase(ghost m: Disk)
      requires Wf() && Installing(m, disk, cache, Listed(), 0, L)
      modifies this`disk, this`cache, this`crashes, this`n
      ensures Valid() && n == 0
      ensures SameHome(disk, m, L) && Shows(m, disk, cache, L)
      ensures old(crashes) <= crashes && AllRecover(crashes, |old(crashes)|, |crashes|, m, L)
    {
      ghost var bs := Listed();
      InstallTrans(m);
      ghost var c1 := crashes;
      Erase(m, bs);
      OneMoreCrash(c1, |old(crashes)|, disk, m, L);
    }

    // The log is emptied: the header written holds no blocks.
    method Erase(ghost m: Disk, ghost bs: seq<int>)
      requires Wf() && Installing(m, disk, cache, bs, |bs|, L)
      modifies this`disk, this`cache, this`crashes, this`n
      ensures Valid() && n == 0
      ensures SameHome(disk, m, L) && Shows(m, disk, cache, L)
      ensures crashes == old(crashes) + [disk]
      ensures GoodDisk(disk, L) && SameHome(Recovered(disk, L), m, L)
    {
      EraseStep(m, disk, cache, bs, L);
      n := 0;
      assert Listed() == [];
      WriteHead();
    }

    // recover_from_log: a crash at any of its writes is harmless.
    method RecoverFromLog()
      requires Wf() && GoodDisk(disk, L) && cache == map[]
      modifies this`disk, this`cache, this`crashes, this`n, block
      ensures Valid() && n == 0
      ensures SameHome(disk, Recovered(old(disk), L), L)
      ensures Shows(Recovered(old(disk), L), disk, cache, L)
      ensures old(crashes) <= crashes
      ensures AllRecover(crashes, |old(crashes)|, |crashes|, Recovered(old(disk), L), L)
    {
      ghost var m := Recovered(disk, L);
      ReadHead();
      RecoveryStarts(disk, cache, L);
      InstallAndErase(m);
    }

    // read_head: log.lh becomes what the header block says.
    method ReadHead()
      requires Wf() && GoodDisk(disk, L) && forall b :: !Dirty(cache, b)
      modifies this`cache, this`n, block
      ensures Wf() && Listed() == HeaderList(disk[L.start]) && forall b :: !Dirty(cache, b)
    {
      FetchedSame(disk, cache, L.start, L);
      assert !Dirty(cache, L.start);
      var h := BRead(L.start);
      n := h[0];
      for i := 0 to n
        modifies block
        invariant n == h[0] <= LOGSIZE == block.Length
        invariant forall j :: 0 <= j < i ==> block[j] == h[1 + j]
      {
        block[i] := h[1 + i];
      }
    }

    // end_op: the last operation to leave commits.
    method EndOp(ghost op: nat)
      requires Valid() && Granted() && !committing && op in open
      modifies this`disk, this`cache, this`crashes, this`n, this`outstanding, this`committing, this`open, this`within
      ensures Valid() && Granted() && !committing
      ensures outstanding == old(outstanding) - 1 && open == old(open) - {op}
      ensures outstanding > 0 ==>
                disk == old(disk) && cache == old(cache) && crashes == old(crashes) && Listed() == old(Listed())
      ensures outstanding == 0 ==> n == 0 && SameHome(disk, old(Merged(disk, cache)), L)
      ensures Shows(old(Merged(disk, cache)), disk, cache, L)
      ensures old(crashes) <= crashes
      ensures exists c :: CommitPoint(crashes, |old(crashes)|, c, old(disk), old(Merged(disk, cache)), L)
    {
      OneLess(open, op);
      if within { Gone(Listed(), open, op); }
      outstanding, open := outstanding - 1, open - {op};
      if outstanding == 0 {
        committing := true;
        Commit();
        committing := false;
        within := true;
        NoneOpen(Listed());
        assert open == map[];
      } else {
        assert CommitPoint(crashes, |crashes|, |crashes|, disk, Merged(disk, cache), L);
      }
    }
  }

  lemma OutstandingSome(open: map<nat, set<int>>, op: nat)
    requires op in open
    ensures |open| >= 1
  {
  }

  lemma SameSize(open: map<nat, set<int>>, op: nat, named: set<int>)
    requires op in open
    ensures |open[op := named]| == |open|
  {
    assert open[op := named].Keys == open.Keys;
  }

  lemma OneLess(open: map<nat, set<int>>, op: nat)
    requires op in open
    ensures |open - {op}| == |open| - 1
  {
    assert (open - {op}).Keys == open.Keys - {op};
  }
}
