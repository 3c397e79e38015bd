// File contents, and what the steps of bmap, readi and writei of xv6-x86/fs.c make of them.
module FsSteps {
  import opened FsLayout
  import opened FsState

  const WORD := 0x1_0000_0000

  // Blocks that n bytes need.
  function BlocksFor(n: nat): nat { (n + BSIZE - 1) / BSIZE }

  // Every file has exactly the blocks its size needs.
  predicate Tight(inodes: map<nat, Inode>, nb: map<nat, nat>) {
    nb.Keys == inodes.Keys && forall i :: i in inodes ==> nb[i] == BlocksFor(inodes[i].size)
  }

  lemma TightOf(inodes: map<nat, Inode>, nb: map<nat, nat>, i: nat)
    requires Tight(inodes, nb) && i in inodes
    ensures i in nb && nb[i] == BlocksFor(inodes[i].size) && nb.Keys == inodes.Keys
  {
  }

  function Content(st: St, i: nat): (c: seq<Byte>)
    ensures i in st.inodes ==> |c| == st.inodes[i].size && forall x :: 0 <= x < |c| ==> c[x] == ByteAt(st, i, x)
  {
    if i in st.inodes then Bytes(st, i, st.inodes[i].size) else []
  }

  function Bytes(st: St, i: nat, n: nat): (c: seq<Byte>)
    ensures |c| == n && forall x :: 0 <= x < n ==> c[x] == ByteAt(st, i, x)
  {
    if n == 0 then [] else Bytes(st, i, n - 1) + [ByteAt(st, i, n - 1)]
  }

  // ---- after one more block

  lemma OneMore(sb: Super, s: St, t: St, nb: map<nat, nat>, i: nat)
    requires Shapes(s, nb) && Base(sb, t) && i in nb && nb[i] < MAXFILE && t.inodes.Keys == s.inodes.Keys
    requires forall j: nat, l: nat :: (j != i || (l != nb[i] && l != INDIRECT)) ==> Slot(t, j, l) == Slot(s, j, l)
    requires Slot(t, i, nb[i]) != 0 && (Slot(t, i, INDIRECT) != 0 <==> nb[i] >= NDIRECT)
    ensures Good(sb, t, nb[i := nb[i] + 1])
  {
    hide Slot, Held, Single, Marked;
    var n2 := nb[i := nb[i] + 1];
    forall j | j in n2 ensures Shape(t, j, n2[j]) {
      assert Shape(s, j, nb[j]);
      forall k: nat | k < n2[j] ensures Slot(t, j, k) != 0 {
        if j != i || k != nb[i] { assert Slot(s, j, k) != 0; }
      }
      forall k: nat | n2[j] <= k < MAXFILE ensures Slot(t, j, k) == 0 {
        assert Slot(s, j, k) == 0;
      }
    }
  }


  // m bytes of one block, read.
  lemma BlockBytes(sb: Super, st: St, nb: map<nat, nat>, i: nat, o: nat, m: nat, b: nat)
    requires Good(sb, st, nb) && i in nb && o / BSIZE < nb[i] && o % BSIZE + m <= BSIZE && b == Slot(st, i, o / BSIZE)
    requires i in st.inodes && o + m <= st.inodes[i].size
    ensures b < |st.disk| && |st.disk[b]| == BSIZE
    ensures st.disk[b][o % BSIZE..o % BSIZE + m] == Content(st, i)[o..o + m]
  {
    hide Slot, Shape, Marked;
    GoodParts(sb, st, nb, i);
    HeldAt(sb, st, i, o / BSIZE);
    var c := Content(st, i);
    forall x | o <= x < o + m ensures c[x] == st.disk[b][x % BSIZE] && x % BSIZE == o % BSIZE + (x - o) {
      assert x / BSIZE == o / BSIZE;
    }
  }

  lemma GoodParts(sb: Super, s: St, nb: map<nat, nat>, i: nat)
    requires Good(sb, s, nb) && i in nb
    ensures Base(sb, s) && sb.Sane() && Blocks(sb, s.disk) && MetaMarked(sb, s.disk) && InodesOk(s.inodes) &&
        Shapes(s, nb)
    ensures i in s.inodes && |s.inodes[i].addrs| == NDIRECT + 1 && nb[i] <= MAXFILE
    ensures forall k: nat :: k < MAXFILE ==> (Slot(s, i, k) != 0 <==> k < nb[i])
    ensures Slot(s, i, INDIRECT) != 0 <==> nb[i] > NDIRECT
  {
    hide Slot, Held, Single, Marked;
    assert Shape(s, i, nb[i]);
  }

  lemma SlotDirect(s: St, i: nat, k: nat)
    requires i in s.inodes && |s.inodes[i].addrs| == NDIRECT + 1 && k < NDIRECT
    ensures Slot(s, i, k) == s.inodes[i].addrs[k]
  {
  }

  lemma SlotEntry(sb: Super, s: St, i: nat, k: nat)
    requires Base(sb, s) && i in s.inodes && NDIRECT <= k < MAXFILE && Slot(s, i, INDIRECT) != 0
    ensures |s.inodes[i].addrs| == NDIRECT + 1 && s.inodes[i].addrs[NDIRECT] < |s.disk|
    ensures |s.disk[s.inodes[i].addrs[NDIRECT]]| == BSIZE
    ensures sb.Sane() && Blocks(sb, s.disk) && MetaMarked(sb, s.disk)
    ensures Slot(s, i, k) == UintAt(s.disk[s.inodes[i].addrs[NDIRECT]], k - NDIRECT)
  {
    HeldAt(sb, s, i, INDIRECT);
  }

  // A direct block given: the file has grown by it.
  lemma OneGiven(sb: Super, s: St, t: St, nb: map<nat, nat>, i: nat, b: nat)
    requires Good(sb, s, nb) && i in nb && nb[i] < NDIRECT && b != 0
    requires Base(sb, t) && OneSlot(s, t, i, nb[i], b) && SameData(s, t) && OnlyAddrs(s, t, i)
    ensures Grown(s, t, nb, nb[i := nb[i] + 1], i) && Good(sb, t, nb[i := nb[i] + 1]) && Slot(t, i, nb[i]) == b
  {
    hide Slot, Base, Shape, Marked;
    GoodParts(sb, s, nb, i);
    SameBytesOf(s, t, nb);
    OneMore(sb, s, t, nb, i);
  }

  // The same for a block entered in the indirect block, which may be new too.
  lemma EntryGiven(sb: Super, s: St, t: St, u: St, nb: map<nat, nat>, i: nat, ind: nat, b: nat)
    requires Good(sb, s, nb) && i in nb && NDIRECT <= nb[i] < MAXFILE && b != 0 && ind != 0
    requires t == s || (Slot(s, i, INDIRECT) == 0 && OneSlot(s, t, i, INDIRECT, ind) && SameData(s, t) &&
        OnlyAddrs(s, t, i))
    requires Slot(t, i, INDIRECT) == ind
    requires Base(sb, u) && OneSlot(t, u, i, nb[i], b) && SameData(t, u) && OnlyAddrs(t, u, i)
    ensures Grown(s, u, nb, nb[i := nb[i] + 1], i) && Good(sb, u, nb[i := nb[i] + 1]) && Slot(u, i, nb[i]) == b
    ensures Slot(u, i, INDIRECT) == ind
  {
    hide Slot, Base, Shape, Marked, ByteAt;
    GoodParts(sb, s, nb, i);
    assert SameData(s, u) by {
      forall j: nat, x: nat | x / BSIZE < MAXFILE && Slot(s, j, x / BSIZE) != 0
          ensures ByteAt(u, j, x) == ByteAt(s, j, x) {
        assert Slot(t, j, x / BSIZE) == Slot(s, j, x / BSIZE);
      }
    }
    SameBytesOf(s, u, nb);
    OneMore(sb, s, u, nb, i);
  }

  // In d the blocks of f are free; nothing but bitmap blocks has changed.
  predicate Unmarked(sb: Super, d0: seq<seq<Byte>>, d: seq<seq<Byte>>, f: set<nat>) {
    && |d| == |d0|
    && (forall b :: sb.datastart <= b < |d| ==> d[b] == d0[b])
    && (forall x: nat :: x < sb.size ==> (Marked(sb, d, x) <==> Marked(sb, d0, x) && x !in f))
  }

  lemma FreedMarks(sb: Super, disk: seq<seq<Byte>>, b: nat)
    requires sb.Sane() && Blocks(sb, disk) && b < sb.size && Marked(sb, disk, b)
    ensures Unmarked(sb, disk, disk[sb.BBlock(b) := ClearBit(disk[sb.BBlock(b)], b % BPB)], {b})
  {
    var d := disk[sb.BBlock(b) := ClearBit(disk[sb.BBlock(b)], b % BPB)];
    assert sb.BBlock(b) < sb.datastart;
    forall x: nat | x < sb.size ensures Marked(sb, d, x) <==> Marked(sb, disk, x) && x != b {
      if sb.BBlock(x) == sb.BBlock(b) {
        BitClear(disk[sb.BBlock(b)], b % BPB, x % BPB);
        assert x / BPB == b / BPB;
      }
    }
  }

  // The indirect block of a file and its bitmap block.
  function Extra(sb: Super, st: St, i: nat): set<nat> {
    if Slot(st, i, INDIRECT) == 0 then {} else {Slot(st, i, INDIRECT), sb.BBlock(Slot(st, i, INDIRECT))}
  }

  // File i has one block more; every file has the bytes it had, and i's other fields are as
  // they were.
  ghost predicate Grown(s: St, t: St, nb: map<nat, nat>, nb1: map<nat, nat>, i: nat) {
    && i in nb && nb1 == nb[i := nb[i] + 1] && SameBytes(s, t, nb)
    && t.inodes.Keys == s.inodes.Keys && (forall j :: j in s.inodes && j != i ==> t.inodes[j] == s.inodes[j])
    && i in s.inodes && t.inodes[i].size == s.inodes[i].size
    && t.inodes[i] == s.inodes[i].(addrs := t.inodes[i].addrs)
  }

  const CHUNK := 1536                             // filewrite's max
  const MAXOPBLOCKS := 10

  // c with s put in at off.
  function Splice(c: seq<Byte>, off: nat, s: seq<Byte>): seq<Byte>
    requires off <= |c|
  {
    c[..off] + s + if off + |s| < |c| then c[off + |s|..] else []
  }

  lemma SpliceAt(c: seq<Byte>, off: nat, s: seq<Byte>)
    requires off <= |c|
    ensures |Splice(c, off, s)| == if off + |s| < |c| then |c| else off + |s|
    ensures forall x {:trigger Splice(c, off, s)[x]} :: 0 <= x < |Splice(c, off, s)| ==>
      Splice(c, off, s)[x] == if off <= x < off + |s| then s[x - off] else c[x]
  {
  }

  // Reading what was just written gives it back.
  lemma ReadBack(c: seq<Byte>, off: nat, s: seq<Byte>)
    requires off <= |c|
    ensures |Splice(c, off, s)| >= off + |s| && Splice(c, off, s)[off..off + |s|] == s
  {
  }

  // ---- the loop of writei

  // Byte x of the file once the bytes from off up to o are written.
  function Want(s: St, i: nat, src: seq<Byte>, off: nat, o: nat, x: nat): Byte {
    if off <= x < o && x - off < |src| then src[x - off] else ByteAt(s, i, x)
  }

  predicate Mine(s: St, t: St, i: nat, src: seq<Byte>, off: nat, o: nat) {
    i in s.inodes && forall x: nat :: x < Max(s.inodes[i].size, o) ==> ByteAt(t, i, x) == Want(s, i, src, off, o, x)
  }

  predicate Others(s: St, nb0: map<nat, nat>, t: St, nb: map<nat, nat>, i: nat) {
    && nb.Keys == nb0.Keys && (forall j :: j in nb0 && j != i ==> nb[j] == nb0[j])
    && forall j, x: nat :: j in nb0 && j != i && x < nb0[j] * BSIZE ==> ByteAt(t, j, x) == ByteAt(s, j, x)
  }

  function Max(a: nat, b: nat): nat { if a < b then b else a }

  // What holds of the states while the bytes up to o are written; done is the number of blocks.
  predicate Reaching(s: St, nb0: map<nat, nat>, t: St, nb: map<nat, nat>, i: nat, src: seq<Byte>, off: nat, o: nat,
      done: nat) {
    && i in nb0 && nb0.Keys == s.inodes.Keys && off <= s.inodes[i].size && off <= o &&
        nb0[i] == BlocksFor(s.inodes[i].size)
    && Others(s, nb0, t, nb, i) && OnlyAddrs(s, t, i) && Mine(s, t, i, src, off, o)
    && nb[i] == Max(nb0[i], done) && (nb[i] == nb0[i] ==> t.inodes == s.inodes)
  }

  predicate Writing(s: St, nb0: map<nat, nat>, t: St, nb: map<nat, nat>, i: nat, src: seq<Byte>, off: nat, o: nat) {
    Reaching(s, nb0, t, nb, i, src, off, o, BlocksFor(o))
  }

  lemma WritingStarts(s: St, nb: map<nat, nat>, i: nat, src: seq<Byte>, off: nat)
    requires Shapes(s, nb) && Tight(s.inodes, nb) && i in s.inodes && off <= s.inodes[i].size
    ensures Writing(s, nb, s, nb, i, src, off, off)
  {
    hide ByteAt, Slot, Shape;
  }

  // The block that o lies in is there or is the next one.
  lemma InReach(s: St, nb0: map<nat, nat>, t: St, nb: map<nat, nat>, i: nat, src: seq<Byte>, off: nat, o: nat)
    requires Writing(s, nb0, t, nb, i, src, off, o) && o < MAXFILE * BSIZE
    ensures i in nb && i in nb0 && nb0[i] <= nb[i] && o / BSIZE <= nb[i] && o / BSIZE < MAXFILE
  {
    hide ByteAt;
  }

  lemma BmapKeeps(s: St, nb0: map<nat, nat>, t: St, nb: map<nat, nat>, u: St, nb1: map<nat, nat>, i: nat,
      src: seq<Byte>, off: nat, o: nat)
    requires Writing(s, nb0, t, nb, i, src, off, o) && i in nb && o / BSIZE <= nb[i]
    requires if o / BSIZE < nb[i] then u == t && nb1 == nb else Grown(t, u, nb, nb1, i)
    ensures Reaching(s, nb0, u, nb1, i, src, off, o, o / BSIZE + 1) && i in nb1 && o / BSIZE < nb1[i]
  {
    hide ByteAt, Slot, Shape;
    if o / BSIZE >= nb[i] {
      forall x: nat | x < Max(s.inodes[i].size, o) ensures ByteAt(u, i, x) == Want(s, i, src, off, o, x) {
        assert x < nb[i] * BSIZE;
      }
    }
  }

  lemma BlockIs(sb: Super, st: St, nb: map<nat, nat>, i: nat, k: nat)
    requires Good(sb, st, nb) && i in nb && k < nb[i]
    ensures k < MAXFILE && Slot(st, i, k) != 0 && Slot(st, i, k) < |st.disk| && |st.disk[Slot(st, i, k)]| == BSIZE
  {
    hide Slot, Shape, Marked;
    GoodParts(sb, st, nb, i);
    HeldAt(sb, st, i, k);
  }

  lemma WriteKeeps(sb: Super, s: St, nb0: map<nat, nat>, t: St, nb: map<nat, nat>, i: nat, src: seq<Byte>, off: nat,
      o: nat, m: nat, d: seq<Byte>)
    requires Good(sb, t, nb) && Reaching(s, nb0, t, nb, i, src, off, o, o / BSIZE + 1) && i in nb && o / BSIZE < nb[i]
    requires 0 < m && o % BSIZE + m <= BSIZE && off <= o && o - off + m <= |src|
    requires o / BSIZE < MAXFILE && 0 < Slot(t, i, o / BSIZE) < |t.disk| && |t.disk[Slot(t, i, o / BSIZE)]| == BSIZE
    requires var b := Slot(t, i, o / BSIZE);
      d == t.disk[b][..o % BSIZE] + src[o - off..o - off + m] + t.disk[b][o % BSIZE + m..]
    ensures var u := t.(disk := t.disk[Slot(t, i, o / BSIZE) := d]);
      Good(sb, u, nb) && SameSlots(t, u) && Writing(s, nb0, u, nb, i, src, off, o + m)
  {
    hide Good, Slot, Shape, Marked, ByteAt;
    var k := o / BSIZE;
    var b := Slot(t, i, k);
    var u := t.(disk := t.disk[b := d]);
    WrittenGood(sb, t, nb, i, k, d);
    forall j, x: nat | j in nb0 && j != i && x < nb0[j] * BSIZE ensures ByteAt(u, j, x) == ByteAt(s, j, x) {
      WrittenByte(sb, t, nb, i, k, d, j, x);
    }
    forall x: nat | x < Max(s.inodes[i].size, o + m) ensures ByteAt(u, i, x) == Want(s, i, src, off, o + m, x) {
      WrittenByte(sb, t, nb, i, k, d, i, x);
      OneByte(s, t, i, src, off, o, m, d, x);
    }
    MoreBlocks(o, m);
  }

  lemma OneByte(s: St, t: St, i: nat, src: seq<Byte>, off: nat, o: nat, m: nat, d: seq<Byte>, x: nat)
    requires 0 < m && o % BSIZE + m <= BSIZE && off <= o && o - off + m <= |src| && Mine(s, t, i, src, off, o)
    requires x < Max(s.inodes[i].size, o + m) && 0 < Slot(t, i, o / BSIZE) < |t.disk| &&
        |t.disk[Slot(t, i, o / BSIZE)]| == BSIZE
    requires var b := Slot(t, i, o / BSIZE);
      d == t.disk[b][..o % BSIZE] + src[o - off..o - off + m] + t.disk[b][o % BSIZE + m..]
    ensures (if x / BSIZE == o / BSIZE then d[x % BSIZE] else ByteAt(t, i, x)) == Want(s, i, src, off, o + m, x)
  {
    hide Slot;
    if x / BSIZE == o / BSIZE {
      assert ByteAt(t, i, x) == t.disk[Slot(t, i, o / BSIZE)][x % BSIZE];
      assert x - o == x % BSIZE - o % BSIZE;
    }
  }

  lemma MoreBlocks(o: nat, m: nat)
    requires 0 < m && o % BSIZE + m <= BSIZE
    ensures BlocksFor(o + m) == o / BSIZE + 1
  {
  }

  // ---- after the loop

  function Resized(t: St, i: nat, o: nat): St
    requires i in t.inodes
  {
    t.(inodes := t.inodes[i := t.inodes[i].(size := o)])
  }

  // A new size alone changes neither slots nor bytes.
  lemma SizeBytes(t: St, i: nat, o: nat, j: nat, x: nat)
    requires i in t.inodes
    ensures ByteAt(Resized(t, i, o), j, x) == ByteAt(t, j, x)
  {
  }

  lemma SizeGood(sb: Super, t: St, nb: map<nat, nat>, i: nat, o: nat)
    requires Good(sb, t, nb) && i in t.inodes
    ensures Good(sb, Resized(t, i, o), nb)
  {
    hide Slot, Marked, Shape, Held, Single;
    var u := Resized(t, i, o);
    forall j: nat, k: nat ensures Slot(u, j, k) == Slot(t, j, k) {
      SlotFrame(t, u, j, k);
    }
    BaseFrame(sb, t, u);
    ShapesFrame(t, u, nb);
  }

  predicate SameFile(s: St, u: St, j: nat) {
    && j in s.inodes && j in u.inodes && s.inodes[j].size == u.inodes[j].size
    && forall x: nat :: x < s.inodes[j].size ==> ByteAt(u, j, x) == ByteAt(s, j, x)
  }

  lemma SameContent(s: St, u: St, j: nat)
    requires SameFile(s, u, j)
    ensures Content(u, j) == Content(s, j)
  {
    hide ByteAt;
  }

  lemma WritingEnds(sb: Super, s: St, nb0: map<nat, nat>, t: St, nb: map<nat, nat>, i: nat, src: seq<Byte>, off: nat,
      o: nat, u: St)
    requires Tight(s.inodes, nb0) && Good(sb, t, nb) && Writing(s, nb0, t, nb, i, src, off, o) && o - off <= |src|
    requires u == if o > s.inodes[i].size then Resized(t, i, o) else t
    ensures Good(sb, u, nb) && Tight(u.inodes, nb) && u.inodes.Keys == s.inodes.Keys && i in s.inodes
    ensures o <= s.inodes[i].size ==> u.inodes == s.inodes
    ensures off <= |Content(s, i)| && Content(u, i) == Splice(Content(s, i), off, src[..o - off])
    ensures forall j :: j in u.inodes && j != i ==> u.inodes[j] == s.inodes[j] && Content(u, j) == Content(s, j)
  {
    hide Content, Good, Tight, Splice, Writing;
    WritingShape(s, nb0, t, nb, i, src, off, o, u);
    SizeGood(sb, t, nb, i, o);
    ContentIs(s, t, u, nb0, nb, i, src, off, o);
    forall j | j in u.inodes && j != i ensures u.inodes[j] == s.inodes[j] && Content(u, j) == Content(s, j) {
      OtherContent(s, nb0, t, nb, i, src, off, o, u, j);
    }
  }

  lemma WritingShape(s: St, nb0: map<nat, nat>, t: St, nb: map<nat, nat>, i: nat, src: seq<Byte>, off: nat, o: nat,
      u: St)
    requires Tight(s.inodes, nb0) && Writing(s, nb0, t, nb, i, src, off, o)
    requires u == if o > s.inodes[i].size then Resized(t, i, o) else t
    ensures Tight(u.inodes, nb) && u.inodes.Keys == s.inodes.Keys && i in s.inodes && i in t.inodes
    ensures o <= s.inodes[i].size ==> u.inodes == s.inodes
  {
    hide Slot, ByteAt;
  }

  lemma OtherContent(s: St, nb0: map<nat, nat>, t: St, nb: map<nat, nat>, i: nat, src: seq<Byte>, off: nat, o: nat,
      u: St, j: nat)
    requires Tight(s.inodes, nb0) && Writing(s, nb0, t, nb, i, src, off, o) && j in u.inodes && j != i
    requires u == if o > s.inodes[i].size then Resized(t, i, o) else t
    ensures j in s.inodes && u.inodes[j] == s.inodes[j] && Content(u, j) == Content(s, j)
  {
    hide Slot, ByteAt;
    forall x: nat | x < s.inodes[j].size ensures ByteAt(u, j, x) == ByteAt(s, j, x) {
      SizeBytes(t, i, o, j, x);
      assert x < nb0[j] * BSIZE;
    }
    SameContent(s, u, j);
  }

  lemma ContentIs(s: St, t: St, u: St, nb0: map<nat, nat>, nb: map<nat, nat>, i: nat, src: seq<Byte>, off: nat, o: nat)
    requires Writing(s, nb0, t, nb, i, src, off, o) && o - off <= |src|
    requires u == if o > s.inodes[i].size then Resized(t, i, o) else t
    ensures i in s.inodes && off <= |Content(s, i)| && Content(u, i) == Splice(Content(s, i), off, src[..o - off])
  {
    hide ByteAt, Splice;
    var c := Content(s, i);
    var p := src[..o - off];
    SpliceAt(c, off, p);
    forall x: nat | x < |Content(u, i)| ensures Content(u, i)[x] == Splice(c, off, p)[x] {
      SizeBytes(t, i, o, i, x);
    }
  }

  // ---- how many blocks writei gives to log_write

  // The data blocks and bitmap blocks written so far, and the rounds of the loop.
  datatype Tally = Tally(data: set<nat>, maps: set<nat>, rounds: nat) {
    // One more round, that wrote block b and, if b is new, bitmap block bb.
    function Next(b: nat, bb: nat, grew: bool): Tally {
      Tally(data + {b}, if grew then maps + {bb} else maps, rounds + 1)
    }
  }

  predicate Counted(t: Tally, extra: set<nat>, logged0: set<nat>, logged: set<nat>, growth: nat) {
    logged <= logged0 + t.data + t.maps + extra && |t.data| <= t.rounds && |t.maps| <= growth
  }

  lemma TallyMore(t: Tally, extra: set<nat>, extra1: set<nat>, logged0: set<nat>, logged: set<nat>, logged1: set<nat>,
      growth: nat, growth1: nat, b: nat, bb: nat)
    requires Counted(t, extra, logged0, logged, growth) && extra <= extra1
    requires (growth1 == growth && logged1 <= logged + {b}) ||
        (growth1 == growth + 1 && logged1 <= logged + {b, bb} + extra1)
    ensures Counted(t.Next(b, bb, growth1 != growth), extra1, logged0, logged1, growth1) &&
        t.Next(b, bb, growth1 != growth).rounds == t.rounds + 1
  {
  }

  lemma TallyEnds(t: Tally, extra: set<nat>, logged0: set<nat>, logged: set<nat>, growth: nat, ib: nat)
    requires Counted(t, extra, logged0, logged, growth) && |extra| <= 2
    ensures |logged + {ib} - logged0| <= t.rounds + growth + 3
  {
    var all := t.data + t.maps + extra + {ib};
    assert logged + {ib} - logged0 <= all;
    SubsetSize(logged + {ib} - logged0, all);
    UnionSize(t.data, t.maps);
    UnionSize(t.data + t.maps, extra);
    UnionSize(t.data + t.maps + extra, {ib});
  }

  lemma UnionSize(a: set<nat>, b: set<nat>)
    ensures |a + b| <= |a| + |b|
  {
    assert |a + b| + |a * b| == |a| + |b|;
  }

  lemma SubsetSize(a: set<nat>, b: set<nat>)
    requires a <= b
    ensures |a| <= |b|
  {
    assert b == a + (b - a);
  }

  // Rounds needed to get from off to o.
  function RoundsTo(off: nat, o: nat): nat
    requires off <= o
  {
    if o == off then 0 else (o - 1) / BSIZE - off / BSIZE + 1
  }

  // A piece ends with its block, or is the last.
  lemma PieceEnds(o: nat, m: nat, left: nat)
    requires left > 0 && m == if left < BSIZE - o % BSIZE then left else BSIZE - o % BSIZE
    ensures 0 < m <= left && o % BSIZE + m <= BSIZE && ((o + m) % BSIZE == 0 || m == left)
  {
  }

  lemma RoundMore(off: nat, o: nat, m: nat)
    requires off <= o && 0 < m && o % BSIZE + m <= BSIZE && (o == off || o % BSIZE == 0)
    ensures RoundsTo(off, o + m) == RoundsTo(off, o) + 1
  {
  }

  // A chunk of filewrite needs at most four rounds, and three new blocks.
  lemma ChunkBound(off: nat, n: nat, size: nat)
    requires n <= CHUNK && off <= size
    ensures RoundsTo(off, off + n) <= 4
    ensures BlocksFor(off + n) <= BlocksFor(size) + 3
  {
  }

  lemma TallyStarts(t: Tally, extra: set<nat>, logged: set<nat>, off: nat)
    requires t == Tally({}, {}, 0)
    ensures Counted(t, extra, logged, logged, 0) && RoundsTo(off, off) == 0
  {
  }

  lemma SameExtra(sb: Super, s: St, t: St, i: nat)
    requires SameSlots(s, t)
    ensures Extra(sb, t, i) == Extra(sb, s, i)
  {
    hide Slot;
  }

  lemma ExtraSize(sb: Super, s: St, i: nat)
    ensures |Extra(sb, s, i)| <= 2
  {
    hide Slot;
    var k := Slot(s, i, INDIRECT);
    UnionSize({k}, {sb.BBlock(k)});
    assert {k} + {sb.BBlock(k)} == {k, sb.BBlock(k)};
  }

  lemma GrowthOf(s: St, nb0: map<nat, nat>, t: St, nb: map<nat, nat>, i: nat, src: seq<Byte>, off: nat, o: nat)
    requires Writing(s, nb0, t, nb, i, src, off, o) && BlocksFor(o) <= BlocksFor(s.inodes[i].size) + 3
    ensures i in nb && i in nb0 && nb0[i] <= nb[i] <= nb0[i] + 3
  {
    hide ByteAt, Slot;
  }

  lemma WritingInodes(s: St, nb0: map<nat, nat>, t: St, nb: map<nat, nat>, i: nat, src: seq<Byte>, off: nat, o: nat)
    requires Writing(s, nb0, t, nb, i, src, off, o)
    ensures i in s.inodes && i in t.inodes && t.inodes[i].size == s.inodes[i].size &&
        t.inodes == s.inodes[i := t.inodes[i]]
  {
    hide ByteAt, Slot;
  }

  // The first done bytes of a have been put in at off.
  predicate Written(c: seq<Byte>, cur: seq<Byte>, off: nat, a: seq<Byte>, done: nat) {
    && done <= |a| && (done > 0 ==> off <= |c| && off + done <= MAXFILE * BSIZE)
    && cur == if off <= |c| then Splice(c, off, a[..done]) else c
  }

  lemma WrittenNone(c: seq<Byte>, off: nat, a: seq<Byte>)
    ensures Written(c, c, off, a, 0)
  {
    hide Splice;
    if off <= |c| {
      SpliceAt(c, off, []);
      assert a[..0] == [];
      assert Splice(c, off, []) == c;
    }
  }

  lemma WrittenSize(c: seq<Byte>, cur: seq<Byte>, off: nat, a: seq<Byte>, done: nat)
    requires Written(c, cur, off, a, done)
    ensures done > 0 ==> off + done <= MAXFILE * BSIZE && off <= |c|
    ensures off + done <= |cur| <==> off <= |c|
  {
    hide Splice;
    if off <= |c| { SpliceAt(c, off, a[..done]); }
  }

  lemma WrittenMore(c: seq<Byte>, cur: seq<Byte>, next: seq<Byte>, off: nat, a: seq<Byte>, done: nat, n: nat)
    requires Written(c, cur, off, a, done) && done + n <= |a| && off + done <= |cur| &&
        off + done + n <= MAXFILE * BSIZE
    requires next == Splice(cur, off + done, a[done..][..n])
    ensures Written(c, next, off, a, done + n)
  {
    hide Splice;
    WrittenSize(c, cur, off, a, done);
    SpliceAt(c, off, a[..done]);
    SpliceAt(cur, off + done, a[done..][..n]);
    SpliceAt(c, off, a[..done + n]);
    assert next == Splice(c, off, a[..done + n]);
  }

  // ---- itrunc

  // The blocks in the slots of file i below k.
  function Freed(s: St, i: nat, k: nat): set<nat> {
    if k == 0 then {} else Freed(s, i, k - 1) + if Slot(s, i, k - 1) != 0 then {Slot(s, i, k - 1)} else {}
  }

  lemma FreedNone(s: St, i: nat)
    ensures Freed(s, i, 0) == {}
  {
  }

  predicate Owns(s: St, i: nat, b: nat) {
    b != 0 && exists k: nat :: k <= INDIRECT && Slot(s, i, k) == b
  }

  lemma {:induction false} FreedIs(s: St, i: nat, k: nat, b: nat)
    ensures b in Freed(s, i, k) <==> b != 0 && exists l: nat :: l < k && Slot(s, i, l) == b
  {
    hide Slot;
    if k > 0 {
      FreedIs(s, i, k - 1, b);
      if Slot(s, i, k - 1) == b { }
    }
  }

  lemma UnmarkedNone(sb: Super, d: seq<seq<Byte>>)
    ensures Unmarked(sb, d, d, {})
  {
  }

  lemma UnmarkedMore(sb: Super, d0: seq<seq<Byte>>, d: seq<seq<Byte>>, d1: seq<seq<Byte>>, f: set<nat>, b: nat)
    requires Unmarked(sb, d0, d, f) && Unmarked(sb, d, d1, {b})
    ensures Unmarked(sb, d0, d1, f + {b})
  {
    hide Marked;
  }

  // The next block to free is a marked data block not freed before.
  lemma FreeNext(sb: Super, s: St, nb: map<nat, nat>, i: nat, d: seq<seq<Byte>>, k: nat)
    requires Good(sb, s, nb) && Unmarked(sb, s.disk, d, Freed(s, i, k)) && k <= INDIRECT
    ensures Slot(s, i, k) != 0 ==> sb.datastart <= Slot(s, i, k) < sb.size && Marked(sb, d, Slot(s, i, k))
    ensures Freed(s, i, k + 1) == if Slot(s, i, k) != 0 then Freed(s, i, k) + {Slot(s, i, k)} else Freed(s, i, k)
  {
    hide Slot, Marked, Shapes;
    if Slot(s, i, k) != 0 {
      HeldAt(sb, s, i, k);
      FreedIs(s, i, k, Slot(s, i, k));
    }
  }

  lemma KeptBlock(sb: Super, s: St, nb: map<nat, nat>, i: nat, d: seq<seq<Byte>>, f: set<nat>)
    requires Good(sb, s, nb) && Unmarked(sb, s.disk, d, f) && Slot(s, i, INDIRECT) != 0
    ensures Slot(s, i, INDIRECT) < |d| && Slot(s, i, INDIRECT) < |s.disk| &&
        d[Slot(s, i, INDIRECT)] == s.disk[Slot(s, i, INDIRECT)]
  {
    hide Slot, Marked, Shapes;
    HeldAt(sb, s, i, INDIRECT);
  }

  lemma {:induction false} NoIndirect(s: St, i: nat, k: nat)
    requires Slot(s, i, INDIRECT) == 0 && NDIRECT <= k <= INDIRECT + 1
    ensures Freed(s, i, k) == Freed(s, i, NDIRECT)
  {
    if k > NDIRECT {
      NoIndirect(s, i, k - 1);
      assert Slot(s, i, k - 1) == 0;
    }
  }

  lemma Truncated(sb: Super, s: St, nb: map<nat, nat>, t: St, i: nat)
    requires Good(sb, s, nb) && Tight(s.inodes, nb) && i in s.inodes
    requires Blocks(sb, t.disk) && Unmarked(sb, s.disk, t.disk, Freed(s, i, INDIRECT + 1))
    requires i in t.inodes && t.inodes == s.inodes[i := t.inodes[i]] && t.inodes[i].size == 0
    requires |t.inodes[i].addrs| == NDIRECT + 1 && forall l :: 0 <= l <= NDIRECT ==> t.inodes[i].addrs[l] == 0
    ensures Good(sb, t, nb[i := 0]) && Tight(t.inodes, nb[i := 0])
    ensures forall b: nat :: b < sb.size ==> (Marked(sb, t.disk, b) <==> Marked(sb, s.disk, b) && !Owns(s, i, b))
    ensures forall j :: j in s.inodes && j != i ==> Content(t, j) == Content(s, j)
  {
    hide Marked, ByteAt, Owns, Freed;
    forall k: nat ensures Slot(t, i, k) == 0 { }
    forall j: nat, k: nat | j != i ensures Slot(t, j, k) == Slot(s, j, k) {
      if Slot(s, j, INDIRECT) != 0 { HeldAt(sb, s, j, INDIRECT); }
      SlotFrame(s, t, j, k);
    }
    TruncatedGood(sb, s, nb, t, i);
    TruncatedRest(sb, s, nb, t, i);
  }

  lemma TruncatedGood(sb: Super, s: St, nb: map<nat, nat>, t: St, i: nat)
    requires Good(sb, s, nb) && Tight(s.inodes, nb) && i in s.inodes
    requires Blocks(sb, t.disk) && InodesOk(t.inodes) && Unmarked(sb, s.disk, t.disk, Freed(s, i, INDIRECT + 1))
    requires i in t.inodes && t.inodes == s.inodes[i := t.inodes[i]] && t.inodes[i].size == 0
    requires forall k: nat :: Slot(t, i, k) == 0
    requires forall j: nat, k: nat :: j != i ==> Slot(t, j, k) == Slot(s, j, k)
    ensures Good(sb, t, nb[i := 0]) && Tight(t.inodes, nb[i := 0])
  {
    hide Slot, Marked, Freed, ByteAt, Base, Unmarked, Blocks, Shape, Shapes;
    TruncatedBase(sb, s, nb, t, i);
    TruncatedShapes(s, nb, t, i);
  }

  lemma TruncatedShapes(s: St, nb: map<nat, nat>, t: St, i: nat)
    requires Shapes(s, nb) && i in s.inodes && t.inodes.Keys == s.inodes.Keys
    requires forall k: nat :: Slot(t, i, k) == 0
    requires forall j: nat, k: nat :: j != i ==> Slot(t, j, k) == Slot(s, j, k)
    ensures Shapes(t, nb[i := 0])
  {
    hide Slot, Shape;
    assert Shape(t, i, 0) by { ShapeNone(t, i); }
    forall j | j in nb && j != i ensures Shape(t, j, nb[j]) {
      ShapeKept(s, t, j, nb[j]);
    }
  }

  lemma ShapeNone(t: St, i: nat)
    requires forall k: nat :: Slot(t, i, k) == 0
    ensures Shape(t, i, 0)
  {
    hide Slot;
  }

  lemma ShapeKept(s: St, t: St, j: nat, n: nat)
    requires Shape(s, j, n) && forall k: nat :: Slot(t, j, k) == Slot(s, j, k)
    ensures Shape(t, j, n)
  {
    hide Slot;
  }

  lemma TruncatedBase(sb: Super, s: St, nb: map<nat, nat>, t: St, i: nat)
    requires Good(sb, s, nb) && i in s.inodes
    requires Blocks(sb, t.disk) && InodesOk(t.inodes) && Unmarked(sb, s.disk, t.disk, Freed(s, i, INDIRECT + 1))
    requires forall k: nat :: Slot(t, i, k) == 0
    requires forall j: nat, k: nat :: j != i ==> Slot(t, j, k) == Slot(s, j, k)
    ensures Base(sb, t)
  {
    hide Slot, Marked, Freed, ByteAt, Shapes;
    assert sb.datastart <= sb.size;
    forall b: nat | b < sb.datastart ensures Marked(sb, t.disk, b) {
      FreedIs(s, i, INDIRECT + 1, b);
    }
    forall j: nat, k: nat | Slot(t, j, k) != 0
        ensures sb.datastart <= Slot(t, j, k) < sb.size && Marked(sb, t.disk, Slot(t, j, k)) {
      assert Slot(s, j, k) != 0;
      FreedIs(s, i, INDIRECT + 1, Slot(s, j, k));
    }
    forall j: nat, k: nat, u: nat, v: nat | Slot(t, j, k) != 0 && Slot(t, j, k) == Slot(t, u, v)
        ensures j == u && k == v {
      assert Slot(s, j, k) == Slot(s, u, v);
    }
  }

  lemma TruncatedRest(sb: Super, s: St, nb: map<nat, nat>, t: St, i: nat)
    requires Good(sb, s, nb) && Tight(s.inodes, nb) && i in s.inodes &&
        Unmarked(sb, s.disk, t.disk, Freed(s, i, INDIRECT + 1))
    requires i in t.inodes && t.inodes == s.inodes[i := t.inodes[i]]
    requires forall j: nat, k: nat :: j != i ==> Slot(t, j, k) == Slot(s, j, k)
    ensures forall b: nat :: b < sb.size ==> (Marked(sb, t.disk, b) <==> Marked(sb, s.disk, b) && !Owns(s, i, b))
    ensures forall j :: j in s.inodes && j != i ==> Content(t, j) == Content(s, j)
  {
    hide Slot, Marked, Freed, Shapes;
    forall b: nat | b < sb.size ensures b in Freed(s, i, INDIRECT + 1) <==> Owns(s, i, b) {
      FreedIs(s, i, INDIRECT + 1, b);
    }
    forall j | j in s.inodes && j != i ensures Content(t, j) == Content(s, j) {
      forall x: nat | x < s.inodes[j].size ensures ByteAt(t, j, x) == ByteAt(s, j, x) {
        assert Slot(t, j, x / BSIZE) == Slot(s, j, x / BSIZE);
        if Slot(s, j, x / BSIZE) != 0 { HeldAt(sb, s, j, x / BSIZE); }
      }
      SameContent(s, t, j);
    }
  }

  // A chunk is within the log's allowance for one operation.
  lemma LoopCount(s: St, nb0: map<nat, nat>, t: St, nb: map<nat, nat>, i: nat, src: seq<Byte>, off: nat, n: nat,
      tally: Tally, extra: set<nat>, logged0: set<nat>, logged: set<nat>, ib: nat)
    requires n <= CHUNK && Writing(s, nb0, t, nb, i, src, off, off + n) && i in nb && i in nb0 && nb0[i] <= nb[i]
    requires Counted(tally, extra, logged0, logged, nb[i] - nb0[i]) && tally.rounds == RoundsTo(off, off + n) &&
        |extra| <= 2
    ensures |logged + {ib} - logged0| <= MAXOPBLOCKS
  {
    hide ByteAt, Slot, Counted;
    ChunkBound(off, n, s.inodes[i].size);
    GrowthOf(s, nb0, t, nb, i, src, off, off + n);
    TallyEnds(tally, extra, logged0, logged, nb[i] - nb0[i], ib);
  }
}
