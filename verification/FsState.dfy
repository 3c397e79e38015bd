// Which block belongs to which file: the invariant of the file layer of xv6-x86/fs.c, and
// what each single change of a block or of an inode's address keeps.
module FsState {
  import opened FsLayout

  // The blocks as the buffer cache shows them, and the inodes in memory.
  datatype St = St(disk: seq<seq<Byte>>, inodes: map<nat, Inode>)

  predicate Blocks(sb: Super, disk: seq<seq<Byte>>) {
    |disk| == sb.size && forall b :: 0 <= b < |disk| ==> |disk[b]| == BSIZE
  }

  predicate InodesOk(inodes: map<nat, Inode>) {
    forall i :: i in inodes ==> |inodes[i].addrs| == NDIRECT + 1
  }

  const INDIRECT := MAXFILE                       // the slot of the indirect block itself

  // The block in slot k of file i: its k-th data block, or the indirect block; 0 if none.
  function Slot(st: St, i: nat, k: nat): nat {
    if i !in st.inodes || |st.inodes[i].addrs| != NDIRECT + 1 then 0
    else
      var a := st.inodes[i].addrs;
      if k < NDIRECT then a[k]
      else if k == INDIRECT then a[NDIRECT]
      else if k > INDIRECT || a[NDIRECT] == 0 || a[NDIRECT] >= |st.disk| || |st.disk[a[NDIRECT]]| != BSIZE then 0
      else UintAt(st.disk[a[NDIRECT]], k - NDIRECT)
  }

  predicate Marked(sb: Super, disk: seq<seq<Byte>>, b: nat) {
    sb.BBlock(b) < |disk| && |disk[sb.BBlock(b)]| == BSIZE && BitAt(disk[sb.BBlock(b)], b % BPB)
  }

  // File i has its first n blocks and no others; the indirect block is there if it is needed.
  predicate Shape(st: St, i: nat, n: nat) {
    && n <= MAXFILE
    && (forall k: nat :: k < n ==> Slot(st, i, k) != 0)
    && (forall k: nat :: n <= k < MAXFILE ==> Slot(st, i, k) == 0)
    && (Slot(st, i, INDIRECT) != 0 <==> n > NDIRECT)
  }

  // Owned blocks are data blocks and marked in the bitmap.
  ghost predicate Held(sb: Super, st: St) {
    forall i: nat, k: nat :: Slot(st, i, k) != 0 ==>
        sb.datastart <= Slot(st, i, k) < sb.size && Marked(sb, st.disk, Slot(st, i, k))
  }

  // No block is owned twice.
  ghost predicate Single(st: St) {
    forall i: nat, k: nat, j: nat, l: nat :: Slot(st, i, k) != 0 && Slot(st, i, k) == Slot(st, j, l) ==>
        i == j && k == l
  }

  predicate MetaMarked(sb: Super, disk: seq<seq<Byte>>) {
    forall b: nat :: b < sb.datastart ==> Marked(sb, disk, b)
  }

  ghost predicate Base(sb: Super, st: St) {
    && sb.Sane() && Blocks(sb, st.disk) && InodesOk(st.inodes)
    && Held(sb, st) && Single(st) && MetaMarked(sb, st.disk)
  }

  // nb[i] is how many data blocks file i has.
  predicate Shapes(st: St, nb: map<nat, nat>) {
    nb.Keys == st.inodes.Keys && forall i :: i in nb ==> Shape(st, i, nb[i])
  }

  ghost predicate Good(sb: Super, st: St, nb: map<nat, nat>) {
    Base(sb, st) && Shapes(st, nb)
  }

  function ByteAt(st: St, i: nat, x: nat): Byte {
    var b := Slot(st, i, x / BSIZE);
    if 0 < b < |st.disk| && |st.disk[b]| == BSIZE then st.disk[b][x % BSIZE] else 0
  }

  // Every byte of every file is the same in both states.
  predicate SameBytes(s: St, t: St, nb: map<nat, nat>) {
    forall i, x: nat :: i in nb && x < nb[i] * BSIZE ==> ByteAt(t, i, x) == ByteAt(s, i, x)
  }

  ghost predicate SameSlots(s: St, t: St) {
    forall i: nat, k: nat :: Slot(t, i, k) == Slot(s, i, k)
  }

  // ---- writing into a block that belongs to a file

  lemma HeldAt(sb: Super, st: St, i: nat, k: nat)
    requires Held(sb, st) && Slot(st, i, k) != 0
    ensures sb.datastart <= Slot(st, i, k) < sb.size
  {
  }

  lemma SingleAt(st: St, i: nat, k: nat, j: nat, l: nat)
    requires Single(st) && Slot(st, i, k) != 0 && (i != j || k != l)
    ensures Slot(st, i, k) != Slot(st, j, l)
  {
  }

  // A file's slots change only with its addresses and its indirect block.
  lemma SlotFrame(s: St, t: St, i: nat, k: nat)
    requires |s.disk| == |t.disk| && (i in s.inodes <==> i in t.inodes)
    requires i in s.inodes ==> s.inodes[i].addrs == t.inodes[i].addrs
    requires var a := Slot(s, i, INDIRECT); 0 < a < |s.disk| ==> t.disk[a] == s.disk[a]
    ensures Slot(t, i, k) == Slot(s, i, k)
  {
  }

  lemma WrittenSlots(sb: Super, st: St, i: nat, k: nat, d: seq<Byte>)
    requires sb.Sane() && Blocks(sb, st.disk) && Held(sb, st) && Single(st)
    requires k < MAXFILE && Slot(st, i, k) != 0 && |d| == BSIZE
    ensures Slot(st, i, k) < |st.disk| && SameSlots(st, st.(disk := st.disk[Slot(st, i, k) := d]))
  {
    HeldAt(sb, st, i, k);
    var b := Slot(st, i, k);
    var t := st.(disk := st.disk[b := d]);
    forall j: nat, l: nat ensures Slot(t, j, l) == Slot(st, j, l) {
      SingleAt(st, i, k, j, INDIRECT);
      hide Slot, Held, Single;
      SlotFrame(st, t, j, l);
    }
  }

  lemma MarkedFrame(sb: Super, s: seq<seq<Byte>>, t: seq<seq<Byte>>, b: nat)
    requires |s| == |t| && (sb.BBlock(b) < |s| ==> s[sb.BBlock(b)] == t[sb.BBlock(b)])
    ensures Marked(sb, s, b) <==> Marked(sb, t, b)
  {
  }

  // Slots and marks the same: nothing about ownership has changed.
  lemma BaseFrame(sb: Super, s: St, t: St)
    requires Base(sb, s) && Blocks(sb, t.disk) && InodesOk(t.inodes)
    requires SameSlots(s, t) && forall b: nat :: b < sb.size && Marked(sb, s.disk, b) ==> Marked(sb, t.disk, b)
    ensures Base(sb, t)
  {
    hide Slot, Marked;
    assert sb.datastart <= sb.size;
    forall i: nat, k: nat | Slot(t, i, k) != 0
        ensures sb.datastart <= Slot(t, i, k) < sb.size && Marked(sb, t.disk, Slot(t, i, k)) {
      assert Slot(s, i, k) != 0;
    }
    forall i: nat, k: nat, j: nat, l: nat | Slot(t, i, k) != 0 && Slot(t, i, k) == Slot(t, j, l)
        ensures i == j && k == l {
      assert Slot(s, i, k) == Slot(s, j, l);
    }
  }

  lemma ShapesFrame(s: St, t: St, nb: map<nat, nat>)
    requires Shapes(s, nb) && SameSlots(s, t) && t.inodes.Keys == s.inodes.Keys
    ensures Shapes(t, nb)
  {
    hide Slot;
    forall i | i in nb ensures Shape(t, i, nb[i]) {
      assert Shape(s, i, nb[i]);
      forall k: nat ensures Slot(t, i, k) == Slot(s, i, k) { }
    }
  }

  lemma WrittenGood(sb: Super, st: St, nb: map<nat, nat>, i: nat, k: nat, d: seq<Byte>)
    requires Good(sb, st, nb) && k < MAXFILE && Slot(st, i, k) != 0 && |d| == BSIZE
    ensures Slot(st, i, k) < |st.disk| && Good(sb, st.(disk := st.disk[Slot(st, i, k) := d]), nb)
    ensures SameSlots(st, st.(disk := st.disk[Slot(st, i, k) := d]))
  {
    hide Slot, Marked, Held, Single, MetaMarked, Shape;
    WrittenSlots(sb, st, i, k, d);
    HeldAt(sb, st, i, k);
    var t := st.(disk := st.disk[Slot(st, i, k) := d]);
    forall b: nat | b < sb.size && Marked(sb, st.disk, b) ensures Marked(sb, t.disk, b) {
      MarkedFrame(sb, st.disk, t.disk, b);
    }
    BaseFrame(sb, st, t);
    ShapesFrame(st, t, nb);
  }

  // The bytes after a block of a file was overwritten.
  lemma WrittenByte(sb: Super, st: St, nb: map<nat, nat>, i: nat, k: nat, d: seq<Byte>, j: nat, x: nat)
    requires Good(sb, st, nb) && k < MAXFILE && Slot(st, i, k) != 0 && |d| == BSIZE
    ensures Slot(st, i, k) < |st.disk|
    ensures ByteAt(st.(disk := st.disk[Slot(st, i, k) := d]), j, x) ==
      if i == j && x / BSIZE == k then d[x % BSIZE] else ByteAt(st, j, x)
  {
    hide Slot, Marked, Held, Single, MetaMarked, Shape, Shapes;
    WrittenSlots(sb, st, i, k, d);
    HeldAt(sb, st, i, k);
    assert Slot(st.(disk := st.disk[Slot(st, i, k) := d]), j, x / BSIZE) == Slot(st, j, x / BSIZE);
    if i != j || x / BSIZE != k { SingleAt(st, i, k, j, x / BSIZE); }
  }

  // ---- allocating a block

  lemma Unowned(sb: Super, st: St, b: nat)
    requires Base(sb, st) && !Marked(sb, st.disk, b) && b > 0
    ensures forall i: nat, k: nat :: Slot(st, i, k) != b
  {
    hide Slot, Marked;
  }

  function Taken(sb: Super, disk: seq<seq<Byte>>, b: nat): seq<seq<Byte>>
    requires sb.Sane() && Blocks(sb, disk) && b < sb.size && !Marked(sb, disk, b)
  {
    disk[sb.BBlock(b) := SetBit(disk[sb.BBlock(b)], b % BPB)][b := Zeros(BSIZE)]
  }

  lemma TakenMarks(sb: Super, disk: seq<seq<Byte>>, b: nat, x: nat)
    requires sb.Sane() && Blocks(sb, disk) && b < sb.size && !Marked(sb, disk, b) && MetaMarked(sb, disk) && x < sb.size
    ensures sb.datastart <= b
    ensures Marked(sb, Taken(sb, disk, b), x) <==> x == b || Marked(sb, disk, x)
  {
    assert sb.datastart <= b;
    assert sb.BBlock(x) < sb.datastart && sb.BBlock(b) < sb.datastart;
    if sb.BBlock(x) == sb.BBlock(b) {
      BitSet(disk[sb.BBlock(b)], b % BPB, x % BPB);
      assert x / BPB == b / BPB;
    }
  }

  // Every byte a file has in s is the same in t.
  ghost predicate SameData(s: St, t: St) {
    forall i: nat, x: nat :: x / BSIZE < MAXFILE && Slot(s, i, x / BSIZE) != 0 ==> ByteAt(t, i, x) == ByteAt(s, i, x)
  }

  // Taking a free block and clearing it changes nothing any file has.
  lemma TakenBase(sb: Super, st: St, b: nat)
    requires Base(sb, st) && b < sb.size && !Marked(sb, st.disk, b)
    ensures var t := st.(disk := Taken(sb, st.disk, b));
      && Base(sb, t) && SameSlots(st, t) && SameData(st, t) && t.disk[b] == Zeros(BSIZE) && Fresh(sb, t, b)
  {
    hide Slot, Marked, Held, Single, Shape;
    var t := st.(disk := Taken(sb, st.disk, b));
    TakenMarks(sb, st.disk, b, b);
    assert sb.BBlock(b) < sb.datastart;
    Unowned(sb, st, b);
    forall i: nat, k: nat ensures Slot(t, i, k) == Slot(st, i, k) {
      if Slot(st, i, INDIRECT) != 0 { HeldAt(sb, st, i, INDIRECT); }
      SlotFrame(st, t, i, k);
    }
    forall x: nat | x < sb.size && Marked(sb, st.disk, x) ensures Marked(sb, t.disk, x) {
      TakenMarks(sb, st.disk, b, x);
    }
    BaseFrame(sb, st, t);
    forall i: nat, x: nat | x / BSIZE < MAXFILE && Slot(st, i, x / BSIZE) != 0
        ensures ByteAt(t, i, x) == ByteAt(st, i, x) {
      assert Slot(t, i, x / BSIZE) == Slot(st, i, x / BSIZE);
      HeldAt(sb, st, i, x / BSIZE);
    }
  }

  // ---- giving a block to a file

  // Slot k of file i set to b.
  function Pointed(st: St, i: nat, k: nat, b: nat): St
    requires i in st.inodes && |st.inodes[i].addrs| == NDIRECT + 1 && k <= INDIRECT
    requires NDIRECT <= k < MAXFILE ==>
        st.inodes[i].addrs[NDIRECT] < |st.disk| && |st.disk[st.inodes[i].addrs[NDIRECT]]| == BSIZE
  {
    var ip := st.inodes[i];
    if k < NDIRECT then st.(inodes := st.inodes[i := ip.(addrs := ip.addrs[k := b])])
    else if k == INDIRECT then st.(inodes := st.inodes[i := ip.(addrs := ip.addrs[NDIRECT := b])])
    else st.(disk := st.disk[ip.addrs[NDIRECT] := SetUint(st.disk[ip.addrs[NDIRECT]], k - NDIRECT, b)])
  }

  // What may be put in slot k: a marked data block no file has; for the indirect block a clear one.
  ghost predicate Fresh(sb: Super, st: St, b: nat) {
    && sb.datastart <= b < sb.size && Marked(sb, st.disk, b) && b < |st.disk|
    && forall i: nat, k: nat :: Slot(st, i, k) != b
  }

  lemma ZeroWords(i: nat)
    requires i < NINDIRECT
    ensures UintAt(Zeros(BSIZE), i) == 0
  {
  }

  lemma {:induction false} PointedDirect(sb: Super, st: St, i: nat, k: nat, b: nat, j: nat, l: nat)
    requires Base(sb, st) && i in st.inodes && k < NDIRECT
    ensures Slot(Pointed(st, i, k, b), j, l) == if i == j && k == l then b else Slot(st, j, l)
  {
  }

  lemma PointedIndirect(sb: Super, st: St, i: nat, b: nat, j: nat, l: nat)
    requires Base(sb, st) && i in st.inodes && Slot(st, i, INDIRECT) == 0 && 0 < b < |st.disk| &&
        st.disk[b] == Zeros(BSIZE)
    ensures Slot(Pointed(st, i, INDIRECT, b), j, l) == if i == j && l == INDIRECT then b else Slot(st, j, l)
  {
    if i == j && NDIRECT <= l < MAXFILE { ZeroWords(l - NDIRECT); }
  }

  lemma PointedEntry(sb: Super, st: St, i: nat, k: nat, b: nat, j: nat, l: nat)
    requires Base(sb, st) && i in st.inodes && NDIRECT <= k < MAXFILE && Slot(st, i, INDIRECT) != 0 && b < 0x1_0000_0000
    ensures st.inodes[i].addrs[NDIRECT] < |st.disk|
    ensures Slot(Pointed(st, i, k, b), j, l) == if i == j && k == l then b else Slot(st, j, l)
  {
    HeldAt(sb, st, i, INDIRECT);
    var t := Pointed(st, i, k, b);
    if i == j {
      if NDIRECT <= l < MAXFILE {
        UintSet(st.disk[st.inodes[i].addrs[NDIRECT]], k - NDIRECT, b, l - NDIRECT);
      }
    } else {
      SingleAt(st, i, INDIRECT, j, INDIRECT);
      SlotFrame(st, t, j, l);
    }
  }

  predicate MayPoint(st: St, i: nat, k: nat, b: nat) {
    && i in st.inodes && k <= INDIRECT && Slot(st, i, k) == 0
    && (k == INDIRECT ==> b < |st.disk| && st.disk[b] == Zeros(BSIZE))
    && (NDIRECT <= k < MAXFILE ==> Slot(st, i, INDIRECT) != 0)
  }

  // Only that slot changes.
  lemma PointedSlot(sb: Super, st: St, i: nat, k: nat, b: nat, j: nat, l: nat)
    requires Base(sb, st) && MayPoint(st, i, k, b) && Fresh(sb, st, b)
    ensures NDIRECT <= k < MAXFILE ==> st.inodes[i].addrs[NDIRECT] < |st.disk|
    ensures Slot(Pointed(st, i, k, b), j, l) == if i == j && k == l then b else Slot(st, j, l)
  {
    assert b > 0;
    if k < NDIRECT { PointedDirect(sb, st, i, k, b, j, l); }
    else if k == INDIRECT { PointedIndirect(sb, st, i, b, j, l); }
    else { PointedEntry(sb, st, i, k, b, j, l); }
  }

  lemma PointedBase(sb: Super, st: St, i: nat, k: nat, b: nat)
    requires Base(sb, st) && MayPoint(st, i, k, b) && Fresh(sb, st, b)
    ensures NDIRECT <= k < MAXFILE ==> st.inodes[i].addrs[NDIRECT] < |st.disk|
    ensures Base(sb, Pointed(st, i, k, b))
  {
    hide Slot, Marked, UintAt, SetUint;
    PointedSlot(sb, st, i, k, b, i, k);
    PointedMarks(sb, st, i, k, b);
    var t := Pointed(st, i, k, b);
    forall j: nat, l: nat | Slot(t, j, l) != 0
        ensures sb.datastart <= Slot(t, j, l) < sb.size && Marked(sb, t.disk, Slot(t, j, l)) {
      PointedSlot(sb, st, i, k, b, j, l);
    }
    forall j: nat, l: nat, u: nat, v: nat | Slot(t, j, l) != 0 && Slot(t, j, l) == Slot(t, u, v)
        ensures j == u && l == v {
      PointedSlot(sb, st, i, k, b, j, l);
      PointedSlot(sb, st, i, k, b, u, v);
    }
    assert MetaMarked(sb, t.disk);
  }

  lemma PointedMarks(sb: Super, st: St, i: nat, k: nat, b: nat)
    requires Base(sb, st) && MayPoint(st, i, k, b) && Fresh(sb, st, b)
    ensures NDIRECT <= k < MAXFILE ==> st.inodes[i].addrs[NDIRECT] < |st.disk|
    ensures var t := Pointed(st, i, k, b);
      && Blocks(sb, t.disk) && InodesOk(t.inodes) && t.inodes.Keys == st.inodes.Keys
      && forall x: nat :: x < sb.size ==> (Marked(sb, t.disk, x) <==> Marked(sb, st.disk, x))
  {
    hide UintAt;
    if NDIRECT <= k < MAXFILE { HeldAt(sb, st, i, INDIRECT); }
    var t := Pointed(st, i, k, b);
    forall x: nat | x < sb.size ensures Marked(sb, t.disk, x) <==> Marked(sb, st.disk, x) {
      assert sb.BBlock(x) < sb.datastart;
      MarkedFrame(sb, st.disk, t.disk, x);
    }
  }

  // No byte that was there changes.
  lemma PointedByte(sb: Super, st: St, i: nat, k: nat, b: nat, j: nat, x: nat)
    requires Base(sb, st) && MayPoint(st, i, k, b) && Fresh(sb, st, b)
    requires x / BSIZE < MAXFILE && Slot(st, j, x / BSIZE) != 0
    ensures NDIRECT <= k < MAXFILE ==> st.inodes[i].addrs[NDIRECT] < |st.disk|
    ensures ByteAt(Pointed(st, i, k, b), j, x) == ByteAt(st, j, x)
  {
    PointedSlot(sb, st, i, k, b, j, x / BSIZE);
    if NDIRECT <= k < MAXFILE {
      HeldAt(sb, st, i, INDIRECT);
      SingleAt(st, i, INDIRECT, j, x / BSIZE);
      hide Slot, UintAt, SetUint, Held, Single, Marked;
      assert Pointed(st, i, k, b).disk[Slot(st, j, x / BSIZE)] == st.disk[Slot(st, j, x / BSIZE)] by {
        EntryBlock(st, i, k, b, Slot(st, j, x / BSIZE));
      }
    }
  }

  lemma EntryBlock(st: St, i: nat, k: nat, b: nat, c: nat)
    requires i in st.inodes && |st.inodes[i].addrs| == NDIRECT + 1 && NDIRECT <= k < MAXFILE
    requires st.inodes[i].addrs[NDIRECT] < |st.disk| && |st.disk[st.inodes[i].addrs[NDIRECT]]| == BSIZE
    requires c != Slot(st, i, INDIRECT)
    ensures c < |st.disk| ==> Pointed(st, i, k, b).disk[c] == st.disk[c]
    ensures |Pointed(st, i, k, b).disk| == |st.disk|
  {
  }

  // balloc() and storing its result in a slot, together.
  function Given(sb: Super, st: St, i: nat, k: nat, b: nat): St
    requires sb.Sane() && Blocks(sb, st.disk) && InodesOk(st.inodes) && b < sb.size && !Marked(sb, st.disk, b)
    requires i in st.inodes && k <= INDIRECT && (NDIRECT <= k < MAXFILE ==> st.inodes[i].addrs[NDIRECT] < |st.disk|)
  {
    Pointed(st.(disk := Taken(sb, st.disk, b)), i, k, b)
  }

  predicate MayGive(st: St, i: nat, k: nat) {
    i in st.inodes && k <= INDIRECT && Slot(st, i, k) == 0 && (NDIRECT <= k < MAXFILE ==> Slot(st, i, INDIRECT) != 0)
  }

  // Only slot k of file i has changed, to b.
  ghost predicate OneSlot(s: St, t: St, i: nat, k: nat, b: nat) {
    forall j: nat, l: nat :: Slot(t, j, l) == if i == j && k == l then b else Slot(s, j, l)
  }

  // Nothing of an inode but the addresses of file i has changed.
  predicate OnlyAddrs(s: St, t: St, i: nat) {
    && t.inodes.Keys == s.inodes.Keys && i in s.inodes
    && (forall j :: j in s.inodes && j != i ==> t.inodes[j] == s.inodes[j])
    && t.inodes[i] == s.inodes[i].(addrs := t.inodes[i].addrs)
  }

  lemma GivenStep(sb: Super, st: St, i: nat, k: nat, b: nat)
    requires Base(sb, st) && MayGive(st, i, k) && b < sb.size && !Marked(sb, st.disk, b)
    ensures NDIRECT <= k < MAXFILE ==> st.inodes[i].addrs[NDIRECT] < |st.disk|
    ensures var t := Given(sb, st, i, k, b);
      Base(sb, t) && OneSlot(st, t, i, k, b) && SameData(st, t) && OnlyAddrs(st, t, i) && sb.datastart <= b
  {
    hide Slot, Marked, Held, Single, Taken, UintAt, SetUint, MetaMarked;
    TakenBase(sb, st, b);
    if NDIRECT <= k < MAXFILE { HeldAt(sb, st, i, INDIRECT); SlotIndirect(st, i); }
    var t := st.(disk := Taken(sb, st.disk, b));
    assert Slot(t, i, k) == Slot(st, i, k) && Slot(t, i, INDIRECT) == Slot(st, i, INDIRECT);
    PointedBase(sb, t, i, k, b);
    var u := Given(sb, st, i, k, b);
    forall j: nat, l: nat ensures Slot(u, j, l) == if i == j && k == l then b else Slot(st, j, l) {
      PointedSlot(sb, t, i, k, b, j, l);
      assert Slot(t, j, l) == Slot(st, j, l);
    }
    forall j: nat, x: nat | x / BSIZE < MAXFILE && Slot(st, j, x / BSIZE) != 0
        ensures ByteAt(u, j, x) == ByteAt(st, j, x) {
      assert Slot(t, j, x / BSIZE) == Slot(st, j, x / BSIZE);
      PointedByte(sb, t, i, k, b, j, x);
      assert ByteAt(t, j, x) == ByteAt(st, j, x);
    }
  }

  lemma SlotIndirect(st: St, i: nat)
    requires i in st.inodes && |st.inodes[i].addrs| == NDIRECT + 1
    ensures Slot(st, i, INDIRECT) == st.inodes[i].addrs[NDIRECT]
  {
  }

  lemma SameBytesOf(s: St, t: St, nb: map<nat, nat>)
    requires SameData(s, t) && Shapes(s, nb)
    ensures SameBytes(s, t, nb)
  {
    hide Slot, ByteAt;
    forall i, x: nat | i in nb && x < nb[i] * BSIZE ensures ByteAt(t, i, x) == ByteAt(s, i, x) {
      assert Shape(s, i, nb[i]);
      assert x / BSIZE < nb[i];
      assert Slot(s, i, x / BSIZE) != 0;
    }
  }
}
