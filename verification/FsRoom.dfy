// How many blocks are free and how many a file needs: when balloc's panic in xv6-x86/fs.c comes.
module FsRoom {
  import opened FsLayout
  import opened FsState
  import opened FsSteps

  // Every block that has changed is among those given to log_write.
  ghost predicate Touched(was: seq<seq<Byte>>, now: seq<seq<Byte>>, logged: set<nat>) {
    |now| == |was| && forall b: nat :: b < |was| && b !in logged ==> now[b] == was[b]
  }

  lemma TouchedNone(disk: seq<seq<Byte>>, logged: set<nat>)
    ensures Touched(disk, disk, logged)
  {
  }

  lemma TakenTouches(sb: Super, disk: seq<seq<Byte>>, b: nat, logged: set<nat>)
    requires sb.Sane() && Blocks(sb, disk) && b < sb.size && !Marked(sb, disk, b)
    ensures Touched(disk, Taken(sb, disk, b), logged + {sb.BBlock(b), b})
  {
  }

  lemma TouchedThen(a: seq<seq<Byte>>, b: seq<seq<Byte>>, c: seq<seq<Byte>>, l: set<nat>, l': set<nat>)
    requires Touched(a, b, l) && Touched(b, c, l') && l <= l'
    ensures Touched(a, c, l')
  {
  }

  ghost function FreeBlocks(sb: Super, disk: seq<seq<Byte>>): set<nat> {
    set b: nat | b < sb.size && !Marked(sb, disk, b)
  }

  // The blocks that a file with n data blocks owns.
  function BlocksOf(n: nat): nat { n + if n > NDIRECT then 1 else 0 }

  /** The blocks that a file of the given size needs to be written up to end. */
  function Needed(size: nat, end: nat): nat {
    if end <= size then 0 else Grows(BlocksFor(size), BlocksFor(end))
  }

  function Grows(n: nat, m: nat): nat {
    if m <= n then 0 else BlocksOf(m) - BlocksOf(n)
  }

  lemma GrowsSum(n0: nat, n1: nat, n2: nat)
    requires n0 <= n1 <= n2
    ensures Grows(n0, n2) == Grows(n0, n1) + Grows(n1, n2) && Grows(n0, n0) == 0
  {
  }

  lemma TakenFree(sb: Super, disk: seq<seq<Byte>>, b: nat)
    requires sb.Sane() && Blocks(sb, disk) && b < sb.size && !Marked(sb, disk, b) && MetaMarked(sb, disk)
    ensures FreeBlocks(sb, Taken(sb, disk, b)) == FreeBlocks(sb, disk) - {b} && b in FreeBlocks(sb, disk)
    ensures |FreeBlocks(sb, Taken(sb, disk, b))| == |FreeBlocks(sb, disk)| - 1
  {
    hide Marked, Taken;
    forall x: nat | x < sb.size
      ensures Marked(sb, Taken(sb, disk, b), x) <==> x == b || Marked(sb, disk, x)
    {
      TakenMarks(sb, disk, b, x);
    }
  }

  // Writing a data block marks and unmarks nothing.
  lemma FreeSame(sb: Super, disk: seq<seq<Byte>>, b: nat, d: seq<Byte>)
    requires sb.Sane() && Blocks(sb, disk) && sb.datastart <= b < sb.size && |d| == BSIZE
    ensures FreeBlocks(sb, disk[b := d]) == FreeBlocks(sb, disk)
  {
    forall x: nat | x < sb.size
      ensures Marked(sb, disk[b := d], x) <==> Marked(sb, disk, x)
    {
      assert sb.BBlock(x) < sb.datastart;
    }
  }

  lemma NoneFree(sb: Super, disk: seq<seq<Byte>>)
    requires forall x: nat :: x < sb.size ==> Marked(sb, disk, x)
    ensures FreeBlocks(sb, disk) == {}
  {
  }

  /** What is needed adds up over a write in two parts. */
  lemma NeededSum(size: nat, mid: nat, end: nat)
    requires mid <= end
    ensures Needed(size, end) == Needed(size, mid) + Needed(Max(size, mid), end)
  {
    hide BlocksFor;
    if size < mid {
      BlocksGrow(size, mid);
      BlocksGrow(mid, end);
    }
  }

  lemma NeededNone(size: nat, off: nat)
    ensures off <= size ==> Needed(size, off) == 0
  {
  }

  lemma NeededGrows(size: nat, mid: nat, end: nat)
    requires mid <= end
    ensures Needed(size, mid) <= Needed(size, end)
  {
    hide Needed;
    NeededSum(size, mid, end);
  }

  // One chunk of filewrite on a file that has size cur by then.
  lemma ChunkNeeds(size: nat, off: nat, done: nat, n1: nat, len: nat, cur: nat)
    requires off <= size && done + n1 <= len && cur == Max(size, off + done)
    ensures Needed(size, off + done + n1) == Needed(size, off + done) + Needed(cur, off + done + n1)
    ensures Needed(size, off + done + n1) <= Needed(size, off + len)
    ensures Max(cur, off + done + n1) == Max(size, off + (done + n1))
  {
    hide Needed;
    NeededSum(size, off + done, off + done + n1);
    NeededGrows(size, off + done + n1, off + len);
  }

  lemma BlocksGrow(a: nat, b: nat)
    requires a <= b
    ensures BlocksFor(a) <= BlocksFor(b)
  {
  }

  // The loop of writei has come to o and balloc finds nothing.
  lemma TooFew(free: nat, size: nat, o: nat, end: nat, n: nat)
    requires o < end && BlocksFor(size) <= n
    requires 0 <= free - Grows(BlocksFor(size), n) < Grows(n, o / BSIZE + 1)
    ensures free < Needed(size, end)
  {
    assert n < o / BSIZE + 1;
    assert BlocksFor(end) >= o / BSIZE + 1;
    if end <= size { BlocksGrow(end, size); }
  }

  lemma WritingBlocks(s: St, nb0: map<nat, nat>, t: St, nb: map<nat, nat>, i: nat, src: seq<Byte>, off: nat, o: nat)
    requires Writing(s, nb0, t, nb, i, src, off, o)
    ensures i in s.inodes && i in nb0 && i in nb && Grows(nb0[i], nb[i]) == Needed(s.inodes[i].size, o)
  {
    hide Mine, BlocksFor, Slot, ByteAt;
    var size := s.inodes[i].size;
    if o <= size { BlocksGrow(o, size); }
  }

  // A file's blocks are data blocks.
  lemma SlotData(sb: Super, st: St, nb: map<nat, nat>, i: nat, k: nat)
    requires Good(sb, st, nb) && i in nb && k < nb[i]
    ensures sb.Sane() && Blocks(sb, st.disk) && sb.datastart <= Slot(st, i, k) < sb.size
  {
    hide Slot, Marked;
    GoodParts(sb, st, nb, i);
    HeldAt(sb, st, i, k);
  }

  lemma IndirectData(sb: Super, st: St, i: nat)
    requires Base(sb, st) && Slot(st, i, INDIRECT) != 0
    ensures sb.datastart <= Slot(st, i, INDIRECT) < sb.size
  {
    HeldAt(sb, st, i, INDIRECT);
  }

  lemma GrowsMore(n0: nat, n1: nat, n2: nat)
    requires n0 <= n1 && Grows(n1, n2) > 0
    ensures Grows(n0, n2) == Grows(n0, n1) + Grows(n1, n2)
  {
  }

  lemma TooFewAtAll(free: nat, size: nat, o: nat, end: nat)
    requires o < end && free < Grows(BlocksFor(size), o / BSIZE + 1)
    ensures free < Needed(size, end)
  {
    TooFew(free, size, o, end, BlocksFor(size));
  }

  // The loop of writei has come from off to o; s is the state before it.
  ghost predicate Underway(sb: Super, s: St, nb0: map<nat, nat>, logged0: set<nat>, now: St, nb: map<nat, nat>,
      logged: set<nat>, t: Tally, i: nat, src: seq<Byte>, off: nat, o: nat)
  {
    && Good(sb, now, nb) && Writing(s, nb0, now, nb, i, src, off, o) && i in nb && i in nb0 && nb0[i] <= nb[i]
    && i in s.inodes && nb0[i] == BlocksFor(s.inodes[i].size)
    && Counted(t, Extra(sb, now, i), logged0, logged, nb[i] - nb0[i]) && t.rounds == RoundsTo(off, o)
    && |FreeBlocks(sb, now.disk)| + Grows(nb0[i], nb[i]) == |FreeBlocks(sb, s.disk)|
    && logged0 <= logged && Touched(s.disk, now.disk, logged)
  }

  lemma UnderwayStarts(sb: Super, s: St, nb: map<nat, nat>, logged: set<nat>, t: Tally, i: nat, src: seq<Byte>,
      off: nat)
    requires Good(sb, s, nb) && Tight(s.inodes, nb) && i in s.inodes && off <= s.inodes[i].size && t == Tally({}, {}, 0)
    ensures Underway(sb, s, nb, logged, s, nb, logged, t, i, src, off, off)
  {
    hide Slot, Marked, ByteAt, Base, Writing, Counted, Extra, RoundsTo, BlocksFor, FreeBlocks, Touched, Good, Tight,
      Grows;
    TightOf(s.inodes, nb, i);
    GoodParts(sb, s, nb, i);
    WritingStarts(s, nb, i, src, off);
    GrowsSum(nb[i], nb[i], nb[i]);
    TouchedNone(s.disk, logged);
    TallyStarts(t, Extra(sb, s, i), logged, off);
  }

  lemma UnderwayEnds(sb: Super, s: St, nb0: map<nat, nat>, logged0: set<nat>, now: St, nb: map<nat, nat>,
      logged: set<nat>, t: Tally, i: nat, src: seq<Byte>, off: nat, end: nat)
    requires Underway(sb, s, nb0, logged0, now, nb, logged, t, i, src, off, end)
    ensures Good(sb, now, nb) && Writing(s, nb0, now, nb, i, src, off, end) && i in nb && i in nb0 && i in s.inodes
    ensures Counted(t, Extra(sb, now, i), logged0, logged, nb[i] - nb0[i]) && t.rounds == RoundsTo(off, end)
    ensures |FreeBlocks(sb, now.disk)| + Needed(s.inodes[i].size, end) == |FreeBlocks(sb, s.disk)|
    ensures nb0[i] <= nb[i] && logged0 <= logged && Touched(s.disk, now.disk, logged)
  {
    hide Slot, Marked, ByteAt, Base, Writing, Counted, Extra, RoundsTo, BlocksFor, FreeBlocks, Touched, Good, Needed,
      Grows;
    WritingBlocks(s, nb0, now, nb, i, src, off, end);
  }
}
