// xv7: pages swapped to runs of eight disk blocks.  The state that
// xv7/paging.c, xv7/fs.c and xv7/bio.c work on, what one swap-out or swap-in
// does to it, and what every run of them keeps.

module SwapState {

  type Byte = x: nat | x < 256 witness 0
  type Word = x: nat | x < 0x1_0000_0000 witness 0

  const PGSIZE: nat := 4096
  const BSIZE: nat := 512
  const RUN: nat := 8                   // blocks to a page

  function Fill(n: nat, b: Byte): (s: seq<Byte>)
    ensures |s| == n && forall i :: 0 <= i < n ==> s[i] == b
  {
    seq(n, _ => b)
  }

  type Page = s: seq<Byte> | |s| == PGSIZE witness Fill(PGSIZE, 0)
  type Block = s: seq<Byte> | |s| == BSIZE witness Fill(BSIZE, 0)

  // ---- page table entries ----

  predicate Present(w: Word) { w % 2 == 1 }

  // PTE_SWAPPED is 0x200.
  predicate Swapped(w: Word) { w / 512 % 2 == 1 }

  // PTE_ADDR as a page number, or the block id of a swapped page.
  function Field(w: Word): nat { w / 4096 }

  // (diskPage << 12) | PTE_SWAPPED
  function SwapEntry(b: nat): (w: Word)
    requires b < 0x10_0000
    ensures Swapped(w) && !Present(w) && Field(w) == b
  {
    SwapEntryParts(b);
    b * 4096 + 0x200
  }

  lemma SwapEntryParts(b: nat)
    requires b < 0x10_0000
    ensures var w := b * 4096 + 0x200;
      w < 0x1_0000_0000 && w / 4096 == b && w % 2 == 0 && w / 512 % 2 == 1
  {
    var w := b * 4096 + 0x200;
    Over4096(w, b, 0x200);
    Over512(w, b * 8 + 1, 0);
    Parity(w, b * 2048 + 0x100, 0);
    Parity(b * 8 + 1, b * 4, 1);
  }

  lemma Over4096(w: nat, q: nat, r: nat)
    requires w == q * 4096 + r && r < 4096
    ensures w / 4096 == q
  {
  }

  lemma Over512(w: nat, q: nat, r: nat)
    requires w == q * 512 + r && r < 512
    ensures w / 512 == q
  {
  }

  lemma Parity(w: nat, q: nat, r: nat)
    requires w == 2 * q + r && r < 2
    ensures w % 2 == r
  {
  }

  // V2P(mem) | PTE_W | PTE_U | PTE_P
  function FrameEntry(f: nat): (w: Word)
    requires f < 0x10_0000
    ensures Present(w) && !Swapped(w) && Field(w) == f
  {
    FrameEntryParts(f);
    f * 4096 + 7
  }

  lemma FrameEntryParts(f: nat)
    requires f < 0x10_0000
    ensures var w := f * 4096 + 7;
      w < 0x1_0000_0000 && w / 4096 == f && w % 2 == 1 && w / 512 % 2 == 0
  {
    var w := f * 4096 + 7;
    Over4096(w, f, 7);
    Over512(w, f * 8, 7);
    Parity(w, f * 2048 + 3, 1);
    Parity(f * 8, f * 4, 0);
  }

  // ---- pages as eight blocks ----

  // The first n of the blocks from b on, joined.
  function Join(disk: seq<Block>, b: nat, n: nat): (s: seq<Byte>)
    requires b + n <= |disk|
    ensures |s| == n * BSIZE
  {
    if n == 0 then [] else Join(disk, b, n - 1) + disk[b + n - 1]
  }

  function PageAt(disk: seq<Block>, b: nat): Page
    requires b + RUN <= |disk|
  {
    Join(disk, b, RUN)
  }

  // The i-th piece of a page.
  function Piece(page: Page, i: nat): Block
    requires i < RUN
  {
    page[i * BSIZE..(i + 1) * BSIZE]
  }

  predicate Holds(disk: seq<Block>, b: nat, page: Page, n: nat)
    requires b + n <= |disk| && n <= RUN
  {
    forall i :: 0 <= i < n ==> disk[b + i] == Piece(page, i)
  }

  /** Blocks that hold the pieces of a page join to that page. */
  lemma {:induction false} JoinPieces(disk: seq<Block>, b: nat, page: Page, n: nat)
    requires b + n <= |disk| && n <= RUN && Holds(disk, b, page, n)
    ensures Join(disk, b, n) == page[..n * BSIZE]
  {
    if n > 0 {
      JoinPieces(disk, b, page, n - 1);
      assert disk[b + (n - 1)] == Piece(page, n - 1);
      assert page[..n * BSIZE] == page[..(n - 1) * BSIZE] + page[(n - 1) * BSIZE..n * BSIZE];
    }
  }

  lemma {:induction false} JoinSame(disk: seq<Block>, disk': seq<Block>, b: nat, n: nat)
    requires b + n <= |disk| == |disk'|
    requires forall i :: b <= i < b + n ==> disk'[i] == disk[i]
    ensures Join(disk', b, n) == Join(disk, b, n)
  {
    if n > 0 { JoinSame(disk, disk', b, n - 1); }
  }

  // ---- runs of free blocks ----

  predicate FreeRun(bits: seq<bool>, b: nat) {
    b + RUN <= |bits| && forall i :: b <= i < b + RUN ==> !bits[i]
  }

  predicate UsedRun(bits: seq<bool>, b: nat) {
    b + RUN <= |bits| && forall i :: b <= i < b + RUN ==> bits[i]
  }

  /** The lowest run of eight free blocks. */
  predicate Lowest(bits: seq<bool>, b: nat) {
    FreeRun(bits, b) && forall c :: 0 <= c < b ==> !FreeRun(bits, c)
  }

  // bits' is bits with the run at b set to v.
  predicate RunSet(bits: seq<bool>, bits': seq<bool>, b: nat, v: bool) {
    && |bits'| == |bits|
    && forall i :: 0 <= i < |bits| ==> bits'[i] == if b <= i < b + RUN then v else bits[i]
  }

  // ---- the state ----

  // Frames and their contents, the free frames, the entries of all address
  // spaces, the block bitmap, the disk, and numallocblocks.
  datatype Store = Store(frames: seq<Page>, free: set<nat>, pte: seq<Word>,
                         bits: seq<bool>, disk: seq<Block>, count: int)

  ghost function SwappedSet(pte: seq<Word>): set<nat> {
    set p | 0 <= p < |pte| && Swapped(pte[p])
  }

  ghost predicate FramesApart(s: Store) {
    && |s.frames| <= 0x10_0000
    && (forall p :: 0 <= p < |s.pte| && Present(s.pte[p]) ==>
                      !Swapped(s.pte[p]) && Field(s.pte[p]) < |s.frames| && Field(s.pte[p]) !in s.free)
    && (forall p, q :: 0 <= p < q < |s.pte| && Present(s.pte[p]) && Present(s.pte[q]) ==>
                         Field(s.pte[p]) != Field(s.pte[q]))
    && (forall f :: f in s.free ==> f < |s.frames|)
  }

  ghost predicate RunsApart(s: Store) {
    && |s.disk| == |s.bits| <= 0x10_0000
    && (forall p :: 0 <= p < |s.pte| && Swapped(s.pte[p]) ==> UsedRun(s.bits, Field(s.pte[p])))
    && (forall p, q :: 0 <= p < q < |s.pte| && Swapped(s.pte[p]) && Swapped(s.pte[q]) ==>
                         DisjointRuns(Field(s.pte[p]), Field(s.pte[q])))
  }

  predicate DisjointRuns(b: nat, c: nat) { b + RUN <= c || c + RUN <= b }

  /** Every present page has a frame of its own, every swapped page a run of
      eight allocated blocks of its own, and numallocblocks counts the swapped
      pages. */
  ghost predicate Inv(s: Store) {
    FramesApart(s) && RunsApart(s) && s.count == |SwappedSet(s.pte)|
  }

  datatype Content = Unmapped | Mapped(page: Page)

  // What the process finds in its page p.
  ghost function ContentOf(s: Store, p: nat): Content
    requires Inv(s) && p < |s.pte|
  {
    if Present(s.pte[p]) then Mapped(s.frames[Field(s.pte[p])])
    else if Swapped(s.pte[p]) then Mapped(PageAt(s.disk, Field(s.pte[p])))
    else Unmapped
  }

  // Frames in use before and after hold what they held.
  ghost predicate FramesKept(s: Store, s': Store, f: nat) {
    && |s'.frames| == |s.frames|
    && forall g :: 0 <= g < |s.frames| && g !in s.free && g != f ==> s'.frames[g] == s.frames[g]
  }

  // Blocks in use hold what they held.
  ghost predicate BlocksKept(s: Store, s': Store)
    requires |s.disk| == |s.bits|
  {
    && |s'.disk| == |s.disk|
    && forall i :: 0 <= i < |s.disk| && s.bits[i] ==> s'.disk[i] == s.disk[i]
  }

  // swap_page_from_pte: page p goes from frame f to the run at b.
  ghost predicate SwapsOut(s: Store, p: nat, f: nat, b: nat, s': Store)
    requires p < |s.pte| && FramesApart(s) && |s.disk| == |s.bits| <= 0x10_0000
  {
    && Present(s.pte[p]) && f == Field(s.pte[p])
    && Lowest(s.bits, b) && RunSet(s.bits, s'.bits, b, true)
    && BlocksKept(s, s') && b + RUN <= |s'.disk| && PageAt(s'.disk, b) == s.frames[f]
    && FramesKept(s, s', f) && s'.free == s.free + {f}
    && s'.pte == s.pte[p := SwapEntry(b)]
    && s'.count == s.count + 1
  }

  // map_address for a swapped page p, which gets frame f.
  ghost predicate SwapsIn(s: Store, p: nat, f: nat, s': Store)
    requires Inv(s) && p < |s.pte|
  {
    && Swapped(s.pte[p]) && f in s.free
    && |s'.frames| == |s.frames| && s'.frames == s.frames[f := PageAt(s.disk, Field(s.pte[p]))]
    && s'.free == s.free - {f}
    && s'.pte == s.pte[p := FrameEntry(f)]
    && RunSet(s.bits, s'.bits, Field(s.pte[p]), false)
    && s'.disk == s.disk
    && s'.count == s.count - 1
  }

  // map_address for a page that is not swapped: a zeroed frame, whatever was there before.
  ghost predicate ZeroFills(s: Store, p: nat, f: nat, s': Store)
    requires Inv(s) && p < |s.pte|
  {
    && !Swapped(s.pte[p]) && f in s.free
    && s' == s.(frames := s.frames[f := Fill(PGSIZE, 0)], free := s.free - {f}, pte := s.pte[p := FrameEntry(f)])
  }

  // An entry that is present names frame g.
  ghost predicate Names(pte: seq<Word>, g: nat) {
    exists q :: 0 <= q < |pte| && Present(pte[q]) && Field(pte[q]) == g
  }

  // A frame that is neither free nor mapped.
  ghost predicate Lost(s: Store, f: nat) {
    f !in s.free && !Names(s.pte, f)
  }

  // What entering w in place of an entry names.
  lemma NamesAfter(pte: seq<Word>, p: nat, w: Word, g: nat)
    requires p < |pte|
    requires forall q :: 0 <= q < |pte| && q != p && Present(pte[q]) && Present(pte[p]) ==>
      Field(pte[q]) != Field(pte[p])
    ensures Names(pte[p := w], g) <==>
      (Present(w) && Field(w) == g) || (Names(pte, g) && !(Present(pte[p]) && Field(pte[p]) == g))
  {
    hide Present, Field;
    var u := pte[p := w];
    assert u[p] == w;
    if q :| 0 <= q < |pte| && q != p && Present(pte[q]) && Field(pte[q]) == g {
      assert u[q] == pte[q];
    }
    if q :| 0 <= q < |u| && q != p && Present(u[q]) && Field(u[q]) == g {
      assert pte[q] == u[q];
    }
  }

  /** A swap-out loses no frame and finds none again. */
  lemma SwapOutLoses(s: Store, p: nat, f: nat, b: nat, s': Store, g: nat)
    requires Inv(s) && p < |s.pte| && SwapsOut(s, p, f, b, s') && g < |s.frames|
    ensures Lost(s', g) <==> Lost(s, g)
  {
    NamesAfter(s.pte, p, SwapEntry(b), g);
  }

  /** Neither does a swap-in. */
  lemma SwapInLoses(s: Store, p: nat, f: nat, s': Store, g: nat)
    requires Inv(s) && p < |s.pte| && SwapsIn(s, p, f, s') && g < |s.frames|
    ensures Lost(s', g) <==> Lost(s, g)
  {
    NamesAfter(s.pte, p, FrameEntry(f), g);
  }

  /** A zero fill loses the frame that the page had, if it had one, and no other. */
  lemma ZeroFillLoses(s: Store, p: nat, f: nat, s': Store, g: nat)
    requires Inv(s) && p < |s.pte| && ZeroFills(s, p, f, s') && g < |s.frames|
    ensures Lost(s', g) <==> Lost(s, g) || (Present(s.pte[p]) && g == Field(s.pte[p]))
  {
    NamesAfter(s.pte, p, FrameEntry(f), g);
  }

  /** A frame taken from the free list and entered nowhere is lost, and no other. */
  lemma LeakLoses(s: Store, f: nat, s': Store, g: nat)
    requires Inv(s) && f in s.free && s' == s.(free := s.free - {f}) && g < |s.frames|
    ensures Lost(s', g) <==> Lost(s, g) || g == f
  {
  }

  lemma SwappedMore(pte: seq<Word>, p: nat, w: Word)
    requires p < |pte| && Swapped(pte[p]) != Swapped(w)
    ensures |SwappedSet(pte[p := w])| == |SwappedSet(pte)| + if Swapped(w) then 1 else -1
  {
    var a, b := SwappedSet(pte), SwappedSet(pte[p := w]);
    if Swapped(w) {
      assert b == a + {p};
    } else {
      assert a == b + {p};
    }
  }

  lemma SwappedSame(pte: seq<Word>, p: nat, w: Word)
    requires p < |pte| && Swapped(pte[p]) == Swapped(w)
    ensures SwappedSet(pte[p := w]) == SwappedSet(pte)
  {
  }

  /** Swapping a page out keeps the invariant and the content of every page,
      that of the page itself included. */
  lemma SwapOutKeeps(s: Store, p: nat, f: nat, b: nat, s': Store)
    requires Inv(s) && p < |s.pte| && SwapsOut(s, p, f, b, s')
    ensures Inv(s')
    ensures forall q :: 0 <= q < |s.pte| ==> ContentOf(s', q) == ContentOf(s, q)
  {
    hide PageAt, RunsApart, FramesApart, Lowest, RunSet, BlocksKept, FramesKept, SwapEntry;
    OutRuns(s, p, f, b, s');
    OutFrames(s, p, f, b, s');
    OutItself(s, p, f, b, s');
    SwappedMore(s.pte, p, SwapEntry(b));
    forall q | 0 <= q < |s.pte|
      ensures ContentOf(s', q) == ContentOf(s, q)
    {
      if q != p && Present(s.pte[q]) {
        KeptFrame(s, p, f, b, s', q);
      } else if q != p && Swapped(s.pte[q]) {
        KeptRun(s, p, f, b, s', q);
      }
    }
  }

  lemma OutItself(s: Store, p: nat, f: nat, b: nat, s': Store)
    requires Inv(s) && p < |s.pte| && SwapsOut(s, p, f, b, s')
    ensures !Swapped(s.pte[p]) && Swapped(s'.pte[p]) && !Present(s'.pte[p]) && Field(s'.pte[p]) == b
    ensures f < |s.frames| && PageAt(s'.disk, b) == s.frames[f]
  {
    hide PageAt;
  }

  // The run that another swapped page holds stays in use, apart from the new one and as it was.
  lemma KeptRun(s: Store, p: nat, f: nat, b: nat, s': Store, q: nat)
    requires Inv(s) && p < |s.pte| && SwapsOut(s, p, f, b, s') && q < |s.pte| && q != p && Swapped(s.pte[q])
    ensures DisjointRuns(Field(s.pte[q]), b) && UsedRun(s'.bits, Field(s.pte[q]))
    ensures |s'.disk| == |s.disk| && PageAt(s'.disk, Field(s.pte[q])) == PageAt(s.disk, Field(s.pte[q]))
  {
    hide PageAt, SwapEntry;
    ApartFromFree(s.bits, Field(s.pte[q]), b);
    PageSame(s.disk, s'.disk, Field(s.pte[q]));
  }

  lemma KeptFrame(s: Store, p: nat, f: nat, b: nat, s': Store, q: nat)
    requires Inv(s) && p < |s.pte| && SwapsOut(s, p, f, b, s') && q < |s.pte| && q != p && Present(s.pte[q])
    ensures Field(s.pte[q]) < |s.frames| == |s'.frames| && s'.frames[Field(s.pte[q])] == s.frames[Field(s.pte[q])]
    ensures !Swapped(s.pte[q])
  {
    hide PageAt, SwapEntry;
    if q < p {
      assert Field(s.pte[q]) != Field(s.pte[p]);
    }
  }

  lemma PresentFrame(s: Store, p: nat)
    requires FramesApart(s) && p < |s.pte| && Present(s.pte[p])
    ensures Field(s.pte[p]) < |s.frames| && !Swapped(s.pte[p])
  {
  }

  lemma OutRuns(s: Store, p: nat, f: nat, b: nat, s': Store)
    requires Inv(s) && p < |s.pte| && SwapsOut(s, p, f, b, s')
    ensures RunsApart(s')
  {
    hide PageAt, SwapEntry;
    forall q | 0 <= q < |s.pte| && q != p && Swapped(s.pte[q])
      ensures DisjointRuns(Field(s.pte[q]), b) && UsedRun(s'.bits, Field(s.pte[q]))
    {
      KeptRun(s, p, f, b, s', q);
    }
    assert UsedRun(s'.bits, b);
  }

  lemma OutFrames(s: Store, p: nat, f: nat, b: nat, s': Store)
    requires Inv(s) && p < |s.pte| && SwapsOut(s, p, f, b, s')
    ensures FramesApart(s')
  {
    hide PageAt, SwapEntry, RunSet, BlocksKept;
    PresentFrame(s, p);
    forall q | 0 <= q < |s.pte| && q != p && Present(s.pte[q])
      ensures Field(s.pte[q]) != f
    {
      if q < p { assert Field(s.pte[q]) != Field(s.pte[p]); }
    }
  }

  lemma ApartFromFree(bits: seq<bool>, b: nat, c: nat)
    requires UsedRun(bits, b) && FreeRun(bits, c)
    ensures DisjointRuns(b, c)
  {
    assert bits[b] && !bits[c];
  }

  lemma PageSame(disk: seq<Block>, disk': seq<Block>, b: nat)
    requires b + RUN <= |disk| == |disk'|
    requires forall i :: b <= i < b + RUN ==> disk'[i] == disk[i]
    ensures PageAt(disk', b) == PageAt(disk, b)
  {
    JoinSame(disk, disk', b, RUN);
  }

  /** Swapping a page in keeps the invariant and the content of every page. */
  lemma SwapInKeeps(s: Store, p: nat, f: nat, s': Store)
    requires Inv(s) && p < |s.pte| && SwapsIn(s, p, f, s')
    ensures Inv(s')
    ensures forall q :: 0 <= q < |s.pte| ==> ContentOf(s', q) == ContentOf(s, q)
  {
    hide PageAt, FrameEntry;
    SwappedMore(s.pte, p, FrameEntry(f));
    var b := Field(s.pte[p]);
    assert UsedRun(s.bits, b);
    forall q | 0 <= q < |s.pte| && q != p && Swapped(s.pte[q])
      ensures UsedRun(s'.bits, Field(s.pte[q]))
    {
      assert DisjointRuns(Field(s.pte[q]), b);
    }
    assert RunsApart(s');
    assert FramesApart(s');
  }

  /** A page mapped on demand appears zeroed, and no other page changes. A page that was
      there already loses its content, and its frame is neither mapped nor free. */
  lemma ZeroFillKeeps(s: Store, p: nat, f: nat, s': Store)
    requires Inv(s) && p < |s.pte| && ZeroFills(s, p, f, s')
    ensures Inv(s')
    ensures forall q :: 0 <= q < |s.pte| ==>
      ContentOf(s', q) == if q == p then Mapped(Fill(PGSIZE, 0)) else ContentOf(s, q)
    ensures Present(s.pte[p]) ==> Lost(s', Field(s.pte[p]))
  {
    hide PageAt, FrameEntry;
    SwappedSame(s.pte, p, FrameEntry(f));
    assert RunsApart(s');
    assert FramesApart(s');
  }

  // ---- runs ----

  ghost predicate Swap(s: Store, s': Store) {
    && Inv(s) && |s'.pte| == |s.pte|
    && ((exists p, f, b :: 0 <= p < |s.pte| && SwapsOut(s, p, f, b, s'))
        || (exists p, f :: 0 <= p < |s.pte| && SwapsIn(s, p, f, s')))
  }

  ghost predicate Swaps(trace: seq<Store>) {
    |trace| > 0 && Inv(trace[0]) && forall i :: 0 <= i < |trace| - 1 ==> Swap(trace[i], trace[i + 1])
  }

  /** Over any run of swap-outs and swap-ins, no page changes its content. */
  lemma {:induction false} RunTransparent(trace: seq<Store>, q: nat)
    requires Swaps(trace) && q < |trace[0].pte|
    ensures var s := trace[|trace| - 1];
      Inv(s) && |s.pte| == |trace[0].pte| && ContentOf(s, q) == ContentOf(trace[0], q)
    decreases |trace|
  {
    hide Inv, ContentOf, Swap;
    if |trace| > 1 {
      var front := trace[..|trace| - 1];
      assert forall i :: 0 <= i < |front| - 1 ==> Swap(trace[i], trace[i + 1]);
      RunTransparent(front, q);
      var i := |trace| - 2;
      var s, s' := trace[i], trace[i + 1];
      assert Swap(s, s');
      OneSwap(s, s', q);
    }
  }

  lemma OneSwap(s: Store, s': Store, q: nat)
    requires Swap(s, s') && q < |s.pte|
    ensures Inv(s') && |s'.pte| == |s.pte| && ContentOf(s', q) == ContentOf(s, q)
  {
    if p, f, b :| 0 <= p < |s.pte| && SwapsOut(s, p, f, b, s') {
      SwapOutKeeps(s, p, f, b, s');
    } else {
      var p, f :| 0 <= p < |s.pte| && SwapsIn(s, p, f, s');
      SwapInKeeps(s, p, f, s');
    }
  }

  // ---- access ----

  // PTE_W and PTE_U both: the process may read and write the page.
  predicate Open(w: Word) { Writable(w) && ForUser(w) }

  predicate Writable(w: Word) { w / 2 % 2 == 1 }

  predicate ForUser(w: Word) { w / 4 % 2 == 1 }

  lemma FrameOpen(f: nat)
    requires f < 0x10_0000
    ensures Open(FrameEntry(f))
  {
    var w: nat := FrameEntry(f);
    assert w == f * 4096 + 7;
    Over(2, w, f * 2048 + 3, 1);
    Parity(f * 2048 + 3, f * 1024 + 1, 1);
    Over(4, w, f * 1024 + 1, 3);
    Parity(f * 1024 + 1, f * 512, 1);
  }

  lemma Over(m: nat, w: nat, q: nat, r: nat)
    requires (m == 2 || m == 4) && w == q * m + r && r < m
    ensures w / m == q
  {
  }

  // A page that is present has the entry it had, or it has been swapped in and is open.
  lemma OneSwapEntry(s: Store, s': Store, q: nat)
    requires Swap(s, s') && q < |s.pte|
    ensures |s'.pte| == |s.pte|
    ensures s'.pte[q] == s.pte[q] || (Swapped(s.pte[q]) && Open(s'.pte[q])) || Swapped(s'.pte[q])
  {
    hide Open, Swapped, PageAt, FrameEntry, SwapEntry;
    if p, f :| 0 <= p < |s.pte| && SwapsIn(s, p, f, s') && p == q {
      FrameOpen(f);
    }
  }

  // Has page q been on disk at some time?
  ghost predicate WasSwapped(trace: seq<Store>, q: nat) {
    exists i :: 0 <= i < |trace| && q < |trace[i].pte| && Swapped(trace[i].pte[q])
  }

  lemma {:induction false} RunEntry(trace: seq<Store>, q: nat)
    requires Swaps(trace) && q < |trace[0].pte|
    ensures var t := trace[|trace| - 1];
      && |t.pte| == |trace[0].pte|
      && (WasSwapped(trace, q) ==> Swapped(t.pte[q]) || Open(t.pte[q]))
      && (!WasSwapped(trace, q) ==> t.pte[q] == trace[0].pte[q])
    decreases |trace|
  {
    hide Inv, Swap, Open, Swapped;
    if |trace| > 1 {
      var n := |trace| - 1;
      var front := trace[..n];
      assert forall i :: 0 <= i < |front| - 1 ==> Swap(trace[i], trace[i + 1]);
      RunEntry(front, q);
      assert Swap(trace[n - 1], trace[n]);
      OneSwapEntry(trace[n - 1], trace[n], q);
      assert trace[n - 1] == front[n - 1];
      if i :| 0 <= i < |trace| && q < |trace[i].pte| && Swapped(trace[i].pte[q]) {
        assert i < n ==> front[i] == trace[i];
      }
    }
  }

  /** A page that has been swapped out and in is open to its process whatever it was before:
      the flags are not kept on disk. So its access is what it was exactly if it has not been
      on disk or was open at first. */
  lemma AccessKeptIff(trace: seq<Store>, q: nat)
    requires Swaps(trace) && q < |trace[0].pte| && Present(trace[0].pte[q])
    requires var t := trace[|trace| - 1]; q < |t.pte| && Present(t.pte[q])
    ensures var t := trace[|trace| - 1];
      (Writable(t.pte[q]) == Writable(trace[0].pte[q]) && ForUser(t.pte[q]) == ForUser(trace[0].pte[q]))
      <==> !WasSwapped(trace, q) || Open(trace[0].pte[q])
  {
    hide Writable, ForUser, Inv, WasSwapped, Swap, ContentOf;
    RunEntry(trace, q);
    RunTransparent(trace, q);
    PresentStays(trace[|trace| - 1], q);
  }

  lemma PresentStays(s: Store, q: nat)
    requires Inv(s) && q < |s.pte| && Present(s.pte[q])
    ensures !Swapped(s.pte[q])
  {
  }
}
