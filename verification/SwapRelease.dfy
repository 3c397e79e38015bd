// xv7/vm.c, deallocuvm: what giving up the pages of a range does to the state of SwapState,
// when that keeps the invariant, and what goes wrong when it does not.
module SwapRelease {
  import opened Helpers
  import opened SwapState

  // bfree of the eight blocks from b on.
  function ClearRun(bits: seq<bool>, b: nat): (r: seq<bool>)
    requires b + RUN <= |bits|
    ensures RunSet(bits, r, b, false)
  {
    bits[..b] + seq(RUN, _ => false) + bits[b + RUN..]
  }

  lemma ClearRunIs(bits: seq<bool>, r: seq<bool>, b: nat)
    requires b + RUN <= |bits| && RunSet(bits, r, b, false)
    ensures r == ClearRun(bits, b)
  {
  }

  // kfree's fill.
  function Junk(): Page { Fill(PGSIZE, 1) }

  // One page of the range: None is bfree's or kfree's panic. The entry of a swapped page
  // stays as it is.
  function DropAt(s: Store, p: nat): Option<Store>
    requires p < |s.pte|
  {
    var w := s.pte[p];
    if Swapped(w) then
      if UsedRun(s.bits, Field(w)) then Some(s.(bits := ClearRun(s.bits, Field(w)), count := s.count - 1)) else None
    else if Present(w) then
      if Field(w) < |s.frames| then
        Some(s.(frames := s.frames[Field(w) := Junk()], free := s.free + {Field(w)}, pte := s.pte[p := 0]))
      else None
    else Some(s)
  }

  // The pages from a up to b.
  function Drop(s: Store, a: nat, b: nat): (r: Option<Store>)
    requires b <= |s.pte|
    ensures r.Some? ==> |r.value.pte| == |s.pte|
    decreases b - a
  {
    if a >= b then Some(s)
    else
      var r := DropAt(s, a);
      if r.None? then r else Drop(r.value, a + 1, b)
  }

  // Is a page of the range swapped? A caller can look before the call.
  predicate SomeSwapped(pte: seq<Word>, a: nat, b: nat)
    requires b <= |pte|
  {
    exists p :: a <= p < b && Swapped(pte[p])
  }

  lemma NotSwappedDrop(s: Store, p: nat)
    requires Inv(s) && p < |s.pte| && !Swapped(s.pte[p])
    ensures DropAt(s, p).Some? && Inv(DropAt(s, p).value)
    ensures forall q :: 0 <= q < |s.pte| ==>
      ContentOf(DropAt(s, p).value, q) == if q == p then Unmapped else ContentOf(s, q)
  {
    hide PageAt;
    if Present(s.pte[p]) {
      var t := DropAt(s, p).value;
      assert !Swapped(0) && !Present(0);
      SwappedSame(s.pte, p, 0);
      assert FramesApart(t) && RunsApart(t);
    }
  }

  // Blocks of runs only become free, and no entry becomes swapped or present.
  ghost predicate Shrunk(s: Store, t: Store) {
    && |t.pte| == |s.pte| && |t.bits| == |s.bits|
    && (forall i :: 0 <= i < |s.bits| && t.bits[i] ==> s.bits[i])
    && (forall q :: 0 <= q < |s.pte| ==> (Swapped(t.pte[q]) <==> Swapped(s.pte[q])))
    && (forall q :: 0 <= q < |s.pte| && Swapped(s.pte[q]) ==> t.pte[q] == s.pte[q])
    && (forall q :: 0 <= q < |s.pte| && Present(t.pte[q]) ==> t.pte[q] == s.pte[q])
  }

  // Where an entry is both swapped and present, deallocuvm takes it for swapped.
  lemma {:induction false} DropShrinks(s: Store, a: nat, b: nat)
    requires b <= |s.pte| && Drop(s, a, b).Some?
    ensures Shrunk(s, Drop(s, a, b).value)
    decreases b - a
  {
    hide Shrunk, DropAt;
    if a < b {
      var t := DropAt(s, a).value;
      DropAtShrinks(s, a);
      DropShrinks(t, a + 1, b);
      ShrunkThen(s, t, Drop(t, a + 1, b).value);
    } else {
      ShrunkSelf(s);
    }
  }

  lemma ShrunkSelf(s: Store)
    ensures Shrunk(s, s)
  {
  }

  lemma DropAtShrinks(s: Store, p: nat)
    requires p < |s.pte| && DropAt(s, p).Some?
    ensures Shrunk(s, DropAt(s, p).value)
  {
    assert !Swapped(0) && !Present(0);
  }

  lemma ShrunkThen(s: Store, t: Store, u: Store)
    requires Shrunk(s, t) && Shrunk(t, u)
    ensures Shrunk(s, u)
  {
  }

  // A swapped page of the range has lost its run when the range is done.
  lemma {:induction false} DropFrees(s: Store, a: nat, b: nat, p: nat)
    requires b <= |s.pte| && a <= p < b && Swapped(s.pte[p]) && Drop(s, a, b).Some?
    ensures var t := Drop(s, a, b).value;
      |t.pte| == |s.pte| && Swapped(t.pte[p]) && t.pte[p] == s.pte[p] && !UsedRun(t.bits, Field(t.pte[p]))
    decreases b - a
  {
    var t := DropAt(s, a).value;
    DropAtShrinks(s, a);
    if a == p {
      DropShrinks(t, a + 1, b);
      assert !t.bits[Field(s.pte[p])];
    } else {
      DropFrees(t, a + 1, b, p);
    }
  }

  // With every page of the range still on its own run, nothing panics.
  lemma {:induction false} DropWorks(s: Store, a: nat, b: nat)
    requires b <= |s.pte| && FramesApart(s) && Owning(s, a, b)
    ensures Drop(s, a, b).Some?
    decreases b - a
  {
    hide FramesApart;
    if a < b {
      DropAtWorks(s, a, b);
      DropWorks(DropAt(s, a).value, a + 1, b);
    }
  }

  // The swapped pages of the range hold runs of their own.
  ghost predicate Owning(s: Store, a: nat, b: nat) {
    && (forall p :: a <= p < b && p < |s.pte| && Swapped(s.pte[p]) ==> UsedRun(s.bits, Field(s.pte[p])))
    && (forall p, q :: a <= p < q < b && q < |s.pte| && Swapped(s.pte[p]) && Swapped(s.pte[q]) ==>
                         DisjointRuns(Field(s.pte[p]), Field(s.pte[q])))
  }

  lemma DropAtWorks(s: Store, a: nat, b: nat)
    requires a < b <= |s.pte| && FramesApart(s) && Owning(s, a, b)
    ensures DropAt(s, a).Some?
    ensures var t := DropAt(s, a).value; |t.pte| == |s.pte| && FramesApart(t) && Owning(t, a + 1, b)
  {
    var t := DropAt(s, a).value;
    assert !Swapped(0) && !Present(0);
    FramesKeptAt(s, a);
    forall p | a + 1 <= p < b && Swapped(t.pte[p])
      ensures UsedRun(t.bits, Field(t.pte[p]))
    {
      assert t.pte[p] == s.pte[p];
      if Swapped(s.pte[a]) { assert DisjointRuns(Field(s.pte[a]), Field(s.pte[p])); }
    }
  }

  lemma FramesKeptAt(s: Store, p: nat)
    requires p < |s.pte| && FramesApart(s) && DropAt(s, p).Some?
    ensures FramesApart(DropAt(s, p).value)
  {
    assert !Swapped(0) && !Present(0);
  }

  lemma {:induction false} DropKeeps(s: Store, a: nat, b: nat)
    requires Inv(s) && b <= |s.pte| && !SomeSwapped(s.pte, a, b)
    ensures Drop(s, a, b).Some? && Inv(Drop(s, a, b).value)
    ensures forall q :: 0 <= q < |s.pte| ==>
      ContentOf(Drop(s, a, b).value, q) == if a <= q < b then Unmapped else ContentOf(s, q)
    decreases b - a
  {
    hide Inv, DropAt, ContentOf;
    if a < b {
      assert !Swapped(s.pte[a]);
      NotSwappedDrop(s, a);
      var t := DropAt(s, a).value;
      StillNone(s, a, b);
      DropKeeps(t, a + 1, b);
    }
  }

  lemma StillNone(s: Store, a: nat, b: nat)
    requires a < b <= |s.pte| && DropAt(s, a).Some? && !SomeSwapped(s.pte, a, b)
    ensures |DropAt(s, a).value.pte| == |s.pte| && !SomeSwapped(DropAt(s, a).value.pte, a + 1, b)
  {
    var t := DropAt(s, a).value;
    forall p | a + 1 <= p < b
      ensures !Swapped(t.pte[p])
    {
      assert t.pte[p] == s.pte[p];
    }
  }

  /** deallocuvm never panics while every page is where the invariant says; and it keeps the
      invariant if and only if no page of the range is swapped. Then the pages of the range
      are unmapped and all others keep their content. */
  lemma DropKeepsIff(s: Store, a: nat, b: nat)
    requires Inv(s) && b <= |s.pte|
    ensures Drop(s, a, b).Some?
    ensures Inv(Drop(s, a, b).value) <==> !SomeSwapped(s.pte, a, b)
    ensures !SomeSwapped(s.pte, a, b) ==> forall q :: 0 <= q < |s.pte| ==>
      ContentOf(Drop(s, a, b).value, q) == if a <= q < b then Unmapped else ContentOf(s, q)
  {
    hide ContentOf, Drop;
    if SomeSwapped(s.pte, a, b) {
      DropWorks(s, a, b);
      var p :| a <= p < b && Swapped(s.pte[p]);
      DropFrees(s, a, b, p);
    } else {
      DropKeeps(s, a, b);
    }
  }

  // ---- the second time

  /** A page whose run is no longer in use makes deallocuvm panic. */
  lemma {:induction false} StalePanics(s: Store, a: nat, b: nat, p: nat)
    requires b <= |s.pte| && a <= p < b && Swapped(s.pte[p]) && !UsedRun(s.bits, Field(s.pte[p]))
    ensures Drop(s, a, b).None?
    decreases b - a
  {
    if a < p && DropAt(s, a).Some? {
      DropAtShrinks(s, a);
      StalePanics(DropAt(s, a).value, a + 1, b, p);
    }
  }

  /** So shrinking over a swapped page and then freeing the space that held it panics, as
      long as nothing has taken its blocks meanwhile. */
  lemma SecondDropPanics(s: Store, a: nat, b: nat, c: nat, d: nat, p: nat)
    requires Inv(s) && b <= |s.pte| && d <= |s.pte| && a <= p < b && c <= p < d && Swapped(s.pte[p])
    ensures Drop(s, a, b).Some? && Drop(Drop(s, a, b).value, c, d).None?
  {
    hide Drop, Inv;
    DropKeepsIff(s, a, b);
    DropFrees(s, a, b, p);
    StalePanics(Drop(s, a, b).value, c, d, p);
  }

  // Does block i belong to the run that a swapped page of the range names?
  ghost predicate InRunOf(pte: seq<Word>, a: nat, b: nat, i: nat)
    requires b <= |pte|
  {
    exists p :: a <= p < b && Swapped(pte[p]) && Field(pte[p]) <= i < Field(pte[p]) + RUN
  }

  /** What deallocuvm frees are exactly the blocks of the runs that its range names, whoever
      holds them by then. */
  lemma {:induction false} DropTakes(s: Store, a: nat, b: nat, i: nat)
    requires b <= |s.pte| && Drop(s, a, b).Some? && i < |s.bits|
    ensures |Drop(s, a, b).value.bits| == |s.bits|
    ensures Drop(s, a, b).value.bits[i] <==> s.bits[i] && !InRunOf(s.pte, a, b, i)
    decreases b - a
  {
    if a < b {
      var t := DropAt(s, a).value;
      DropTakes(t, a + 1, b, i);
      forall p | a < p < b
        ensures t.pte[p] == s.pte[p]
      {
      }
      assert InRunOf(s.pte, a, b, i) <==>
        InRunOf(t.pte, a + 1, b, i) || (Swapped(s.pte[a]) && Field(s.pte[a]) <= i < Field(s.pte[a]) + RUN);
    }
  }

  lemma {:induction false} DropKeepsEntry(s: Store, a: nat, b: nat, q: nat)
    requires b <= |s.pte| && Drop(s, a, b).Some? && q < |s.pte| && Swapped(s.pte[q])
    ensures Drop(s, a, b).value.pte[q] == s.pte[q]
    decreases b - a
  {
    if a < b {
      DropKeepsEntry(DropAt(s, a).value, a + 1, b, q);
    }
  }

  /** Blocks given to somebody else meanwhile are freed under him: a file's block that lies in
      a run the range names, and the run of any page, in the range or not, that shares a block
      with one. That page still names the run, which is no longer in use. */
  lemma StealsRun(s: Store, a: nat, b: nat, q: nat, i: nat)
    requires b <= |s.pte| && Drop(s, a, b).Some? && q < |s.pte| && Swapped(s.pte[q])
    requires InRunOf(s.pte, a, b, i) && Field(s.pte[q]) <= i < Field(s.pte[q]) + RUN && i < |s.bits|
    ensures var t := Drop(s, a, b).value;
      t.pte[q] == s.pte[q] && |t.bits| == |s.bits| && !t.bits[i] && !UsedRun(t.bits, Field(t.pte[q]))
  {
    hide Drop, InRunOf;
    DropTakes(s, a, b, i);
    DropKeepsEntry(s, a, b, q);
  }

  /** And that happens: page 0 is swapped to the only run, page 1 is present; 0 is given up,
      1 is swapped out, to the same run, and 0 is given up again. */
  lemma StolenRun(page: Page, block: Block) returns (s0: Store, s1: Store, s2: Store, s3: Store)
    ensures |s0.pte| == |s1.pte| == |s2.pte| == |s3.pte| == 2
    ensures FramesApart(s1) && |s1.disk| == |s1.bits| <= 0x10_0000
    ensures Inv(s0) && Drop(s0, 0, 1) == Some(s1) && SwapsOut(s1, 1, 0, 0, s2) && Drop(s2, 0, 1) == Some(s3)
    ensures Swapped(s3.pte[1]) && !UsedRun(s3.bits, Field(s3.pte[1]))
  {
    var disk: seq<Block> := seq(RUN, _ => block);
    s0 := Store([page], {}, [SwapEntry(0), FrameEntry(0)], seq(RUN, _ => true), disk, 1);
    assert SwappedSet(s0.pte) == {0};
    assert RunsApart(s0) && FramesApart(s0);
    s1 := s0.(bits := ClearRun(s0.bits, 0), count := 0);
    assert DropAt(s0, 0) == Some(s1);
    assert Drop(s0, 0, 1) == Drop(s1, 1, 1);
    var pieces: seq<Block> := seq(RUN, i requires 0 <= i < RUN => Piece(page, i));
    JoinPieces(pieces, 0, page, RUN);
    assert page[..RUN * BSIZE] == page;
    s2 := Store([page], {0}, [SwapEntry(0), SwapEntry(0)], seq(RUN, _ => true), pieces, 1);
    assert s1.pte[1 := SwapEntry(0)] == s2.pte;
    assert FreeRun(s1.bits, 0);
    s3 := s2.(bits := ClearRun(s2.bits, 0), count := 0);
    assert DropAt(s2, 0) == Some(s3);
    assert Drop(s2, 0, 1) == Drop(s3, 1, 1);
    assert InRunOf(s2.pte, 0, 1, 0);
    StealsRun(s2, 0, 1, 1, 0);
  }
}
