// xv7/fs.c balloc, balloc_page, bfree_page, bfree; xv7/bio.c write_page_to_disk
// and read_page_from_disk; xv7/paging.c swap_page_from_pte and map_address; and
// what xv7/vm.c deallocuvm does with a swapped page.

module Swapping {
  import opened Helpers
  import opened SwapState
  import opened SwapRelease

  const LIMIT: nat := 100000            // allocatedBlocks

  datatype Alloc = Got(b: nat) | OutOfBlocks | Overrun

  datatype MapResult = Restored(f: nat) | Zeroed(f: nat) | Leaked(f: nat) | Panicked(r: Alloc)

  // ---- free blocks in order ----

  function FreeUpto(bits: seq<bool>, n: nat): seq<nat>
    requires n <= |bits|
  {
    if n == 0 then [] else FreeUpto(bits, n - 1) + if bits[n - 1] then [] else [n - 1]
  }

  // They are the free blocks below n, each once.
  lemma {:induction false} FreeMembers(bits: seq<bool>, n: nat)
    requires n <= |bits|
    ensures forall i :: i in FreeUpto(bits, n) ==> i < n && !bits[i]
    ensures forall i :: 0 <= i < n && !bits[i] ==> i in FreeUpto(bits, n)
    ensures forall i, j :: 0 <= i < j < |FreeUpto(bits, n)| ==> FreeUpto(bits, n)[i] != FreeUpto(bits, n)[j]
  {
    if n > 0 {
      FreeMembers(bits, n - 1);
      var s, f := FreeUpto(bits, n), FreeUpto(bits, n - 1);
      assert s == if bits[n - 1] then f else f + [n - 1];
      assert forall i :: 0 <= i < |f| ==> f[i] in f;
    }
  }

  lemma {:induction false} FreeNext(bits: seq<bool>, n: nat, b: nat)
    requires n <= b <= |bits| && forall c :: n <= c < b ==> bits[c]
    ensures FreeUpto(bits, b) == FreeUpto(bits, n)
    decreases b
  {
    if n < b {
      FreeNext(bits, n, b - 1);
      assert bits[b - 1];
    }
  }

  lemma {:induction false} FreeGrows(bits: seq<bool>, m: nat, n: nat)
    requires m <= n <= |bits|
    ensures |FreeUpto(bits, m)| <= |FreeUpto(bits, n)|
    decreases n
  {
    if m < n { FreeGrows(bits, m, n - 1); }
  }

  lemma {:induction false} FreeBlocks(bits: seq<bool>, n: nat, k: nat)
    requires k <= n <= |bits| && forall c :: n - k <= c < n ==> !bits[c]
    ensures |FreeUpto(bits, n)| == |FreeUpto(bits, n - k)| + k
    ensures FreeUpto(bits, n)[..|FreeUpto(bits, n)| - k] == FreeUpto(bits, n - k)
    ensures k > 0 ==> FreeUpto(bits, n)[|FreeUpto(bits, n)| - k] == n - k
    decreases k
  {
    if k > 0 {
      FreeBlocks(bits, n - 1, k - 1);
      assert !bits[n - 1];
      var s, f := FreeUpto(bits, n), FreeUpto(bits, n - 1);
      assert s == f + [n - 1];
      assert s[..|s| - k] == f[..|f| - (k - 1)];
    }
  }

  // bits is was with the free blocks below n taken.
  ghost predicate TakenUpto(was: seq<bool>, bits: seq<bool>, n: nat) {
    |bits| == |was| && forall i :: 0 <= i < |was| ==> bits[i] == (was[i] || i < n)
  }

  // The last k blocks below n are free, and the one before them is not.
  ghost predicate LastRun(was: seq<bool>, n: nat, k: nat) {
    && k <= n <= |was|
    && (forall c :: n - k <= c < n ==> !was[c])
    && (0 < k < n ==> was[n - k - 1])
    && (k == 0 ==> n == 0)
  }

  ghost predicate NoRunBelow(was: seq<bool>, n: nat) {
    forall c :: 0 <= c && c + RUN <= n ==> !FreeRun(was, c)
  }

  lemma RunGrows(was: seq<bool>, n: nat, k: nat, b: nat)
    requires LastRun(was, n, k) && NoRunBelow(was, n) && k < RUN
    requires n <= b < |was| && !was[b] && forall c :: n <= c < b ==> was[c]
    ensures var k' := if k > 0 && b == n then k + 1 else 1;
      LastRun(was, b + 1, k') && (k' < RUN ==> NoRunBelow(was, b + 1))
      && (k' == RUN ==> Lowest(was, b + 1 - RUN))
  {
    var k' := if k > 0 && b == n then k + 1 else 1;
    assert LastRun(was, b + 1, k');
    forall c | 0 <= c && c + RUN <= b
      ensures !FreeRun(was, c)
    {
      if c + RUN > n { assert was[c + RUN - 1]; }
    }
    if k' < RUN && RUN <= b + 1 {
      assert was[b + 1 - k' - 1];
      assert !FreeRun(was, b + 1 - RUN);
    }
  }

  // Why balloc_page gave no page: no run of eight is free, or more than LIMIT blocks are free
  // up to the end of each.
  ghost predicate NoPage(bits: seq<bool>, r: Alloc) {
    && (r.OutOfBlocks? ==> forall c :: 0 <= c < |bits| ==> !FreeRun(bits, c))
    && (r.Overrun? ==> forall c :: 0 <= c < |bits| && FreeRun(bits, c) ==> |FreeUpto(bits, c + RUN)| > LIMIT)
  }

  class Swapper {
    var frames: seq<Page>
    var freelist: seq<nat>
    var pte: seq<Word>                  // of all address spaces
    const tables: set<nat>              // page tables that exist
    var bits: seq<bool>
    var disk: seq<Block>
    var numallocblocks: int

    ghost function FreeSet(): set<nat>
      reads this
    {
      set f | f in freelist
    }

    ghost function S(): Store
      reads this
    {
      Store(frames, FreeSet(), pte, bits, disk, numallocblocks)
    }

    // What deallocuvm needs of the state, also of one that it has itself left behind.
    ghost predicate Droppable()
      reads this
    {
      && FramesApart(S())
      && (forall p :: 0 <= p < |pte| && Swapped(pte[p]) ==> Field(pte[p]) + RUN <= |bits|)
      && (forall p :: 0 <= p < |pte| && p / 1024 !in tables ==> !Swapped(pte[p]) && !Present(pte[p]))
      && (forall i, j :: 0 <= i < j < |freelist| ==> freelist[i] != freelist[j])
    }

    ghost predicate Valid()
      reads this
    {
      Inv(S()) && Droppable()
    }

    // ---- blocks ----

    method Balloc() returns (ok: bool, b: nat)
      requires |disk| == |bits|
      modifies this`bits, this`disk
      ensures |disk| == |bits| == |old(bits)|
      ensures ok ==> b < |bits| && !old(bits)[b] && forall c :: 0 <= c < b ==> old(bits)[c]
      ensures ok ==> bits == old(bits)[b := true] && disk == old(disk)[b := Fill(BSIZE, 0)]
      ensures !ok ==> bits == old(bits) && disk == old(disk) && forall c :: 0 <= c < |bits| ==> bits[c]
    {
      ok, b := false, 0;
      while b < |bits|
        invariant b <= |bits| && bits == old(bits) && disk == old(disk)
        invariant forall c :: 0 <= c < b ==> bits[c]
      {
        if !bits[b] {
          bits, disk := bits[b := true], disk[b := Fill(BSIZE, 0)];
          ok := true;
          return;
        }
        b := b + 1;
      }
    }

    // Without the block in use, bfree panics.
    method Bfree(b: nat) returns (ok: bool)
      requires b < |bits|
      modifies this`bits
      ensures ok == old(bits)[b]
      ensures bits == if ok then old(bits)[b := false] else old(bits)
    {
      ok := bits[b];
      if ok {
        bits := bits[b := false];
      }
    }

    // The first loop of balloc_page: blocks are taken from the lowest on until
    // eight in a row have been.
    method TakeRun() returns (r: Alloc, taken: seq<nat>, ghost n: nat)
      requires |disk| == |bits|
      modifies this`bits, this`disk
      ensures |disk| == |bits| == |old(bits)|
      ensures forall i :: 0 <= i < |bits| && old(bits)[i] ==> disk[i] == old(disk)[i]
      ensures r.Got? ==>
        && RUN <= n <= |bits| && Lowest(old(bits), n - RUN) && r.b == n - RUN
        && taken == FreeUpto(old(bits), n) && |taken| <= LIMIT
        && TakenUpto(old(bits), bits, n)
      ensures r.OutOfBlocks? ==> forall c :: 0 <= c < |bits| ==> !FreeRun(old(bits), c)
      ensures r.Overrun? ==> forall c :: 0 <= c < |bits| && FreeRun(old(bits), c) ==>
        |FreeUpto(old(bits), c + RUN)| > LIMIT
    {
      hide Lowest, FreeRun, FreeUpto, LastRun, NoRunBelow, TakenUpto;
      ghost var was := bits;
      n, taken := 0, [];
      var i, last := 0, 0;
      NoRun(was);
      while i < RUN
        invariant 0 <= i <= RUN && n <= |was| && |disk| == |bits| == |was|
        invariant taken == FreeUpto(was, n) && TakenUpto(was, bits, n)
        invariant |taken| <= LIMIT && LastRun(was, n, i)
        invariant i > 0 ==> last + 1 == n
        invariant i < RUN ==> NoRunBelow(was, n)
        invariant i == RUN ==> RUN <= n && Lowest(was, n - RUN)
        invariant forall j :: 0 <= j < |bits| && was[j] ==> disk[j] == old(disk)[j]
        decreases |was| - n
      {
        ghost var before := bits;
        var ok, b := Balloc();
        if !ok {
          NoneLeft(was, before, n);
          return OutOfBlocks, taken, n;
        }
        NextFree(was, before, n, b);
        if |taken| == LIMIT {
          TooMany(was, n, b);
          return Overrun, taken, n;
        }
        RunGrows(was, n, i, b);
        TakeOne(was, before, n, b);
        taken := taken + [b];
        if i > 0 && b - last != 1 {
          i := 0;
        }
        i, n, last := i + 1, b + 1, b;
      }
      r := Got(last + 1 - RUN);
    }

    // The second loop: all that was taken but the last eight is given back.
    method FreeSurplus(taken: seq<nat>, ghost was: seq<bool>, ghost n: nat)
      requires n <= |was| && taken == FreeUpto(was, n) && |taken| >= RUN
      requires TakenUpto(was, bits, n)
      requires RUN <= n && FreeUpto(was, n)[..|taken| - RUN] == FreeUpto(was, n - RUN)
      requires forall c :: n - RUN <= c < n ==> !was[c]
      modifies this`bits
      ensures |bits| == |was| && RunSet(was, bits, n - RUN, true)
    {
      hide FreeUpto;
      FreeMembers(was, n);
      FreeMembers(was, n - RUN);
      ghost var surplus := taken[..|taken| - RUN];
      var j := 0;
      while j < |taken| - RUN
        invariant 0 <= j <= |surplus| && |bits| == |was|
        invariant forall k :: 0 <= k < |bits| ==> bits[k] == (was[k] || (k < n && k !in surplus[..j]))
      {
        assert taken[j] in taken && surplus[j] == taken[j];
        assert surplus[..j + 1] == surplus[..j] + [surplus[j]];
        var ok := Bfree(taken[j]);
        j := j + 1;
      }
      assert surplus[..j] == surplus;
    }

    /** balloc_page: the lowest run of eight free blocks, provided that it exists
        and that no more than LIMIT blocks are free up to its end; all other
        bits are as before, and no block in use is written. */
    method BallocPage() returns (r: Alloc)
      requires |disk| == |bits|
      modifies this`bits, this`disk, this`numallocblocks
      ensures |disk| == |bits| == |old(bits)|
      ensures forall i :: 0 <= i < |bits| && old(bits)[i] ==> disk[i] == old(disk)[i]
      ensures r.Got? ==> Lowest(old(bits), r.b) && |FreeUpto(old(bits), r.b + RUN)| <= LIMIT
      ensures r.Got? ==> RunSet(old(bits), bits, r.b, true) && numallocblocks == old(numallocblocks) + 1
      ensures r.OutOfBlocks? ==> forall c :: 0 <= c < |bits| ==> !FreeRun(old(bits), c)
      ensures r.Overrun? ==> forall c :: 0 <= c < |bits| && FreeRun(old(bits), c) ==>
        |FreeUpto(old(bits), c + RUN)| > LIMIT
    {
      hide FreeUpto, RunSet, TakenUpto;
      ghost var was, n := bits, 0;
      var taken;
      r, taken, n := TakeRun();
      if r.Got? {
        FreeBlocks(was, n, RUN);
        FreeSurplus(taken, was, n);
        numallocblocks := numallocblocks + 1;
        r := Got(taken[|taken| - RUN]);
      }
    }

    /** bfree_page: frees the run at b; a block of it that is free already makes
        bfree panic. */
    method BfreePage(b: nat) returns (ok: bool)
      requires b + RUN <= |bits|
      modifies this`bits, this`numallocblocks
      ensures ok <==> UsedRun(old(bits), b)
      ensures ok ==> RunSet(old(bits), bits, b, false) && numallocblocks == old(numallocblocks) - 1
      ensures ok ==> !UsedRun(bits, b)
    {
      var i := 0;
      while i < RUN
        invariant 0 <= i <= RUN && |bits| == |old(bits)|
        invariant forall k :: 0 <= k < |bits| ==> bits[k] == if b <= k < b + i then false else old(bits)[k]
        invariant forall k :: b <= k < b + i ==> old(bits)[k]
        invariant numallocblocks == old(numallocblocks)
      {
        ok := Bfree(b + i);
        if !ok { return; }
        i := i + 1;
      }
      ok, numallocblocks := true, numallocblocks - 1;
      assert !bits[b];
    }

    // ---- pages and blocks ----

    method WritePageToDisk(page: Page, blk: nat)
      requires blk + RUN <= |disk|
      modifies this`disk
      ensures |disk| == |old(disk)| && PageAt(disk, blk) == page
      ensures forall k :: 0 <= k < |disk| && !(blk <= k < blk + RUN) ==> disk[k] == old(disk)[k]
    {
      hide PageAt;
      var i := 0;
      while i < RUN
        invariant 0 <= i <= RUN && |disk| == |old(disk)|
        invariant Holds(disk, blk, page, i)
        invariant forall k :: 0 <= k < |disk| && !(blk <= k < blk + i) ==> disk[k] == old(disk)[k]
      {
        disk := disk[blk + i := Piece(page, i)];
        i := i + 1;
      }
      WholePage(disk, blk, page);
    }

    method ReadPageFromDisk(blk: nat) returns (page: Page)
      requires blk + RUN <= |disk|
      ensures page == PageAt(disk, blk)
    {
      page := Fill(PGSIZE, 0);
      var i := 0;
      while i < RUN
        invariant 0 <= i <= RUN
        invariant page[..i * BSIZE] == Join(disk, blk, i)
      {
        var page' := page[..i * BSIZE] + disk[blk + i] + page[(i + 1) * BSIZE..];
        assert page'[..(i + 1) * BSIZE] == page[..i * BSIZE] + disk[blk + i];
        page, i := page', i + 1;
      }
      assert page[..RUN * BSIZE] == page;
    }

    // ---- frames ----

    method Kalloc() returns (ok: bool, f: nat)
      requires Valid()
      modifies this`freelist
      ensures ok <==> old(FreeSet()) != {}
      ensures ok ==> f in old(FreeSet()) && FreeSet() == old(FreeSet()) - {f}
      ensures !ok ==> freelist == old(freelist)
      ensures forall i, j :: 0 <= i < j < |freelist| ==> freelist[i] != freelist[j]
    {
      ok, f := freelist != [], 0;
      if ok {
        f := freelist[0];
        assert freelist == [f] + freelist[1..];
        assert f in FreeSet();
        freelist := freelist[1..];
      }
    }

    // The page is filled with junk and put in front of the free list.
    method Kfree(f: nat)
      requires f < |frames| && f !in FreeSet()
      requires forall i, j :: 0 <= i < j < |freelist| ==> freelist[i] != freelist[j]
      modifies this`freelist, this`frames
      ensures FreeSet() == old(FreeSet()) + {f}
      ensures frames == old(frames)[f := Fill(PGSIZE, 1)]
      ensures forall i, j :: 0 <= i < j < |freelist| ==> freelist[i] != freelist[j]
    {
      assert f !in freelist;
      frames := frames[f := Fill(PGSIZE, 1)];
      freelist := [f] + freelist;
    }

    // ---- swapping ----

    /** swap_page_from_pte: the page goes to the lowest run of eight free blocks
        and its frame becomes free, unless balloc panics. */
    method SwapPageFromPte(p: nat) returns (r: Alloc)
      requires Valid() && p < |pte| && Present(pte[p])
      modifies this
      ensures r.Got? ==> Valid() && SwapsOut(old(S()), p, old(Field(pte[p])), r.b, S())
      ensures r.Got? ==> forall q :: 0 <= q < |pte| ==> ContentOf(S(), q) == old(ContentOf(S(), q))
      ensures !r.Got? ==> frames == old(frames) && freelist == old(freelist) && pte == old(pte)
      ensures !r.Got? ==> NoPage(old(bits), r)
    {
      hide PageAt, SwapEntry, FreeRun, ContentOf, FreeUpto;
      ghost var s := S();
      var physical := Field(pte[p]);
      r := BallocPage();
      if !r.Got? { return; }
      ghost var zeroed := disk;
      InRange(s.bits, r.b);
      WritePageToDisk(frames[physical], r.b);
      Untouched(s, zeroed, disk, r.b);
      pte := pte[p := SwapEntry(r.b)];
      Kfree(physical);
      SwapOutKeeps(s, p, physical, r.b, S());
    }

    // Does map_address lose a frame? It does where the page has no page table, and where the
    // page is present, unless it is that page itself that has to go out.
    ghost predicate Wastes(p: nat, victim: nat)
      requires p < |pte|
      reads this
    {
      p / 1024 !in tables || (Present(pte[p]) && (FreeSet() != {} || victim != p))
    }

    // A frame for map_address; mid is the state it is taken from.
    method GetFrame(victim: nat) returns (got: Alloc, mem: nat, ghost mid: Store)
      requires Valid()
      requires FreeSet() == {} ==> victim < |pte| && Present(pte[victim])
      modifies this
      ensures old(FreeSet()) != {} ==> mid == old(S()) && got.Got?
      ensures got.Got? ==> Inv(mid) && mem in mid.free && S() == mid.(free := mid.free - {mem})
      ensures got.Got? ==> |mid.pte| == |old(pte)|
      ensures got.Got? ==> forall q :: 0 <= q < |mid.pte| ==> ContentOf(mid, q) == old(ContentOf(S(), q))
      ensures got.Got? ==> forall q :: 0 <= q < |mid.pte| && !Present(old(pte[q])) ==> mid.pte[q] == old(pte[q])
      ensures got.Got? ==> forall q :: 0 <= q < |mid.pte| && (q != victim || old(FreeSet()) != {}) ==>
                                         mid.pte[q] == old(pte[q])
      ensures got.Got? && old(FreeSet()) == {} ==> Swapped(mid.pte[victim])
      ensures got.Got? ==> |mid.frames| == |old(frames)|
      ensures got.Got? ==> forall g :: 0 <= g < |mid.frames| ==> (Lost(mid, g) <==> Lost(old(S()), g))
      ensures got.Got? ==> forall i, j :: 0 <= i < j < |freelist| ==> freelist[i] != freelist[j]
      ensures !got.Got? ==> old(FreeSet()) == {}
      ensures !got.Got? ==> frames == old(frames) && freelist == old(freelist) && pte == old(pte)
      ensures !got.Got? ==> NoPage(old(bits), got)
    {
      hide PageAt, FreeRun, ContentOf, Inv, SwapsOut, Lost;
      var ok;
      got, mid := Got(0), S();
      ok, mem := Kalloc();
      if !ok {
        assert S() == old(S());
        got := SwapPageFromPte(victim);
        if !got.Got? { return; }
        mid := S();
        OtherEntries(old(S()), victim, got.b, mid);
        forall g | 0 <= g < |mid.frames|
          ensures Lost(mid, g) <==> Lost(old(S()), g)
        {
          SwapOutLoses(old(S()), victim, Field(old(pte[victim])), got.b, mid, g);
        }
        ok, mem := Kalloc();
      }
    }

    /** map_address. A swapped page gets its content back in a frame, its run of blocks is
        freed, and no other page changes. Any other page gets a zeroed frame, one that is
        present too: its content and its frame are lost. When no frame is free, victim is
        swapped out first. Where there is no page table, a frame is taken all the same, and
        nothing is mapped. */
    method MapAddress(p: nat, victim: nat) returns (r: MapResult, ghost mid: Store)
      requires Valid() && p < |pte|
      requires FreeSet() == {} ==> victim < |pte| && Present(pte[victim])
      modifies this
      ensures !r.Panicked? ==> Inv(mid) && |mid.pte| == |old(pte)|
      ensures !r.Panicked? ==> forall q :: 0 <= q < |mid.pte| ==> ContentOf(mid, q) == old(ContentOf(S(), q))
      ensures old(FreeSet()) != {} ==> mid == old(S()) && !r.Panicked?
      ensures !r.Panicked? && !Present(old(pte[p])) ==> mid.pte[p] == old(pte[p])
      ensures r.Restored? ==> Valid() && SwapsIn(mid, p, r.f, S())
      ensures r.Restored? ==> forall q :: 0 <= q < |pte| ==> ContentOf(S(), q) == old(ContentOf(S(), q))
      ensures r.Zeroed? ==> Valid() && ZeroFills(mid, p, r.f, S())
      ensures r.Zeroed? ==> forall q :: 0 <= q < |pte| && q != p ==> ContentOf(S(), q) == old(ContentOf(S(), q))
      ensures !r.Panicked? ==> |frames| == |old(frames)|
      ensures !r.Panicked? ==> forall g :: 0 <= g < |frames| ==>
        (Lost(S(), g) <==>
         Lost(old(S()), g) || (old(Wastes(p, victim)) && g == if p / 1024 in tables then old(Field(pte[p])) else r.f))
      ensures !r.Panicked? ==>
        (old(Wastes(p, victim)) <==> exists g :: 0 <= g < |frames| && Lost(S(), g) && !Lost(old(S()), g))
      ensures r.Panicked? ==> old(FreeSet()) == {} && NoPage(old(bits), r.r) && pte == old(pte) && frames == old(frames)
      ensures r.Leaked? ==> r.f in mid.free && S() == mid.(free := mid.free - {r.f})
      ensures !r.Panicked? ==> (r.Leaked? <==> p / 1024 !in tables)
      ensures !r.Panicked? && p / 1024 in tables ==> (r.Restored? <==> Swapped(mid.pte[p]))
    {
      hide PageAt, FrameEntry, ContentOf, Inv, RunSet, UsedRun, Lost;
      var got, mem;
      OwnFrame(S(), p);
      got, mem, mid := GetFrame(victim);
      if !got.Got? { return Panicked(got), mid; }
      FreeInRange(mid, mem);
      if p / 1024 !in tables {
        forall g | 0 <= g < |frames|
          ensures Lost(S(), g) <==> Lost(mid, g) || g == mem
        {
          LeakLoses(mid, mem, S(), g);
        }
        return Leaked(mem), mid;
      }
      if Swapped(pte[p]) {
        SwapIn(p, mem, mid);
        r := Restored(mem);
      } else {
        ZeroFill(p, mem, mid);
        r := Zeroed(mem);
      }
    }

    // The page read back from its run, which is freed. mid: before the frame was taken.
    method SwapIn(p: nat, mem: nat, ghost mid: Store)
      requires Inv(mid) && mem in mid.free && S() == mid.(free := mid.free - {mem})
      requires p < |pte| && p / 1024 in tables && Swapped(pte[p])
      requires forall q :: 0 <= q < |pte| && q / 1024 !in tables ==> !Swapped(pte[q]) && !Present(pte[q])
      requires forall i, j :: 0 <= i < j < |freelist| ==> freelist[i] != freelist[j]
      modifies this
      ensures Valid() && SwapsIn(mid, p, mem, S())
      ensures forall q :: 0 <= q < |pte| ==> ContentOf(S(), q) == ContentOf(mid, q)
      ensures |frames| == |mid.frames| && forall g :: 0 <= g < |frames| ==> (Lost(S(), g) <==> Lost(mid, g))
    {
      hide PageAt, FrameEntry, ContentOf, Inv, RunSet, UsedRun, Lost;
      var blockid := Field(pte[p]);
      FreeInRange(mid, mem);
      RunOf(mid, p);
      RunFits(bits, blockid);
      var page := ReadPageFromDisk(blockid);
      frames := frames[mem := page];
      pte := pte[p := FrameEntry(mem)];
      var done := BfreePage(blockid);
      SwapInKeeps(mid, p, mem, S());
      forall g | 0 <= g < |frames|
        ensures Lost(S(), g) <==> Lost(mid, g)
      {
        SwapInLoses(mid, p, mem, S(), g);
      }
      InvRuns(S());
    }

    method ZeroFill(p: nat, mem: nat, ghost mid: Store)
      requires Inv(mid) && mem in mid.free && S() == mid.(free := mid.free - {mem})
      requires p < |pte| && p / 1024 in tables && !Swapped(pte[p])
      requires forall q :: 0 <= q < |pte| && q / 1024 !in tables ==> !Swapped(pte[q]) && !Present(pte[q])
      requires forall i, j :: 0 <= i < j < |freelist| ==> freelist[i] != freelist[j]
      modifies this
      ensures Valid() && ZeroFills(mid, p, mem, S())
      ensures forall q :: 0 <= q < |pte| && q != p ==> ContentOf(S(), q) == ContentOf(mid, q)
      ensures |frames| == |mid.frames| && forall g :: 0 <= g < |frames| ==>
        (Lost(S(), g) <==> Lost(mid, g) || (Present(mid.pte[p]) && g == Field(mid.pte[p])))
    {
      hide PageAt, FrameEntry, ContentOf, Inv, RunSet, UsedRun, Lost;
      FreeInRange(mid, mem);
      frames := frames[mem := Fill(PGSIZE, 0)];
      pte := pte[p := FrameEntry(mem)];
      ZeroFillKeeps(mid, p, mem, S());
      forall g | 0 <= g < |frames|
        ensures Lost(S(), g) <==> Lost(mid, g) || (Present(mid.pte[p]) && g == Field(mid.pte[p]))
      {
        ZeroFillLoses(mid, p, mem, S(), g);
      }
      InvRuns(S());
    }

    /** deallocuvm on the space whose pages begin at base: exactly what Drop says of the pages
        from newsz up to oldsz, and a panic, with ok false, exactly where it says so. */
    method DeallocUvm(base: nat, oldsz: Word, newsz: Word) returns (ok: bool, r: Word)
      requires Droppable() && base % 1024 == 0 && base + PagesOf(oldsz) <= |pte|
      modifies this
      ensures var d := old(Drop(S(), base + PagesOf(newsz), base + PagesOf(oldsz)));
        ok == d.Some? && (ok ==> S() == d.value && Droppable() && r == if newsz >= oldsz then oldsz else newsz)
    {
      hide DropAt, FramesApart, Swapped, Present, Field;
      ok, r := true, oldsz;
      ghost var first, last := base + PagesOf(newsz), base + PagesOf(oldsz);
      if newsz >= oldsz { return; }
      ghost var all := Drop(S(), first, last);
      var a := PagesOf(newsz);
      while a * 4096 < oldsz
        invariant a >= PagesOf(newsz) && |pte| == |old(pte)| && ok
        invariant Droppable() && Drop(S(), Least(base + a, last), last) == all
        decreases last - (base + a)
      {
        var p := base + a;
        DropUnfold(S(), p, last);
        if p / 1024 !in tables {
          ghost var next := base + (a / 1024 + 1) * 1024;
          SameTable(base, a);
          DropNothing(S(), p, Least(next, last), last);
          a := (a / 1024 + 1) * 1024 - 1;
        } else {
          ok := DropPage(p);
          if !ok { return; }
        }
        a := a + 1;
      }
      r := newsz;
    }

    // One round, where there is a page table.
    method DropPage(p: nat) returns (ok: bool)
      requires Droppable() && p < |pte|
      modifies this
      ensures ok == old(DropAt(S(), p)).Some?
      ensures ok ==> S() == old(DropAt(S(), p)).value && Droppable() && |pte| == |old(pte)|
    {
      hide FramesApart;
      ghost var s := S();
      ok := true;
      if Swapped(pte[p]) {
        ghost var was := bits;
        ok := BfreePage(Field(pte[p]));
        if ok {
          ClearRunIs(was, bits, Field(pte[p]));
          FramesKeptAt(s, p);
        }
      } else if Present(pte[p]) {
        FrameInUse(s, p);
        Kfree(Field(pte[p]));
        pte := pte[p := 0];
        FramesKeptAt(s, p);
        assert !Swapped(0) && !Present(0);
      }
    }
  }

  function PagesOf(sz: Word): nat { (sz + 4095) / 4096 }

  function Least(a: nat, b: nat): nat { if a < b then a else b }

  // The pages up to the next multiple of 1024 have the same table.
  lemma SameTable(base: nat, a: nat)
    requires base % 1024 == 0
    ensures forall q :: base + a <= q < base + (a / 1024 + 1) * 1024 ==> q / 1024 == (base + a) / 1024
    ensures base + a < base + (a / 1024 + 1) * 1024
  {
    var k := base / 1024;
    assert base == 1024 * k;
  }

  lemma DropUnfold(s: Store, a: nat, b: nat)
    requires a < b <= |s.pte|
    ensures Drop(s, a, b) == if DropAt(s, a).None? then DropAt(s, a) else Drop(DropAt(s, a).value, a + 1, b)
  {
    hide DropAt;
  }

  lemma {:induction false} DropNothing(s: Store, a: nat, c: nat, b: nat)
    requires a <= c <= b <= |s.pte|
    requires forall q :: a <= q < c ==> !Swapped(s.pte[q]) && !Present(s.pte[q])
    ensures Drop(s, a, b) == Drop(s, c, b)
    decreases c - a
  {
    if a < c {
      assert DropAt(s, a) == Some(s);
      DropNothing(s, a + 1, c, b);
    }
  }

  lemma FrameInUse(s: Store, p: nat)
    requires FramesApart(s) && p < |s.pte| && Present(s.pte[p])
    ensures Field(s.pte[p]) < |s.frames| && Field(s.pte[p]) !in s.free
  {
  }

  lemma WholePage(disk: seq<Block>, blk: nat, page: Page)
    requires blk + RUN <= |disk| && Holds(disk, blk, page, RUN)
    ensures PageAt(disk, blk) == page
  {
    JoinPieces(disk, blk, page, RUN);
    assert page[..RUN * BSIZE] == page;
  }

  lemma InRange(bits: seq<bool>, b: nat)
    requires Lowest(bits, b)
    ensures b + RUN <= |bits| && FreeRun(bits, b)
  {
  }

  // The blocks written are none of those that were in use.
  lemma Untouched(s: Store, zeroed: seq<Block>, disk: seq<Block>, b: nat)
    requires |s.disk| == |s.bits| == |zeroed| == |disk| && FreeRun(s.bits, b)
    requires forall i :: 0 <= i < |s.bits| && s.bits[i] ==> zeroed[i] == s.disk[i]
    requires forall k :: 0 <= k < |disk| && !(b <= k < b + RUN) ==> disk[k] == zeroed[k]
    ensures BlocksKept(s, s.(disk := disk))
  {
  }

  lemma OtherEntries(s: Store, victim: nat, b: nat, s': Store)
    requires Inv(s) && victim < |s.pte| && Present(s.pte[victim])
    requires SwapsOut(s, victim, Field(s.pte[victim]), b, s')
    ensures |s'.pte| == |s.pte| && s'.free != {}
    ensures forall q :: 0 <= q < |s.pte| && (q != victim || !Present(s.pte[q])) ==> s'.pte[q] == s.pte[q]
    ensures Swapped(s'.pte[victim]) && |s'.frames| == |s.frames|
  {
    assert Field(s.pte[victim]) in s'.free;
  }

  lemma RunFits(bits: seq<bool>, b: nat)
    requires UsedRun(bits, b)
    ensures b + RUN <= |bits|
  {
  }

  lemma InvRuns(s: Store)
    requires Inv(s)
    ensures FramesApart(s)
    ensures forall p :: 0 <= p < |s.pte| && Swapped(s.pte[p]) ==> Field(s.pte[p]) + RUN <= |s.bits|
  {
  }

  lemma OwnFrame(s: Store, p: nat)
    requires Inv(s) && p < |s.pte|
    ensures Present(s.pte[p]) ==> Field(s.pte[p]) < |s.frames| && !Lost(s, Field(s.pte[p]))
  {
    if Present(s.pte[p]) { assert Names(s.pte, Field(s.pte[p])); }
  }

  lemma FreeInRange(s: Store, f: nat)
    requires Inv(s) && f in s.free
    ensures f < |s.frames| <= 0x10_0000 && !Lost(s, f)
  {
  }

  lemma RunOf(s: Store, p: nat)
    requires Inv(s) && p < |s.pte| && Swapped(s.pte[p])
    ensures UsedRun(s.bits, Field(s.pte[p])) && |s.disk| == |s.bits|
  {
  }

  lemma NoRun(was: seq<bool>)
    ensures NoRunBelow(was, 0) && LastRun(was, 0, 0) && TakenUpto(was, was, 0) && FreeUpto(was, 0) == []
  {
  }

  // The lowest block that is free now is the lowest one that was, from n on.
  lemma NextFree(was: seq<bool>, bits: seq<bool>, n: nat, b: nat)
    requires n <= |was| && TakenUpto(was, bits, n)
    requires b < |bits| && !bits[b] && forall c :: 0 <= c < b ==> bits[c]
    ensures n <= b < |was| && !was[b] && forall c :: n <= c < b ==> was[c]
    ensures FreeUpto(was, b + 1) == FreeUpto(was, n) + [b]
  {
    forall c | n <= c < b
      ensures was[c]
    {
      assert bits[c];
    }
    FreeNext(was, n, b);
  }

  lemma TakeOne(was: seq<bool>, bits: seq<bool>, n: nat, b: nat)
    requires TakenUpto(was, bits, n) && n <= b < |bits| && forall c :: n <= c < b ==> was[c]
    ensures TakenUpto(was, bits[b := true], b + 1)
  {
  }

  lemma NoneLeft(was: seq<bool>, bits: seq<bool>, n: nat)
    requires n <= |was| && NoRunBelow(was, n) && TakenUpto(was, bits, n)
    requires forall c :: 0 <= c < |bits| ==> bits[c]
    ensures forall c :: 0 <= c < |was| ==> !FreeRun(was, c)
  {
    forall c | 0 <= c < |was|
      ensures !FreeRun(was, c)
    {
      if n < c + RUN <= |was| { assert bits[c + RUN - 1]; }
    }
  }

  lemma TooMany(was: seq<bool>, n: nat, b: nat)
    requires n <= b < |was| && NoRunBelow(was, n) && forall c :: n <= c < b ==> was[c]
    requires |FreeUpto(was, b + 1)| > LIMIT
    ensures forall c :: 0 <= c < |was| && FreeRun(was, c) ==> |FreeUpto(was, c + RUN)| > LIMIT
  {
    forall c | 0 <= c < |was| && FreeRun(was, c)
      ensures |FreeUpto(was, c + RUN)| > LIMIT
    {
      assert c + RUN > n;
      assert !was[c + RUN - 1];
      FreeGrows(was, b + 1, c + RUN);
    }
  }
}
