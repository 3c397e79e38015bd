// The allocator itself: freep, the headers in memory and the break, with ghost copies of the
// free list, of the blocks handed out and of all units ever obtained from sbrk.
module HeapAllocator {
  import opened Helpers
  import opened HeapLists
  import opened Heap

  const WORD := 0x1_0000_0000

  // The units malloc() asks for, in 32-bit arithmetic.
  function Units(nbytes: nat): nat {
    (nbytes + 7) % WORD / 8 + 1
  }

  // What morecore() passes to sbrk, a signed byte count, in units.
  function Shift(nu: nat): int {
    var n := nu * 8 % WORD;
    if n < WORD / 2 then n / 8 else n / 8 - WORD / 8
  }

  function Core(nu: nat): nat { if nu < 4096 then 4096 else nu }

  // morecore() takes no more units than wanted, or 4096.
  lemma CoreLeast(nu: nat)
    ensures Core(nu) >= nu && Core(nu) >= 4096 && (Core(nu) == nu || Core(nu) == 4096)
  {
  }

  // The block returned has room for nbytes exactly if rounding up does not wrap, and then
  // less than a unit to spare.
  lemma RoomIff(nbytes: nat)
    requires nbytes < WORD
    ensures 8 * (Units(nbytes) - 1) >= nbytes <==> nbytes + 7 < WORD
    ensures 8 * (Units(nbytes) - 1) < nbytes + 8
  {
  }

  // sbrk is asked for the units wanted exactly if their byte count is below 2^31.
  lemma ShiftIff(nu: nat)
    requires 0 < nu <= WORD / 8
    ensures Shift(nu) == nu <==> nu < WORD / 16
  {
    if nu == WORD / 8 {
      assert nu * 8 % WORD == 0;
    } else {
      assert nu * 8 % WORD == nu * 8;
    }
  }

  // A request for which morecore's byte count wraps to nothing.
  lemma HugeRequest()
    ensures Units(0xFFFF_FFF8) == 0x2000_0000 && Shift(Core(Units(0xFFFF_FFF8))) == 0
  {
  }

  predicate Sane(nunits: nat) { Core(nunits) < WORD / 16 }

  // sbrk refuses a growth beyond the limit, or a shrinking to nothing.
  predicate Refused(brk: int, limit: int, nu: nat) {
    var s := Shift(Core(nu));
    (s > 0 && brk + s > limit) || (s < 0 && brk + s == 0)
  }

  // Where the break is after sbrk.
  function Moved(brk: int, nu: nat): int {
    if brk + Shift(Core(nu)) <= 0 then brk else brk + Shift(Core(nu))
  }

  // A count that is not sane asks for less than it claims.
  lemma ShiftLess(nu: nat)
    ensures Shift(nu) <= nu && (nu >= WORD / 16 ==> Shift(nu) < nu)
  {
  }

  predicate OnList(fl: seq<Block>, a: int) { exists i :: 0 <= i < |fl| && fl[i].addr == a }

  predicate Before(alloc: map<int, nat>, a: int, b: int)
    requires a in alloc
  {
    a + alloc[a] <= b
  }

  // The blocks handed out lie apart from the list and from each other.
  predicate Given(fl: seq<Block>, base: int, alloc: map<int, nat>, size: map<int, nat>) {
    && (forall a :: a in alloc ==> alloc[a] > 0 && base < a && Apart(fl, Block(a, alloc[a])))
    && (forall a :: a in alloc ==> a in size && size[a] == alloc[a])
    && (forall a, b :: a in alloc && b in alloc && a < b ==> Before(alloc, a, b))
  }

  predicate InGiven(alloc: map<int, nat>, u: int) { exists a :: a in alloc && a <= u < a + alloc[a] }

  // The allocator takes unit u for its own.
  predicate Claimed(fl: seq<Block>, alloc: map<int, nat>, u: int) { InList(fl, u) || InGiven(alloc, u) }

  // Every unit obtained is in the list or in a block handed out, and nothing else is.
  ghost predicate Accounted(fl: seq<Block>, alloc: map<int, nat>, arena: set<int>) {
    forall u :: u in arena <==> Claimed(fl, alloc, u)
  }

  // Everything lies below the break.
  predicate Below(fl: seq<Block>, alloc: map<int, nat>, brk: int) {
    && (forall i :: 0 <= i < |fl| ==> fl[i].End() <= brk && fl[i].addr < brk)
    && (forall a :: a in alloc ==> a + alloc[a] <= brk)
  }

  // ---- steps of the bookkeeping

  lemma {:induction false} PlaceIs(fl: seq<Block>, base: int, k: nat, b: Block)
    requires Ordered(fl, base) && Precedes(fl, k, b)
    ensures Place(fl, b.addr) == k
  {
    var n := |fl| - 1;
    if n > 0 && k < n {
      assert fl[k + 1].addr <= fl[n].addr;
      PlaceIs(fl[..n], base, k, b);
    }
  }

  lemma {:induction false} PlaceBehind(fl: seq<Block>, base: int, a: int)
    requires Ordered(fl, base) && base < a
    ensures Place(fl, a) < |fl| && fl[Place(fl, a)].addr < a
  {
    if |fl| > 1 && fl[|fl| - 1].addr >= a {
      PlaceBehind(fl[..|fl| - 1], base, a);
    }
  }

  // A block apart from the list and from b is apart from the list with b in it.
  lemma ApartFreed(fl: seq<Block>, base: int, b: Block, c: Block)
    requires Chain(fl, base) && Apart(fl, b) && base < b.addr && b.size > 0
    requires Apart(fl, c) && base < c.addr && c.size > 0 && (b.End() <= c.addr || c.End() <= b.addr)
    ensures Apart(Freed(fl, b), c)
  {
    hide Added, Joined, Place, Apart, InList, Freed;
    var gl := Freed(fl, b);
    FreedChain(fl, base, b);
    forall u | Within(c, u) ensures !InList(gl, u) {
      FreedUnits(fl, base, b, u);
      ApartUnits(fl, c, u);
    }
    UnitsApart(gl, base, c);
  }

  lemma ApartUnits(fl: seq<Block>, c: Block, u: int)
    requires Apart(fl, c) && Within(c, u)
    ensures !InList(fl, u)
  {
  }

  lemma UnitsApart(fl: seq<Block>, base: int, c: Block)
    requires Ordered(fl, base) && base < c.addr && c.size > 0
    requires forall u :: Within(c, u) ==> !InList(fl, u)
    ensures Apart(fl, c)
  {
    forall i | 0 <= i < |fl| ensures fl[i].End() <= c.addr || c.End() <= fl[i].addr {
      if i > 0 && fl[i].End() > c.addr && c.End() > fl[i].addr {
        var u := if fl[i].addr <= c.addr then c.addr else fl[i].addr;
        assert Within(fl[i], u) && Within(c, u);
        assert false;
      }
    }
  }

  lemma GivenFreed(fl: seq<Block>, base: int, alloc: map<int, nat>, size: map<int, nat>, b: Block, size1: map<int, nat>)
    requires Chain(fl, base) && Given(fl, base, alloc, size) && Apart(fl, b) && base < b.addr && b.size > 0
    requires forall a :: a in alloc ==> b.End() <= a || a + alloc[a] <= b.addr
    requires forall a :: a in alloc ==> a in size1 && size1[a] == size[a]
    ensures Given(Freed(fl, b), base, alloc, size1)
  {
    hide Freed, Apart;
    forall a | a in alloc ensures Apart(Freed(fl, b), Block(a, alloc[a])) {
      ApartFreed(fl, base, b, Block(a, alloc[a]));
    }
  }

  lemma GivenLess(fl: seq<Block>, base: int, alloc: map<int, nat>, size: map<int, nat>, b: int)
    requires Given(fl, base, alloc, size) && b in alloc
    ensures Given(fl, base, alloc - {b}, size)
    ensures Apart(fl, Block(b, alloc[b])) && alloc[b] > 0 && base < b
    ensures forall a :: a in alloc - {b} ==> b + alloc[b] <= a || a + alloc[a] <= b
  {
    hide Apart;
    forall a | a in alloc - {b} ensures b + alloc[b] <= a || a + alloc[a] <= b {
      assert if a < b then Before(alloc, a, b) else Before(alloc, b, a);
    }
  }

  lemma Holder(alloc: map<int, nat>, u: int) returns (a: int)
    requires InGiven(alloc, u)
    ensures a in alloc && a <= u < a + alloc[a]
  {
    a :| a in alloc && a <= u < a + alloc[a];
  }

  lemma AccountedFreed(fl: seq<Block>, base: int, alloc: map<int, nat>, arena: set<int>, b: Block)
    requires Chain(fl, base) && Apart(fl, b) && base < b.addr && b.size > 0 && Accounted(fl, alloc, arena)
    requires b.addr in alloc && alloc[b.addr] == b.size
    requires forall a :: a in alloc - {b.addr} ==> b.End() <= a || a + alloc[a] <= b.addr
    ensures Accounted(Freed(fl, b), alloc - {b.addr}, arena)
  {
    hide Freed, Apart, InList;
    var less := alloc - {b.addr};
    forall u ensures u in arena <==> InList(Freed(fl, b), u) || InGiven(less, u) {
      FreedUnits(fl, base, b, u);
      if Within(b, u) {
        assert InGiven(alloc, u);
      } else if InGiven(alloc, u) {
        var a := Holder(alloc, u);
        assert a in less;
      }
      if InGiven(less, u) {
        var a := Holder(less, u);
        assert a in alloc;
      }
    }
  }

  lemma AccountedMore(fl: seq<Block>, base: int, alloc: map<int, nat>, arena: set<int>, b: Block)
    requires Chain(fl, base) && Apart(fl, b) && base < b.addr && b.size > 0 && Accounted(fl, alloc, arena)
    ensures Accounted(Freed(fl, b), alloc, arena + Span(b.addr, b.size))
  {
    hide Freed, Apart, InList, InGiven;
    forall u ensures u in arena + Span(b.addr, b.size) <==> InList(Freed(fl, b), u) || InGiven(alloc, u) {
      FreedUnits(fl, base, b, u);
    }
  }

  // The units of a block.
  function Span(a: int, n: nat): (r: set<int>)
    ensures forall u :: u in r <==> a <= u < a + n
  {
    set u | a <= u < a + n && Within(Block(a, n), u)
  }

  // The units obtained from sbrk once it has moved the break from was to brk.
  ghost function Obtained(arena: set<int>, was: int, brk: int): set<int> {
    if was <= brk then arena + Span(was, brk - was) else arena - Span(brk, was - brk)
  }

  lemma ObtainedSpan(arena: set<int>, was: int, n: nat)
    ensures Obtained(arena, was, was + n) == arena + Span(was, n)
  {
  }

  // What lies behind the break has not been obtained.
  lemma Overreach(fl: seq<Block>, alloc: map<int, nat>, u: int, brk: int)
    requires Claimed(fl, alloc, u) && brk <= u
    ensures !Below(fl, alloc, brk)
  {
    if InList(fl, u) {
      var i :| 0 <= i < |fl| && Within(fl[i], u);
    } else {
      var a := Holder(alloc, u);
    }
  }

  lemma BelowFreed(fl: seq<Block>, base: int, alloc: map<int, nat>, b: Block, brk: int)
    requires Chain(fl, base) && Apart(fl, b) && base < b.addr && b.size > 0
    requires (forall i :: 0 <= i < |fl| ==> fl[i].End() <= brk && fl[i].addr < brk) && b.End() <= brk
    ensures forall i :: 0 <= i < |Freed(fl, b)| ==> Freed(fl, b)[i].End() <= brk && Freed(fl, b)[i].addr < brk
  {
    hide Freed, Apart;
    var gl := Freed(fl, b);
    FreedChain(fl, base, b);
    forall i | 0 <= i < |gl| ensures gl[i].End() <= brk && gl[i].addr < brk {
      if i > 0 {
        FreedUnits(fl, base, b, gl[i].End() - 1);
        assert Within(gl[i], gl[i].End() - 1);
      }
    }
  }

  // ---- taking n units from the end of block t, or the whole block

  function Taken(fl: seq<Block>, t: nat, n: nat): seq<Block>
    requires t < |fl| && n <= fl[t].size
  {
    if fl[t].size == n then Without(fl, t) else Sized(fl, t, fl[t].size - n)
  }

  function Cut(fl: seq<Block>, t: nat, n: nat): Block
    requires t < |fl| && n <= fl[t].size
  {
    Block(fl[t].End() - n, n)
  }

  lemma TakenChain(fl: seq<Block>, base: int, t: nat, n: nat)
    requires Chain(fl, base) && t < |fl| && 0 < n <= fl[t].size
    ensures t > 0 && base < Cut(fl, t, n).addr && Chain(Taken(fl, t, n), base) && Apart(Taken(fl, t, n), Cut(fl, t, n))
  {
    hide Without, Sized;
    assert fl[0].addr < fl[t].addr;
    if fl[t].size == n {
      WithoutOrdered(fl, base, t);
      WithoutAt(fl, t);
      forall i: nat ensures !Touch(Without(fl, t), i) {
        assert !Touch(fl, i) && !Touch(fl, i + 1);
        if i + 1 == t && t + 1 < |fl| { assert fl[t].End() <= fl[t + 1].addr; }
      }
    } else {
      assert t + 1 < |fl| ==> fl[t].End() <= fl[t + 1].addr;
      SizedOrdered(fl, base, t, fl[t].size - n);
      SizedTouch(fl, base, t, n);
    }
  }

  lemma SizedTouch(fl: seq<Block>, base: int, t: nat, n: nat)
    requires Chain(fl, base) && 0 < t < |fl| && 0 < n < fl[t].size
    ensures Spaced(Sized(fl, t, fl[t].size - n))
    ensures Apart(Sized(fl, t, fl[t].size - n), Cut(fl, t, n))
  {
    var gl := Sized(fl, t, fl[t].size - n);
    forall i: nat ensures !Touch(gl, i) {
      assert !Touch(fl, i);
      if i == t && t + 1 < |fl| { assert fl[t].End() <= fl[t + 1].addr; }
    }
    forall i | 0 <= i < |gl| ensures gl[i].End() <= Cut(fl, t, n).addr || Cut(fl, t, n).End() <= gl[i].addr {
      if i < t { assert fl[i].End() <= fl[t].addr; } else if i > t { assert fl[t].End() <= fl[i].addr; }
    }
  }

  // Exactly the units of the block cut off leave the list.
  lemma TakenUnits(fl: seq<Block>, base: int, t: nat, n: nat, u: int)
    requires Chain(fl, base) && t < |fl| && 0 < n <= fl[t].size
    ensures InList(fl, u) <==> InList(Taken(fl, t, n), u) || Within(Cut(fl, t, n), u)
  {
    hide Without, Sized, InList;
    if fl[t].size == n {
      WithoutUnits(fl, t, u);
    } else {
      SizedUnits(fl, t, fl[t].size - n, u);
      if Within(fl[t], u) {
        HeldByOne(fl, t, u);
        if !Within(Cut(fl, t, n), u) {
          assert Sized(fl, t, fl[t].size - n)[t] == Block(fl[t].addr,
              fl[t].size - n) by { SizedAt(fl, t, fl[t].size - n); }
          HeldByOne(Sized(fl, t, fl[t].size - n), t, u);
        }
      }
    }
  }

  lemma SizedAt(fl: seq<Block>, t: nat, n: nat)
    requires t < |fl|
    ensures |Sized(fl, t, n)| == |fl| && Sized(fl, t, n)[t] == Block(fl[t].addr, n)
  {
  }

  lemma GivenTaken(fl: seq<Block>, base: int, alloc: map<int, nat>, size: map<int, nat>, t: nat, n: nat,
      size1: map<int, nat>)
    requires Chain(fl, base) && Given(fl, base, alloc, size) && t < |fl| && 0 < n <= fl[t].size
    requires forall a :: a in alloc ==> a in size1 && size1[a] == size[a]
    requires var c := Cut(fl, t, n).addr; c in size1 && size1[c] == n
    ensures Cut(fl, t, n).addr !in alloc
    ensures Given(Taken(fl, t, n), base, alloc[Cut(fl, t, n).addr := n], size1)
  {
    hide Taken, Ordered;
    TakenChain(fl, base, t, n);
    var c := Cut(fl, t, n);
    var gl := Taken(fl, t, n);
    var more := alloc[c.addr := n];
    forall a | a in alloc ensures Apart(gl, Block(a, alloc[a])) && (a + alloc[a] <= c.addr || c.End() <= a) {
      CutApart(fl, t, n, Block(a, alloc[a]));
      ApartTaken(fl, base, t, n, Block(a, alloc[a]));
    }
    forall a, b | a in more && b in more && a < b ensures Before(more, a, b) {
      if a in alloc && b in alloc { assert Before(alloc, a, b); }
    }
  }

  lemma CutApart(fl: seq<Block>, t: nat, n: nat, c: Block)
    requires t < |fl| && 0 < n <= fl[t].size && Apart(fl, c)
    ensures c.End() <= Cut(fl, t, n).addr || Cut(fl, t, n).End() <= c.addr
  {
    assert fl[t].End() <= c.addr || c.End() <= fl[t].addr;
  }

  lemma ApartTaken(fl: seq<Block>, base: int, t: nat, n: nat, c: Block)
    requires Chain(fl, base) && t < |fl| && 0 < n <= fl[t].size && Apart(fl, c) && base < c.addr && c.size > 0
    ensures Apart(Taken(fl, t, n), c)
  {
    hide Apart, Taken;
    TakenChain(fl, base, t, n);
    forall u | Within(c, u) ensures !InList(Taken(fl, t, n), u) {
      ApartUnits(fl, c, u);
      TakenUnits(fl, base, t, n, u);
    }
    UnitsApart(Taken(fl, t, n), base, c);
  }

  lemma AccountedTaken(fl: seq<Block>, base: int, alloc: map<int, nat>, arena: set<int>, t: nat, n: nat)
    requires Chain(fl, base) && t < |fl| && 0 < n <= fl[t].size && Accounted(fl, alloc, arena)
    requires Cut(fl, t, n).addr !in alloc
    ensures Accounted(Taken(fl, t, n), alloc[Cut(fl, t, n).addr := n], arena)
  {
    hide Taken, InList, Ordered;
    var c := Cut(fl, t, n);
    var more := alloc[c.addr := n];
    forall u ensures u in arena <==> Claimed(Taken(fl, t, n), more, u) {
      ClaimedTaken(fl, base, alloc, t, n, u);
    }
  }

  lemma ClaimedTaken(fl: seq<Block>, base: int, alloc: map<int, nat>, t: nat, n: nat, u: int)
    requires Chain(fl, base) && t < |fl| && 0 < n <= fl[t].size && Cut(fl, t, n).addr !in alloc
    ensures Claimed(Taken(fl, t, n), alloc[Cut(fl, t, n).addr := n], u) <==> Claimed(fl, alloc, u)
  {
    hide Taken, InList, Ordered;
    var c := Cut(fl, t, n);
    var more := alloc[c.addr := n];
    TakenUnits(fl, base, t, n, u);
    if InGiven(alloc, u) {
      var a := Holder(alloc, u);
      assert a in more;
    }
    if Within(c, u) { assert c.addr in more; }
    if InGiven(more, u) {
      var a := Holder(more, u);
      assert a == c.addr || a in alloc;
    }
  }

  lemma BelowTaken(fl: seq<Block>, base: int, t: nat, n: nat, brk: int)
    requires Chain(fl, base) && t < |fl| && 0 < n <= fl[t].size
    requires forall i :: 0 <= i < |fl| ==> fl[i].End() <= brk && fl[i].addr < brk
    ensures Cut(fl, t, n).End() <= brk
    ensures forall i :: 0 <= i < |Taken(fl, t, n)| ==> Taken(fl, t, n)[i].End() <= brk && Taken(fl, t, n)[i].addr < brk
  {
    hide Without;
    WithoutAt(fl, t);
  }

  // Steps from node i to node f around a cycle of n.
  function Steps(i: nat, f: nat, n: nat): nat
    requires i < n && f < n
  {
    if i <= f then f - i else f - i + n
  }

  // All nodes from behind f up to i, i not included, are smaller than n.
  predicate Passed(fl: seq<Block>, i: nat, f: nat, n: nat)
    requires i < |fl| && f < |fl|
  {
    forall j :: 0 <= j < |fl| && Steps(j, f, |fl|) > Steps(i, f, |fl|) ==> fl[j].size < n
  }

  predicate Fits(fl: seq<Block>, n: nat) { exists i :: 0 <= i < |fl| && fl[i].size >= n }

  // Block t is the first of at least n units behind the block at a.
  ghost predicate NextFit(fl: seq<Block>, a: int, n: nat, t: nat) {
    && t < |fl| && fl[t].size >= n
    && exists f :: 0 <= f < |fl| && fl[f].addr == a && Passed(fl, t, f, n)
  }

  lemma IsNextFit(fl: seq<Block>, t: nat, f: nat, n: nat)
    requires t < |fl| && f < |fl| && fl[t].size >= n && Passed(fl, t, f, n)
    ensures NextFit(fl, fl[f].addr, n, t)
  {
    hide Passed;
  }

  // The list in which malloc finds n units in the end: the one there is, or the one that
  // morecore makes of it.
  ghost function Offered(fl: seq<Block>, brk: int, n: nat): seq<Block>
    requires fl != []
  {
    if Fits(fl, n) then fl else Freed(fl, Block(brk, Core(n)))
  }

  lemma Pass(fl: seq<Block>, i: nat, f: nat, n: nat)
    requires i < |fl| && f < |fl| && Passed(fl, i, f, n) && fl[i].size < n
    ensures i == f ==> !Fits(fl, n)
    ensures i != f ==> Steps(Next(i, |fl|), f, |fl|) == Steps(i, f, |fl|) - 1 && Passed(fl, Next(i, |fl|), f, n)
  {
  }

  lemma StartPassing(fl: seq<Block>, f: nat, n: nat)
    requires f < |fl|
    ensures Passed(fl, Next(f, |fl|), f, n)
  {
  }

  // After n units are put in the list, some block has n units.
  lemma FreedFits(fl: seq<Block>, base: int, b: Block)
    requires Chain(fl, base) && Apart(fl, b) && base < b.addr && b.size > 0
    ensures Fits(Freed(fl, b), b.size)
  {
    hide Freed, Apart, Spaced;
    FreedChain(fl, base, b);
    var gl := Freed(fl, b);
    // the block that holds b's first unit holds all of them
    FreedUnits(fl, base, b, b.addr);
    var i :| 0 <= i < |gl| && Within(gl[i], b.addr);
    Gap(gl, base, i);
    FreedUnits(fl, base, b, gl[i].End());
  }

  lemma Gap(fl: seq<Block>, base: int, i: nat)
    requires Chain(fl, base) && i < |fl|
    ensures !InList(fl, fl[i].End()) || fl[i].size == 0
  {
    assert !Touch(fl, i);
    forall j | 0 <= j < |fl| && fl[i].size > 0 ensures !Within(fl[j], fl[i].End()) {
      if j < i { assert fl[j].End() <= fl[i].addr; }
      if j > i { assert fl[i + 1].addr <= fl[j].addr; }
    }
  }

  class Allocator {
    const base: int
    var ptr: map<int, int>
    var size: map<int, nat>
    var freep: int                         // 0 before the first call
    var brk: int                           // where the next sbrk starts, in units
    var limit: int                         // where the kernel stops giving memory
    ghost var fl: seq<Block>
    ghost var alloc: map<int, nat>
    ghost var arena: set<int>

    // One cycle in address order with no two free blocks touching; the blocks handed out
    // are apart from it and from each other.
    ghost predicate Valid() reads this {
      && 0 < base && Chain(fl, base) && Given(fl, base, alloc, size)
      && (if freep == 0 then fl == [Block(base, 0)] && alloc == map[]
          else Links(fl, ptr, size) && OnList(fl, freep))
    }

    // All units obtained from sbrk are accounted for, and lie below the break.
    ghost predicate Complete() reads this {
      Accounted(fl, alloc, arena) && Below(fl, alloc, brk)
    }

    constructor (base0: int, brk0: int, limit0: int)
      requires 0 < base0 < brk0
      ensures Valid() && Complete() && arena == {} && alloc == map[] && freep == 0
    {
      base, ptr, size, freep, brk, limit := base0, map[], map[], 0, brk0, limit0;
      fl, alloc, arena := [Block(base0, 0)], map[], {};
    }

    // Where a block belongs in the cycle.
    method FindPlace(bp: int, ghost b: Block) returns (p: int)
      requires Chain(fl, base) && Links(fl, ptr, size) && OnList(fl, freep)
      requires Apart(fl, b) && base < b.addr && b.size > 0 && b.addr == bp
      ensures Place(fl, bp) < |fl| && p == fl[Place(fl, bp)].addr
    {
      hide Spaced, Place, Apart, Ordered, Links, Steps;
      ghost var g := Place(fl, bp);
      PlacePrecedes(fl, base, b);
      ghost var k :| 0 <= k < |fl| && fl[k].addr == freep;
      p := freep;
      HeadersOf(fl, Memory(ptr, size), k);
      while !(bp > p && bp < ptr[p])
        invariant 0 <= k < |fl| && p == fl[k].addr && p in ptr && ptr[p] == fl[Next(k, |fl|)].addr
        decreases Steps(k, g, |fl|)
      {
        if p >= ptr[p] && (bp > p || bp < ptr[p]) {
          LastPlace(fl, base, k, b);
          break;
        }
        NotYet(fl, base, k, b);
        p := ptr[p];
        k := Next(k, |fl|);
        HeadersOf(fl, Memory(ptr, size), k);
      }
      if bp > p && bp < ptr[p] { Between(fl, base, k, b); }
    }

    // free() of a block that is in no list: what the list and the headers become.
    method Release(bp: int, ghost b: Block)
      requires Chain(fl, base) && Links(fl, ptr, size) && OnList(fl, freep)
      requires Apart(fl, b) && base < b.addr && b.size > 0 && b.addr == bp && bp in size && size[bp] == b.size
      modifies this`ptr, this`size, this`freep, this`fl
      ensures fl == Freed(old(fl), b) && Chain(fl, base) && Links(fl, ptr, size) && OnList(fl, freep) && base <= freep
      ensures forall a :: a in old(size) && a != bp && (forall i :: 0 <= i < |old(fl)| ==> old(fl)[i].addr != a) ==>
          a in size && size[a] == old(size)[a]
    {
      hide Spaced, Place, Apart, Ordered, Links, Freed;
      var p := FindPlace(bp, b);
      FreedLinks(fl, base, b, Memory(ptr, size));
      FreedChain(fl, base, b);
      FreedKeepsPlace(fl, base, b);
      Higher(fl, base, Place(fl, bp));
      var n := ptr[p];
      if bp + size[bp] == n {
        size := size[bp := size[bp] + size[n]];
        ptr := ptr[bp := ptr[n]];
      } else {
        ptr := ptr[bp := n];
      }
      if p + size[p] == bp {
        size := size[p := size[p] + size[bp]];
        ptr := ptr[p := ptr[bp]];
      } else {
        ptr := ptr[p := bp];
      }
      freep := p;
      fl := Freed(fl, b);
    }

    // free()
    method Free(ap: int)
      requires Valid() && ap - 1 in alloc
      modifies this`ptr, this`size, this`freep, this`fl, this`alloc
      ensures Valid() && (old(Complete()) ==> Complete())
      ensures alloc == old(alloc) - {ap - 1} && fl == Freed(old(fl), Block(ap - 1, old(alloc)[ap - 1]))
    {
      hide Chain, Apart, Links, Freed, Place, OnList, Given, Accounted;
      ghost var b := Block(ap - 1, alloc[ap - 1]);
      ghost var less := alloc - {ap - 1};
      GivenLess(fl, base, alloc, size, ap - 1);
      FreeStep(fl, base, alloc, size, arena, b, brk);
      SizeOf(fl, base, alloc, size, ap - 1);
      Release(ap - 1, b);
      KeptSizes(old(fl), base, less, old(size), b, size);
      GivenFreed(old(fl), base, less, old(size), b, size);
      alloc := less;
    }

    // sbrk(): the kernel moves the break by n and gives its old value, or refuses with -1: a
    // growth beyond the limit, or a shrinking to nothing. One below zero wraps around and is
    // taken for a growth that deallocuvm ignores.
    method Sbrk(n: int) returns (r: int)
      requires brk > 0
      modifies this`brk
      ensures r == -1 || r == old(brk)
      ensures r == -1 <==> (n > 0 && old(brk) + n > limit) || (n < 0 && old(brk) + n == 0)
      ensures brk == if r == -1 || old(brk) + n <= 0 then old(brk) else old(brk) + n
    {
      if n > 0 && brk + n > limit {
        return -1;
      }
      if n < 0 && brk + n == 0 {
        return -1;
      }
      r := brk;
      if brk + n > 0 {
        brk := brk + n;
      }
    }

    // morecore(): at least 4096 units more, or 0 exactly where sbrk refuses. They have been
    // obtained from sbrk if and only if their byte count is below 2^31.
    method Morecore(nu: nat) returns (p: int)
      requires Valid() && Complete() && freep != 0 && nu > 0
      modifies this`ptr, this`size, this`freep, this`fl, this`brk, this`arena
      ensures Valid()
      ensures p == 0 <==> Refused(old(brk), limit, nu)
      ensures p == 0 ==> unchanged(this`ptr, this`size, this`freep, this`fl, this`brk, this`arena)
      ensures p != 0 ==> p == freep && fl == Freed(old(fl), Block(old(brk), Core(nu))) && Fits(fl, nu)
      ensures p != 0 ==> brk == Moved(old(brk), nu) && arena == Obtained(old(arena), old(brk), brk)
      ensures Complete() <==> p == 0 || Sane(nu)
      ensures p != 0 && !Sane(nu) ==> Claimed(fl, alloc, old(brk) + Core(nu) - 1) && brk < old(brk) + Core(nu)
    {
      hide Chain, Apart, Links, Freed, Place, OnList, Given, Accounted, Fits, InList, InGiven;
      var n := Core(nu);
      BelowApart(fl, base, alloc, brk, n);
      var hp := Sbrk(Shift(n));
      if hp == -1 {
        return 0;
      }
      ghost var b := Block(hp, n);
      size := size[hp := n];
      LinksElsewhere(fl, ptr, old(size), hp, n);
      Release(hp, b);
      KeptSizes(old(fl), base, alloc, old(size), b, size);
      GivenFreed(old(fl), base, alloc, old(size), b, size);
      FreedFits(old(fl), base, b);
      FitsLess(fl, n, nu);
      p := freep;
      arena := Obtained(arena, hp, brk);
      if Sane(nu) {
        ShiftIff(n);
        ObtainedSpan(old(arena), hp, n);
        AccountedMore(old(fl), base, alloc, old(arena), b);
        BelowFreed(old(fl), base, alloc, b, brk);
      } else {
        ShiftLess(n);
        FreedUnits(old(fl), base, b, hp + n - 1);
        Overreach(fl, alloc, hp + n - 1, brk);
      }
    }

    // The part of malloc() that takes nunits from the block p that comes after prevp.
    method Take(prevp: int, p: int, nunits: nat, ghost t: nat) returns (r: int)
      requires Valid() && freep != 0 && 0 < t < |fl| && p == fl[t].addr && prevp == fl[t - 1].addr
      requires 0 < nunits <= fl[t].size
      modifies this`ptr, this`size, this`freep, this`fl, this`alloc
      ensures Valid() && (old(Complete()) ==> Complete())
      ensures forall u {:trigger Claimed(fl, alloc, u)} :: Claimed(fl, alloc, u) <==> old(Claimed(fl, alloc, u))
      ensures r - 1 == Cut(old(fl), t, nunits).addr && base < r - 1 && r - 1 !in old(alloc) &&
          alloc == old(alloc)[r - 1 := nunits]
      ensures fl == Taken(old(fl), t, nunits) && freep == prevp
    {
      hide Chain, Apart, Links, Place, OnList, Given, Accounted, Fits;
      ghost var m := Memory(ptr, size);
      HeadersOf(fl, m, t);
      HeadersOf(fl, m, t - 1);
      TakenLinks(fl, base, t, nunits, ptr, size);
      TakenChain(fl, base, t, nunits);
      TakeStep(fl, base, alloc, size, arena, brk, t, nunits);
      HigherIn(fl, base, t - 1);
      var q := p;
      if size[p] == nunits {
        ptr := ptr[prevp := ptr[p]];
      } else {
        size := size[p := size[p] - nunits];
        q := p + size[p];
        size := size[q := nunits];
      }
      freep := prevp;
      r := q + 1;
      ghost var c := Cut(fl, t, nunits);
      TakenKeeps(fl, base, t, nunits);
      TakenSizes(fl, base, alloc, old(size), t, nunits, size);
      GivenTaken(fl, base, alloc, old(size), t, nunits, size);
      CutIsNew(fl, base, alloc, old(size), t, nunits);
      forall u
        ensures Claimed(Taken(fl, t, nunits), alloc[r - 1 := nunits], u) <==> Claimed(fl, alloc, u)
      {
        ClaimedTaken(fl, base, alloc, t, nunits, u);
      }
      fl := Taken(fl, t, nunits);
      alloc := alloc[r - 1 := nunits];
    }

    method Malloc(nbytes: nat) returns (r: int, ghost t: nat)
      requires Valid() && Complete() && nbytes < WORD
      modifies this`ptr, this`size, this`freep, this`fl, this`alloc, this`brk, this`arena
      ensures Valid()
      ensures r != 0 ==> r - 1 !in old(alloc) && alloc == old(alloc)[r - 1 := Units(nbytes)]
      ensures r == 0 ==> alloc == old(alloc) && fl == old(fl) && arena == old(arena)
      ensures r == 0 <==> !Fits(old(fl), Units(nbytes)) && Refused(old(brk), limit, Units(nbytes))
      ensures brk == if r == 0 || Fits(old(fl), Units(nbytes)) then old(brk) else Moved(old(brk), Units(nbytes))
      ensures arena == Obtained(old(arena), old(brk), brk)
      ensures Complete() <==> r == 0 || Fits(old(fl), Units(nbytes)) || Sane(Units(nbytes))
      ensures var offered := Offered(old(fl), old(brk), Units(nbytes));
        r != 0 ==>
          && t < |offered| && offered[t].size >= Units(nbytes)
          && fl == Taken(offered, t, Units(nbytes)) && r - 1 == Cut(offered, t, Units(nbytes)).addr
      ensures r != 0 && Fits(old(fl), Units(nbytes)) ==>
        NextFit(old(fl), if old(freep) == 0 then base else old(freep), Units(nbytes), t)
    {
      hide Chain, Apart, Links, Place, OnList, Given, Accounted, Fits, Passed, Steps, Below, Freed, Taken, InList,
        InGiven, Refused, Moved, Taken, Cut, NextFit, Sane;
      t := 0;
      var nunits := Units(nbytes);
      var prevp := freep;
      if prevp == 0 {
        ptr := ptr[base := base];
        size := size[base := 0];
        freep := base;
        prevp := base;
        FirstLinks(fl, base, ptr, size);
        GivenNone(fl, base, size);
      }
      ghost var f: nat := IndexOf(fl, freep);
      ghost var h: nat := f;
      HeadersOf(fl, Memory(ptr, size), h);
      StartPassing(fl, f, nunits);
      var p := ptr[prevp];
      ghost var grown := false;
      while true
        invariant Valid() && freep != 0 && f < |fl| && h < |fl| && freep == fl[f].addr
        invariant prevp == fl[h].addr && p == fl[Next(h, |fl|)].addr && Header(Memory(ptr, size), p)
        invariant size[p] == fl[Next(h, |fl|)].size
        invariant Passed(fl, Next(h, |fl|), f, nunits) && alloc == old(alloc)
        invariant !grown ==> Complete() && fl == old(fl) && brk == old(brk) && arena == old(arena)
        invariant !grown ==> freep == if old(freep) == 0 then base else old(freep)
        invariant grown ==> fl == Freed(old(fl), Block(old(brk), Core(nunits)))
        invariant grown ==> Fits(fl, nunits) && !Fits(old(fl), nunits)
        invariant grown ==> brk == Moved(old(brk), nunits) && arena == Obtained(old(arena), old(brk), brk)
        invariant grown ==> !Refused(old(brk), limit, nunits) && (Complete() <==> Sane(nunits))
        invariant grown && !Sane(nunits) ==> Claimed(fl, alloc, old(brk) + Core(nunits) - 1)
        invariant grown && !Sane(nunits) ==> brk < old(brk) + Core(nunits)
        decreases if grown then 0 else 1, Steps(Next(h, |fl|), f, |fl|)
      {
        ghost var i := Next(h, |fl|);
        if size[p] >= nunits {
          NotBase(fl, base, h, nunits);
          FitsHere(fl, i, nunits);
          t := i;
          IsNextFit(fl, i, f, nunits);
          r := Take(prevp, p, nunits, i);
          if grown && !Sane(nunits) { Overreach(fl, alloc, old(brk) + Core(nunits) - 1, brk); }
          return;
        }
        Pass(fl, i, f, nunits);
        SameNode(fl, base, i, f);
        if p == freep {
          p := Morecore(nunits);
          if p == 0 {
            return 0, t;
          }
          grown := true;
          f := IndexOf(fl, freep);
          i := f;
          StartPassing(fl, f, nunits);
        }
        prevp := p;
        HeadersOf(fl, Memory(ptr, size), i);
        p := ptr[p];
        h := i;
      }
    }
  }

  lemma FirstLinks(fl: seq<Block>, base: int, ptr: map<int, int>, size: map<int, nat>)
    requires fl == [Block(base, 0)] && base in ptr && ptr[base] == base && base in size && size[base] == 0
    ensures Links(fl, ptr, size) && OnList(fl, base)
  {
    assert fl[0].addr == base;
  }

  lemma GivenNone(fl: seq<Block>, base: int, size: map<int, nat>)
    ensures Given(fl, base, map[], size)
  {
  }

  ghost function IndexOf(fl: seq<Block>, a: int): (i: nat)
    requires OnList(fl, a)
    ensures i < |fl| && fl[i].addr == a
  {
    var i :| 0 <= i < |fl| && fl[i].addr == a;
    i
  }

  lemma NotBase(fl: seq<Block>, base: int, h: nat, n: nat)
    requires Chain(fl, base) && h < |fl| && 0 < n <= fl[Next(h, |fl|)].size
    ensures h + 1 < |fl| && Next(h, |fl|) == h + 1
  {
  }

  lemma FitsHere(fl: seq<Block>, i: nat, n: nat)
    requires i < |fl| && n <= fl[i].size
    ensures Fits(fl, n)
  {
  }

  lemma SameNode(fl: seq<Block>, base: int, i: nat, f: nat)
    requires Chain(fl, base) && i < |fl| && f < |fl|
    ensures fl[i].addr == fl[f].addr <==> i == f
  {
    if i < f { assert fl[i].addr < fl[f].addr; }
    if f < i { assert fl[f].addr < fl[i].addr; }
  }

  lemma HigherIn(fl: seq<Block>, base: int, k: nat)
    requires Chain(fl, base) && k < |fl|
    ensures fl[k].addr >= base
  {
    Higher(fl, base, k);
  }

  // The headers after nunits are taken from block t.
  lemma TakenLinks(fl: seq<Block>, base: int, t: nat, n: nat, ptr: map<int, int>, size: map<int, nat>)
    requires Chain(fl, base) && Links(fl, ptr, size) && 0 < t < |fl| && 0 < n <= fl[t].size && fl[t].addr in ptr
    ensures fl[t].size == n ==> Links(Taken(fl, t, n), ptr[fl[t - 1].addr := ptr[fl[t].addr]], size)
    ensures fl[t].size != n ==>
      Links(Taken(fl, t, n), ptr, size[fl[t].addr := fl[t].size - n][fl[t].addr + (fl[t].size - n) := n])
  {
    hide Links, Spaced, Without, Sized, Linked;
    if fl[t].size == n {
      LinksRemoved(fl, base, t, ptr, size);
    } else {
      LinksResized(fl, base, t, fl[t].size - n, ptr, size);
      SizedTouch(fl, base, t, n);
      TakenChain(fl, base, t, n);
      NotNode(Sized(fl, t, fl[t].size - n), base, Cut(fl, t, n));
      LinksElsewhere(Sized(fl, t, fl[t].size - n), ptr, size[fl[t].addr := fl[t].size - n], Cut(fl, t, n).addr, n);
    }
  }

  // prevp stays on the list.
  lemma TakenKeeps(fl: seq<Block>, base: int, t: nat, n: nat)
    requires 0 < t < |fl| && n <= fl[t].size
    ensures OnList(Taken(fl, t, n), fl[t - 1].addr)
  {
    assert Taken(fl, t, n)[t - 1] == fl[t - 1];
  }

  lemma TakenSizes(fl: seq<Block>, base: int, alloc: map<int, nat>, size: map<int, nat>, t: nat, n: nat,
      size1: map<int, nat>)
    requires Chain(fl, base) && Given(fl, base, alloc, size) && t < |fl| && 0 < n <= fl[t].size
    requires fl[t].addr in size && size[fl[t].addr] == fl[t].size
    requires size1 == if fl[t].size == n then size else size[fl[t].addr :=
        fl[t].size - n][fl[t].addr + (fl[t].size - n) := n]
    ensures forall a :: a in alloc ==> a in size1 && size1[a] == size[a]
    ensures var c := Cut(fl, t, n).addr; c in size1 && size1[c] == n
  {
    hide Chain, Apart;
    forall a | a in alloc ensures a in size1 && size1[a] == size[a] {
      NotNode(fl, base, Block(a, alloc[a]));
      CutApart(fl, t, n, Block(a, alloc[a]));
    }
  }

  lemma TakeStep(fl: seq<Block>, base: int, alloc: map<int, nat>, size: map<int, nat>, arena: set<int>, brk: int,
      t: nat, n: nat)
    requires Chain(fl, base) && Given(fl, base, alloc, size) && t < |fl| && 0 < n <= fl[t].size
    ensures Accounted(fl, alloc, arena) ==> Accounted(Taken(fl, t, n), alloc[Cut(fl, t, n).addr := n], arena)
    ensures Below(fl, alloc, brk) ==> Below(Taken(fl, t, n), alloc[Cut(fl, t, n).addr := n], brk)
  {
    hide Taken, Accounted, Chain;
    CutIsNew(fl, base, alloc, size, t, n);
    if Accounted(fl, alloc, arena) { AccountedTaken(fl, base, alloc, arena, t, n); }
    if Below(fl, alloc, brk) { BelowTaken(fl, base, t, n, brk); }
  }

  lemma CutIsNew(fl: seq<Block>, base: int, alloc: map<int, nat>, size: map<int, nat>, t: nat, n: nat)
    requires Given(fl, base, alloc, size) && t < |fl| && 0 < n <= fl[t].size
    ensures Cut(fl, t, n).addr !in alloc
  {
    hide Apart;
    if Cut(fl, t, n).addr in alloc {
      CutApart(fl, t, n, Block(Cut(fl, t, n).addr, alloc[Cut(fl, t, n).addr]));
      assert false;
    }
  }

  // A block handed out is not a node of the list.
  lemma NotNode(fl: seq<Block>, base: int, c: Block)
    requires Chain(fl, base) && Apart(fl, c) && base < c.addr && c.size > 0
    ensures forall i :: 0 <= i < |fl| ==> fl[i].addr != c.addr
  {
  }

  lemma KeptSizes(fl: seq<Block>, base: int, alloc: map<int, nat>, size: map<int, nat>, b: Block, size1: map<int, nat>)
    requires Chain(fl, base) && Given(fl, base, alloc, size)
    requires b.size > 0 && forall a :: a in alloc ==> b.End() <= a || a + alloc[a] <= b.addr
    requires forall a :: a in size && a != b.addr && (forall i :: 0 <= i < |fl| ==> fl[i].addr != a) ==>
        a in size1 && size1[a] == size[a]
    ensures forall a :: a in alloc ==> a in size1 && size1[a] == size[a]
  {
    hide Chain, Apart;
    forall a | a in alloc ensures a in size1 && size1[a] == size[a] {
      NotNode(fl, base, Block(a, alloc[a]));
    }
  }

  lemma SizeOf(fl: seq<Block>, base: int, alloc: map<int, nat>, size: map<int, nat>, a: int)
    requires Given(fl, base, alloc, size) && a in alloc
    ensures a in size && size[a] == alloc[a]
  {
  }

  // What is accounted for stays so when a block handed out is freed.
  lemma FreeStep(fl: seq<Block>, base: int, alloc: map<int, nat>, size: map<int, nat>, arena: set<int>, b: Block,
      brk: int)
    requires Chain(fl, base) && Given(fl, base, alloc, size) && b.addr in alloc && alloc[b.addr] == b.size
    ensures Apart(fl, b) && base < b.addr && b.size > 0
    ensures Accounted(fl, alloc, arena) ==> Accounted(Freed(fl, b), alloc - {b.addr}, arena)
    ensures Below(fl, alloc, brk) ==> Below(Freed(fl, b), alloc - {b.addr}, brk)
  {
    hide Chain, Apart, Freed, Accounted, Given;
    GivenLess(fl, base, alloc, size, b.addr);
    if Accounted(fl, alloc, arena) { AccountedFreed(fl, base, alloc, arena, b); }
    if Below(fl, alloc, brk) { BelowFreed(fl, base, alloc, b, brk); }
  }

  // Memory above the break is apart from everything.
  lemma BelowApart(fl: seq<Block>, base: int, alloc: map<int, nat>, brk: int, n: nat)
    requires Chain(fl, base) && Below(fl, alloc, brk)
    ensures Apart(fl, Block(brk, n)) && base < brk && forall i :: 0 <= i < |fl| ==> fl[i].addr < brk
    ensures forall a :: a in alloc ==> a + alloc[a] <= brk
  {
    assert fl[0].addr == base;
  }

  lemma LinksElsewhere(fl: seq<Block>, ptr: map<int, int>, size: map<int, nat>, a: int, n: nat)
    requires Links(fl, ptr, size) && forall i :: 0 <= i < |fl| ==> fl[i].addr != a
    ensures Links(fl, ptr, size[a := n])
  {
    var s2 := size[a := n];
    forall i | 0 <= i < |fl| ensures Linked(fl, ptr, s2, i) {
      assert Linked(fl, ptr, size, i);
    }
  }

  lemma FitsLess(fl: seq<Block>, n: nat, m: nat)
    requires Fits(fl, n) && m <= n
    ensures Fits(fl, m)
  {
  }

  lemma Higher(fl: seq<Block>, base: int, k: nat)
    requires Ordered(fl, base) && k < |fl|
    ensures fl[k].addr >= base && (k + 1 < |fl| ==> fl[k].addr < fl[k + 1].addr)
  {
    assert k > 0 ==> fl[0].addr < fl[k].addr;
  }

  lemma Between(fl: seq<Block>, base: int, k: nat, b: Block)
    requires Ordered(fl, base) && k < |fl| && fl[k].addr < b.addr < fl[Next(k, |fl|)].addr
    ensures Place(fl, b.addr) == k
  {
    hide Place;
    Higher(fl, base, k);
    PlaceIs(fl, base, k, b);
  }

  lemma LastPlace(fl: seq<Block>, base: int, k: nat, b: Block)
    requires Ordered(fl, base) && k < |fl| && base < b.addr
    requires fl[k].addr >= fl[Next(k, |fl|)].addr && (b.addr > fl[k].addr || b.addr < fl[Next(k, |fl|)].addr)
    ensures Place(fl, b.addr) == k
  {
    hide Place;
    Higher(fl, base, k);
    PlaceIs(fl, base, k, b);
  }

  lemma NotYet(fl: seq<Block>, base: int, k: nat, b: Block)
    requires Ordered(fl, base) && k < |fl| && Precedes(fl, Place(fl, b.addr), b)
    requires !(fl[k].addr < b.addr < fl[Next(k, |fl|)].addr)
    requires !(fl[k].addr >= fl[Next(k, |fl|)].addr && (b.addr > fl[k].addr || b.addr < fl[Next(k, |fl|)].addr))
    ensures k != Place(fl, b.addr)
    ensures Steps(Next(k, |fl|), Place(fl, b.addr), |fl|) < Steps(k, Place(fl, b.addr), |fl|)
  {
    hide Place;
    if k + 1 == |fl| && k > 0 { assert fl[0].addr < fl[k].addr; }
  }

  lemma FreedKeepsPlace(fl: seq<Block>, base: int, b: Block)
    requires Chain(fl, base) && Apart(fl, b) && base < b.addr && b.size > 0
    ensures Place(fl, b.addr) < |fl| && OnList(Freed(fl, b), fl[Place(fl, b.addr)].addr)
  {
    hide Added, Joined, Ordered, Place, Apart, Spaced;
    var k := Place(fl, b.addr);
    PlacePrecedes(fl, base, b);
    var gl := Added(fl, k, b);
    AddedAt(fl, k, b);
    JoinedSizes(gl, k + 1);
    var hl := Raised(fl, k, b);
    assert hl[k] == fl[k];
    if hl[k].End() == b.addr {
      JoinedFirst(hl, k);
      assert Freed(fl, b) == Joined(hl, k);
      assert Joined(hl, k)[k].addr == fl[k].addr;
    } else {
      assert Freed(fl, b) == hl;
    }
  }

  lemma JoinedFirst(fl: seq<Block>, i: nat)
    requires i + 1 < |fl|
    ensures i < |Joined(fl, i)| && Joined(fl, i)[i].addr == fl[i].addr
  {
    hide Without;
    WithoutAt(Sized(fl, i, fl[i].size + fl[i + 1].size), i + 1);
  }
}
