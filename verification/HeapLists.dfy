// The free list of xv6-x86/umalloc.c as a list of blocks in address order, the static header
// base first. Addresses count headers, 8 bytes each.
module HeapLists {
  import opened Helpers

  datatype Block = Block(addr: int, size: nat) {
    function End(): int { addr + size }
  }

  // One address-ordered list from base up; only base is empty.
  predicate Ordered(fl: seq<Block>, base: int) {
    && fl != [] && fl[0] == Block(base, 0)
    && (forall i :: 1 <= i < |fl| ==> fl[i].size > 0)
    && (forall i, j :: 0 <= i < j < |fl| ==> fl[i].addr < fl[j].addr && fl[i].End() <= fl[j].addr)
  }

  predicate Touch(fl: seq<Block>, i: nat) {
    i + 1 < |fl| && fl[i].End() == fl[i + 1].addr
  }

  // No two blocks touch.
  ghost predicate Spaced(fl: seq<Block>) {
    forall i: nat :: !Touch(fl, i)
  }

  ghost predicate Chain(fl: seq<Block>, base: int) {
    Ordered(fl, base) && Spaced(fl)
  }

  function Next(i: nat, n: nat): nat { if i + 1 == n then 0 else i + 1 }

  // The headers in memory link the list into one cycle and hold the sizes.
  predicate Links(fl: seq<Block>, ptr: map<int, int>, size: map<int, nat>) {
    forall i :: 0 <= i < |fl| ==> Linked(fl, ptr, size, i)
  }

  predicate Linked(fl: seq<Block>, ptr: map<int, int>, size: map<int, nat>, i: nat)
    requires i < |fl|
  {
    && fl[i].addr in ptr && ptr[fl[i].addr] == fl[Next(i, |fl|)].addr
    && fl[i].addr in size && size[fl[i].addr] == fl[i].size
  }

  // b lies in no block of the list, though it may touch some.
  predicate Apart(fl: seq<Block>, b: Block) {
    forall i :: 0 <= i < |fl| ==> fl[i].End() <= b.addr || b.End() <= fl[i].addr
  }

  predicate Within(b: Block, u: int) { b.addr <= u < b.End() }

  predicate InList(fl: seq<Block>, u: int) {
    exists i :: 0 <= i < |fl| && Within(fl[i], u)
  }

  // b goes between block k and the one after it.
  predicate Precedes(fl: seq<Block>, k: nat, b: Block) {
    k < |fl| && fl[k].addr < b.addr && (k + 1 < |fl| ==> b.addr < fl[k + 1].addr)
  }

  function Place(fl: seq<Block>, a: int): nat {
    if |fl| <= 1 then 0 else if fl[|fl| - 1].addr < a then |fl| - 1 else Place(fl[..|fl| - 1], a)
  }

  lemma {:induction false} PlacePrecedes(fl: seq<Block>, base: int, b: Block)
    requires Ordered(fl, base) && Apart(fl, b) && base < b.addr && b.size > 0
    ensures Precedes(fl, Place(fl, b.addr), b)
  {
    var n := |fl| - 1;
    if n > 0 && b.addr <= fl[n].addr {
      PlacePrecedes(fl[..n], base, b);
      assert fl[n].End() <= b.addr || b.End() <= fl[n].addr;
    }
  }

  // ---- the changes the code makes: put a block behind block k, join a block with the next
  // one, take one out, make one smaller

  function Added(fl: seq<Block>, k: nat, b: Block): seq<Block>
    requires k < |fl|
  {
    fl[..k + 1] + [b] + fl[k + 1..]
  }

  function Sized(fl: seq<Block>, t: nat, n: nat): seq<Block>
    requires t < |fl|
  {
    fl[t := Block(fl[t].addr, n)]
  }

  function Joined(fl: seq<Block>, i: nat): seq<Block>
    requires i + 1 < |fl|
  {
    Without(Sized(fl, i, fl[i].size + fl[i + 1].size), i + 1)
  }

  lemma AddedAt(fl: seq<Block>, k: nat, b: Block)
    requires k < |fl|
    ensures |Added(fl, k, b)| == |fl| + 1
    ensures forall i {:trigger Added(fl, k, b)[i]} :: 0 <= i <= |fl| ==>
        Added(fl, k, b)[i] == if i <= k then fl[i] else if i == k + 1 then b else fl[i - 1]
  {
  }

  // ---- order

  lemma AddedOrdered(fl: seq<Block>, base: int, k: nat, b: Block)
    requires Ordered(fl, base) && Apart(fl, b) && b.size > 0 && Precedes(fl, k, b)
    ensures Ordered(Added(fl, k, b), base)
  {
    hide Added;
    AddedAt(fl, k, b);
    var gl := Added(fl, k, b);
    forall i, j | 0 <= i < j < |gl| ensures gl[i].addr < gl[j].addr && gl[i].End() <= gl[j].addr {
      if i == k + 1 {
        assert fl[j - 1].End() <= b.addr || b.End() <= fl[j - 1].addr;
      } else if j == k + 1 {
        assert fl[i].addr <= fl[k].addr;
        assert fl[i].End() <= b.addr;
      }
    }
  }

  lemma WithoutOrdered(fl: seq<Block>, base: int, t: nat)
    requires Ordered(fl, base) && 0 < t < |fl|
    ensures Ordered(Without(fl, t), base)
  {
    hide Without;
    WithoutAt(fl, t);
  }

  lemma SizedOrdered(fl: seq<Block>, base: int, t: nat, n: nat)
    requires Ordered(fl, base) && 0 < t < |fl| && 0 < n
    requires t + 1 < |fl| ==> fl[t].addr + n <= fl[t + 1].addr
    ensures Ordered(Sized(fl, t, n), base)
  {
    var gl := Sized(fl, t, n);
    forall i, j | 0 <= i < j < |gl| ensures gl[i].addr < gl[j].addr && gl[i].End() <= gl[j].addr {
      assert gl[i].addr == fl[i].addr && gl[j].addr == fl[j].addr;
      assert fl[i].addr < fl[j].addr && fl[i].End() <= fl[j].addr;
      if i == t { assert t + 1 == j || fl[t + 1].addr < fl[j].addr; }
    }
  }

  lemma JoinedOrdered(fl: seq<Block>, base: int, i: nat)
    requires Ordered(fl, base) && Touch(fl, i)
    ensures i > 0 && Ordered(Joined(fl, i), base)
  {
    hide Without, Sized;
    assert i > 0 by { assert fl[0].addr < fl[1].addr; }
    // taken out before the block in front grows over it
    var gl := Without(fl, i + 1);
    WithoutOrdered(fl, base, i + 1);
    WithoutAt(fl, i + 1);
    SizedOrdered(gl, base, i, fl[i].size + fl[i + 1].size);
    assert Joined(fl, i) == Sized(gl, i, fl[i].size + fl[i + 1].size) by { JoinedSame(fl, i); }
  }

  lemma JoinedSame(fl: seq<Block>, i: nat)
    requires i + 1 < |fl|
    ensures Joined(fl, i) == Sized(Without(fl, i + 1), i, fl[i].size + fl[i + 1].size)
  {
  }

  // ---- units

  lemma AddedUnits(fl: seq<Block>, k: nat, b: Block, u: int)
    requires k < |fl|
    ensures InList(Added(fl, k, b), u) <==> InList(fl, u) || Within(b, u)
  {
    hide Added, Within;
    AddedAt(fl, k, b);
    var gl := Added(fl, k, b);
    if InList(fl, u) {
      var i :| 0 <= i < |fl| && Within(fl[i], u);
      if i <= k { assert gl[i] == fl[i]; } else { assert gl[i + 1] == fl[i]; }
    }
    if Within(b, u) { assert gl[k + 1] == b; }
  }

  lemma WithoutUnits(fl: seq<Block>, t: nat, u: int)
    requires t < |fl|
    ensures InList(fl, u) <==> InList(Without(fl, t), u) || Within(fl[t], u)
  {
    hide Without, Within;
    WithoutAt(fl, t);
    var gl := Without(fl, t);
    if InList(fl, u) {
      var i :| 0 <= i < |fl| && Within(fl[i], u);
      if i < t { assert gl[i] == fl[i]; } else if i > t { assert gl[i - 1] == fl[i]; }
    }
  }

  lemma SizedUnits(fl: seq<Block>, t: nat, n: nat, u: int)
    requires t < |fl|
    ensures InList(Sized(fl, t, n), u) || Within(fl[t], u) <==> InList(fl, u) || Within(Block(fl[t].addr, n), u)
  {
    hide Within;
    var gl := Sized(fl, t, n);
    if InList(fl, u) && !Within(fl[t], u) {
      var i :| 0 <= i < |fl| && Within(fl[i], u);
      assert gl[i] == fl[i];
    }
    if Within(Block(fl[t].addr, n), u) { assert Within(gl[t], u); }
    if InList(gl, u) {
      var i :| 0 <= i < |gl| && Within(gl[i], u);
      if i != t { assert gl[i] == fl[i]; }
    }
  }

  lemma JoinedUnits(fl: seq<Block>, base: int, i: nat, u: int)
    requires Ordered(fl, base) && Touch(fl, i)
    ensures InList(Joined(fl, i), u) <==> InList(fl, u)
  {
    hide Without, Sized, InList;
    var big := fl[i].size + fl[i + 1].size;
    var gl := Without(fl, i + 1);
    JoinedSame(fl, i);
    WithoutAt(fl, i + 1);
    WithoutUnits(fl, i + 1, u);
    SizedUnits(gl, i, big, u);
    assert Within(Block(fl[i].addr, big), u) <==> Within(fl[i], u) || Within(fl[i + 1], u);
    if Within(fl[i], u) { HeldByOne(fl, i, u); HeldByOne(gl, i, u); JoinedHolds(fl, i, u); }
  }

  lemma HeldByOne(fl: seq<Block>, i: nat, u: int)
    requires i < |fl| && Within(fl[i], u)
    ensures InList(fl, u)
  {
  }

  lemma JoinedHolds(fl: seq<Block>, i: nat, u: int)
    requires i + 1 < |fl| && Within(fl[i], u)
    ensures InList(Joined(fl, i), u)
  {
    hide Without;
    WithoutAt(Sized(fl, i, fl[i].size + fl[i + 1].size), i + 1);
    assert Within(Joined(fl, i)[i], u);
  }

  // ---- the links

  lemma LinksAdded(fl: seq<Block>, base: int, k: nat, b: Block, ptr: map<int, int>, size: map<int, nat>)
    requires Ordered(fl, base) && Links(fl, ptr, size) && Precedes(fl, k, b) && b.addr in size &&
        size[b.addr] == b.size && fl[k].addr in ptr
    ensures Links(Added(fl, k, b), ptr[b.addr := ptr[fl[k].addr]][fl[k].addr := b.addr], size)
  {
    hide Added, Links;
    AddedAt(fl, k, b);
    var gl := Added(fl, k, b);
    var p2 := ptr[b.addr := ptr[fl[k].addr]][fl[k].addr := b.addr];
    forall i | 0 <= i < |gl| ensures Linked(gl, p2, size, i) {
      LinkAdded(fl, base, k, b, ptr, size, i);
    }
    LinksIf(gl, p2, size);
  }

  lemma LinksIf(fl: seq<Block>, ptr: map<int, int>, size: map<int, nat>)
    requires forall i :: 0 <= i < |fl| ==> Linked(fl, ptr, size, i)
    ensures Links(fl, ptr, size)
  {
  }

  lemma LinkAdded(fl: seq<Block>, base: int, k: nat, b: Block, ptr: map<int, int>, size: map<int, nat>, i: nat)
    requires Ordered(fl, base) && Links(fl, ptr, size) && Precedes(fl, k, b) && b.addr in size &&
        size[b.addr] == b.size && fl[k].addr in ptr
    requires i < |Added(fl, k, b)|
    ensures Linked(Added(fl, k, b), ptr[b.addr := ptr[fl[k].addr]][fl[k].addr := b.addr], size, i)
  {
    hide Added, Ordered, Links, Linked;
    AddedAt(fl, k, b);
    var j := if i <= k then i else if i == k + 1 then k else i - 1;
    LinkOf(fl, ptr, size, j);
    OtherAddress(fl, base, k, b, j);
    LinkedBy(Added(fl, k, b), ptr[b.addr := ptr[fl[k].addr]][fl[k].addr := b.addr], size, i);
  }

  lemma LinkOf(fl: seq<Block>, ptr: map<int, int>, size: map<int, nat>, j: nat)
    requires Links(fl, ptr, size) && j < |fl|
    ensures fl[j].addr in ptr && ptr[fl[j].addr] == fl[Next(j, |fl|)].addr
    ensures fl[j].addr in size && size[fl[j].addr] == fl[j].size
  {
    assert Linked(fl, ptr, size, j);
  }

  lemma LinkedBy(gl: seq<Block>, ptr: map<int, int>, size: map<int, nat>, i: nat)
    requires i < |gl| && gl[i].addr in ptr && ptr[gl[i].addr] == gl[Next(i, |gl|)].addr
    requires gl[i].addr in size && size[gl[i].addr] == gl[i].size
    ensures Linked(gl, ptr, size, i)
  {
  }

  lemma OtherAddress(fl: seq<Block>, base: int, k: nat, b: Block, j: nat)
    requires Ordered(fl, base) && Precedes(fl, k, b) && j < |fl|
    ensures fl[j].addr != b.addr && fl[k].addr != b.addr && (j != k ==> fl[j].addr != fl[k].addr)
  {
    if j < k {
      assert fl[j].addr < fl[k].addr;
    } else if j > k {
      assert fl[k].addr < fl[j].addr;
      assert fl[k + 1].addr <= fl[j].addr;
    }
  }

  // Block t is unlinked from the block before it.
  lemma LinksRemoved(fl: seq<Block>, base: int, t: nat, ptr: map<int, int>, size: map<int, nat>)
    requires Ordered(fl, base) && Links(fl, ptr, size) && 0 < t < |fl| && fl[t].addr in ptr
    ensures Links(Without(fl, t), ptr[fl[t - 1].addr := ptr[fl[t].addr]], size)
  {
    hide Without, Links;
    WithoutAt(fl, t);
    var gl := Without(fl, t);
    var p2 := ptr[fl[t - 1].addr := ptr[fl[t].addr]];
    forall i | 0 <= i < |gl| ensures Linked(gl, p2, size, i) {
      LinkRemoved(fl, base, t, ptr, size, i);
    }
    LinksIf(gl, p2, size);
  }

  lemma LinkRemoved(fl: seq<Block>, base: int, t: nat, ptr: map<int, int>, size: map<int, nat>, i: nat)
    requires Ordered(fl, base) && Links(fl, ptr, size) && 0 < t < |fl| && i < |Without(fl, t)| && fl[t].addr in ptr
    ensures Linked(Without(fl, t), ptr[fl[t - 1].addr := ptr[fl[t].addr]], size, i)
  {
    hide Without;
    WithoutAt(fl, t);
    assert Linked(fl, ptr, size, t);
    assert Linked(fl, ptr, size, if i < t then i else i + 1);
  }

  lemma LinksResized(fl: seq<Block>, base: int, t: nat, n: nat, ptr: map<int, int>, size: map<int, nat>)
    requires Ordered(fl, base) && Links(fl, ptr, size) && t < |fl|
    ensures Links(Sized(fl, t, n), ptr, size[fl[t].addr := n])
  {
    var gl := Sized(fl, t, n);
    var s2 := size[fl[t].addr := n];
    forall i | 0 <= i < |gl| ensures Linked(gl, ptr, s2, i) {
      assert Linked(fl, ptr, size, i);
      assert gl[i].addr == fl[i].addr && gl[Next(i, |gl|)].addr == fl[Next(i, |fl|)].addr;
    }
  }
}
