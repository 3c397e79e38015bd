// malloc(), free() and morecore() of xv6-x86/umalloc.c over headers in memory, and sbrk.
module Heap {
  import opened Helpers
  import opened HeapLists

  // The list after b is put in its place and joined with the blocks it touches.
  function Freed(fl: seq<Block>, b: Block): seq<Block>
    requires fl != []
  {
    var k := Place(fl, b.addr);
    PlaceBound(fl, b.addr);
    var gl := Added(fl, k, b);
    var hl := if k + 2 < |gl| && gl[k + 1].End() == gl[k + 2].addr then Joined(gl, k + 1) else gl;
    if gl[k].End() == b.addr then Joined(hl, k) else hl
  }

  lemma {:induction false} PlaceBound(fl: seq<Block>, a: int)
    requires fl != []
    ensures Place(fl, a) < |fl|
  {
    if |fl| > 1 && fl[|fl| - 1].addr >= a {
      PlaceBound(fl[..|fl| - 1], a);
    }
  }

  // Only the new block can come to touch a neighbour.
  lemma AddedTouch(fl: seq<Block>, k: nat, b: Block, i: nat)
    requires k < |fl| && Touch(Added(fl, k, b), i)
    ensures i == k || i == k + 1 || (i < k && Touch(fl, i)) || (i > k + 1 && Touch(fl, i - 1))
  {
    hide Added;
    AddedAt(fl, k, b);
  }

  lemma JoinedTouch(fl: seq<Block>, j: nat, i: nat)
    requires j + 1 < |fl| && fl[j].End() == fl[j + 1].addr && Touch(Joined(fl, j), i)
    ensures Touch(fl, if i < j then i else i + 1)
  {
    hide Without;
    WithoutAt(Sized(fl, j, fl[j].size + fl[j + 1].size), j + 1);
  }

  // Freeing keeps the list in order with no two blocks touching.
  lemma FreedChain(fl: seq<Block>, base: int, b: Block)
    requires Chain(fl, base) && Apart(fl, b) && base < b.addr && b.size > 0
    ensures Chain(Freed(fl, b), base)
  {
    hide Added, Joined, Ordered, Place;
    var k := Place(fl, b.addr);
    PlacePrecedes(fl, base, b);
    AddedOrdered(fl, base, k, b);
    var gl := Added(fl, k, b);
    AddedAt(fl, k, b);
    var up := Touch(gl, k + 1);
    var hl := if up then Joined(gl, k + 1) else gl;
    forall i: nat | Touch(gl, i) ensures i == k || i == k + 1 {
      AddedTouch(fl, k, b, i);
    }
    if up {
      JoinedOrdered(gl, base, k + 1);
      forall i: nat | Touch(hl, i) ensures i == k {
        JoinedTouch(gl, k + 1, i);
      }
    }
    JoinedSizes(gl, k + 1);
    if gl[k].End() == b.addr {
      JoinedOrdered(hl, base, k);
      forall i: nat ensures !Touch(Joined(hl, k), i) {
        if Touch(Joined(hl, k), i) { JoinedTouch(hl, k, i); }
      }
    }
  }

  lemma JoinedSizes(fl: seq<Block>, j: nat)
    requires 0 < j < |fl|
    ensures j + 1 < |fl| ==>
        |Joined(fl, j)| == |fl| - 1 && Joined(fl, j)[j - 1] == fl[j - 1] && Joined(fl, j)[j].addr == fl[j].addr
  {
    if j + 1 < |fl| {
      hide Without;
      WithoutAt(Sized(fl, j, fl[j].size + fl[j + 1].size), j + 1);
    }
  }

  // Exactly the units of the block come to the list.
  lemma FreedUnits(fl: seq<Block>, base: int, b: Block, u: int)
    requires Chain(fl, base) && Apart(fl, b) && base < b.addr && b.size > 0
    ensures InList(Freed(fl, b), u) <==> InList(fl, u) || Within(b, u)
  {
    hide Added, Joined, Ordered, Place, InList;
    var k := Place(fl, b.addr);
    PlacePrecedes(fl, base, b);
    AddedOrdered(fl, base, k, b);
    var gl := Added(fl, k, b);
    AddedAt(fl, k, b);
    AddedUnits(fl, k, b, u);
    JoinedSizes(gl, k + 1);
    var hl := gl;
    if Touch(gl, k + 1) {
      JoinedOrdered(gl, base, k + 1);
      JoinedUnits(gl, base, k + 1, u);
      hl := Joined(gl, k + 1);
    }
    if gl[k].End() == b.addr {
      JoinedUnits(hl, base, k, u);
    }
  }

  // ---- what free() writes: first bp with what is above it, then p with bp

  datatype Memory = Memory(ptr: map<int, int>, size: map<int, nat>)

  predicate Header(m: Memory, a: int) { a in m.ptr && a in m.size }

  function Upper(m: Memory, bp: int, p: int): Memory
    requires bp in m.size && Header(m, p) && Header(m, m.ptr[p])
  {
    var n := m.ptr[p];
    if bp + m.size[bp] == n then Memory(m.ptr[bp := m.ptr[n]], m.size[bp := m.size[bp] + m.size[n]])
    else Memory(m.ptr[bp := n], m.size)
  }

  function Lower(m: Memory, bp: int, p: int): Memory
    requires Header(m, bp) && Header(m, p)
  {
    if p + m.size[p] == bp then Memory(m.ptr[p := m.ptr[bp]], m.size[p := m.size[p] + m.size[bp]])
    else Memory(m.ptr[p := bp], m.size)
  }

  // The list when only the join above has been made.
  function Raised(fl: seq<Block>, k: nat, b: Block): seq<Block>
    requires k < |fl|
  {
    var gl := Added(fl, k, b);
    AddedAt(fl, k, b);
    if k + 2 < |gl| && gl[k + 1].End() == gl[k + 2].addr then Joined(gl, k + 1) else gl
  }

  lemma HeadersOf(fl: seq<Block>, m: Memory, i: nat)
    requires Links(fl, m.ptr, m.size) && i < |fl|
    ensures Header(m, fl[i].addr) && m.ptr[fl[i].addr] == fl[Next(i, |fl|)].addr && m.size[fl[i].addr] == fl[i].size
    ensures Header(m, fl[Next(i, |fl|)].addr)
    ensures m.ptr[fl[Next(i, |fl|)].addr] == fl[Next(Next(i, |fl|), |fl|)].addr &&
        m.size[fl[Next(i, |fl|)].addr] == fl[Next(i, |fl|)].size
  {
    assert Linked(fl, m.ptr, m.size, i);
    assert Linked(fl, m.ptr, m.size, Next(i, |fl|));
  }

  lemma FirstIsBase(fl: seq<Block>, base: int)
    requires Ordered(fl, base)
    ensures fl != [] && fl[0] == Block(base, 0)
  {
  }

  lemma UpperLinks(fl: seq<Block>, base: int, k: nat, b: Block, m: Memory)
    requires Ordered(fl, base) && Links(fl, m.ptr, m.size) && Apart(fl, b) && b.size > 0 && Precedes(fl, k, b) &&
        base < b.addr
    requires b.addr in m.size && m.size[b.addr] == b.size
    ensures Header(m, fl[k].addr) && Header(m, m.ptr[fl[k].addr])
    ensures var m1 := Upper(m, b.addr, fl[k].addr);
      Links(Raised(fl, k, b), m1.ptr[fl[k].addr := b.addr], m1.size)
  {
    hide Added, Links, Joined, Without, Sized, Linked, Ordered, Apart;
    HeadersOf(fl, m, k);
    assert fl[0].addr == base by { FirstIsBase(fl, base); }
    var p := fl[k].addr;
    var m1 := Upper(m, b.addr, p);
    var gl := Added(fl, k, b);
    AddedAt(fl, k, b);
    AddedOrdered(fl, base, k, b);
    LinksAdded(fl, base, k, b, m.ptr, m.size);
    var q := m.ptr[b.addr := m.ptr[p]][p := b.addr];
    if Touch(gl, k + 1) {
      HeadersOf(gl, Memory(q, m.size), k + 1);
      HeadersOf(fl, m, k);
      var n := gl[k + 2].addr;
      var big := gl[k + 1].size + gl[k + 2].size;
      HeadersOf(gl, Memory(q, m.size), k + 2);
      LinksRemoved(gl, base, k + 2, q, m.size);
      WithoutAt(gl, k + 2);
      WithoutOrdered(gl, base, k + 2);
      LinksResized(Without(gl, k + 2), base, k + 1, big, q[b.addr := q[n]], m.size);
      JoinedSame(gl, k + 1);
      assert q[b.addr := q[n]] == m1.ptr[p := b.addr];
    } else {
      assert k + 1 == |fl| ==> b.End() != base;
      assert b.End() != m.ptr[p];
    }
  }

  lemma LowerLinks(hl: seq<Block>, base: int, k: nat, m1: Memory)
    requires Ordered(hl, base) && k + 1 < |hl|
    requires Links(hl, m1.ptr[hl[k].addr := hl[k + 1].addr], m1.size)
    ensures Header(m1, hl[k + 1].addr) && (hl[k].addr in m1.ptr ==> Header(m1, hl[k].addr))
    ensures hl[k].addr in m1.ptr ==>
      var m2 := Lower(m1, hl[k + 1].addr, hl[k].addr);
      Links(if hl[k].End() == hl[k + 1].addr then Joined(hl, k) else hl, m2.ptr, m2.size)
  {
    hide Links, Joined, Without, Sized, Linked;
    var p, bp := hl[k].addr, hl[k + 1].addr;
    var q := m1.ptr[p := bp];
    HeadersOf(hl, Memory(q, m1.size), k);
    if p in m1.ptr && Touch(hl, k) {
      LinksRemoved(hl, base, k + 1, q, m1.size);
      WithoutAt(hl, k + 1);
      WithoutOrdered(hl, base, k + 1);
      LinksResized(Without(hl, k + 1), base, k, hl[k].size + hl[k + 1].size, q[p := q[bp]], m1.size);
      JoinedSame(hl, k);
      assert q[p := q[bp]] == m1.ptr[p := m1.ptr[bp]];
    }
  }

  // After both writes the headers link the new list.
  lemma FreedLinks(fl: seq<Block>, base: int, b: Block, m: Memory)
    requires Ordered(fl, base) && Links(fl, m.ptr, m.size) && Apart(fl, b) && base < b.addr && b.size > 0
    requires b.addr in m.size && m.size[b.addr] == b.size
    ensures Place(fl, b.addr) < |fl|
    ensures var p := fl[Place(fl, b.addr)].addr;
      && Header(m, p) && Header(m, m.ptr[p])
      && var m1 := Upper(m, b.addr, p);
      && Header(m1, b.addr) && Header(m1, p)
      && var m2 := Lower(m1, b.addr, p);
      && Links(Freed(fl, b), m2.ptr, m2.size)
  {
    hide Added, Links, Joined, Without, Sized, Linked, Place;
    var k := Place(fl, b.addr);
    PlacePrecedes(fl, base, b);
    UpperLinks(fl, base, k, b, m);
    AddedOrdered(fl, base, k, b);
    var gl := Added(fl, k, b);
    AddedAt(fl, k, b);
    JoinedSizes(gl, k + 1);
    if Touch(gl, k + 1) { JoinedOrdered(gl, base, k + 1); }
    var hl := Raised(fl, k, b);
    LowerLinks(hl, base, k, Upper(m, b.addr, fl[k].addr));
  }
}
