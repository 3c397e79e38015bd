// xv6-x86/kalloc.c: the free list of page frames.  It is threaded through the
// free pages: the first word of a free page holds the kernel address of the
// next one.

module FrameLists {
  import opened PageTables

  const KERNBASE: nat := 0x8000_0000

  // P2V of page f.
  function Kva(f: nat): (v: Word)
    requires f < FRAMES
    ensures v != 0 && (v - KERNBASE) / 4096 == f
  {
    KERNBASE + f * 4096
  }

  // Pages that lie between the end of the kernel and PHYSTOP.
  ghost predicate Managed(free: seq<nat>, lo: nat) {
    forall i :: 0 <= i < |free| ==> lo <= free[i] < FRAMES
  }

  ghost predicate NoneTwice(free: seq<nat>) {
    forall i, j :: 0 <= i < j < |free| ==> free[i] != free[j]
  }

  // The pointer that leads to the i-th free page, or to no page at the end.
  ghost function Link(free: seq<nat>, i: nat): Word
    requires i <= |free| && Managed(free, 0)
  {
    if i < |free| then Kva(free[i]) else 0
  }

  // From the head, the links run through exactly the pages of free.
  ghost predicate Listed(mem: Memory, head: Word, free: seq<nat>, lo: nat) {
    && Managed(free, lo)
    && NoneTwice(free)
    && Managed(free, 0)
    && head == Link(free, 0)
    && forall i :: 0 <= i < |free| ==> mem[free[i]][0] == Link(free, i + 1)
  }

  ghost function SetOf(free: seq<nat>): set<nat> {
    set f | f in free
  }

  ghost function Range(a: nat, b: nat): (s: set<nat>)
    ensures forall f :: f in s <==> a <= f < b
  {
    if a >= b then {} else Range(a, b - 1) + {b - 1}
  }

  lemma HeadTells(mem: Memory, head: Word, free: seq<nat>, lo: nat)
    requires Listed(mem, head, free, lo)
    ensures head == 0 <==> free == []
    ensures SetOf(free) == {} <==> free == []
  {
    if free != [] { assert free[0] in SetOf(free); }
  }

  lemma ListedSame(mem: Memory, mem': Memory, head: Word, free: seq<nat>, lo: nat)
    requires Listed(mem, head, free, lo) && Same(mem, mem', SetOf(free))
    ensures Listed(mem', head, free, lo)
  {
    forall i | 0 <= i < |free|
      ensures mem'[free[i]] == mem[free[i]]
    {
      assert free[i] in SetOf(free);
    }
  }

  lemma TailSet(free: seq<nat>)
    requires free != [] && NoneTwice(free)
    ensures NoneTwice(free[1..])
    ensures free[0] !in SetOf(free[1..]) && SetOf(free) == SetOf(free[1..]) + {free[0]}
  {
    var rest := free[1..];
    assert free == [free[0]] + rest;
    forall i, j | 0 <= i < j < |rest|
      ensures rest[i] != rest[j]
    {
      assert rest[i] == free[i + 1] && rest[j] == free[j + 1];
    }
    forall i | 0 <= i < |rest|
      ensures rest[i] != free[0]
    {
      assert rest[i] == free[i + 1];
    }
  }

  lemma Popped(mem: Memory, head: Word, free: seq<nat>, lo: nat)
    requires Listed(mem, head, free, lo) && free != []
    ensures head == Kva(free[0]) && lo <= free[0] < FRAMES
    ensures Listed(mem, mem[free[0]][0], free[1..], lo)
    ensures free[0] !in SetOf(free[1..]) && SetOf(free) == SetOf(free[1..]) + {free[0]}
  {
    hide NoneTwice, SetOf;
    var rest := free[1..];
    TailSet(free);
    forall i | 0 <= i < |rest|
      ensures rest[i] == free[i + 1] && lo <= rest[i] < FRAMES
      ensures mem[rest[i]][0] == Link(free, i + 2) == Link(rest, i + 1)
    {
    }
  }

  function Junk(): Page { Filled(ENTRIES, 0x0101_0101) }

  lemma Pushed(mem: Memory, head: Word, free: seq<nat>, lo: nat, f: nat)
    requires Listed(mem, head, free, lo) && lo <= f < FRAMES && f !in SetOf(free)
    ensures Listed(mem[f := Junk()[0 := head]], Kva(f), [f] + free, lo)
    ensures SetOf([f] + free) == SetOf(free) + {f}
  {
    hide NoneTwice, SetOf, Same, Junk, Kva;
    var mem' := mem[f := Junk()[0 := head]];
    var more := [f] + free;
    MoreSet(free, f);
    forall i | 0 <= i < |more|
      ensures lo <= more[i] < FRAMES
      ensures mem'[more[i]][0] == Link(more, i + 1)
    {
      if i > 0 { assert more[i] == free[i - 1] != f; }
    }
  }

  lemma MoreSet(free: seq<nat>, f: nat)
    requires NoneTwice(free) && f !in SetOf(free)
    ensures NoneTwice([f] + free) && SetOf([f] + free) == SetOf(free) + {f}
    ensures forall i :: 0 <= i < |free| ==> free[i] != f
  {
    forall i | 0 <= i < |free|
      ensures free[i] != f
    {
      assert free[i] in SetOf(free);
    }
    forall x | x in SetOf(free) + {f}
      ensures x in SetOf([f] + free)
    {
      assert ([f] + free)[0] == f;
      if x != f {
        var i :| 0 <= i < |free| && free[i] == x;
        assert ([f] + free)[i + 1] == x;
      }
    }
  }
}
