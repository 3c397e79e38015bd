// What the processor makes of the page tables of xv6-x86/vm.c: it goes through both levels, and
// a flag that one of them lacks is lacking.
module PageAccess {
  import opened PageTables
  import opened FrameLists
  import opened Mappings

  // Fault: the page is absent. Else the frame, and whether it may be written, and used from
  // user mode.
  datatype Access = Fault | Access(frame: nat, write: bool, user: bool)

  ghost function Walk(mem: Memory, d: nat, p: nat): Access
    requires d < FRAMES && p < PAGES
  {
    var e := mem[d][p / 1024];
    if !Present(e) || FrameOf(e) >= FRAMES then Fault
    else
      var w := mem[FrameOf(e)][p % 1024];
      if !Present(w) then Fault else Access(FrameOf(w), Writable(e) && Writable(w), ForUser(e) && ForUser(w))
  }

  function EntryAccess(w: Word): Access {
    if Present(w) then Access(FrameOf(w), Writable(w), ForUser(w)) else Fault
  }

  /** In an address space the entry of the page alone decides. */
  lemma WalkIs(mem: Memory, d: nat, lo: nat, p: nat)
    requires Space(mem, d, lo) && p < PAGES
    ensures Walk(mem, d, p) == EntryAccess(Lookup(mem, d, p))
  {
  }

  // The access that mappages is asked for: perm is PTE_W and PTE_U, or one of them, or neither.
  function Granted(f: nat, perm: nat): Access {
    Access(f, perm / 2 % 2 == 1, perm / 4 % 2 == 1)
  }

  lemma EntryGrants(f: nat, perm: nat)
    requires f < PAGES && perm < 4096
    ensures EntryAccess(Entry(f, perm)) == Granted(f, perm)
  {
    hide Writable, ForUser, FrameOf, Present;
    EntryFlags(f, Ored(perm));
    OredHalves(perm);
  }

  // Setting the lowest bit leaves the others.
  lemma OredHalves(perm: nat)
    requires perm < 4096
    ensures Ored(perm) / 2 == perm / 2 && Ored(perm) / 4 == perm / 4
  {
  }

  // The flag bits below the page number decide.
  lemma FlagsGrant(w: Word)
    ensures Writable(w) <==> Flags(w) / 2 % 2 == 1
    ensures ForUser(w) <==> Flags(w) / 4 % 2 == 1
    ensures Present(w) <==> Flags(w) % 2 == 1
  {
    hide Writable, ForUser;
    EntryFlags(FrameOf(w), Flags(w));
    EntryParts(FrameOf(w), Flags(w));
    assert w == FrameOf(w) * 4096 + Flags(w);
  }

  // The pages from first up to upto can be used as perm says, in the frames from f on.
  ghost predicate Opened(mem: Memory, d: nat, first: nat, upto: nat, f: nat, perm: nat)
    requires d < FRAMES && upto <= PAGES
  {
    forall p :: first <= p < upto ==> Walk(mem, d, p) == Granted(f + (p - first), perm)
  }

  lemma SpreadOpens(mem: Memory, mem': Memory, d: nat, lo: nat, first: nat, upto: nat, f: nat, perm: nat)
    requires Space(mem', d, lo) && first <= upto <= PAGES && perm < 4096 && f + (upto - first) <= PAGES
    requires Spread(mem, mem', d, first, upto, f, perm)
    ensures Opened(mem', d, first, upto, f, perm)
  {
    hide Lookup, Walk, Entry, EntryAccess, Granted, Space;
    forall p | first <= p < upto
      ensures Walk(mem', d, p) == Granted(f + (p - first), perm)
    {
      assert Lookup(mem', d, p) == SpreadAt(mem, d, first, upto, f, perm, p);
      WalkIs(mem', d, lo, p);
      EntryGrants(f + (p - first), perm);
    }
  }

  // The user may read and write the page, which is zero.
  ghost predicate FreshAt(mem: Memory, d: nat, p: nat)
    requires d < FRAMES && p < PAGES
  {
    var a := Walk(mem, d, p);
    a.Access? && a.write && a.user && a.frame < FRAMES && mem[a.frame] == Zeros()
  }

  lemma GrownOpens(mem: Memory, mem': Memory, d: nat, lo: nat, first: nat, upto: nat)
    requires Space(mem', d, lo) && first <= upto <= PAGES
    requires Grown(mem, mem', d, first, upto, Blank(upto))
    ensures forall p :: first <= p < upto ==> FreshAt(mem', d, p)
  {
    hide Lookup, Walk, Space, Blank, Zeros;
    forall p | first <= p < upto
      ensures FreshAt(mem', d, p)
    {
      assert Holds(mem', d, p, Blank(upto)[p]) && Blank(upto)[p] == Held(7, Zeros());
      WalkIs(mem', d, lo, p);
      FlagsGrant(Lookup(mem', d, p));
    }
  }

  // The child may use page p as the parent may, and finds the same there.
  ghost predicate SharedAt(mem: Memory, parent: nat, d: nat, p: nat)
    requires parent < FRAMES && d < FRAMES && p < PAGES
  {
    var a, b := Walk(mem, parent, p), Walk(mem, d, p);
    && a.Access? && b.Access? && b.write == a.write && b.user == a.user
    && a.frame < FRAMES && b.frame < FRAMES && b.frame != a.frame && mem[b.frame] == mem[a.frame]
  }

  lemma CopyShares(mem: Memory, parent: nat, d: nat, lo: nat, n: nat)
    requires Space(mem, parent, lo) && Space(mem, d, lo) && n <= USER && CopyOf(mem, parent, d, n)
    requires Owned(mem, d) !! Owned(mem, parent)
    ensures forall p :: 0 <= p < n ==> SharedAt(mem, parent, d, p)
  {
    hide Lookup, Walk, Space, Owned, TableSet;
    forall p | 0 <= p < n
      ensures SharedAt(mem, parent, d, p)
    {
      assert CopyAt(mem, parent, d, p);
      CopyParts(mem, parent, d, lo, p);
      WalkIs(mem, parent, lo, p);
      WalkIs(mem, d, lo, p);
      FlagsGrant(Lookup(mem, parent, p));
      FlagsGrant(Lookup(mem, d, p));
    }
  }

  lemma CopyParts(mem: Memory, parent: nat, d: nat, lo: nat, p: nat)
    requires Space(mem, parent, lo) && Space(mem, d, lo) && p < USER && CopyAt(mem, parent, d, p)
    requires Owned(mem, d) !! Owned(mem, parent)
    ensures MapsPage(mem, parent, p) && MappedFrame(mem, parent, p) != MappedFrame(mem, d, p)
  {
    hide Space, Owned, Lookup;
    FlagsGrant(Lookup(mem, parent, p));
    FlagsGrant(Lookup(mem, d, p));
    MappedIn(mem, parent, p);
    MappedIn(mem, d, p);
  }

  // What the kernel finds at page p in every address space, and user programs do not: the
  // memory up to PHYSTOP above KERNBASE, its text read-only, and the devices.
  function KernelAccess(p: nat, data: nat): Access {
    if USER <= p < USER + FRAMES then Access(p - USER, p < USER + 0x100 || p >= USER + data, false)
    else if 0xFE000 <= p < PAGES then Access(p, true, false)
    else Fault
  }

  lemma KernelOpens(mem: Memory, d: nat, lo: nat, p: nat, data: nat)
    requires Space(mem, d, lo) && p < PAGES && 0x100 < data < FRAMES
    requires Lookup(mem, d, p) == KernelEntry(p, data)
    ensures Walk(mem, d, p) == KernelAccess(p, data)
  {
    hide Lookup, Walk, Space, Entry;
    WalkIs(mem, d, lo, p);
    if USER <= p < USER + FRAMES {
      EntryGrants(p - USER, 0);
      EntryGrants(p - USER, 2);
    } else {
      EntryGrants(p, 2);
    }
  }

  // The kernel's pages from page a on.
  ghost predicate KernelSees(mem: Memory, d: nat, a: nat, data: nat)
    requires d < FRAMES
  {
    forall p :: a <= p < PAGES ==> Walk(mem, d, p) == KernelAccess(p, data)
  }

  lemma KernelOpensFrom(mem: Memory, d: nat, lo: nat, a: nat, data: nat)
    requires Space(mem, d, lo) && 0x100 < data < FRAMES
    requires forall p :: a <= p < PAGES ==> Lookup(mem, d, p) == KernelEntry(p, data)
    ensures KernelSees(mem, d, a, data)
  {
    hide Lookup, Walk, Space, KernelEntry, KernelAccess;
    forall p | a <= p < PAGES
      ensures Walk(mem, d, p) == KernelAccess(p, data)
    {
      KernelOpens(mem, d, lo, p, data);
    }
  }
}
