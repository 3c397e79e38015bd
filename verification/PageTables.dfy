// Two-level page tables, as the words of physical pages.
//
// Physical memory is a sequence of pages of 1024 32-bit words.  A page
// directory entry names the page of a page table and a page table entry the
// page it maps; both keep twelve flag bits below the page number
// (xv6-x86/mmu.h).  Virtual addresses enter as page numbers: the upper ten of
// the twenty bits pick the directory entry, the lower ten the table entry.

module PageTables {

  const ENTRIES: nat := 1024
  const PAGES: nat := 0x10_0000      // 4 GB of virtual addresses
  const USER: nat := 0x8_0000        // KERNBASE / PGSIZE
  const FRAMES: nat := 0xE000        // PHYSTOP / PGSIZE
  const WORDS: nat := 0x1_0000_0000

  type Word = x: nat | x < WORDS witness 0

  type Page = s: seq<Word> | |s| == ENTRIES witness Filled(ENTRIES, 0)

  function ZeroPages(n: nat): (s: seq<Page>)
    ensures |s| == n
  {
    if n == 0 then [] else ZeroPages(n - 1) + [Zeros()]
  }

  type Memory = m: seq<Page> | |m| == FRAMES witness ZeroPages(FRAMES)

  // memset over the words of a page.
  function Filled(n: nat, w: Word): (s: seq<Word>)
    ensures |s| == n && forall i :: 0 <= i < n ==> s[i] == w
  {
    seq(n, _ => w)
  }

  function Zeros(): (p: Page) { Filled(ENTRIES, 0) }

  predicate Present(w: Word) { w % 2 == 1 }

  // PTE_W and PTE_U.
  predicate Writable(w: Word) { w / 2 % 2 == 1 }
  predicate ForUser(w: Word) { w / 4 % 2 == 1 }

  function FrameOf(w: Word): nat { w / 4096 }

  function Flags(w: Word): nat { w % 4096 }

  // addr | perm | PTE_P, for a page-aligned address and twelve flag bits.
  function Entry(f: nat, perm: nat): (w: Word)
    requires f < PAGES && perm < 4096
    ensures Present(w) && FrameOf(w) == f
    ensures Flags(w) == Ored(perm)
  {
    EntryParts(f, Ored(perm));
    f * 4096 + Ored(perm)
  }

  // perm | PTE_P
  function Ored(perm: nat): (k: nat)
    requires perm < 4096
    ensures k < 4096 && k % 2 == 1
  {
    if perm % 2 == 1 then perm else perm + 1
  }

  lemma EntryParts(f: nat, k: nat)
    requires f < PAGES && k < 4096
    ensures f * 4096 + k < WORDS
    ensures (f * 4096 + k) / 4096 == f
    ensures (f * 4096 + k) % 4096 == k
    ensures (f * 4096 + k) % 2 == k % 2
  {
    var w := f * 4096 + k;
    assert w / 4096 == f && w % 4096 == k;
    assert w == 2 * (f * 2048) + k;
  }

  // The flags are those below the page number.
  lemma EntryFlags(f: nat, k: nat)
    requires f < PAGES && k < 4096
    ensures f * 4096 + k < WORDS
    ensures Writable(f * 4096 + k) <==> k / 2 % 2 == 1
    ensures ForUser(f * 4096 + k) <==> k / 4 % 2 == 1
  {
    var w := f * 4096 + k;
    Quotient(2, f * 2048, k);
    Remainder(f * 1024, k / 2);
    Quotient(4, f * 1024, k);
    Remainder(f * 512, k / 4);
    assert w / 2 == 2 * (f * 1024) + k / 2;
    assert w / 4 == 2 * (f * 512) + k / 4;
  }

  lemma Quotient(m: nat, a: nat, k: nat)
    requires m == 2 || m == 4
    ensures (m * a + k) / m == a + k / m
  {
  }

  lemma Remainder(a: nat, k: nat)
    ensures (2 * a + k) % 2 == k % 2
  {
  }

  ghost predicate TableAt(mem: Memory, d: nat, i: nat)
    requires d < FRAMES && i < ENTRIES
  {
    Present(mem[d][i]) && FrameOf(mem[d][i]) < FRAMES
  }

  function TableFrame(mem: Memory, d: nat, i: nat): nat
    requires d < FRAMES && i < ENTRIES
  {
    FrameOf(mem[d][i])
  }

  // The page table entry of virtual page p, zero where there is no table.
  ghost function Lookup(mem: Memory, d: nat, p: nat): Word
    requires d < FRAMES && p < PAGES
  {
    if TableAt(mem, d, p / 1024) then mem[TableFrame(mem, d, p / 1024)][p % 1024] else 0
  }

  ghost predicate MapsPage(mem: Memory, d: nat, p: nat)
    requires d < FRAMES && p < PAGES
  {
    Present(Lookup(mem, d, p))
  }

  ghost function MappedFrame(mem: Memory, d: nat, p: nat): nat
    requires d < FRAMES && p < PAGES
  {
    FrameOf(Lookup(mem, d, p))
  }

  ghost function TableSet(mem: Memory, d: nat): set<nat>
    requires d < FRAMES
  {
    set i | 0 <= i < ENTRIES && TableAt(mem, d, i) :: TableFrame(mem, d, i)
  }

  // The frames mapped at the virtual pages from a up to b.
  ghost function MappedSet(mem: Memory, d: nat, a: nat, b: nat): set<nat>
    requires d < FRAMES && b <= PAGES
  {
    set p | a <= p < b && MapsPage(mem, d, p) :: MappedFrame(mem, d, p)
  }

  // What an address space holds: its directory, its tables, and the frames of
  // its user half.  The kernel half maps memory that no process owns.
  ghost function Owned(mem: Memory, d: nat): set<nat>
    requires d < FRAMES
  {
    {d} + TableSet(mem, d) + MappedSet(mem, d, 0, USER)
  }

  // The directory and its tables are different pages, and no directory entry takes away what
  // a table entry allows.
  ghost predicate Tabled(mem: Memory, d: nat, lo: nat)
    requires d < FRAMES
  {
    && lo <= d
    && (forall i :: 0 <= i < ENTRIES && Present(mem[d][i]) ==> lo <= TableFrame(mem, d, i) < FRAMES)
    && (forall i :: 0 <= i < ENTRIES && Present(mem[d][i]) ==> Writable(mem[d][i]) && ForUser(mem[d][i]))
    && (forall i :: 0 <= i < ENTRIES && TableAt(mem, d, i) ==> TableFrame(mem, d, i) != d)
    && (forall i, j :: 0 <= i < j < ENTRIES && TableAt(mem, d, i) && TableAt(mem, d, j) ==>
                         TableFrame(mem, d, i) != TableFrame(mem, d, j))
  }

  // The user half maps managed pages, none twice, and none of the tables.
  ghost predicate Mapped(mem: Memory, d: nat, lo: nat)
    requires d < FRAMES
  {
    && (forall p :: 0 <= p < USER && MapsPage(mem, d, p) ==> lo <= MappedFrame(mem, d, p) < FRAMES)
    && (forall p :: 0 <= p < USER && MapsPage(mem, d, p) ==>
                      MappedFrame(mem, d, p) != d && MappedFrame(mem, d, p) !in TableSet(mem, d))
    && (forall p, q :: 0 <= p < q < USER && MapsPage(mem, d, p) && MapsPage(mem, d, q) ==>
                         MappedFrame(mem, d, p) != MappedFrame(mem, d, q))
  }

  ghost predicate Space(mem: Memory, d: nat, lo: nat): (space: bool)
    ensures space ==> d < FRAMES
  {
    d < FRAMES && Tabled(mem, d, lo) && Mapped(mem, d, lo)
  }

  // The two memories agree on the pages of s.
  ghost predicate Same(mem: Memory, mem': Memory, s: set<nat>) {
    forall f :: f in s && f < FRAMES ==> mem'[f] == mem[f]
  }

  // The two memories agree on all pages but those of s.
  ghost predicate SameBut(mem: Memory, mem': Memory, s: set<nat>) {
    forall f :: 0 <= f < FRAMES && f !in s ==> mem'[f] == mem[f]
  }

  lemma SameButThen(a: Memory, b: Memory, c: Memory, s: set<nat>, t: set<nat>, u: set<nat>)
    requires SameBut(a, b, s) && SameBut(b, c, t) && s <= u && t <= u
    ensures SameBut(a, c, u)
  {
  }

  lemma TableIn(mem: Memory, d: nat, i: nat)
    requires d < FRAMES && i < ENTRIES && TableAt(mem, d, i)
    ensures TableFrame(mem, d, i) in TableSet(mem, d)
  {
  }

  lemma MappedIn(mem: Memory, d: nat, p: nat)
    requires d < FRAMES && p < USER && MapsPage(mem, d, p)
    ensures MappedFrame(mem, d, p) in MappedSet(mem, d, 0, USER)
    ensures MappedFrame(mem, d, p) in Owned(mem, d)
  {
  }

  /** Neither the mappings nor what is owned depends on a page outside the
      directory and its tables. */
  lemma Elsewhere(mem: Memory, mem': Memory, d: nat, lo: nat)
    requires Space(mem, d, lo)
    requires Same(mem, mem', {d} + TableSet(mem, d))
    ensures Space(mem', d, lo)
    ensures forall p :: 0 <= p < PAGES ==> Lookup(mem', d, p) == Lookup(mem, d, p)
    ensures TableSet(mem', d) == TableSet(mem, d)
    ensures Owned(mem', d) == Owned(mem, d)
  {
    hide MappedSet, Mapped;
    assert mem'[d] == mem[d];
    forall i | 0 <= i < ENTRIES
      ensures TableAt(mem', d, i) == TableAt(mem, d, i) && TableFrame(mem', d, i) == TableFrame(mem, d, i)
    {
    }
    forall p | 0 <= p < PAGES
      ensures Lookup(mem', d, p) == Lookup(mem, d, p)
    {
      if TableAt(mem, d, p / 1024) { TableIn(mem, d, p / 1024); }
    }
    SameLookups(mem, mem', d);
    SameMapped(mem, mem', d, lo);
  }

  lemma SameMapped(mem: Memory, mem': Memory, d: nat, lo: nat)
    requires d < FRAMES && Mapped(mem, d, lo)
    requires forall p :: 0 <= p < PAGES ==> Lookup(mem', d, p) == Lookup(mem, d, p)
    requires TableSet(mem', d) == TableSet(mem, d)
    ensures Mapped(mem', d, lo)
  {
    forall p | 0 <= p < PAGES
      ensures MapsPage(mem', d, p) == MapsPage(mem, d, p)
      ensures MappedFrame(mem', d, p) == MappedFrame(mem, d, p)
    {
    }
  }

  // The same lookups and tables make the same sets.
  lemma SameLookups(mem: Memory, mem': Memory, d: nat)
    requires d < FRAMES
    requires forall i :: 0 <= i < ENTRIES ==> TableAt(mem', d, i) == TableAt(mem, d, i)
    requires forall i :: 0 <= i < ENTRIES ==> TableFrame(mem', d, i) == TableFrame(mem, d, i)
    requires forall p :: 0 <= p < PAGES ==> Lookup(mem', d, p) == Lookup(mem, d, p)
    ensures TableSet(mem', d) == TableSet(mem, d)
    ensures forall a, b {:trigger MappedSet(mem', d, a, b)} :: 0 <= a <= b <= PAGES ==>
      MappedSet(mem', d, a, b) == MappedSet(mem, d, a, b)
    ensures Owned(mem', d) == Owned(mem, d)
  {
    forall p | 0 <= p < PAGES
      ensures MapsPage(mem', d, p) == MapsPage(mem, d, p)
      ensures MappedFrame(mem', d, p) == MappedFrame(mem, d, p)
    {
    }
    forall a, b | 0 <= a <= b <= PAGES
      ensures MappedSet(mem', d, a, b) == MappedSet(mem, d, a, b)
    {
    }
  }

  // ---- installing a table ----

  function Installed(mem: Memory, d: nat, i: nat, t: nat): Memory
    requires d < FRAMES && t < FRAMES && i < ENTRIES
  {
    mem[t := Zeros()][d := mem[d][i := Entry(t, 7)]]
  }

  /** A zeroed table put under an empty directory entry maps nothing new. */
  lemma InstalledKeeps(mem: Memory, d: nat, lo: nat, i: nat, t: nat)
    requires Space(mem, d, lo) && i < ENTRIES && !Present(mem[d][i])
    requires lo <= t < FRAMES && t !in Owned(mem, d)
    ensures var mem' := Installed(mem, d, i, t);
      && Space(mem', d, lo)
      && (forall p :: 0 <= p < PAGES ==> Lookup(mem', d, p) == Lookup(mem, d, p))
      && TableSet(mem', d) == TableSet(mem, d) + {t}
      && MappedSet(mem', d, 0, USER) == MappedSet(mem, d, 0, USER)
      && Owned(mem', d) == Owned(mem, d) + {t}
      && TableAt(mem', d, i) && TableFrame(mem', d, i) == t
  {
    var mem' := Installed(mem, d, i, t);
    assert t != d;
    InstalledTables(mem, d, lo, i, t);
    forall p | 0 <= p < PAGES
      ensures Lookup(mem', d, p) == Lookup(mem, d, p)
    {
      if p / 1024 != i && TableAt(mem, d, p / 1024) { TableIn(mem, d, p / 1024); }
    }
    InstalledMapped(mem, mem', d, lo, t);
  }

  lemma InstalledTables(mem: Memory, d: nat, lo: nat, i: nat, t: nat)
    requires Space(mem, d, lo) && i < ENTRIES && !Present(mem[d][i])
    requires lo <= t < FRAMES && t !in Owned(mem, d)
    ensures var mem' := Installed(mem, d, i, t);
      && Tabled(mem', d, lo)
      && TableSet(mem', d) == TableSet(mem, d) + {t}
      && TableAt(mem', d, i) && TableFrame(mem', d, i) == t
      && (forall j :: 0 <= j < ENTRIES && j != i ==> TableAt(mem', d, j) == TableAt(mem, d, j))
      && (forall j :: 0 <= j < ENTRIES && j != i ==> TableFrame(mem', d, j) == TableFrame(mem, d, j))
  {
    hide Mapped, MappedSet;
    var mem' := Installed(mem, d, i, t);
    InstalledEntry(mem, d, i, t);
    forall j | 0 <= j < ENTRIES && j != i
      ensures TableAt(mem', d, j) == TableAt(mem, d, j) && TableFrame(mem', d, j) == TableFrame(mem, d, j)
      ensures TableAt(mem, d, j) ==> TableFrame(mem, d, j) != t
    {
      if TableAt(mem, d, j) { TableIn(mem, d, j); }
    }
    InstalledTabled(mem, mem', d, lo, i, t);
    InstalledSet(mem, mem', d, i, t);
  }

  lemma InstalledEntry(mem: Memory, d: nat, i: nat, t: nat)
    requires d < FRAMES && i < ENTRIES && t < FRAMES && t != d
    ensures var mem' := Installed(mem, d, i, t);
      && TableAt(mem', d, i) && TableFrame(mem', d, i) == t
      && Writable(mem'[d][i]) && ForUser(mem'[d][i])
      && forall j :: 0 <= j < ENTRIES && j != i ==> mem'[d][j] == mem[d][j]
  {
    hide Writable, ForUser, Present;
    EntryFlags(t, 7);
    assert Entry(t, 7) == t * 4096 + 7;
    assert Installed(mem, d, i, t)[d] == mem[d][i := Entry(t, 7)];
  }

  lemma InstalledTabled(mem: Memory, mem': Memory, d: nat, lo: nat, i: nat, t: nat)
    requires d < FRAMES && Tabled(mem, d, lo) && i < ENTRIES && lo <= t < FRAMES && t != d
    requires TableAt(mem', d, i) && TableFrame(mem', d, i) == t && Writable(mem'[d][i]) && ForUser(mem'[d][i])
    requires forall j :: 0 <= j < ENTRIES && j != i ==> mem'[d][j] == mem[d][j]
    requires forall j :: 0 <= j < ENTRIES && j != i && TableAt(mem, d, j) ==> TableFrame(mem, d, j) != t
    ensures Tabled(mem', d, lo)
  {
    hide Writable, ForUser;
  }

  lemma InstalledSet(mem: Memory, mem': Memory, d: nat, i: nat, t: nat)
    requires d < FRAMES && i < ENTRIES && !TableAt(mem, d, i)
    requires TableAt(mem', d, i) && TableFrame(mem', d, i) == t
    requires forall j :: 0 <= j < ENTRIES && j != i ==> TableAt(mem', d, j) == TableAt(mem, d, j)
    requires forall j :: 0 <= j < ENTRIES && j != i ==> TableFrame(mem', d, j) == TableFrame(mem, d, j)
    ensures TableSet(mem', d) == TableSet(mem, d) + {t}
  {
    hide TableAt, TableFrame;
    assert TableSet(mem', d) <= TableSet(mem, d) + {t};
    forall f | f in TableSet(mem, d)
      ensures f in TableSet(mem', d)
    {
      var j :| 0 <= j < ENTRIES && TableAt(mem, d, j) && f == TableFrame(mem, d, j);
      TableIn(mem', d, j);
    }
    TableIn(mem', d, i);
  }

  lemma InstalledMapped(mem: Memory, mem': Memory, d: nat, lo: nat, t: nat)
    requires Space(mem, d, lo) && t !in Owned(mem, d)
    requires forall p :: 0 <= p < PAGES ==> Lookup(mem', d, p) == Lookup(mem, d, p)
    requires TableSet(mem', d) == TableSet(mem, d) + {t}
    ensures Mapped(mem', d, lo)
    ensures MappedSet(mem', d, 0, USER) == MappedSet(mem, d, 0, USER)
    ensures Owned(mem', d) == Owned(mem, d) + {t}
  {
    forall p | 0 <= p < PAGES
      ensures MapsPage(mem', d, p) == MapsPage(mem, d, p)
      ensures MappedFrame(mem', d, p) == MappedFrame(mem, d, p)
    {
    }
    forall p | 0 <= p < USER && MapsPage(mem', d, p)
      ensures MappedFrame(mem', d, p) !in TableSet(mem', d)
    {
      MappedIn(mem, d, p);
    }
  }

  // ---- writing a table entry ----

  function Written(mem: Memory, d: nat, p: nat, w: Word): Memory
    requires d < FRAMES && p < PAGES && TableFrame(mem, d, p / 1024) < FRAMES
  {
    var t := TableFrame(mem, d, p / 1024);
    mem[t := mem[t][p % 1024 := w]]
  }

  /** Writing the entry of page p changes the mapping of p and of no other page. */
  lemma WrittenLookup(mem: Memory, d: nat, lo: nat, p: nat, w: Word)
    requires d < FRAMES && Tabled(mem, d, lo) && p < PAGES && TableAt(mem, d, p / 1024)
    ensures var mem' := Written(mem, d, p, w);
      && Tabled(mem', d, lo)
      && (forall i :: 0 <= i < ENTRIES ==> TableAt(mem', d, i) == TableAt(mem, d, i))
      && (forall i :: 0 <= i < ENTRIES ==> TableFrame(mem', d, i) == TableFrame(mem, d, i))
      && TableSet(mem', d) == TableSet(mem, d)
      && (forall q :: 0 <= q < PAGES ==> Lookup(mem', d, q) == if q == p then w else Lookup(mem, d, q))
  {
    var mem' := Written(mem, d, p, w);
    var t := TableFrame(mem, d, p / 1024);
    assert mem'[d] == mem[d];
    forall i | 0 <= i < ENTRIES
      ensures TableAt(mem', d, i) == TableAt(mem, d, i) && TableFrame(mem', d, i) == TableFrame(mem, d, i)
    {
    }
    forall q | 0 <= q < PAGES
      ensures Lookup(mem', d, q) == if q == p then w else Lookup(mem, d, q)
    {
      if q / 1024 == p / 1024 {
        assert q % 1024 == p % 1024 ==> q == p;
      } else if TableAt(mem, d, q / 1024) {
        assert TableFrame(mem, d, q / 1024) != t;
      }
    }
  }

  // A page mapped anew, in the user half with a frame nobody holds.
  lemma WrittenUser(mem: Memory, d: nat, lo: nat, p: nat, w: Word)
    requires Space(mem, d, lo) && p < USER && TableAt(mem, d, p / 1024)
    requires !MapsPage(mem, d, p)
    requires Present(w) && lo <= FrameOf(w) < FRAMES && FrameOf(w) !in Owned(mem, d)
    ensures var mem' := Written(mem, d, p, w);
      && Space(mem', d, lo)
      && MappedSet(mem', d, 0, USER) == MappedSet(mem, d, 0, USER) + {FrameOf(w)}
      && Owned(mem', d) == Owned(mem, d) + {FrameOf(w)}
  {
    var mem' := Written(mem, d, p, w);
    WrittenLookup(mem, d, lo, p, w);
    forall q | 0 <= q < USER && q != p
      ensures MapsPage(mem', d, q) == MapsPage(mem, d, q)
      ensures MappedFrame(mem', d, q) == MappedFrame(mem, d, q)
      ensures MapsPage(mem, d, q) ==> MappedFrame(mem, d, q) != FrameOf(w)
    {
      if MapsPage(mem, d, q) { MappedIn(mem, d, q); }
    }
    assert MapsPage(mem', d, p) && MappedFrame(mem', d, p) == FrameOf(w);
    forall f | f in MappedSet(mem, d, 0, USER)
      ensures f in MappedSet(mem', d, 0, USER)
    {
      var q :| 0 <= q < USER && MapsPage(mem, d, q) && f == MappedFrame(mem, d, q);
      MappedIn(mem', d, q);
    }
    MappedIn(mem', d, p);
    assert MappedSet(mem', d, 0, USER) <= MappedSet(mem, d, 0, USER) + {FrameOf(w)};
  }

  // The kernel half owns nothing.
  lemma WrittenKernel(mem: Memory, d: nat, lo: nat, p: nat, w: Word)
    requires Space(mem, d, lo) && USER <= p < PAGES && TableAt(mem, d, p / 1024)
    ensures var mem' := Written(mem, d, p, w);
      && Space(mem', d, lo)
      && MappedSet(mem', d, 0, USER) == MappedSet(mem, d, 0, USER)
      && Owned(mem', d) == Owned(mem, d)
  {
    var mem' := Written(mem, d, p, w);
    WrittenLookup(mem, d, lo, p, w);
    forall q | 0 <= q < USER
      ensures MapsPage(mem', d, q) == MapsPage(mem, d, q)
      ensures MappedFrame(mem', d, q) == MappedFrame(mem, d, q)
    {
    }
  }

  // A user page unmapped gives its frame up.
  lemma WrittenZero(mem: Memory, d: nat, lo: nat, p: nat)
    requires Space(mem, d, lo) && p < USER && MapsPage(mem, d, p)
    ensures var mem' := Written(mem, d, p, 0);
      && Space(mem', d, lo)
      && MappedSet(mem', d, 0, USER) == MappedSet(mem, d, 0, USER) - {MappedFrame(mem, d, p)}
      && Owned(mem', d) == Owned(mem, d) - {MappedFrame(mem, d, p)}
  {
    var mem' := Written(mem, d, p, 0);
    var f := MappedFrame(mem, d, p);
    WrittenLookup(mem, d, lo, p, 0);
    assert !MapsPage(mem', d, p);
    forall q | 0 <= q < USER && q != p
      ensures MapsPage(mem', d, q) == MapsPage(mem, d, q)
      ensures MappedFrame(mem', d, q) == MappedFrame(mem, d, q)
      ensures MapsPage(mem, d, q) ==> MappedFrame(mem, d, q) != f
    {
    }
    forall g | g in MappedSet(mem, d, 0, USER) && g != f
      ensures g in MappedSet(mem', d, 0, USER)
    {
      var q :| 0 <= q < USER && MapsPage(mem, d, q) && g == MappedFrame(mem, d, q);
      MappedIn(mem', d, q);
    }
    assert MappedSet(mem', d, 0, USER) <= MappedSet(mem, d, 0, USER) - {f};
    assert f != d && f !in TableSet(mem, d);
  }
}
