// How many pages it takes to map a range in an address space of xv6-x86/vm.c: the frames, and
// a page for each page table that is not there yet.
module PageCounts {
  import opened Helpers
  import opened PageTables
  import opened FrameLists
  import opened Mappings

  // The directory entries that have a table.
  ghost function Indexes(mem: Memory, d: nat): set<nat>
    requires d < FRAMES
  {
    set i: nat | i < ENTRIES && TableAt(mem, d, i)
  }

  // The directory entries that the pages from a up to b use.
  function Dirs(a: nat, b: nat): (s: set<nat>)
    decreases b - a
  {
    if a >= b then {} else Dirs(a, b - 1) + {(b - 1) / 1024}
  }

  lemma {:induction false} DirsAre(a: nat, b: nat, i: nat)
    requires a < b
    ensures i in Dirs(a, b) <==> a / 1024 <= i <= (b - 1) / 1024
    decreases b - a
  {
    if a + 1 < b {
      DirsAre(a, b - 1, i);
      assert (b - 2) / 1024 <= (b - 1) / 1024 <= (b - 2) / 1024 + 1;
    } else {
      assert Dirs(a, b - 1) == {};
    }
  }

  lemma {:induction false} DirsGrow(a: nat, b: nat, c: nat)
    requires b <= c
    ensures Dirs(a, b) <= Dirs(a, c)
    decreases c
  {
    if b < c && a < c { DirsGrow(a, b, c - 1); }
  }

  lemma {:induction false} DirsSplit(a: nat, b: nat, c: nat)
    requires a <= b <= c
    ensures Dirs(a, c) == Dirs(a, b) + Dirs(b, c)
    decreases c - b
  {
    if b < c { DirsSplit(a, b, c - 1); }
  }

  lemma {:induction false} RangeSize(a: nat, b: nat)
    requires a <= b
    ensures |Range(a, b)| == b - a
    decreases b - a
  {
    if a < b { RangeSize(a, b - 1); }
  }

  /** The free pages that mapping the pages from a up to b takes. */
  ghost function PagesNeeded(mem: Memory, d: nat, a: nat, b: nat): nat
    requires d < FRAMES && a <= b
  {
    b - a + |Dirs(a, b) - Indexes(mem, d)|
  }

  function SomeSet(x: Option<nat>): set<nat> { if x.Some? then {x.value} else {} }

  // Free pages have become part of space d, but for one that is left over; outside of what
  // was free only the directory and the tables of d were written.
  ghost predicate Took(mem: Memory, fs: set<nat>, mem': Memory, fs': set<nat>, d: nat, lo: nat, spare: Option<nat>)
    requires d < FRAMES
  {
    && fs' <= fs && Owned(mem, d) <= Owned(mem', d)
    && fs' + Owned(mem', d) + SomeSet(spare) == fs + Owned(mem, d)
    && (spare.Some? ==> var m := spare.value;
                        m !in fs' && m !in Owned(mem', d) && m in fs && lo <= m < FRAMES)
    && fs' + TableSet(mem', d) <= fs + TableSet(mem, d)
    && SameBut(mem, mem', fs + {d} + TableSet(mem, d))
  }

  lemma TookNone(mem: Memory, fs: set<nat>, d: nat, lo: nat)
    requires d < FRAMES
    ensures Took(mem, fs, mem, fs, d, lo, None)
  {
  }

  lemma TookThen(a: Memory, fa: set<nat>, b: Memory, fb: set<nat>, c: Memory, fc: set<nat>, d: nat, lo: nat,
      spare: Option<nat>)
    requires d < FRAMES && Took(a, fa, b, fb, d, lo, None) && Took(b, fb, c, fc, d, lo, spare)
    ensures Took(a, fa, c, fc, d, lo, spare)
  {
    hide Owned, TableSet;
    SameButThen(a, b, c, fa + {d} + TableSet(a, d), fb + {d} + TableSet(b, d), fa + {d} + TableSet(a, d));
  }

  lemma TookFrame(mem: Memory, fs: set<nat>, mem': Memory, fs': set<nat>, d: nat, lo: nat, spare: Option<nat>)
    requires d < FRAMES && Took(mem, fs, mem', fs', d, lo, spare)
    ensures SameBut(mem, mem', fs + {d} + TableSet(mem, d)) && fs' <= fs
    ensures Owned(mem', d) <= fs + Owned(mem, d) && TableSet(mem', d) <= fs + TableSet(mem, d)
    ensures fs' + Owned(mem', d) + SomeSet(spare) == fs + Owned(mem, d)
    ensures spare.Some? ==> spare.value !in fs' && spare.value !in Owned(mem', d) && lo <= spare.value < FRAMES
    ensures spare.Some? ==> spare.value in fs
  {
    hide Owned, TableSet;
  }

  // Pages given back by their owner.
  lemma Regained(fs: set<nat>, owned: set<nat>, sz: set<nat>, spare: set<nat>)
    requires sz <= owned
    ensures (fs + sz) + (owned - sz) + spare == fs + owned + spare == (fs + sz + spare) + (owned - sz)
  {
  }

  lemma TookOne(a: Memory, fa: set<nat>, fb: set<nat>, c: Memory, fc: set<nat>, d: nat, lo: nat, m: nat, ok: bool)
    requires d < FRAMES && fa == fb + {m} && m !in fb && lo <= m < FRAMES && m !in Owned(a, d)
    requires fc <= fb && Owned(a, d) <= Owned(c, d)
    requires fc + Owned(c, d) == fb + Owned(a, d) + if ok then {m} else {}
    requires !ok ==> m !in fc && m !in Owned(c, d)
    requires fc + TableSet(c, d) == fb + TableSet(a, d)
    requires SameBut(a, c, fb + {m} + {d} + TableSet(a, d))
    ensures Took(a, fa, c, fc, d, lo, if ok then None else Some(m))
  {
    hide Owned, TableSet;
    assert fb + {m} + {d} + TableSet(a, d) == fa + {d} + TableSet(a, d);
  }

  lemma SizeWith(s: set<nat>, x: nat)
    ensures |s + {x}| == |s| + if x in s then 0 else 1
  {
    if x in s { assert s + {x} == s; }
  }

  lemma SameAll(mem: Memory, d: nat)
    requires d < FRAMES
    ensures forall a: nat, b: nat :: b <= PAGES ==> SameLookup(mem, mem, d, a, b)
  {
  }

  lemma LookupThen(a: Memory, b: Memory, c: Memory, d: nat, i: nat)
    requires d < FRAMES && i < PAGES && SameLookup(a, b, d, 0, i) && SameLookup(a, b, d, i + 1, PAGES)
    requires forall p :: 0 <= p < PAGES ==> Lookup(c, d, p) == Lookup(b, d, p)
    ensures SameLookup(a, c, d, 0, i) && SameLookup(a, c, d, i + 1, PAGES)
  {
  }

  lemma NeedsNone(mem: Memory, d: nat, a: nat)
    requires d < FRAMES
    ensures Dirs(a, a) == {} && PagesNeeded(mem, d, a, a) == 0
  {
    assert Dirs(a, a) == {};
  }

  // One page more, which may need a table, and is not more than all.
  lemma NeedsMore(mem: Memory, d: nat, first: nat, a: nat, last: nat)
    requires d < FRAMES && first <= a < last
    ensures Dirs(first, a + 1) == Dirs(first, a) + {a / 1024}
    ensures PagesNeeded(mem, d, first, a + 1) == PagesNeeded(mem, d, first, a) + 1
              + if a / 1024 in Indexes(mem, d) + Dirs(first, a) then 0 else 1
    ensures PagesNeeded(mem, d, first, a + 1) <= PagesNeeded(mem, d, first, last)
  {
    var i, s, t := Indexes(mem, d), Dirs(first, a), Dirs(first, last);
    assert Dirs(first, a + 1) == s + {a / 1024};
    assert (s + {a / 1024}) - i == (s - i) + if a / 1024 in i + s then {} else {a / 1024};
    DirsGrow(first, a + 1, last);
    SubsetSize(Dirs(first, a + 1) - i, t - i);
  }

  lemma {:induction false} SubsetSize(a: set<nat>, b: set<nat>)
    requires a <= b
    ensures |a| <= |b|
  {
    assert b == a + (b - a);
  }

  // Tables lie in different pages.
  lemma TablesCounted(mem: Memory, d: nat, lo: nat)
    requires d < FRAMES && Tabled(mem, d, lo)
    ensures |TableSet(mem, d)| == |Indexes(mem, d)|
  {
    assert TableSet(mem, d) == set i | i in Indexes(mem, d) :: TableFrame(mem, d, i);
    SizeOfImage(mem, d, lo, Indexes(mem, d));
  }

  lemma {:induction false} SizeOfImage(mem: Memory, d: nat, lo: nat, s: set<nat>)
    requires d < FRAMES && Tabled(mem, d, lo) && s <= Indexes(mem, d)
    ensures |set i | i in s :: TableFrame(mem, d, i)| == |s|
    decreases s
  {
    if s != {} {
      var x :| x in s;
      var r := s - {x};
      SizeOfImage(mem, d, lo, r);
      var image := set i | i in r :: TableFrame(mem, d, i);
      assert TableFrame(mem, d, x) !in image;
      assert (set i | i in s :: TableFrame(mem, d, i)) == image + {TableFrame(mem, d, x)};
    }
  }

  /** What Kept says in numbers: a page for each new table. */
  lemma KeptCounts(mem: Memory, fs: set<nat>, mem': Memory, fs': set<nat>, d: nat, lo: nat)
    requires Space(mem, d, lo) && Owned(mem, d) !! fs && Kept(mem, fs, mem', fs', d, lo)
    ensures |fs'| + |Indexes(mem', d)| == |fs| + |Indexes(mem, d)|
  {
    hide Tabled, Mapped, TableSet, MappedSet, SameBut, Indexes;
    TablesCounted(mem, d, lo);
    TablesCounted(mem', d, lo);
    OwnedParts(mem, d);
    OwnedParts(mem', d);
    assert |fs' + TableSet(mem', d)| == |fs'| + |TableSet(mem', d)|;
    assert |fs + TableSet(mem, d)| == |fs| + |TableSet(mem, d)|;
  }

  lemma IndexIn(mem: Memory, d: nat, i: nat)
    requires d < FRAMES && i < ENTRIES
    ensures i in Indexes(mem, d) <==> TableAt(mem, d, i)
  {
  }

  lemma TableIsApart(mem: Memory, d: nat, lo: nat, i: nat)
    requires Space(mem, d, lo) && i < ENTRIES && TableAt(mem, d, i)
    ensures TableFrame(mem, d, i) != d
  {
  }

  lemma InstalledIndexes(mem: Memory, d: nat, i: nat, t: nat)
    requires d < FRAMES && i < ENTRIES && t < FRAMES && t != d
    ensures Indexes(Installed(mem, d, i, t), d) == Indexes(mem, d) + {i}
  {
    EntryParts(t, 7);
  }

  // The pages from p to p use one directory entry.
  lemma DirOf(p: nat)
    ensures Dirs(p, p + 1) == {p / 1024} && Dirs(p, p) == {}
  {
  }

  lemma SameIndexes(mem: Memory, mem': Memory, d: nat)
    requires d < FRAMES && mem'[d] == mem[d]
    ensures Indexes(mem', d) == Indexes(mem, d)
  {
  }

  // ---- the kernel's half

  // The directory entries that the first k rows of kmap use.
  ghost function RowDirs(k: nat, data: nat): set<nat>
    requires k <= 4
  {
    if k == 0 then {} else RowDirs(k - 1, data) + Dirs(RowFirst(k - 1, data), RowEnd(k - 1, data))
  }

  const KERNELTABLES: nat := 64

  lemma RowsJoined(data: nat)
    requires 0x100 < data < FRAMES
    ensures RowDirs(4, data) == Dirs(USER, USER + FRAMES) + Dirs(0xFE000, PAGES)
  {
    hide Dirs;
    DirsSplit(USER, USER + 0x100, USER + data);
    DirsSplit(USER, USER + data, USER + FRAMES);
    assert RowDirs(1, data) == RowDirs(0, data) + Dirs(USER, USER + 0x100);
    assert RowDirs(2, data) == RowDirs(1, data) + Dirs(USER + 0x100, USER + data);
    assert RowDirs(3, data) == RowDirs(2, data) + Dirs(USER + data, USER + FRAMES);
    assert RowDirs(4, data) == RowDirs(3, data) + Dirs(0xFE000, PAGES);
  }

  // A range that begins and ends with a table.
  lemma DirsRange(i: nat, j: nat)
    requires i < j
    ensures Dirs(i * 1024, j * 1024) == Range(i, j) && |Range(i, j)| == j - i
  {
    hide Dirs;
    forall k: nat
      ensures k in Dirs(i * 1024, j * 1024) <==> i <= k < j
    {
      DirsAre(i * 1024, j * 1024, k);
    }
    RangeSize(i, j);
  }

  lemma KernelTables(data: nat)
    requires 0x100 < data < FRAMES
    ensures RowDirs(4, data) == Range(512, 568) + Range(1016, 1024) && |RowDirs(4, data)| == KERNELTABLES
  {
    hide Dirs, RowDirs, Range;
    RowsJoined(data);
    DirsRange(512, 568);
    DirsRange(1016, 1024);
    var low, high := Range(512, 568), Range(1016, 1024);
    assert low * high == {};
    assert |low + high| == |low| + |high|;
  }

  lemma InDirs(a: nat, p: nat, b: nat)
    requires a <= p < b
    ensures p / 1024 in Dirs(a, b) && Dirs(a, p) <= Dirs(a, b)
  {
    hide Dirs;
    DirsGrow(a, p, b);
    DirsAre(a, b, p / 1024);
  }

  lemma RowMore(k: nat, data: nat)
    requires k < 4
    ensures RowDirs(k + 1, data) == RowDirs(k, data) + Dirs(RowFirst(k, data), RowEnd(k, data))
  {
  }

  // Where the tables run out in row k, at page upto, they are fewer than all.
  lemma KernelShort(k: nat, upto: nat, data: nat, s: set<nat>)
    requires k < 4 && 0x100 < data < FRAMES && RowFirst(k, data) <= upto < RowEnd(k, data)
    requires s == RowDirs(k, data) + Dirs(RowFirst(k, data), upto) && upto / 1024 !in s
    ensures |s| < KERNELTABLES
  {
    hide Dirs, Range, RowDirs, RowFirst, RowEnd;
    KernelTables(data);
    InDirs(RowFirst(k, data), upto, RowEnd(k, data));
    RowMore(k, data);
    RowsGrow(k + 1, 4, data);
    SubsetSize(s + {upto / 1024}, RowDirs(4, data));
    SizeWith(s, upto / 1024);
  }

  lemma {:induction false} RowsGrow(k: nat, l: nat, data: nat)
    requires k <= l <= 4
    ensures RowDirs(k, data) <= RowDirs(l, data)
    decreases l
  {
    if k < l { RowsGrow(k, l - 1, data); }
  }

  // A zeroed directory has no tables and maps what no row of kmap says.
  lemma KernelStart(mem: Memory, d: nat, data: nat)
    requires d < FRAMES && mem[d] == Zeros() && 0x100 < data < FRAMES
    requires forall p :: 0 <= p < PAGES ==> Lookup(mem, d, p) == 0
    ensures Indexes(mem, d) == {} == RowDirs(0, data) && KernelTo(mem, d, 0, data)
  {
    hide Lookup;
    KernelNone(mem, d, data);
  }

  /** The free pages that copying n user pages takes: the directory, the kernel's tables, the
      frames, and a table for each 1024 of them. */
  function CopyNeeded(n: nat): nat { 1 + KERNELTABLES + n + (n + 1023) / 1024 }

  lemma CopyNone(n: nat)
    ensures Dirs(0, 0) == {} && CopyNeeded(0) == 1 + KERNELTABLES <= CopyNeeded(n)
  {
    DirOf(0);
  }

  lemma CopyMore(i: nat, n: nat, data: nat)
    requires i < n <= USER && 0x100 < data < FRAMES
    ensures Dirs(0, i + 1) == Dirs(0, i) + {i / 1024}
    ensures CopyNeeded(i + 1) == CopyNeeded(i) + if i / 1024 in RowDirs(4, data) + Dirs(0, i) then 1 else 2
    ensures CopyNeeded(i + 1) <= CopyNeeded(n)
  {
    hide Dirs, RowDirs, Range;
    NoUserTables(i, data);
    DirsSplit(0, i, i + 1);
    DirOf(i);
    LastDir(i);
  }

  lemma NoUserTables(i: nat, data: nat)
    requires i < USER && 0x100 < data < FRAMES
    ensures i / 1024 !in RowDirs(4, data)
  {
    hide RowDirs, Dirs;
    KernelTables(data);
  }

  // A page needs a table of its own exactly if it is the first of 1024.
  lemma LastDir(i: nat)
    ensures i / 1024 in Dirs(0, i) <==> (i + 1023) / 1024 == (i + 1 + 1023) / 1024
  {
    if i > 0 { DirsAre(0, i, i / 1024); } else { DirOf(0); }
  }

  // Nothing was written but pages of fs0, so a space beside it is as it was.
  ghost predicate Beside(mem0: Memory, fs0: set<nat>, mem: Memory, parent: nat, lo: nat)
    requires parent < FRAMES
  {
    && SameBut(mem0, mem, fs0)
    && Space(mem0, parent, lo) && Owned(mem0, parent) !! fs0 && Space(mem, parent, lo)
    && SameLookup(mem0, mem, parent, 0, PAGES) && Owned(mem, parent) == Owned(mem0, parent)
  }

  lemma BesideIs(mem0: Memory, fs0: set<nat>, mem: Memory, parent: nat, lo: nat)
    requires Space(mem0, parent, lo) && Owned(mem0, parent) !! fs0 && SameBut(mem0, mem, fs0)
    ensures Beside(mem0, fs0, mem, parent, lo)
  {
    hide Owned, TableSet, MappedSet, Tabled, Mapped, Lookup;
    OwnedParts(mem0, parent);
    Elsewhere(mem0, mem, parent, lo);
  }

  lemma BesideFacts(mem0: Memory, fs0: set<nat>, mem: Memory, parent: nat, lo: nat)
    requires parent < FRAMES && Beside(mem0, fs0, mem, parent, lo)
    ensures SameBut(mem0, mem, fs0) && Space(mem, parent, lo) && Owned(mem, parent) !! fs0
    ensures SameLookup(mem0, mem, parent, 0, PAGES) && Owned(mem, parent) == Owned(mem0, parent)
    ensures Space(mem0, parent, lo) && Owned(mem0, parent) !! fs0
  {
  }

  // A round of copyuvm on space d, which has taken what fs0 lacks.
  lemma BesideRound(mem0: Memory, fs0: set<nat>, cur: Memory, fs: set<nat>, mem: Memory, parent: nat, d: nat, lo: nat)
    requires parent < FRAMES && d < FRAMES && Beside(mem0, fs0, cur, parent, lo) && fs + Owned(cur, d) == fs0
    requires SameBut(cur, mem, fs + {d} + TableSet(cur, d))
    ensures Beside(mem0, fs0, mem, parent, lo)
  {
    hide Owned, TableSet, MappedSet, Tabled, Mapped, Lookup;
    OwnedParts(cur, d);
    SameButThen(mem0, cur, mem, fs0, fs + {d} + TableSet(cur, d), fs0);
    BesideIs(mem0, fs0, mem, parent, lo);
  }

  lemma BesideFreed(mem0: Memory, fs0: set<nat>, cur: Memory, fs: set<nat>, mem: Memory, parent: nat, d: nat, lo: nat)
    requires parent < FRAMES && d < FRAMES && Beside(mem0, fs0, cur, parent, lo) && fs + Owned(cur, d) == fs0
    requires SameBut(cur, mem, Owned(cur, d))
    ensures Beside(mem0, fs0, mem, parent, lo)
  {
    hide Owned, TableSet, MappedSet, Tabled, Mapped, Lookup;
    SameButThen(mem0, cur, mem, fs0, Owned(cur, d), fs0);
    BesideIs(mem0, fs0, mem, parent, lo);
  }
}
