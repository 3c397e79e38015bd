// xv6-x86/vm.c: what the steps on an address space do to its mappings and to
// the pages it owns, and what its kernel half maps.

module Mappings {
  import opened PageTables
  import opened FrameLists

  // ---- the kernel's own mappings ----

  // Row k of kmap: a virtual address, the physical range it maps, and a flag.
  // The third row begins where the kernel's data does.
  datatype Kmap = Kmap(virt: Word, start: Word, end: Word, perm: nat)

  function KmapRow(k: nat, data: nat): (r: Kmap)
    requires k < 4 && 0x100 < data < FRAMES
  {
    if k == 0 then Kmap(KERNBASE, 0, 0x10_0000, 2)
    else if k == 1 then Kmap(KERNBASE + 0x10_0000, 0x10_0000, data * 4096, 0)
    else if k == 2 then Kmap(KERNBASE + data * 4096, data * 4096, 0xE00_0000, 2)
    else Kmap(0xFE00_0000, 0xFE00_0000, 0, 2)
  }

  function FirstPage(va: Word): nat { va / 4096 }

  // PGROUNDDOWN(va + size - 1) in 32 bits.
  function LastPage(va: Word, size: Word): (p: nat)
    ensures p < PAGES
  {
    ((va + size + WORDS - 1) % WORDS) / 4096
  }

  // The byte count of a row, also for the last, whose end wraps to zero.
  function RowSize(r: Kmap): Word { (r.end + WORDS - r.start) % WORDS }

  /** What a kernel-only page table says of page p: the memory below PHYSTOP
      above KERNBASE, with text read-only, and the devices at their own
      addresses. */
  ghost function KernelEntry(p: nat, data: nat): Word
    requires p < PAGES && 0x100 < data < FRAMES
  {
    if p < USER then 0
    else if p < USER + 0x100 then Entry(p - USER, 2)
    else if p < USER + data then Entry(p - USER, 0)
    else if p < USER + FRAMES then Entry(p - USER, 2)
    else if p < 0xFE000 then 0
    else Entry(p, 2)
  }

  // The entry of page p after the first k rows.
  ghost function KernelUpto(k: nat, p: nat, data: nat): Word
    requires k <= 4 && p < PAGES && 0x100 < data < FRAMES
  {
    if k == 4 || p < RowFirst(k, data) then KernelEntry(p, data) else 0
  }

  ghost function RowFirst(k: nat, data: nat): nat
    requires k < 4
  {
    if k == 0 then USER else if k == 1 then USER + 0x100 else if k == 2 then USER + data else 0xFE000
  }

  ghost function RowEnd(k: nat, data: nat): nat
    requires k < 4
  {
    if k == 0 then USER + 0x100 else if k == 1 then USER + data else if k == 2 then USER + FRAMES else PAGES
  }

  // The entry row k gives page p, or what the rows before it give.
  ghost function RowOr(k: nat, p: nat, data: nat): Word
    requires k < 4 && p < PAGES && 0x100 < data < FRAMES
  {
    var r := KmapRow(k, data);
    var f := r.start / 4096 + (p - RowFirst(k, data));
    if RowFirst(k, data) <= p <= LastPage(r.virt, RowSize(r)) && f < PAGES then Entry(f, r.perm)
    else KernelUpto(k, p, data)
  }

  lemma RowPages(k: nat, data: nat)
    requires k < 4 && 0x100 < data < FRAMES
    ensures var r := KmapRow(k, data);
      && FirstPage(r.virt) == RowFirst(k, data)
      && r.start % 4096 == 0
      && RowFirst(k, data) <= LastPage(r.virt, RowSize(r)) == RowEnd(k, data) - 1
      && r.start / 4096 + (LastPage(r.virt, RowSize(r)) - RowFirst(k, data)) < PAGES
      && (forall p :: 0 <= p < PAGES ==>
        KernelUpto(k + 1, p, data) == RowOr(k, p, data))
  {
    var r := KmapRow(k, data);
    if k == 0 {
      assert LastPage(r.virt, RowSize(r)) == USER + 0xFF;
    } else if k == 1 {
      assert RowSize(r) == data * 4096 - 0x10_0000;
      assert r.virt + RowSize(r) == (USER + data) * 4096;
      assert LastPage(r.virt, RowSize(r)) == USER + data - 1;
    } else if k == 2 {
      assert RowSize(r) == 0xE00_0000 - data * 4096;
      assert r.virt + RowSize(r) == (USER + FRAMES) * 4096;
      assert LastPage(r.virt, RowSize(r)) == USER + FRAMES - 1;
    } else {
      assert LastPage(r.virt, RowSize(r)) == PAGES - 1;
    }
  }

  function PagesOf(sz: nat): nat { (sz + 4095) / 4096 }

  // ---- what mapping keeps ----

  ghost predicate SameLookup(mem: Memory, mem': Memory, d: nat, a: nat, b: nat)
    requires d < FRAMES && b <= PAGES
  {
    forall p :: a <= p < b ==> Lookup(mem', d, p) == Lookup(mem, d, p)
  }

  ghost predicate NoneMapped(mem: Memory, d: nat, a: nat, b: nat)
    requires d < FRAMES && b <= PAGES
  {
    forall p :: a <= p < b ==> !MapsPage(mem, d, p)
  }

  // Free pages turned into tables of space d, and nothing else was taken;
  // outside the pages that were free only the tables of d were written.
  ghost predicate Kept(mem: Memory, fs: set<nat>, mem': Memory, fs': set<nat>, d: nat, lo: nat)
    requires d < FRAMES
  {
    && Space(mem', d, lo)
    && fs' <= fs
    && TableSet(mem, d) <= TableSet(mem', d)
    && fs' + TableSet(mem', d) == fs + TableSet(mem, d)
    && Owned(mem', d) !! fs'
    && SameBut(mem, mem', fs + {d} + TableSet(mem, d))
  }

  lemma KeptThen(a: Memory, fa: set<nat>, b: Memory, fb: set<nat>, c: Memory, fc: set<nat>, d: nat, lo: nat)
    requires d < FRAMES && Kept(a, fa, b, fb, d, lo) && Kept(b, fb, c, fc, d, lo)
    ensures Kept(a, fa, c, fc, d, lo)
  {
    hide Space, Owned, TableSet;
    SameButThen(a, b, c, fa + {d} + TableSet(a, d), fb + {d} + TableSet(b, d), fa + {d} + TableSet(a, d));
  }

  // Pages first up to upto now map the frames from f on, the rest what they did.
  ghost predicate Spread(mem: Memory, mem': Memory, d: nat, first: nat, upto: nat, f: nat, perm: nat)
    requires d < FRAMES && upto <= PAGES && perm < 4096
  {
    forall p :: 0 <= p < PAGES ==>
      Lookup(mem', d, p) == SpreadAt(mem, d, first, upto, f, perm, p)
  }

  ghost function SpreadAt(mem: Memory, d: nat, first: nat, upto: nat, f: nat, perm: nat, p: nat): Word
    requires d < FRAMES && upto <= PAGES && perm < 4096 && p < PAGES
  {
    if first <= p < upto && f + (p - first) < PAGES then Entry(f + (p - first), perm) else Lookup(mem, d, p)
  }

  lemma SpreadMore(a: Memory, b: Memory, c: Memory, d: nat, first: nat, upto: nat, f: nat, perm: nat)
    requires d < FRAMES && first <= upto < PAGES && perm < 4096 && f + (upto - first) < PAGES
    requires Spread(a, b, d, first, upto, f, perm)
    requires Spread(b, c, d, upto, upto + 1, f + (upto - first), perm)
    ensures Spread(a, c, d, first, upto + 1, f, perm)
  {
    hide Lookup, Entry;
  }

  /** An entry written into a table that is there maps its page, in a space
      that takes the frame only in the user half. */
  lemma Put(mem: Memory, fs: set<nat>, d: nat, lo: nat, p: nat, f: nat, perm: nat)
    requires Space(mem, d, lo) && Owned(mem, d) !! fs
    requires p < PAGES && f < PAGES && perm < 4096
    requires TableAt(mem, d, p / 1024) && !MapsPage(mem, d, p)
    requires p < USER ==> lo <= f < FRAMES && f !in Owned(mem, d) && f !in fs
    ensures var mem' := Written(mem, d, p, Entry(f, perm));
      && Kept(mem, fs, mem', fs, d, lo)
      && Spread(mem, mem', d, p, p + 1, f, perm)
      && MappedSet(mem', d, 0, USER) == MappedSet(mem, d, 0, USER) + if p < USER then {f} else {}
  {
    hide Mapped, Tabled, MapsPage, MappedSet, TableSet, Lookup, Entry;
    if p < USER {
      WrittenUser(mem, d, lo, p, Entry(f, perm));
    } else {
      WrittenKernel(mem, d, lo, p, Entry(f, perm));
    }
    WrittenLookup(mem, d, lo, p, Entry(f, perm));
    TableIn(mem, d, p / 1024);
  }

  lemma SpreadAfter(a: Memory, b: Memory, c: Memory, d: nat, first: nat, upto: nat, f: nat, perm: nat)
    requires d < FRAMES && upto <= PAGES && perm < 4096
    requires SameLookup(a, b, d, 0, PAGES) && Spread(b, c, d, first, upto, f, perm)
    ensures Spread(a, c, d, first, upto, f, perm)
  {
    hide Lookup, Entry;
  }

  lemma SpreadNone(a: Memory, b: Memory, d: nat, p: nat, f: nat, perm: nat)
    requires d < FRAMES && p < PAGES && perm < 4096
    requires SameLookup(a, b, d, 0, PAGES)
    ensures Spread(a, b, d, p, p, f, perm)
  {
  }

  lemma KeptParts(mem: Memory, fs: set<nat>, mem': Memory, fs': set<nat>, d: nat, lo: nat)
    requires d < FRAMES && Kept(mem, fs, mem', fs', d, lo)
    ensures Space(mem', d, lo) && Owned(mem', d) !! fs' && fs' <= fs
  {
  }

  // A table that went in was free, so a frame that nobody held still is unheld.
  lemma SpareStill(mem: Memory, fs: set<nat>, mem': Memory, fs': set<nat>, d: nat, lo: nat, p: nat, f: nat)
    requires d < FRAMES && p < PAGES && Kept(mem, fs, mem', fs', d, lo)
    requires SameLookup(mem, mem', d, 0, PAGES) && !MapsPage(mem, d, p)
    requires MappedSet(mem', d, 0, USER) == MappedSet(mem, d, 0, USER)
    ensures !MapsPage(mem', d, p)
    ensures f !in Owned(mem, d) && f !in fs ==> f !in Owned(mem', d) && f !in fs'
  {
    hide MappedSet, TableSet, Space, Lookup;
  }

  lemma UsedTable(mem: Memory, d: nat, i: nat)
    requires d < FRAMES && i < ENTRIES && TableAt(mem, d, i)
    ensures TableFrame(mem, d, i) in Owned(mem, d)
  {
    TableIn(mem, d, i);
  }

  lemma KeptSelf(mem: Memory, fs: set<nat>, d: nat, lo: nat)
    requires Space(mem, d, lo) && Owned(mem, d) !! fs
    ensures Kept(mem, fs, mem, fs, d, lo)
  {
  }

  // The page that comes next is mapped as it was.
  lemma StillAsWas(mem: Memory, mem': Memory, d: nat, first: nat, a: nat, f: nat, perm: nat)
    requires d < FRAMES && first <= a < PAGES && perm < 4096
    requires Spread(mem, mem', d, first, a, f, perm)
    ensures MapsPage(mem', d, a) <==> MapsPage(mem, d, a)
  {
    hide Lookup, Entry;
    assert Lookup(mem', d, a) == SpreadAt(mem, d, first, a, f, perm, a);
  }

  // What the entry says after a walk that changed no mapping.
  lemma EntryTells(mem: Memory, mem': Memory, d: nat, p: nat)
    requires d < FRAMES && p < PAGES && SameLookup(mem, mem', d, 0, PAGES)
    ensures MapsPage(mem', d, p) <==> MapsPage(mem, d, p)
    ensures MapsPage(mem, d, p) ==> TableAt(mem, d, p / 1024)
    ensures TableAt(mem', d, p / 1024) ==>
              (MapsPage(mem', d, p) <==> Present(mem'[TableFrame(mem', d, p / 1024)][p % 1024]))
    ensures !TableAt(mem', d, p / 1024) ==> !MapsPage(mem', d, p)
  {
    assert Lookup(mem', d, p) == Lookup(mem, d, p);
  }

  lemma SpreadStop(a: Memory, b: Memory, c: Memory, d: nat, first: nat, upto: nat, f: nat, g: nat, perm: nat)
    requires d < FRAMES && first <= upto < PAGES && perm < 4096
    requires Spread(a, b, d, first, upto, f, perm) && Spread(b, c, d, upto, upto, g, perm)
    ensures Spread(a, c, d, first, upto, f, perm)
  {
    hide Lookup, Entry;
  }

  lemma ZeroSpace(mem: Memory, d: nat, lo: nat)
    requires lo <= d < FRAMES && mem[d] == Zeros()
    ensures Space(mem, d, lo) && Owned(mem, d) == {d} && TableSet(mem, d) == {}
    ensures MappedSet(mem, d, 0, USER) == {}
    ensures forall p :: 0 <= p < PAGES ==> Lookup(mem, d, p) == 0
  {
  }

  // The directory maps what the first k rows of kmap say.
  ghost predicate KernelTo(mem: Memory, d: nat, k: nat, data: nat)
    requires d < FRAMES && k <= 4 && 0x100 < data < FRAMES
  {
    forall p :: 0 <= p < PAGES ==> Lookup(mem, d, p) == KernelUpto(k, p, data)
  }

  lemma KernelNone(mem: Memory, d: nat, data: nat)
    requires d < FRAMES && 0x100 < data < FRAMES
    requires forall p :: 0 <= p < PAGES ==> Lookup(mem, d, p) == 0
    ensures KernelTo(mem, d, 0, data)
  {
    hide Lookup;
  }

  lemma KernelFree(mem: Memory, d: nat, k: nat, data: nat)
    requires d < FRAMES && k < 4 && 0x100 < data < FRAMES && KernelTo(mem, d, k, data)
    ensures var r := KmapRow(k, data);
      && USER <= FirstPage(r.virt) <= LastPage(r.virt, RowSize(r))
      && r.start / 4096 + (LastPage(r.virt, RowSize(r)) - FirstPage(r.virt)) < PAGES
      && r.perm < 4096
      && NoneMapped(mem, d, FirstPage(r.virt), LastPage(r.virt, RowSize(r)) + 1)
  {
    hide Lookup, Entry;
    RowPages(k, data);
  }

  lemma KernelRow(mem: Memory, mem': Memory, d: nat, k: nat, data: nat)
    requires d < FRAMES && k < 4 && 0x100 < data < FRAMES && KernelTo(mem, d, k, data)
    requires var r := KmapRow(k, data);
      && r.perm < 4096
      && Spread(mem, mem', d, FirstPage(r.virt), LastPage(r.virt, RowSize(r)) + 1, r.start / 4096, r.perm)
    ensures KernelTo(mem', d, k + 1, data)
  {
    hide Lookup, Entry, KernelUpto, KmapRow, LastPage;
    RowPages(k, data);
    var r := KmapRow(k, data);
    forall p | 0 <= p < PAGES
      ensures Lookup(mem', d, p) == KernelUpto(k + 1, p, data)
    {
      assert Lookup(mem', d, p)
          == SpreadAt(mem, d, FirstPage(r.virt), LastPage(r.virt, RowSize(r)) + 1, r.start / 4096, r.perm, p);
      assert KernelUpto(k + 1, p, data) == RowOr(k, p, data);
    }
  }

  lemma KernelDone(mem: Memory, d: nat, data: nat)
    requires d < FRAMES && 0x100 < data < FRAMES && KernelTo(mem, d, 4, data)
    ensures forall p :: 0 <= p < PAGES ==> Lookup(mem, d, p) == KernelEntry(p, data)
  {
    hide Lookup, KernelEntry;
  }

  // A space made from free pages alone.
  lemma NewSpace(mem: Memory, fs: set<nat>, mem0: Memory, mem': Memory, fs': set<nat>, d: nat, lo: nat)
    requires d < FRAMES && d in fs && SameBut(mem, mem0, {d})
    requires TableSet(mem0, d) == {}
    requires Kept(mem0, fs - {d}, mem', fs', d, lo) && MappedSet(mem', d, 0, USER) == {}
    ensures fs' + Owned(mem', d) == fs
    ensures SameBut(mem, mem', fs)
  {
    hide Space, TableSet, MappedSet;
  }

  function Min(a: nat, b: nat): nat { if a < b then a else b }

  // The pages from first up to upto map nothing now, the rest what they did.
  ghost predicate Cleared(mem: Memory, mem': Memory, d: nat, first: nat, upto: nat)
    requires d < FRAMES
  {
    forall p :: 0 <= p < PAGES ==>
      Lookup(mem', d, p) == ClearedAt(mem, d, first, upto, p)
  }

  // An absent page keeps the flag bits its entry may have.
  ghost function ClearedAt(mem: Memory, d: nat, first: nat, upto: nat, p: nat): Word
    requires d < FRAMES && p < PAGES
  {
    if first <= p < upto && MapsPage(mem, d, p) then 0 else Lookup(mem, d, p)
  }

  lemma ClearedNone(mem: Memory, d: nat, first: nat, upto: nat)
    requires d < FRAMES
    ensures Cleared(mem, mem, d, first, first)
    ensures upto <= first ==> Cleared(mem, mem, d, first, upto)
  {
    hide Lookup;
  }

  lemma ClearedMore(a: Memory, b: Memory, c: Memory, d: nat, first: nat, p: nat)
    requires d < FRAMES && first <= p
    requires Cleared(a, b, d, first, p) && Cleared(b, c, d, p, p + 1)
    ensures Cleared(a, c, d, first, p + 1)
  {
    hide Lookup;
  }

  lemma ClearedEmpty(a: Memory, b: Memory, d: nat, first: nat, p: nat)
    requires d < FRAMES && first <= p < PAGES
    requires Cleared(a, b, d, first, p) && TableAt(b, d, p / 1024)
    requires !Present(b[TableFrame(b, d, p / 1024)][p % 1024])
    ensures Cleared(a, b, d, first, p + 1)
  {
    assert !MapsPage(b, d, p);
    hide Lookup;
  }

  // Without a table, no page of the table's range is mapped.
  lemma ClearedMissing(a: Memory, b: Memory, d: nat, first: nat, p: nat, upto: nat)
    requires d < FRAMES && first <= p < PAGES && p <= upto <= (p / 1024 + 1) * 1024
    requires Cleared(a, b, d, first, p) && !TableAt(b, d, p / 1024)
    ensures Cleared(a, b, d, first, upto)
  {
    forall q | p <= q < upto && q < PAGES
      ensures !MapsPage(b, d, q)
    {
      assert q / 1024 == p / 1024;
    }
    hide Lookup;
  }

  lemma MappedHere(mem: Memory, d: nat, p: nat)
    requires d < FRAMES && p < PAGES && TableAt(mem, d, p / 1024)
    requires Present(mem[TableFrame(mem, d, p / 1024)][p % 1024])
    ensures MapsPage(mem, d, p)
  {
  }

  lemma UserFrame(mem: Memory, d: nat, lo: nat, p: nat)
    requires Space(mem, d, lo) && p < USER && MapsPage(mem, d, p)
    ensures TableAt(mem, d, p / 1024)
    ensures Lookup(mem, d, p) == mem[TableFrame(mem, d, p / 1024)][p % 1024]
    ensures var f := MappedFrame(mem, d, p);
      lo <= f < FRAMES && f in Owned(mem, d) && f != d && f !in TableSet(mem, d)
  {
    MappedIn(mem, d, p);
  }

  // With its user half cleared, a space holds its directory and tables alone.
  lemma Bare(mem: Memory, mem': Memory, d: nat)
    requires d < FRAMES && Cleared(mem, mem', d, 0, USER)
    ensures Owned(mem', d) == {d} + TableSet(mem', d)
  {
    forall p | 0 <= p < USER
      ensures !MapsPage(mem', d, p)
    {
      assert Lookup(mem', d, p) == ClearedAt(mem, d, 0, USER, p);
    }
  }

  ghost function TablesUpto(mem: Memory, d: nat, n: nat): set<nat>
    requires d < FRAMES && n <= ENTRIES
  {
    set i | 0 <= i < n && TableAt(mem, d, i) :: TableFrame(mem, d, i)
  }

  lemma TablesAll(mem: Memory, d: nat, lo: nat)
    requires d < FRAMES && Tabled(mem, d, lo)
    ensures lo <= d
    ensures TablesUpto(mem, d, 0) == {} && TablesUpto(mem, d, ENTRIES) == TableSet(mem, d)
  {
  }

  lemma TablesNext(mem: Memory, d: nat, lo: nat, i: nat)
    requires d < FRAMES && i < ENTRIES && Tabled(mem, d, lo)
    ensures var t := TableFrame(mem, d, i);
      && TablesUpto(mem, d, i + 1) == TablesUpto(mem, d, i) + (if Present(mem[d][i]) then {t} else {})
      && (Present(mem[d][i]) ==> lo <= t < FRAMES && t != d && t in TableSet(mem, d))
      && (Present(mem[d][i]) ==> t !in TablesUpto(mem, d, i))
  {
    if Present(mem[d][i]) {
      assert TableAt(mem, d, i);
    }
  }

  // A page of an address space: the flag bits of its entry, and its contents.
  datatype Held = Held(flags: nat, page: Page)

  ghost predicate Holds(mem: Memory, d: nat, p: nat, h: Held)
    requires d < FRAMES && p < PAGES
  {
    && MapsPage(mem, d, p)
    && MappedFrame(mem, d, p) < FRAMES
    && Flags(Lookup(mem, d, p)) == h.flags
    && mem[MappedFrame(mem, d, p)] == h.page
  }

  lemma OwnedParts(mem: Memory, d: nat)
    requires d < FRAMES
    ensures Owned(mem, d) == {d} + TableSet(mem, d) + MappedSet(mem, d, 0, USER)
  {
  }

  // A page-sized range at a page boundary is one page.
  lemma OnePage(p: nat)
    requires p < USER
    ensures p * 4096 < WORDS && FirstPage(p * 4096) == p && LastPage(p * 4096, 4096) == p
  {
  }

  lemma StillSpare(mem: Memory, mem': Memory, d: nat, p: nat)
    requires d < FRAMES && p < USER && !MapsPage(mem, d, p)
    requires forall q :: 0 <= q < PAGES ==> Lookup(mem', d, q) == Lookup(mem, d, q)
    ensures NoneMapped(mem', d, p, p + 1)
  {
    hide Lookup;
  }

  // From mem0, page m was filled and then mapped at p, or left unmapped.
  lemma Grew(mem0: Memory, mem1: Memory, fs: set<nat>, mem2: Memory, fs': set<nat>, d: nat, lo: nat,
             p: nat, m: nat, page: Page, perm: nat, ok: bool)
    requires d < FRAMES && p < USER && perm < 4096 && lo <= m < FRAMES
    requires m !in Owned(mem0, d) && m !in fs
    requires mem1 == mem0[m := page]
    requires TableSet(mem1, d) == TableSet(mem0, d) && Owned(mem1, d) == Owned(mem0, d)
    requires forall q :: 0 <= q < PAGES ==> Lookup(mem1, d, q) == Lookup(mem0, d, q)
    requires Kept(mem1, fs, mem2, fs', d, lo)
    requires Spread(mem1, mem2, d, p, if ok then p + 1 else p, m, perm)
    requires MappedSet(mem2, d, 0, USER) == MappedSet(mem1, d, 0, USER) + if ok then {m} else {}
    ensures ok ==> Holds(mem2, d, p, Held(Ored(perm), page))
    ensures SameLookup(mem0, mem2, d, 0, p) && SameLookup(mem0, mem2, d, p + 1, PAGES)
    ensures !ok ==> SameLookup(mem0, mem2, d, 0, PAGES)
    ensures fs' <= fs && Owned(mem0, d) <= Owned(mem2, d)
    ensures fs' + Owned(mem2, d) == fs + Owned(mem0, d) + if ok then {m} else {}
    ensures !ok ==> m !in fs' && m !in Owned(mem2, d)
    ensures fs' + TableSet(mem2, d) == fs + TableSet(mem0, d)
    ensures SameBut(mem0, mem2, fs + {m} + {d} + TableSet(mem0, d))
  {
    hide Space, MappedSet, TableSet, Lookup, Entry, Spread, Owned;
    OwnedParts(mem1, d);
    OwnedParts(mem2, d);
    SpreadParts(mem1, mem2, d, p, m, perm, ok);
    assert m !in fs + {d} + TableSet(mem1, d);
    assert mem2[m] == mem1[m] == page;
    SameButThen(mem0, mem1, mem2, {m}, fs + {d} + TableSet(mem1, d), fs + {m} + {d} + TableSet(mem0, d));
  }

  lemma SpreadParts(mem: Memory, mem': Memory, d: nat, p: nat, m: nat, perm: nat, ok: bool)
    requires d < FRAMES && p < USER && perm < 4096 && m < FRAMES
    requires Spread(mem, mem', d, p, if ok then p + 1 else p, m, perm)
    ensures ok ==> MapsPage(mem', d, p) && MappedFrame(mem', d, p) == m && Flags(Lookup(mem', d, p)) == Ored(perm)
    ensures SameLookup(mem, mem', d, 0, p) && SameLookup(mem, mem', d, p + 1, PAGES)
    ensures !ok ==> SameLookup(mem, mem', d, 0, PAGES)
  {
    assert Lookup(mem', d, p) == SpreadAt(mem, d, p, if ok then p + 1 else p, m, perm, p);
    hide Lookup, Entry;
  }

  // The frames mapped beyond newsz, up to oldsz.
  ghost function SizeSet(mem: Memory, d: nat, newsz: Word, oldsz: Word): set<nat>
    requires d < FRAMES && oldsz <= KERNBASE
  {
    MappedSet(mem, d, PagesOf(newsz), PagesOf(oldsz))
  }

  lemma NoSizeSet(mem: Memory, d: nat, newsz: Word, oldsz: Word)
    requires d < FRAMES && oldsz <= KERNBASE && oldsz <= newsz
    ensures SizeSet(mem, d, newsz, oldsz) == {}
  {
  }

  lemma SizeOwned(mem: Memory, d: nat, newsz: Word, oldsz: Word)
    requires d < FRAMES && oldsz <= KERNBASE
    ensures SizeSet(mem, d, newsz, oldsz) <= MappedSet(mem, d, 0, USER) <= Owned(mem, d)
  {
  }

  // Clearing a range gives up the frames of that range and no other.
  lemma ClearedSets(mem: Memory, mem': Memory, d: nat, lo: nat, newsz: Word, oldsz: Word)
    requires Space(mem, d, lo) && oldsz <= KERNBASE
    requires Cleared(mem, mem', d, PagesOf(newsz), PagesOf(oldsz)) && TableSet(mem', d) == TableSet(mem, d)
    ensures MappedSet(mem', d, 0, USER) == MappedSet(mem, d, 0, USER) - SizeSet(mem, d, newsz, oldsz)
    ensures Owned(mem', d) == Owned(mem, d) - SizeSet(mem, d, newsz, oldsz)
    ensures SizeSet(mem, d, newsz, oldsz) <= Owned(mem, d)
  {
    hide Lookup, TableSet;
    var first, last := PagesOf(newsz), PagesOf(oldsz);
    SizeOwned(mem, d, newsz, oldsz);
    forall p | 0 <= p < USER
      ensures MapsPage(mem', d, p) == (MapsPage(mem, d, p) && !(first <= p < last))
      ensures MapsPage(mem', d, p) ==> MappedFrame(mem', d, p) == MappedFrame(mem, d, p)
    {
      assert Lookup(mem', d, p) == ClearedAt(mem, d, first, last, p);
    }
    var s, s' := MappedSet(mem, d, 0, USER), MappedSet(mem', d, 0, USER);
    forall f | f in s - SizeSet(mem, d, newsz, oldsz)
      ensures f in s'
    {
      var p :| 0 <= p < USER && MapsPage(mem, d, p) && f == MappedFrame(mem, d, p);
      assert MapsPage(mem', d, p);
    }
    forall f | f in s'
      ensures f in s && f !in SizeSet(mem, d, newsz, oldsz)
    {
      var p :| 0 <= p < USER && MapsPage(mem', d, p) && f == MappedFrame(mem', d, p);
      assert MapsPage(mem, d, p) && f == MappedFrame(mem, d, p);
    }
    forall f | f in SizeSet(mem, d, newsz, oldsz)
      ensures f != d && f !in TableSet(mem, d)
    {
      var q :| first <= q < last && MapsPage(mem, d, q) && f == MappedFrame(mem, d, q);
    }
  }

  // Pages first up to upto hold what want says; all others are as they were.
  ghost predicate Grown(mem: Memory, mem': Memory, d: nat, first: nat, upto: nat, want: seq<Held>)
    requires d < FRAMES && upto <= PAGES && upto <= |want|
  {
    && (forall p :: first <= p < upto ==> Holds(mem', d, p, want[p]))
    && (forall p :: 0 <= p < PAGES && !(first <= p < upto) ==> Lookup(mem', d, p) == Lookup(mem, d, p))
  }

  ghost function Blank(n: nat): (s: seq<Held>)
    ensures |s| == n && forall i :: 0 <= i < n ==> s[i] == Held(7, Zeros())
  {
    if n == 0 then [] else Blank(n - 1) + [Held(7, Zeros())]
  }

  // The same pages are mapped, and to the same frames.
  ghost predicate Restored(mem: Memory, mem': Memory, d: nat)
    requires d < FRAMES
  {
    forall p :: 0 <= p < PAGES ==>
      MapsPage(mem', d, p) == MapsPage(mem, d, p)
      && (MapsPage(mem, d, p) ==> Lookup(mem', d, p) == Lookup(mem, d, p))
  }

  lemma GrownNone(mem: Memory, d: nat, first: nat, want: seq<Held>)
    requires d < FRAMES && first <= PAGES && first <= |want|
    ensures Grown(mem, mem, d, first, first, want)
  {
  }

  lemma StillUnmapped(mem: Memory, mem': Memory, d: nat, first: nat, a: nat, last: nat, want: seq<Held>)
    requires d < FRAMES && first <= a < last <= PAGES && a <= |want|
    requires Grown(mem, mem', d, first, a, want) && NoneMapped(mem, d, first, last)
    ensures !MapsPage(mem', d, a)
  {
    assert !MapsPage(mem, d, a);
    hide Lookup;
  }

  // The pages mapped before keep their contents: their frames were not free
  // and hold no table.
  lemma GrownMore(mem0: Memory, mem: Memory, fs: set<nat>, mem': Memory, d: nat, lo: nat,
                  first: nat, a: nat, want: seq<Held>)
    requires Space(mem, d, lo) && Owned(mem, d) !! fs
    requires first <= a < USER && a < |want|
    requires Grown(mem0, mem, d, first, a, want) && Holds(mem', d, a, want[a])
    requires SameLookup(mem, mem', d, 0, a) && SameLookup(mem, mem', d, a + 1, PAGES)
    requires SameBut(mem, mem', fs + {d} + TableSet(mem, d))
    ensures Grown(mem0, mem', d, first, a + 1, want)
  {
    hide Lookup, TableSet, Tabled;
    forall p | first <= p < a
      ensures Holds(mem', d, p, want[p])
    {
      assert Holds(mem, d, p, want[p]);
      UserFrame(mem, d, lo, p);
      assert Lookup(mem', d, p) == Lookup(mem, d, p);
    }
  }

  // Outside the pages from first up to upto, mem' maps what mem does.
  ghost predicate SameOutside(mem: Memory, mem': Memory, d: nat, first: nat, upto: nat)
    requires d < FRAMES
  {
    forall p :: 0 <= p < PAGES && !(first <= p < upto) ==> Lookup(mem', d, p) == Lookup(mem, d, p)
  }

  lemma GrownLookup(mem: Memory, mem': Memory, d: nat, first: nat, upto: nat, want: seq<Held>)
    requires d < FRAMES && upto <= PAGES && upto <= |want| && Grown(mem, mem', d, first, upto, want)
    ensures SameOutside(mem, mem', d, first, upto)
  {
    hide Lookup;
  }

  /** Growing part of a range that mapped nothing, and then clearing the whole
      range, gives back the mappings there were. */
  lemma Undone(mem0: Memory, cur: Memory, mem: Memory, d: nat, first: nat, a: nat, last: nat)
    requires d < FRAMES && a <= last <= USER
    requires NoneMapped(mem0, d, first, last) && SameOutside(mem0, cur, d, first, a)
    requires Cleared(cur, mem, d, first, last)
    ensures Restored(mem0, mem, d)
    ensures MappedSet(mem, d, 0, USER) == MappedSet(mem0, d, 0, USER)
  {
    forall p | 0 <= p < PAGES
      ensures MapsPage(mem, d, p) == MapsPage(mem0, d, p)
      ensures MapsPage(mem0, d, p) ==> Lookup(mem, d, p) == Lookup(mem0, d, p)
    {
      hide Lookup;
      assert Lookup(mem, d, p) == ClearedAt(cur, d, first, last, p);
    }
    hide Lookup;
  }

  // The frames given up in between came from the free set.
  lemma UndoneFrame(mem0: Memory, fs0: set<nat>, cur: Memory, mem: Memory, d: nat, oldsz: Word, newsz: Word)
    requires d < FRAMES && newsz <= KERNBASE
    requires Owned(cur, d) <= fs0 + Owned(mem0, d) && TableSet(cur, d) <= fs0 + TableSet(mem0, d)
    requires Owned(mem, d) == Owned(cur, d) - SizeSet(cur, d, oldsz, newsz)
    requires MappedSet(mem, d, 0, USER) == MappedSet(mem0, d, 0, USER)
    requires SameBut(mem0, cur, fs0 + {d} + TableSet(mem0, d))
    requires SameBut(cur, mem, TableSet(cur, d) + SizeSet(cur, d, oldsz, newsz))
    ensures SameBut(mem0, mem, fs0 + {d} + TableSet(mem0, d))
  {
    hide TableSet, MappedSet;
    SizeOwned(cur, d, oldsz, newsz);
    hide SizeSet;
    SameButThen(mem0, cur, mem, fs0 + {d} + TableSet(mem0, d), TableSet(cur, d) + SizeSet(cur, d, oldsz, newsz),
                fs0 + {d} + TableSet(mem0, d));
  }

  // What the user half maps being the same, only tables moved.
  lemma UndoneSets(mem0: Memory, fs0: set<nat>, mem: Memory, fs: set<nat>, d: nat, lo: nat)
    requires Space(mem0, d, lo) && Space(mem, d, lo)
    requires Owned(mem0, d) !! fs0 && Owned(mem, d) !! fs
    requires fs + Owned(mem, d) == fs0 + Owned(mem0, d)
    requires MappedSet(mem, d, 0, USER) == MappedSet(mem0, d, 0, USER)
    ensures fs + TableSet(mem, d) == fs0 + TableSet(mem0, d)
  {
    Apart(mem0, d, lo);
    Apart(mem, d, lo);
    hide TableSet, MappedSet;
    assert fs + TableSet(mem, d) == fs + Owned(mem, d) - {d} - MappedSet(mem, d, 0, USER);
    assert fs0 + TableSet(mem0, d) == fs0 + Owned(mem0, d) - {d} - MappedSet(mem0, d, 0, USER);
  }

  // Directory, tables and user frames are three disjoint sets.
  lemma Apart(mem: Memory, d: nat, lo: nat)
    requires Space(mem, d, lo)
    ensures d !in TableSet(mem, d) && d !in MappedSet(mem, d, 0, USER)
    ensures TableSet(mem, d) !! MappedSet(mem, d, 0, USER)
  {
  }

  lemma StillOutside(mem0: Memory, mem: Memory, mem': Memory, d: nat, first: nat, a: nat)
    requires d < FRAMES && a <= PAGES && SameOutside(mem0, mem, d, first, a) && SameLookup(mem, mem', d, 0, PAGES)
    ensures SameOutside(mem0, mem', d, first, a)
  {
    hide Lookup;
  }

  lemma RestoredStill(mem0: Memory, mem: Memory, mem': Memory, d: nat)
    requires d < FRAMES && Restored(mem0, mem, d)
    requires forall p :: 0 <= p < PAGES ==> Lookup(mem', d, p) == Lookup(mem, d, p)
    ensures Restored(mem0, mem', d)
    ensures MappedSet(mem', d, 0, USER) == MappedSet(mem0, d, 0, USER)
  {
    hide Lookup;
  }

  // The pages of a space below page n.
  ghost function Image(mem: Memory, d: nat, lo: nat, n: nat): (s: seq<Held>)
    requires Space(mem, d, lo) && n <= USER
    requires forall p :: 0 <= p < n ==> MapsPage(mem, d, p)
    ensures |s| == n && forall p :: 0 <= p < n ==> Holds(mem, d, p, s[p])
  {
    if n == 0 then []
    else Image(mem, d, lo, n - 1) + [Held(Flags(Lookup(mem, d, n - 1)), mem[MappedFrame(mem, d, n - 1)])]
  }

  ghost predicate CopyOf(mem: Memory, parent: nat, d: nat, n: nat)
    requires parent < FRAMES && d < FRAMES && n <= PAGES
  {
    forall p :: 0 <= p < n ==> CopyAt(mem, parent, d, p)
  }

  ghost predicate CopyAt(mem: Memory, parent: nat, d: nat, p: nat)
    requires parent < FRAMES && d < FRAMES && p < PAGES
  {
    && MapsPage(mem, d, p)
    && Flags(Lookup(mem, d, p)) == Flags(Lookup(mem, parent, p))
    && MappedFrame(mem, d, p) < FRAMES && MappedFrame(mem, parent, p) < FRAMES
    && mem[MappedFrame(mem, d, p)] == mem[MappedFrame(mem, parent, p)]
  }

  // The user half of a kernel-only table is empty.
  lemma KernelHalf(mem: Memory, d: nat, data: nat)
    requires d < FRAMES && 0x100 < data < FRAMES
    requires forall p :: 0 <= p < PAGES ==> Lookup(mem, d, p) == KernelEntry(p, data)
    ensures forall n {:trigger NoneMapped(mem, d, 0, n)} :: 0 <= n <= USER ==> NoneMapped(mem, d, 0, n)
  {
    hide Lookup;
  }

  lemma CopySource(mem: Memory, parent: nat, lo: nat, i: nat)
    requires Space(mem, parent, lo) && i < USER && MapsPage(mem, parent, i)
    ensures TableAt(mem, parent, i / 1024)
    ensures var w := mem[TableFrame(mem, parent, i / 1024)][i % 1024];
      && w == Lookup(mem, parent, i)
      && FrameOf(w) < FRAMES && Flags(w) < 4096 && Ored(Flags(w)) == Flags(w)
  {
    hide MappedSet, TableSet, Tabled, Mapped;
    UserFrame(mem, parent, lo, i);
    OddFlags(Lookup(mem, parent, i));
  }

  // While only pages that were free change, the parent still shows its image.
  lemma StillShown(mem0: Memory, mem: Memory, fs: set<nat>, parent: nat, lo: nat, i: nat, h: Held)
    requires Space(mem0, parent, lo) && Owned(mem0, parent) !! fs && SameBut(mem0, mem, fs)
    requires SameLookup(mem0, mem, parent, 0, PAGES)
    requires i < USER && Holds(mem0, parent, i, h)
    ensures Holds(mem, parent, i, h)
  {
    hide MappedSet, TableSet, Tabled, Mapped;
    assert Lookup(mem, parent, i) == Lookup(mem0, parent, i);
    MappedIn(mem0, parent, i);
  }

  // Page i of space d in mem' holds what page i of the parent held in mem.
  ghost predicate CopiedFrom(mem: Memory, parent: nat, mem': Memory, d: nat, i: nat)
    requires parent < FRAMES && d < FRAMES && i < PAGES
  {
    && MappedFrame(mem, parent, i) < FRAMES
    && Holds(mem', d, i, Held(Flags(Lookup(mem, parent, i)), mem[MappedFrame(mem, parent, i)]))
  }

  lemma ShownMaps(mem: Memory, parent: nat, i: nat, h: Held)
    requires parent < FRAMES && i < PAGES && Holds(mem, parent, i, h)
    ensures MapsPage(mem, parent, i)
  {
  }

  lemma ShownCopied(mem: Memory, parent: nat, mem': Memory, d: nat, i: nat, h: Held)
    requires parent < FRAMES && d < FRAMES && i < PAGES
    requires Holds(mem, parent, i, h) && CopiedFrom(mem, parent, mem', d, i)
    ensures Holds(mem', d, i, h)
  {
    hide Lookup;
  }

  lemma OddFlags(w: Word)
    requires Present(w)
    ensures Flags(w) < 4096 && Flags(w) % 2 == 1
  {
    assert w == 4096 * (w / 4096) + w % 4096;
  }

  lemma Copies(mem0: Memory, mem1: Memory, mem: Memory, fs: set<nat>, parent: nat, d: nat, lo: nat, n: nat,
               data: nat, want: seq<Held>)
    requires Space(mem0, parent, lo) && Owned(mem0, parent) !! fs && SameBut(mem0, mem, fs)
    requires SameLookup(mem0, mem, parent, 0, PAGES)
    requires d < FRAMES && 0x100 < data < FRAMES && n <= USER && |want| == n
    requires forall p :: 0 <= p < n ==> Holds(mem0, parent, p, want[p])
    requires forall p :: 0 <= p < PAGES ==> Lookup(mem1, d, p) == KernelEntry(p, data)
    requires Grown(mem1, mem, d, 0, n, want)
    ensures CopyOf(mem, parent, d, n)
    ensures forall p :: n <= p < PAGES ==> Lookup(mem, d, p) == KernelEntry(p, data)
  {
    hide Lookup, TableSet, MappedSet, KernelEntry, Tabled, Mapped;
    forall p | 0 <= p < n
      ensures CopyAt(mem, parent, d, p)
    {
      assert Holds(mem0, parent, p, want[p]) && Holds(mem, d, p, want[p]);
      assert Lookup(mem, parent, p) == Lookup(mem0, parent, p);
      MappedIn(mem0, parent, p);
    }
  }
}
