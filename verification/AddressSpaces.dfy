// xv6-x86/kalloc.c and xv6-x86/vm.c: page frames taken from the free list and
// given back, and address spaces built, grown, shrunk, copied and freed.

module AddressSpaces {
  import opened Helpers
  import opened PageTables
  import opened FrameLists
  import opened Mappings
  import opened PageCounts
  import opened PageAccess

  class Vm {
    const data: nat                     // the page where kernel data begins
    const lo: nat                       // the first page after the kernel
    var mem: Memory
    var freelist: Word
    ghost var free: seq<nat>

    ghost predicate Valid()
      reads this
    {
      && 0x100 < data < lo <= FRAMES
      && Listed(mem, freelist, free, lo)
    }

    ghost function FreeSet(): set<nat>
      reads this
    {
      SetOf(free)
    }

    // A space whose pages are all in use.
    ghost predicate Live(d: nat): (live: bool)
      reads this
      ensures live ==> d < FRAMES
    {
      Space(mem, d, lo) && Owned(mem, d) !! FreeSet()
    }

    // kinit1 and kinit2: every page from the end of the kernel to PHYSTOP.
    constructor (memory: Memory, data: nat, lo: nat)
      requires 0x100 < data < lo <= FRAMES
      ensures Valid() && this.data == data && this.lo == lo
      ensures FreeSet() == Range(lo, FRAMES)
    {
      this.data, this.lo, mem, freelist, free := data, lo, memory, 0, [];
      new;
      FreeRange(lo, FRAMES);
    }

    method Kfree(f: nat)
      requires Valid() && lo <= f < FRAMES && f !in FreeSet()
      modifies this
      ensures Valid() && FreeSet() == old(FreeSet()) + {f}
      ensures SameBut(old(mem), mem, {f})
    {
      Pushed(mem, freelist, free, lo, f);
      mem := mem[f := Junk()[0 := freelist]];
      freelist := Kva(f);
      free := [f] + free;
    }

    method Kalloc() returns (ok: bool, f: nat)
      requires Valid()
      modifies this`freelist, this`free
      ensures Valid()
      ensures ok <==> old(FreeSet()) != {}
      ensures ok ==> lo <= f < FRAMES && f in old(FreeSet())
      ensures FreeSet() == if ok then old(FreeSet()) - {f} else old(FreeSet())
    {
      hide Listed, SetOf;
      ok, f := freelist != 0, 0;
      HeadTells(mem, freelist, free, lo);
      if ok {
        Popped(mem, freelist, free, lo);
        f := (freelist - KERNBASE) / 4096;
        freelist := mem[f][0];
        free := free[1..];
      }
    }

    // A page in use rewritten.
    method Fill(f: nat, page: Page)
      requires Valid() && f < FRAMES && f !in FreeSet()
      modifies this`mem
      ensures Valid() && mem == old(mem)[f := page] && FreeSet() == old(FreeSet())
    {
      ListedSame(mem, mem[f := page], freelist, free, lo);
      mem := mem[f := page];
    }

    /** All pages from start up to end become free. */
    method FreeRange(start: nat, end: nat)
      requires Valid() && lo <= start <= end <= FRAMES
      requires Range(start, end) !! FreeSet()
      modifies this
      ensures Valid()
      ensures FreeSet() == old(FreeSet()) + Range(start, end)
    {
      hide Listed, SetOf;
      var p := start;
      while p < end
        invariant start <= p <= end && Valid()
        invariant FreeSet() == old(FreeSet()) + Range(start, p)
      {
        Kfree(p);
        p := p + 1;
      }
    }

    method WalkPgdir(d: nat, p: nat, alloc: bool) returns (ok: bool, t: nat)
      requires Valid() && Live(d) && p < PAGES
      modifies this
      ensures Valid() && Live(d)
      ensures ok <==> old(TableAt(mem, d, p / 1024)) || (alloc && old(FreeSet()) != {})
      ensures ok ==> TableAt(mem, d, p / 1024) && t == TableFrame(mem, d, p / 1024)
      ensures !alloc || !ok || old(TableAt(mem, d, p / 1024)) ==> mem == old(mem) && FreeSet() == old(FreeSet())
      ensures SameLookup(old(mem), mem, d, 0, PAGES)
      ensures MappedSet(mem, d, 0, USER) == old(MappedSet(mem, d, 0, USER))
      ensures Kept(old(mem), old(FreeSet()), mem, FreeSet(), d, lo)
      ensures Indexes(mem, d) == old(Indexes(mem, d)) + if ok then {p / 1024} else {}
    {
      hide Mapped, MappedSet, Lookup, Listed, Indexes;
      t := 0;
      IndexIn(mem, d, p / 1024);
      if Present(mem[d][p / 1024]) {
        t := FrameOf(mem[d][p / 1024]);
        return true, t;
      }
      if !alloc { return false, t; }
      ok, t := Kalloc();
      if !ok { return; }
      InstalledKeeps(mem, d, lo, p / 1024, t);
      InstalledIndexes(mem, d, p / 1024, t);
      Fill(t, Zeros());
      Fill(d, mem[d][p / 1024 := Entry(t, 7)]);
      assert mem == Installed(old(mem), d, p / 1024, t);
    }

    // A frame that a space may take: in the managed range and held by nobody.
    ghost predicate Spare(d: nat, f: nat)
      requires d < FRAMES
      reads this
    {
      lo <= f < FRAMES && f !in Owned(mem, d) && f !in FreeSet()
    }

    // One round of mappages; remap is its panic.
    method MapOne(d: nat, p: nat, f: nat, perm: nat) returns (ok: bool, remap: bool)
      requires Valid() && Live(d) && p < PAGES && f < PAGES && perm < 4096
      requires p < USER ==> Spare(d, f)
      modifies this
      ensures Valid() && Live(d)
      ensures Kept(old(mem), old(FreeSet()), mem, FreeSet(), d, lo)
      ensures Spread(old(mem), mem, d, p, if ok then p + 1 else p, f, perm)
      ensures MappedSet(mem, d, 0, USER) == old(MappedSet(mem, d, 0, USER)) + if ok && p < USER then {f} else {}
      ensures remap <==> MapsPage(old(mem), d, p)
      ensures remap ==> !ok && mem == old(mem)
      ensures !ok && !remap ==> FreeSet() == {} && p / 1024 !in Indexes(mem, d)
      ensures Indexes(mem, d) == old(Indexes(mem, d)) + if ok then {p / 1024} else {}
    {
      hide Mapped, Listed, Tabled, MappedSet, TableSet, Lookup, Entry, Kept, Spread, Owned, Indexes;
      IndexIn(mem, d, p / 1024);
      var t;
      ok, t := WalkPgdir(d, p, true);
      remap := false;
      SpreadNone(old(mem), mem, d, p, f, perm);
      EntryTells(old(mem), mem, d, p);
      if !ok { return; }
      if Present(mem[t][p % 1024]) {
        return false, true;
      }
      ghost var mid, fs := mem, FreeSet();
      SpareStill(old(mem), old(FreeSet()), mem, FreeSet(), d, lo, p, f);
      Put(mem, FreeSet(), d, lo, p, f, perm);
      UsedTable(mem, d, p / 1024);
      TableIsApart(mem, d, lo, p / 1024);
      Fill(t, mem[t][p % 1024 := Entry(f, perm)]);
      SameIndexes(mid, mem, d);
      assert mem == Written(mid, d, p, Entry(f, perm));
      KeptParts(mid, fs, mem, FreeSet(), d, lo);
      KeptThen(old(mem), old(FreeSet()), mid, fs, mem, FreeSet(), d, lo);
      SpreadAfter(old(mem), mid, mem, d, p, p + 1, f, perm);
    }

    /** mappages: on success the pages from va on map the frames from f on; when
        the free list runs out, or a page is mapped already (remap, a panic), the
        ones before do.  Every user caller maps one page. */
    method MapPages(d: nat, va: Word, size: Word, f: nat, perm: nat) returns (ok: bool, remap: bool, ghost upto: nat)
      requires Valid() && Live(d) && perm < 4096
      requires FirstPage(va) <= LastPage(va, size)
      requires f + (LastPage(va, size) - FirstPage(va)) < PAGES
      requires FirstPage(va) < USER ==> FirstPage(va) == LastPage(va, size) && Spare(d, f)
      modifies this
      ensures Valid() && Live(d)
      ensures Kept(old(mem), old(FreeSet()), mem, FreeSet(), d, lo)
      ensures FirstPage(va) <= upto <= LastPage(va, size) + 1
      ensures ok <==> upto == LastPage(va, size) + 1
      ensures Spread(old(mem), mem, d, FirstPage(va), upto, f, perm)
      ensures MappedSet(mem, d, 0, USER)
           == old(MappedSet(mem, d, 0, USER)) + if ok && FirstPage(va) < USER then {f} else {}
      ensures NoneMapped(old(mem), d, FirstPage(va), upto)
      ensures Opened(mem, d, FirstPage(va), upto, f, perm)
      ensures remap ==> !ok && MapsPage(old(mem), d, upto)
      ensures !ok && !remap ==> FreeSet() == {} && upto / 1024 !in Indexes(mem, d)
      ensures !remap ==> Indexes(mem, d) == old(Indexes(mem, d)) + Dirs(FirstPage(va), upto)
    {
      hide Mapped, Listed, Tabled, MappedSet, TableSet, Lookup, Entry, Kept, Spread, Owned, MapsPage, Indexes, Opened;
      DirOf(FirstPage(va));
      var a, last, g := FirstPage(va), LastPage(va, size), f;
      remap := false;
      KeptSelf(mem, FreeSet(), d, lo);
      SpreadNone(mem, mem, d, a, f, perm);
      while true
        invariant FirstPage(va) <= a <= last && g == f + (a - FirstPage(va))
        invariant Valid() && Live(d)
        invariant a < USER ==> a == last && Spare(d, f)
        invariant Kept(old(mem), old(FreeSet()), mem, FreeSet(), d, lo)
        invariant Spread(old(mem), mem, d, FirstPage(va), a, f, perm)
        invariant NoneMapped(old(mem), d, FirstPage(va), a) && !remap
        invariant Indexes(mem, d) == old(Indexes(mem, d)) + Dirs(FirstPage(va), a)
        invariant MappedSet(mem, d, 0, USER) == old(MappedSet(mem, d, 0, USER))
        decreases last - a
      {
        ghost var mid, fs := mem, FreeSet();
        StillAsWas(old(mem), mem, d, FirstPage(va), a, f, perm);
        ok, remap := MapOne(d, a, g, perm);
        KeptThen(old(mem), old(FreeSet()), mid, fs, mem, FreeSet(), d, lo);
        if !ok {
          upto := a;
          SpreadStop(old(mem), mid, mem, d, FirstPage(va), a, f, g, perm);
          SpreadOpens(old(mem), mem, d, lo, FirstPage(va), a, f, perm);
          return;
        }
        SpreadMore(old(mem), mid, mem, d, FirstPage(va), a, f, perm);
        if a == last {
          break;
        }
        a, g := a + 1, g + 1;
      }
      upto := last + 1;
      SpreadOpens(old(mem), mem, d, lo, FirstPage(va), upto, f, perm);
    }

    // Row k of kmap.
    method MapRow(d: nat, k: nat) returns (ok: bool)
      requires Valid() && Live(d) && k < 4
      requires KernelTo(mem, d, k, data) && MappedSet(mem, d, 0, USER) == {} && Indexes(mem, d) == RowDirs(k, data)
      modifies this
      ensures Valid() && Live(d) && MappedSet(mem, d, 0, USER) == {}
      ensures Kept(old(mem), old(FreeSet()), mem, FreeSet(), d, lo)
      ensures ok ==> KernelTo(mem, d, k + 1, data) && Indexes(mem, d) == RowDirs(k + 1, data)
      ensures !ok ==> FreeSet() == {} && |Indexes(mem, d)| < KERNELTABLES
    {
      hide Mapped, Listed, Tabled, MappedSet, TableSet, Lookup, Entry, Kept, Spread, Owned, KernelUpto;
      hide KmapRow, LastPage, Indexes, Dirs, FirstPage, SetOf, FreeSet, RowDirs;
      var r := KmapRow(k, data);
      ghost var mid := mem;
      RowPages(k, data);
      KernelFree(mem, d, k, data);
      RowMore(k, data);
      ghost var upto;
      var remap;
      ok, remap, upto := MapPages(d, r.virt, RowSize(r), r.start / 4096, r.perm);
      assert !remap;
      if !ok {
        KernelShort(k, upto, data, Indexes(mem, d));
        return;
      }
      KernelRow(mid, mem, d, k, data);
    }

    /** setupkvm: a directory with exactly the kernel's mappings and no user page, if there are
        pages for it and its tables, or no change to the free set. */
    method SetupKvm() returns (ok: bool, d: nat)
      requires Valid()
      modifies this
      ensures Valid()
      ensures SameBut(old(mem), mem, old(FreeSet()))
      ensures ok ==> d in old(FreeSet()) && Live(d)
      ensures ok ==> FreeSet() + Owned(mem, d) == old(FreeSet())
      ensures ok ==> forall p :: 0 <= p < PAGES ==> Lookup(mem, d, p) == KernelEntry(p, data)
      ensures ok ==> KernelSees(mem, d, 0, data)
      ensures !ok ==> FreeSet() == old(FreeSet())
      ensures ok <==> old(|FreeSet()|) > KERNELTABLES
      ensures ok ==> Indexes(mem, d) == RowDirs(4, data) && |FreeSet()| == old(|FreeSet()|) - 1 - KERNELTABLES
    {
      hide Mapped, Listed, Tabled, MappedSet, TableSet, Lookup, Entry, Kept, Spread, Owned, KernelUpto;
      hide KmapRow, LastPage, Indexes, Dirs, FirstPage, SetOf, RowDirs, KernelTo, FreeSet, KernelEntry, SameBut,
        KernelSees;
      ghost var was, all := mem, FreeSet();
      ok, d := NewDirectory();
      if !ok { return; }
      ghost var mem0, fs0 := mem, FreeSet();
      KeptSelf(mem, FreeSet(), d, lo);
      var k := 0;
      while k < 4
        invariant 0 <= k <= 4 && Valid() && Live(d) && ok
        invariant KernelTo(mem, d, k, data) && Indexes(mem, d) == RowDirs(k, data)
        invariant MappedSet(mem, d, 0, USER) == {}
        invariant Kept(mem0, fs0, mem, FreeSet(), d, lo)
      {
        ghost var mid, fs := mem, FreeSet();
        ok := MapRow(d, k);
        KeptThen(mem0, fs0, mid, fs, mem, FreeSet(), d, lo);
        if !ok {
          KeptCounts(mem0, fs0, mem, FreeSet(), d, lo);
          NewSpace(was, all, mem0, mem, FreeSet(), d, lo);
          ghost var last := mem;
          FreeVm(d);
          SameButThen(was, last, mem, all, Owned(last, d), all);
          return;
        }
        k := k + 1;
      }
      KernelTables(data);
      KeptCounts(mem0, fs0, mem, FreeSet(), d, lo);
      NewSpace(was, all, mem0, mem, FreeSet(), d, lo);
      KernelDone(mem, d, data);
      KernelOpensFrom(mem, d, lo, 0, data);
    }

    // A zeroed page as a directory.
    method NewDirectory() returns (ok: bool, d: nat)
      requires Valid()
      modifies this
      ensures Valid()
      ensures ok <==> old(FreeSet()) != {}
      ensures ok ==> Live(d) && d in old(FreeSet()) && FreeSet() == old(FreeSet()) - {d}
      ensures ok ==> |FreeSet()| == old(|FreeSet()|) - 1
      ensures ok ==> TableSet(mem, d) == {} == MappedSet(mem, d, 0, USER)
      ensures ok ==> Indexes(mem, d) == {} == RowDirs(0, data) && KernelTo(mem, d, 0, data)
      ensures !ok ==> mem == old(mem) && FreeSet() == old(FreeSet())
      ensures SameBut(old(mem), mem, if ok then {d} else {})
    {
      hide Mapped, Listed, Tabled, MappedSet, TableSet, Lookup, Owned, Indexes, RowDirs, KernelTo, SetOf;
      ok, d := Kalloc();
      if !ok { return; }
      SizeWith(FreeSet(), d);
      assert old(FreeSet()) == FreeSet() + {d};
      Fill(d, Zeros());
      ZeroSpace(mem, d, lo);
      KernelStart(mem, d, data);
    }

    // kfree of the page that p maps, and an empty entry for p.
    method DropPage(d: nat, p: nat, t: nat)
      requires Valid() && Live(d) && p < USER && MapsPage(mem, d, p)
      requires t == TableFrame(mem, d, p / 1024)
      modifies this
      ensures Valid() && Live(d)
      ensures Cleared(old(mem), mem, d, p, p + 1)
      ensures TableSet(mem, d) == old(TableSet(mem, d))
      ensures FreeSet() + Owned(mem, d) == old(FreeSet() + Owned(mem, d))
      ensures Owned(mem, d) <= old(Owned(mem, d))
      ensures mem[d] == old(mem)[d]
      ensures SameBut(old(mem), mem, old(TableSet(mem, d)) + (old(Owned(mem, d)) - Owned(mem, d)))
    {
      hide Mapped, Listed, Tabled, MappedSet, TableSet, Lookup;
      ghost var f := MappedFrame(mem, d, p);
      UserFrame(mem, d, lo, p);
      Kfree(FrameOf(mem[t][p % 1024]));
      ghost var mid := mem;
      Elsewhere(old(mem), mid, d, lo);
      WrittenZero(mid, d, lo, p);
      WrittenLookup(mid, d, lo, p, 0);
      UsedTable(mid, d, p / 1024);
      TableIn(mid, d, p / 1024);
      Fill(t, mem[t][p % 1024 := 0]);
      assert mem == Written(mid, d, p, 0);
    }

    /** deallocuvm: user pages from newsz up to oldsz are unmapped, and their
        frames are free again. */
    method DeallocUvm(d: nat, oldsz: Word, newsz: Word) returns (r: Word)
      requires Valid() && Live(d) && oldsz <= KERNBASE
      modifies this
      ensures Valid() && Live(d)
      ensures r == if newsz >= oldsz then oldsz else newsz
      ensures Cleared(old(mem), mem, d, PagesOf(newsz), PagesOf(oldsz))
      ensures TableSet(mem, d) == old(TableSet(mem, d))
      ensures FreeSet() == old(FreeSet() + SizeSet(mem, d, newsz, oldsz))
      ensures Owned(mem, d) == old(Owned(mem, d) - SizeSet(mem, d, newsz, oldsz))
      ensures mem[d] == old(mem)[d]
      ensures SameBut(old(mem), mem, old(TableSet(mem, d) + SizeSet(mem, d, newsz, oldsz)))
    {
      hide Mapped, Listed, Tabled, MappedSet, TableSet, Lookup, Owned, Cleared;
      ghost var was := mem;
      ClearedNone(mem, d, PagesOf(newsz), PagesOf(oldsz));
      ghost var first, last := PagesOf(newsz), PagesOf(oldsz);
      if newsz >= oldsz {
        NoSizeSet(mem, d, newsz, oldsz);
        return oldsz;
      }
      var a := PagesOf(newsz);
      while a * 4096 < oldsz
        invariant first <= a <= USER && last <= USER
        invariant Valid() && Live(d)
        invariant Cleared(old(mem), mem, d, first, Min(a, last))
        invariant TableSet(mem, d) == old(TableSet(mem, d))
        invariant FreeSet() + Owned(mem, d) == old(FreeSet() + Owned(mem, d))
        invariant Owned(mem, d) <= old(Owned(mem, d))
        invariant mem[d] == old(mem)[d]
        invariant SameBut(old(mem), mem, old(TableSet(mem, d)) + (old(Owned(mem, d)) - Owned(mem, d)))
        decreases USER - a
      {
        ghost var mid := mem;
        var ok, t := WalkPgdir(d, a, false);
        if !ok {
          var a' := (a / 1024 + 1) * 1024 - 1;
          ClearedMissing(old(mem), mem, d, first, a, Min(a' + 1, last));
          a := a';
        } else if Present(mem[t][a % 1024]) {
          MappedHere(mem, d, a);
          ghost var held := Owned(mem, d);
          DropPage(d, a, t);
          ClearedMore(old(mem), mid, mem, d, first, a);
          SameButThen(old(mem), mid, mem, old(TableSet(mem, d)) + (old(Owned(mem, d)) - held),
                      TableSet(mid, d) + (held - Owned(mem, d)),
                      old(TableSet(mem, d)) + (old(Owned(mem, d)) - Owned(mem, d)));
        } else {
          ClearedEmpty(old(mem), mem, d, first, a);
        }
        a := a + 1;
      }
      ClearedSets(was, mem, d, lo, newsz, oldsz);
      r := newsz;
    }

    /** freevm: everything the space held is free, and nothing else changed. */
    method FreeVm(d: nat)
      requires Valid() && Live(d)
      modifies this
      ensures Valid()
      ensures FreeSet() == old(FreeSet() + Owned(mem, d))
      ensures SameBut(old(mem), mem, old(Owned(mem, d)))
    {
      hide Mapped, Listed, Tabled, MappedSet, TableSet, Lookup, Owned, Cleared;
      ghost var was := mem;
      var r := DeallocUvm(d, KERNBASE, 0);
      ghost var mid, fs := mem, FreeSet();
      Bare(was, mid, d);
      TablesAll(mid, d, lo);
      var i := 0;
      while i < ENTRIES
        invariant 0 <= i <= ENTRIES && Valid()
        invariant mem[d] == mid[d] && d !in FreeSet()
        invariant FreeSet() == fs + TablesUpto(mid, d, i)
        invariant SameBut(mid, mem, TablesUpto(mid, d, i))
      {
        TablesNext(mid, d, lo, i);
        if Present(mem[d][i]) {
          Kfree(FrameOf(mem[d][i]));
        }
        i := i + 1;
      }
      Kfree(d);
      assert SameBut(mid, mem, Owned(mid, d));
      SizeOwned(was, d, 0, KERNBASE);
      SameButThen(was, mid, mem, old(TableSet(mem, d) + SizeSet(mem, d, 0, KERNBASE)), Owned(mid, d),
          old(Owned(mem, d)));
    }

    // The freshly taken page m filled, and mapped at page p.
    method GrowOne(d: nat, p: nat, m: nat, page: Page, perm: nat) returns (ok: bool)
      requires Valid() && Live(d) && p < USER && perm < 4096
      requires !MapsPage(mem, d, p) && Spare(d, m)
      modifies this
      ensures Valid() && Live(d)
      ensures ok ==> Holds(mem, d, p, Held(Ored(perm), page))
      ensures SameLookup(old(mem), mem, d, 0, p) && SameLookup(old(mem), mem, d, p + 1, PAGES)
      ensures !ok ==> SameLookup(old(mem), mem, d, 0, PAGES)
      ensures FreeSet() <= old(FreeSet()) && old(Owned(mem, d)) <= Owned(mem, d)
      ensures FreeSet() + Owned(mem, d) == old(FreeSet() + Owned(mem, d)) + if ok then {m} else {}
      ensures !ok ==> m !in FreeSet() && m !in Owned(mem, d)
      ensures FreeSet() + TableSet(mem, d) == old(FreeSet() + TableSet(mem, d))
      ensures SameBut(old(mem), mem, old(FreeSet()) + {m} + {d} + old(TableSet(mem, d)))
      ensures |FreeSet()| + |Indexes(mem, d)| == old(|FreeSet()| + |Indexes(mem, d)|)
      ensures Indexes(mem, d) == old(Indexes(mem, d)) + if ok then {p / 1024} else {}
      ensures !ok ==> FreeSet() == {} && p / 1024 !in Indexes(mem, d)
    {
      hide Mapped, Tabled, Listed, MappedSet, TableSet, Lookup, Entry, Kept, Spread, Owned, MapsPage, Indexes, Dirs;
      DirOf(p);
      ghost var mem0, fs := mem, FreeSet();
      Fill(m, page);
      ghost var mem1 := mem;
      OwnedParts(mem0, d);
      Elsewhere(mem0, mem1, d, lo);
      SameIndexes(mem0, mem1, d);
      OnePage(p);
      StillSpare(mem0, mem1, d, p);
      ghost var upto;
      var remap;
      ok, remap, upto := MapPages(d, p * 4096, 4096, m, perm);
      assert !remap;
      Grew(mem0, mem1, fs, mem, FreeSet(), d, lo, p, m, page, perm, ok);
      KeptCounts(mem1, fs, mem, FreeSet(), d, lo);
    }

    // A fresh frame for page p, filled with page. If memory runs out in mappages, spare is the
    // frame that kalloc has already given.
    method GrowPage(d: nat, p: nat, page: Page, perm: nat) returns (ok: bool, spare: Option<nat>)
      requires Valid() && Live(d) && p < USER && !MapsPage(mem, d, p) && perm < 4096
      modifies this
      ensures Valid() && Live(d)
      ensures ok ==> spare == None && Holds(mem, d, p, Held(Ored(perm), page))
      ensures SameLookup(old(mem), mem, d, 0, p) && SameLookup(old(mem), mem, d, p + 1, PAGES)
      ensures !ok ==> SameLookup(old(mem), mem, d, 0, PAGES)
      ensures Took(old(mem), old(FreeSet()), mem, FreeSet(), d, lo, spare)
      ensures ok <==> old(|FreeSet()| > if p / 1024 in Indexes(mem, d) then 0 else 1)
      ensures ok ==> |FreeSet()| == old(|FreeSet()| - if p / 1024 in Indexes(mem, d) then 1 else 2)
      ensures ok ==> Indexes(mem, d) == old(Indexes(mem, d)) + {p / 1024}
    {
      hide Mapped, Tabled, Listed, MappedSet, TableSet, Lookup, Owned, MapsPage, Valid, SetOf, FreeSet, Indexes, Holds,
        SameLookup, Took, SameBut;
      spare := None;
      ghost var mem0, fs := mem, FreeSet();
      SameAll(mem, d);
      SizeWith(Indexes(mem, d), p / 1024);
      TookNone(mem, fs, d, lo);
      var m;
      ok, m := Kalloc();
      if !ok { return; }
      ghost var fb := FreeSet();
      SizeWith(fb, m);
      assert fs == fb + {m};
      ok := GrowOne(d, p, m, page, perm);
      TookOne(mem0, fs, fb, mem, FreeSet(), d, lo, m, ok);
      if !ok { spare := Some(m); }
    }

    // The loop of allocuvm, up to the page a for which memory runs out.
    method GrowLoop(d: nat, oldsz: Word, newsz: Word) returns (ok: bool, a: nat, spare: Option<nat>)
      requires Valid() && Live(d) && oldsz <= newsz < KERNBASE
      requires NoneMapped(mem, d, PagesOf(oldsz), PagesOf(newsz))
      modifies this
      ensures Valid() && Live(d)
      ensures ok ==> spare == None && Grown(old(mem), mem, d, PagesOf(oldsz), PagesOf(newsz), Blank(PagesOf(newsz)))
      ensures !ok ==> PagesOf(oldsz) <= a < PagesOf(newsz) && SameOutside(old(mem), mem, d, PagesOf(oldsz), a)
      ensures Took(old(mem), old(FreeSet()), mem, FreeSet(), d, lo, spare)
      ensures ok <==> old(PagesNeeded(mem, d, PagesOf(oldsz), PagesOf(newsz)) <= |FreeSet()|)
    {
      hide Mapped, Tabled, Listed, MappedSet, TableSet, Lookup, Owned, MapsPage, Grown, Valid, NoneMapped, SetOf,
        FreeSet, Indexes, Dirs, PagesNeeded, SameOutside, SameLookup, Holds, Took, SameBut;
      a, spare := PagesOf(oldsz), None;
      ghost var first, last, want := PagesOf(oldsz), PagesOf(newsz), Blank(PagesOf(newsz));
      ghost var mem0, had := mem, FreeSet();
      GrownNone(mem, d, first, want);
      NeedsNone(mem, d, first);
      TookNone(mem, FreeSet(), d, lo);
      while a * 4096 < newsz
        invariant first <= a <= last <= USER && spare == None
        invariant Valid() && Live(d)
        invariant Took(mem0, had, mem, FreeSet(), d, lo, None)
        invariant Grown(mem0, mem, d, first, a, want)
        invariant Indexes(mem, d) == Indexes(mem0, d) + Dirs(first, a)
        invariant |FreeSet()| + PagesNeeded(mem0, d, first, a) == |had|
      {
        ghost var cur, fs := mem, FreeSet();
        NeedsMore(mem0, d, first, a, last);
        StillUnmapped(mem0, cur, d, first, a, last, want);
        ok, spare := GrowPage(d, a, Zeros(), 6);
        TookThen(mem0, had, cur, fs, mem, FreeSet(), d, lo, spare);
        if !ok {
          GrownLookup(mem0, cur, d, first, a, want);
          StillOutside(mem0, cur, mem, d, first, a);
          return;
        }
        TookFrame(cur, fs, mem, FreeSet(), d, lo, spare);
        GrownMore(mem0, cur, fs, mem, d, lo, first, a, want);
        a := a + 1;
      }
      ok := true;
    }

    /** allocuvm: pages from oldsz up to newsz get zeroed frames of their own, exactly if there
        are free pages enough for them and for the page tables they lack. Otherwise every
        frame taken for them is free again; only page table pages stay. */
    method AllocUvm(d: nat, oldsz: Word, newsz: Word) returns (r: Word)
      requires Valid() && Live(d)
      requires oldsz <= newsz < KERNBASE ==> NoneMapped(mem, d, PagesOf(oldsz), PagesOf(newsz))
      modifies this
      ensures Valid() && Live(d)
      ensures newsz >= KERNBASE ==> r == 0
      ensures newsz < oldsz && newsz < KERNBASE ==> r == oldsz
      ensures newsz >= KERNBASE || newsz < oldsz ==> mem == old(mem) && FreeSet() == old(FreeSet())
      ensures oldsz <= newsz < KERNBASE ==> r == newsz || r == 0
      ensures oldsz <= newsz < KERNBASE ==>
        (r == newsz <==> old(PagesNeeded(mem, d, PagesOf(oldsz), PagesOf(newsz)) <= |FreeSet()|))
      ensures oldsz <= newsz < KERNBASE && r == newsz ==>
        && Grown(old(mem), mem, d, PagesOf(oldsz), PagesOf(newsz), Blank(PagesOf(newsz)))
        && (forall p :: PagesOf(oldsz) <= p < PagesOf(newsz) ==> FreshAt(mem, d, p))
        && FreeSet() + Owned(mem, d) == old(FreeSet() + Owned(mem, d))
      ensures oldsz <= newsz < KERNBASE && r != newsz ==>
        && Restored(old(mem), mem, d)
        && FreeSet() + TableSet(mem, d) == old(FreeSet() + TableSet(mem, d))
        && MappedSet(mem, d, 0, USER) == old(MappedSet(mem, d, 0, USER))
      ensures SameBut(old(mem), mem, old(FreeSet()) + {d} + old(TableSet(mem, d)))
    {
      hide Mapped, Tabled, Listed, MappedSet, TableSet, Lookup, Owned, MapsPage, Grown, Restored, Cleared, Valid,
        NoneMapped, SetOf, FreeSet, PagesNeeded, SameOutside, SizeSet, SameLookup, Indexes, Dirs, Blank, Took, FreshAt;
      if newsz >= KERNBASE { return 0; }
      if newsz < oldsz { return oldsz; }
      ghost var mem0, fs0 := mem, FreeSet();
      var ok, a, spare := GrowLoop(d, oldsz, newsz);
      TookFrame(mem0, fs0, mem, FreeSet(), d, lo, spare);
      if ok {
        GrownOpens(mem0, mem, d, lo, PagesOf(oldsz), PagesOf(newsz));
        return newsz;
      }
      GiveBack(d, oldsz, newsz, a, spare, mem0, fs0);
      r := 0;
    }

    // What allocuvm does where memory has run out at page a.
    method GiveBack(d: nat, oldsz: Word, newsz: Word, ghost a: nat, spare: Option<nat>, ghost mem0: Memory,
        ghost fs0: set<nat>)
      requires Valid() && Live(d) && oldsz <= newsz < KERNBASE && PagesOf(oldsz) <= a < PagesOf(newsz)
      requires Space(mem0, d, lo) && Owned(mem0, d) !! fs0 && NoneMapped(mem0, d, PagesOf(oldsz), PagesOf(newsz))
      requires SameOutside(mem0, mem, d, PagesOf(oldsz), a) && Took(mem0, fs0, mem, FreeSet(), d, lo, spare)
      modifies this
      ensures Valid() && Live(d)
      ensures Restored(mem0, mem, d) && FreeSet() + TableSet(mem, d) == fs0 + TableSet(mem0, d)
      ensures MappedSet(mem, d, 0, USER) == MappedSet(mem0, d, 0, USER)
      ensures SameBut(mem0, mem, fs0 + {d} + TableSet(mem0, d))
    {
      hide Mapped, Tabled, Listed, MappedSet, TableSet, Lookup, Owned, MapsPage, Restored, Cleared, Valid, NoneMapped,
        SetOf, FreeSet, SameOutside, SizeSet, Took, SameBut;
      ghost var mid, fs, taken := mem, FreeSet(), fs0 + {d} + TableSet(mem0, d);
      TookFrame(mem0, fs0, mem, fs, d, lo, spare);
      SizeOwned(mem, d, oldsz, newsz);
      var n := DeallocUvm(d, newsz, oldsz);
      ghost var freed, sz := mem, SizeSet(mid, d, oldsz, newsz);
      Regained(fs, Owned(mid, d), sz, SomeSet(spare));
      Undone(mem0, mid, freed, d, PagesOf(oldsz), a, PagesOf(newsz));
      UndoneFrame(mem0, fs0, mid, freed, d, oldsz, newsz);
      if spare.Some? {
        Kfree(spare.value);
        OwnedParts(freed, d);
        Elsewhere(freed, mem, d, lo);
        RestoredStill(mem0, freed, mem, d);
        SameButThen(mem0, freed, mem, taken, {spare.value}, taken);
      }
      UndoneSets(mem0, fs0, mem, FreeSet(), d, lo);
    }

    // The parent's frame and flags for page i.
    method CopyFrom(parent: nat, i: nat) returns (pa: nat, flags: nat)
      requires Valid() && Live(parent) && i < USER && MapsPage(mem, parent, i)
      modifies this
      ensures Valid() && mem == old(mem) && FreeSet() == old(FreeSet())
      ensures pa < FRAMES && flags < 4096 && Ored(flags) == flags
      ensures pa == MappedFrame(mem, parent, i) && flags == Flags(Lookup(mem, parent, i))
    {
      hide Mapped, Tabled, Listed, MappedSet, TableSet, Lookup, Owned, MapsPage, Indexes;
      IndexIn(mem, parent, i / 1024);
      CopySource(mem, parent, lo, i);
      var found, t := WalkPgdir(parent, i, false);
      pa, flags := FrameOf(mem[t][i % 1024]), Flags(mem[t][i % 1024]);
    }

    // One round of copyuvm.
    method CopyPage(parent: nat, d: nat, i: nat) returns (ok: bool)
      requires Valid() && Live(parent) && Live(d) && i < USER
      requires MapsPage(mem, parent, i) && !MapsPage(mem, d, i)
      modifies this
      ensures Valid() && Live(d)
      ensures ok ==> CopiedFrom(old(mem), parent, mem, d, i)
      ensures SameLookup(old(mem), mem, d, 0, i) && SameLookup(old(mem), mem, d, i + 1, PAGES)
      ensures FreeSet() <= old(FreeSet()) && FreeSet() + Owned(mem, d) == old(FreeSet() + Owned(mem, d))
      ensures SameBut(old(mem), mem, old(FreeSet()) + {d} + old(TableSet(mem, d)))
      ensures ok <==> old(|FreeSet()| > if i / 1024 in Indexes(mem, d) then 0 else 1)
      ensures ok ==> |FreeSet()| == old(|FreeSet()| - if i / 1024 in Indexes(mem, d) then 1 else 2)
      ensures ok ==> Indexes(mem, d) == old(Indexes(mem, d)) + {i / 1024}
    {
      hide Mapped, Tabled, Listed, MappedSet, TableSet, Lookup, Owned, MapsPage, Holds, SetOf, FreeSet, Indexes, Took,
        SameLookup, Valid, SameBut;
      ghost var mem0, fs := mem, FreeSet();
      var pa, flags := CopyFrom(parent, i);
      var spare;
      ok, spare := GrowPage(d, i, mem[pa], flags);
      TookFrame(mem0, fs, mem, FreeSet(), d, lo, spare);
      if !ok && spare.Some? {
        ghost var last, taken := mem, fs + {d} + TableSet(mem0, d);
        Kfree(spare.value);
        OwnedParts(last, d);
        Elsewhere(last, mem, d, lo);
        LookupThen(mem0, last, mem, d, i);
        SameButThen(mem0, last, mem, taken, {spare.value}, taken);
      }
    }

    /** copyuvm: the child maps the parent's pages below sz to fresh frames with
        equal flags and contents, and otherwise only what the kernel maps; if
        memory runs out, the free set is as before.  Either way nothing in use
        before the call changed. */
    method CopyUvm(parent: nat, sz: Word) returns (ok: bool, d: nat)
      requires Valid() && Live(parent) && sz <= KERNBASE
      requires forall p :: 0 <= p < PagesOf(sz) ==> MapsPage(mem, parent, p)
      modifies this
      ensures Valid() && Live(parent)
      ensures SameBut(old(mem), mem, old(FreeSet()))
      ensures SameLookup(old(mem), mem, parent, 0, PAGES) && Owned(mem, parent) == old(Owned(mem, parent))
      ensures ok ==> d in old(FreeSet()) && Live(d) && Owned(mem, d) !! Owned(mem, parent)
      ensures ok ==> FreeSet() + Owned(mem, d) == old(FreeSet())
      ensures ok ==> CopyOf(mem, parent, d, PagesOf(sz))
      ensures ok ==> forall p :: 0 <= p < PagesOf(sz) ==> SharedAt(mem, parent, d, p)
      ensures ok ==> KernelSees(mem, d, PagesOf(sz), data)
      ensures ok ==> forall p :: PagesOf(sz) <= p < PAGES ==> Lookup(mem, d, p) == KernelEntry(p, data)
      ensures !ok ==> FreeSet() == old(FreeSet())
      ensures ok <==> old(|FreeSet()|) >= CopyNeeded(PagesOf(sz))
    {
      hide Mapped, Tabled, Listed, MappedSet, TableSet, Lookup, Owned, MapsPage, Grown, KernelEntry, Holds, CopyOf;
      hide SizeSet, NoneMapped, Indexes, Dirs, RowDirs, CopyNeeded, SetOf, FreeSet, Beside, SameBut, SameLookup,
        SharedAt, KernelSees;
      CopyNone(PagesOf(sz));
      ghost var mem0, fs0, n := mem, FreeSet(), PagesOf(sz);
      ghost var want := Image(mem, parent, lo, n);
      ok, d := SetupKvm();
      BesideIs(mem0, fs0, mem, parent, lo);
      BesideFacts(mem0, fs0, mem, parent, lo);
      if !ok { return; }
      ghost var mem1 := mem;
      KernelHalf(mem, d, data);
      GrownNone(mem, d, 0, want);
      var i := 0;
      while i * 4096 < sz
        invariant 0 <= i <= n && ok
        invariant Valid() && Live(d)
        invariant FreeSet() + Owned(mem, d) == fs0 && Beside(mem0, fs0, mem, parent, lo)
        invariant Grown(mem1, mem, d, 0, i, want)
        invariant Indexes(mem, d) == RowDirs(4, data) + Dirs(0, i) && |FreeSet()| + CopyNeeded(i) == |fs0|
      {
        ghost var cur, fs := mem, FreeSet();
        BesideFacts(mem0, fs0, mem, parent, lo);
        StillShown(mem0, cur, fs0, parent, lo, i, want[i]);
        StillUnmapped(mem1, cur, d, 0, i, n, want);
        ShownMaps(cur, parent, i, want[i]);
        CopyMore(i, n, data);
        ok := CopyPage(parent, d, i);
        BesideRound(mem0, fs0, cur, fs, mem, parent, d, lo);
        if !ok {
          ghost var last, left := mem, FreeSet();
          FreeVm(d);
          BesideFreed(mem0, fs0, last, left, mem, parent, d, lo);
          BesideFacts(mem0, fs0, mem, parent, lo);
          return;
        }
        ShownCopied(cur, parent, mem, d, i, want[i]);
        GrownMore(mem1, cur, fs, mem, d, lo, 0, i, want);
        i := i + 1;
      }
      BesideFacts(mem0, fs0, mem, parent, lo);
      Copies(mem0, mem1, mem, fs0, parent, d, lo, n, data, want);
      CopyShares(mem, parent, d, lo, n);
      KernelOpensFrom(mem, d, lo, n, data);
    }

    /** A child that was copied and then freed leaves the free set and every page
        in use as they were: what fork takes, wait gives back. */
    method CopyThenFree(parent: nat, sz: Word)
      requires Valid() && Live(parent) && sz <= KERNBASE
      requires forall p :: 0 <= p < PagesOf(sz) ==> MapsPage(mem, parent, p)
      modifies this
      ensures Valid() && Live(parent)
      ensures FreeSet() == old(FreeSet())
      ensures SameBut(old(mem), mem, old(FreeSet()))
    {
      hide Mapped, Tabled, Listed, MappedSet, TableSet, Lookup, MapsPage, CopyOf, Owned;
      ghost var mem0 := mem;
      var ok, d := CopyUvm(parent, sz);
      if ok {
        ghost var mid, fs, held := mem, FreeSet(), Owned(mem, d);
        FreeVm(d);
        SameButThen(mem0, mid, mem, fs + held, held, fs + held);
        OwnedParts(mem0, parent);
        Elsewhere(mem0, mem, parent, lo);
      }
    }
  }
}

