// pswitch() and sort() of v6/c/c11.c: the case table is sorted and checked, then one of three
// kinds of code is emitted. What the emitted instructions do is modelled on the tables they use.
module Switches {
  import opened Helpers
  import opened Statements

  // ---- sort()

  predicate Distinct(es: seq<CaseLab>) {
    forall i, j :: 0 <= i < j < |es| ==> es[i].val != es[j].val
  }

  predicate Ascending(es: seq<CaseLab>) {
    forall i, j :: 0 <= i < j < |es| ==> es[i].val < es[j].val
  }

  // Entry k is greater than all before it.
  predicate Tops(es: seq<CaseLab>, k: nat)
    requires k < |es|
  {
    forall i :: 0 <= i < k ==> es[i].val < es[k].val
  }

  // One pass of the bubble sort over a[..lp + 1].
  method Pass(a: array<CaseLab>, lp: nat) returns (dup: bool, intch: nat)
    requires lp < a.Length && forall k :: lp < k < a.Length ==> Tops(a[..], k)
    modifies a
    ensures multiset(a[..]) == multiset(old(a[..]))
    ensures forall k :: lp < k < a.Length ==> a[k] == old(a[k])
    ensures dup ==> !Distinct(a[..])
    ensures !dup ==> forall k :: lp <= k < a.Length ==> Tops(a[..], k)
    ensures !dup && intch == 0 ==> forall k :: 0 < k <= lp ==> a[k - 1].val < a[k].val
  {
    hide Passing, Tops, Distinct;
    intch := 0;
    var cp := 0;
    ghost var was := a[..];
    PassStart(was, lp);
    while cp < lp
      invariant cp <= lp
      invariant Passing(a[..], was, lp, cp, intch > 0)
    {
      ghost var s := a[..];
      if a[cp].val == a[cp + 1].val {
        NotDistinct(s, cp);
        PassFacts(s, was, lp, cp, intch > 0);
        return true, intch;
      }
      PassStep(s, was, lp, cp, intch > 0);
      if a[cp].val > a[cp + 1].val {
        intch := intch + 1;
        a[cp], a[cp + 1] := a[cp + 1], a[cp];
        assert a[..] == Swapped(s, cp);
      }
      cp := cp + 1;
    }
    PassFacts(a[..], was, lp, lp, intch > 0);
    dup := false;
  }

  function Swapped(s: seq<CaseLab>, c: nat): seq<CaseLab>
    requires c + 1 < |s|
  {
    s[c := s[c + 1]][c + 1 := s[c]]
  }

  // Up to cp the pass has carried the greatest entry along.
  predicate Passing(s: seq<CaseLab>, was: seq<CaseLab>, lp: nat, cp: nat, swapped: bool)
    requires lp < |s| && cp <= lp
  {
    && |s| == |was| && multiset(s) == multiset(was)
    && (forall k :: lp < k < |s| ==> s[k] == was[k])
    && (forall k :: lp < k < |s| ==> Tops(s, k))
    && Tops(s, cp)
    && (!swapped ==> forall k :: 0 < k <= cp ==> s[k - 1].val < s[k].val)
  }

  lemma NotDistinct(s: seq<CaseLab>, c: nat)
    requires c + 1 < |s| && s[c].val == s[c + 1].val
    ensures !Distinct(s)
  {
  }

  lemma PassStart(s: seq<CaseLab>, lp: nat)
    requires lp < |s| && forall k :: lp < k < |s| ==> Tops(s, k)
    ensures Passing(s, s, lp, 0, false)
  {
  }

  lemma PassFacts(s: seq<CaseLab>, was: seq<CaseLab>, lp: nat, cp: nat, swapped: bool)
    requires cp <= lp < |s| && Passing(s, was, lp, cp, swapped)
    ensures |s| == |was| && multiset(s) == multiset(was) && forall k :: lp < k < |s| ==> s[k] == was[k]
    ensures cp == lp ==> forall k :: lp <= k < |s| ==> Tops(s, k)
    ensures !swapped ==> forall k :: 0 < k <= cp ==> s[k - 1].val < s[k].val
  {
  }

  lemma PassStep(s: seq<CaseLab>, was: seq<CaseLab>, lp: nat, cp: nat, swapped: bool)
    requires cp < lp < |s| && Passing(s, was, lp, cp, swapped) && s[cp].val != s[cp + 1].val
    ensures if s[cp].val > s[cp + 1].val then Passing(Swapped(s, cp), was, lp, cp + 1, true)
        else Passing(s, was, lp, cp + 1, swapped)
  {
    SwapKeeps(s, cp);
  }

  lemma SwapKeeps(s: seq<CaseLab>, c: nat)
    requires c + 1 < |s|
    ensures multiset(Swapped(s, c)) == multiset(s)
    ensures forall k :: c + 1 < k < |s| && Tops(s, k) ==> Tops(Swapped(s, c), k)
    ensures s[c].val > s[c + 1].val && Tops(s, c) ==> Tops(Swapped(s, c), c + 1)
  {
    var t := Swapped(s, c);
    forall k | c + 1 < k < |s| && Tops(s, k) ensures Tops(t, k) {
      forall i | 0 <= i < k ensures t[i].val < t[k].val {
        assert t[i] == if i == c then s[c + 1] else if i == c + 1 then s[c] else s[i];
      }
    }
  }

  // Reports a duplicate exactly if there is one; otherwise the table ends up ascending.
  method Sort(a: array<CaseLab>) returns (dup: bool)
    modifies a
    ensures multiset(a[..]) == multiset(old(a[..]))
    ensures dup <==> !Distinct(old(a[..]))
    ensures !dup ==> Ascending(a[..])
  {
    var lp := a.Length - 1;
    dup := false;
    while 0 < lp
      invariant lp < a.Length && (lp < 0 ==> a.Length == 0)
      invariant multiset(a[..]) == multiset(old(a[..]))
      invariant forall k :: 0 <= lp < k < a.Length ==> Tops(a[..], k)
    {
      var intch: nat;
      dup, intch := Pass(a, lp);
      if dup {
        DistinctPermutes(a[..], old(a[..]));
        return;
      }
      if intch == 0 {
        StepsAscend(a[..], lp);
        break;
      }
      lp := lp - 1;
    }
    AscendIfTops(a[..]);
    DistinctPermutes(old(a[..]), a[..]);
  }

  lemma {:induction false} StepsAscend(s: seq<CaseLab>, lp: nat)
    requires lp < |s| && forall k :: 0 < k <= lp ==> s[k - 1].val < s[k].val
    ensures forall k :: 0 <= k <= lp ==> Tops(s, k)
  {
    if lp > 0 {
      StepsAscend(s, lp - 1);
      assert Tops(s, lp - 1);
    }
  }

  lemma AscendIfTops(s: seq<CaseLab>)
    requires forall k :: 0 < k < |s| ==> Tops(s, k)
    ensures Ascending(s)
  {
    forall i, j | 0 <= i < j < |s| ensures s[i].val < s[j].val {
      assert Tops(s, j);
    }
  }

  // A permutation of a table with a duplicate has one too.
  lemma DistinctPermutes(s: seq<CaseLab>, t: seq<CaseLab>)
    requires multiset(s) == multiset(t)
    ensures Distinct(t) ==> Distinct(s)
  {
    if Distinct(t) {
      forall i, j | 0 <= i < j < |s| ensures s[i].val != s[j].val {
        assert s[i] in multiset(t) && s[j] in multiset(t);
        if s[i] == s[j] {
          TwiceIn(s, i, j);
          NotTwiceIn(t, s[i]);
        }
      }
    }
  }

  lemma TwiceIn(s: seq<CaseLab>, i: nat, j: nat)
    requires i < j < |s| && s[i] == s[j]
    ensures multiset(s)[s[i]] >= 2
  {
    assert s == s[..j] + s[j..];
    assert s[i] in s[..j] && s[j] in s[j..];
  }

  lemma {:induction false} NotTwiceIn(t: seq<CaseLab>, e: CaseLab)
    requires Distinct(t)
    ensures multiset(t)[e] <= 1
  {
    if t != [] {
      var n := |t| - 1;
      assert t == t[..n] + [t[n]];
      NotTwiceIn(t[..n], e);
      if t[n] == e {
        assert e !in t[..n];
      }
    }
  }

  // ---- what the table should do: the label of the case equal to r0, or the default

  // Pick of a table without duplicates does not depend on its order.
  lemma PickPermutes(s: seq<CaseLab>, t: seq<CaseLab>, def: int, v: int)
    requires multiset(s) == multiset(t) && Distinct(s)
    ensures Pick(s, def, v) == Pick(t, def, v)
  {
    DistinctPermutes(t, s);
    if i :| 0 <= i < |s| && s[i].val == v {
      PickAt(s, i, def);
      assert s[i] in multiset(t);
      var j :| 0 <= j < |t| && t[j] == s[i];
      PickAt(t, j, def);
    } else {
      PickNone(s, def, v);
      forall j | 0 <= j < |t| ensures t[j].val != v {
        assert t[j] in multiset(s);
      }
      PickNone(t, def, v);
    }
  }

  lemma {:induction false} PickAt(s: seq<CaseLab>, i: nat, def: int)
    requires Distinct(s) && i < |s|
    ensures Pick(s, def, s[i].val) == s[i].lab
  {
    if i > 0 {
      assert s[0].val != s[i].val;
      PickAt(s[1..], i - 1, def);
    }
  }

  lemma {:induction false} PickNone(s: seq<CaseLab>, def: int, v: int)
    requires forall i :: 0 <= i < |s| ==> s[i].val != v
    ensures Pick(s, def, v) == def
  {
    if s != [] {
      PickNone(s[1..], def, v);
    }
  }

  // ---- the emitted code

  const WORD := 65536

  predicate IsWord(v: int) { -32768 <= v < 32768 }

  // The unsigned reading of a word.
  function U(v: int): (u: int)
    ensures 0 <= u < WORD
  {
    v % WORD
  }

  datatype Dispatch =
    | Always(def: int)
    | Direct(first: int, range: nat, def: int, labs: seq<int>)
    | Linear(vals: seq<int>, labs: seq<int>)
    | Hash(tabs: nat, ptrs: seq<nat>, area: seq<int>, labs: seq<int>)
    | Duplicate                                  // an error, nothing emitted
    | Endless                                    // the loop over the table does not end

  // sub, cmp, jhi, then the jump through the table.
  function GoDirect(first: int, range: nat, def: int, labs: seq<int>, r0: int): Option<int> {
    var x := U(r0 - first);
    if x > range then Some(def) else if x < |labs| then Some(labs[x]) else None
  }

  // cmp r0,(r1)+ ; jne: from k upward.
  function ScanUp(mem: seq<int>, k: nat, x: int): Option<nat>
    decreases |mem| - k
  {
    if k >= |mem| then None else if mem[k] == x then Some(k) else ScanUp(mem, k + 1, x)
  }

  // cmp r0,-(r1) ; jne: from k downward.
  function ScanDown(mem: seq<int>, k: nat, x: int): Option<nat> {
    if k == 0 || k > |mem| then None else if mem[k - 1] == x then Some(k - 1) else ScanDown(mem, k - 1, x)
  }

  // r0 goes into the word behind the values, so the scan stops there at the latest; the
  // labels lie behind that word, as far from it as the values are from the first.
  function GoLinear(vals: seq<int>, labs: seq<int>, r0: int): Option<int> {
    var k := ScanUp(vals + [U(r0)], 0, U(r0));
    if k.Some? && k.value < |labs| then Some(labs[k.value]) else None
  }

  // div leaves the quotient in r0 and the remainder in r1; the quotient goes into the first
  // word of the remainder's bucket and is looked for from the bucket's end back.
  function GoHash(tabs: nat, ptrs: seq<nat>, area: seq<int>, labs: seq<int>, r0: int): Option<int>
    requires tabs > 0
  {
    var q, r := U(r0) / tabs, U(r0) % tabs;
    if r + 1 < |ptrs| && ptrs[r] < |area| then
      var k := ScanDown(area[ptrs[r] := q], ptrs[r + 1], q);
      if k.Some? && k.value < |labs| then Some(labs[k.value]) else None
    else None
  }

  function Go(d: Dispatch, r0: int): Option<int> {
    match d
    case Always(def) => Some(def)
    case Direct(first, range, def, labs) => GoDirect(first, range, def, labs, r0)
    case Linear(vals, labs) => GoLinear(vals, labs, r0)
    case Hash(tabs, ptrs, area, labs) => if tabs > 0 then GoHash(tabs, ptrs, area, labs, r0) else None
    case Duplicate => None
    case Endless => None
  }

  predicate Words(es: seq<CaseLab>) { forall i :: 0 <= i < |es| ==> IsWord(es[i].val) }

  // ---- direct table

  // The loop over the values from the first to the last case.
  method DirectTable(es: seq<CaseLab>, def: int) returns (labs: seq<int>)
    requires es != [] && Ascending(es) && Words(es) && es[|es| - 1].val < 32767
    ensures |labs| == es[|es| - 1].val - es[0].val + 1
    ensures forall x :: 0 <= x < |labs| ==> labs[x] == Pick(es, def, es[0].val + x)
  {
    labs := [];
    var fp := 0;
    var i := es[0].val;
    while i <= es[|es| - 1].val
      invariant es[0].val <= i <= es[|es| - 1].val + 1 && |labs| == i - es[0].val && fp <= |es|
      invariant forall x :: 0 <= x < |labs| ==> labs[x] == Pick(es, def, es[0].val + x)
      invariant i <= es[|es| - 1].val ==> fp < |es| && i <= es[fp].val
      invariant fp > 0 ==> es[fp - 1].val < i
      decreases es[|es| - 1].val - i
    {
      if i == es[fp].val {
        PickAt(es, fp, def);
        labs := labs + [es[fp].lab];
        fp := fp + 1;
      } else {
        forall j | 0 <= j < |es| ensures es[j].val != i {
          if j < fp { assert es[j].val <= es[fp - 1].val; } else { assert es[fp].val <= es[j].val; }
        }
        PickNone(es, def, i);
        labs := labs + [def];
      }
      i := i + 1;
    }
  }

  lemma DirectRight(es: seq<CaseLab>, def: int, labs: seq<int>, r0: int)
    requires es != [] && Ascending(es) && Words(es) && IsWord(r0)
    requires |labs| == es[|es| - 1].val - es[0].val + 1
    requires forall x :: 0 <= x < |labs| ==> labs[x] == Pick(es, def, es[0].val + x)
    ensures GoDirect(es[0].val, |labs| - 1, def, labs, r0) == Some(Pick(es, def, r0))
  {
    var first := es[0].val;
    var x := U(r0 - first);
    if x >= |labs| {
      forall j | 0 <= j < |es| ensures es[j].val != r0 {
        assert first <= es[j].val <= es[|es| - 1].val;
      }
      PickNone(es, def, r0);
    } else {
      // below the first case the difference wraps past the last one
      assert x == r0 - first || x == r0 - first + WORD;
    }
  }

  // ---- linear scan

  method LinearTables(es: seq<CaseLab>, def: int) returns (vals: seq<int>, labs: seq<int>)
    ensures |vals| == |es| && forall i :: 0 <= i < |es| ==> vals[i] == U(es[i].val)
    ensures |labs| == |es| + 1 && labs[|es|] == def && forall i :: 0 <= i < |es| ==> labs[i] == es[i].lab
  {
    vals, labs := [], [];
    var fp := 0;
    while fp < |es|
      invariant fp == |vals| <= |es| && forall i :: 0 <= i < fp ==> vals[i] == U(es[i].val)
    {
      vals := vals + [U(es[fp].val)];
      fp := fp + 1;
    }
    fp := 0;
    while fp < |es|
      invariant fp == |labs| <= |es| && forall i :: 0 <= i < fp ==> labs[i] == es[i].lab
    {
      labs := labs + [es[fp].lab];
      fp := fp + 1;
    }
    labs := labs + [def];
  }

  lemma {:induction false} ScanUpFinds(mem: seq<int>, k: nat, x: int)
    requires exists j :: k <= j < |mem| && mem[j] == x
    ensures var r := ScanUp(mem, k, x);
      r.Some? && k <= r.value < |mem| && mem[r.value] == x && forall j :: k <= j < r.value ==> mem[j] != x
    decreases |mem| - k
  {
    if mem[k] != x {
      ScanUpFinds(mem, k + 1, x);
    }
  }

  lemma LinearRight(es: seq<CaseLab>, def: int, vals: seq<int>, labs: seq<int>, r0: int)
    requires Distinct(es) && Words(es) && IsWord(r0)
    requires |vals| == |es| && forall i :: 0 <= i < |es| ==> vals[i] == U(es[i].val)
    requires |labs| == |es| + 1 && labs[|es|] == def && forall i :: 0 <= i < |es| ==> labs[i] == es[i].lab
    ensures GoLinear(vals, labs, r0) == Some(Pick(es, def, r0))
  {
    var mem := vals + [U(r0)];
    assert mem[|es|] == U(r0);
    ScanUpFinds(mem, 0, U(r0));
    var k := ScanUp(mem, 0, U(r0)).value;
    if k < |es| {
      assert es[k].val == r0;
      PickAt(es, k, def);
    } else {
      forall i | 0 <= i < |es| ensures es[i].val != r0 {
        assert mem[i] != U(r0);
      }
      PickNone(es, def, r0);
    }
  }

  // ---- hash tables

  // The cases that fall into bucket i of tabs.
  function Bucket(es: seq<CaseLab>, tabs: nat, i: nat): seq<CaseLab>
    requires tabs > 0
  {
    if es == [] then []
    else
      var n := |es| - 1;
      Bucket(es[..n], tabs, i) + if U(es[n].val) % tabs == i then [es[n]] else []
  }

  // Bucket i in the tables: a word for r0, then the quotients; in the other table the
  // default, then the labels.
  predicate BucketAt(es: seq<CaseLab>, tabs: nat, i: nat, lo: nat, hi: nat, area: seq<int>, labs: seq<int>, def: int)
    requires tabs > 0
  {
    var b := Bucket(es, tabs, i);
    && hi == lo + 1 + |b| && hi <= |area| && hi <= |labs| && labs[lo] == def
    && forall j :: 0 <= j < |b| ==> area[lo + 1 + j] == U(b[j].val) / tabs && labs[lo + 1 + j] == b[j].lab
  }

  predicate Buckets(es: seq<CaseLab>, tabs: nat, n: nat, ptrs: seq<nat>, area: seq<int>, labs: seq<int>, def: int)
    requires tabs > 0
  {
    n < |ptrs| && forall i: nat :: i < n ==> BucketAt(es, tabs, i, ptrs[i], ptrs[i + 1], area, labs, def)
  }

  // One bucket of both tables.
  method OneBucket(es: seq<CaseLab>, tabs: nat, i: nat, def: int) returns (area: seq<int>, labs: seq<int>)
    requires tabs > 0
    ensures |area| == |labs| && BucketAt(es, tabs, i, 0, |area|, area, labs, def)
  {
    area := [0];
    labs := [def];
    var swp := 0;
    while swp < |es|
      invariant swp <= |es| && |area| == |labs| && BucketAt(es[..swp], tabs, i, 0, |area|, area, labs, def)
    {
      assert es[..swp + 1][..swp] == es[..swp];
      if U(es[swp].val) % tabs == i {
        area := area + [U(es[swp].val) / tabs];
        labs := labs + [es[swp].lab];
      }
      swp := swp + 1;
    }
    assert es[..swp] == es;
  }

  method HashTables(es: seq<CaseLab>, tabs: nat, def: int) returns (ptrs: seq<nat>, area: seq<int>, labs: seq<int>)
    requires tabs > 0
    ensures |ptrs| == tabs + 1 && Buckets(es, tabs, tabs, ptrs, area, labs, def)
  {
    ptrs, area, labs := [0], [], [];
    var i := 0;
    while i < tabs
      invariant i <= tabs && |ptrs| == i + 1 && ptrs[i] == |area| == |labs|
      invariant Buckets(es, tabs, i, ptrs, area, labs, def)
    {
      var a, l := OneBucket(es, tabs, i, def);
      BucketsMore(es, tabs, i, ptrs, area, labs, def, a, l);
      area := area + a;
      labs := labs + l;
      ptrs := ptrs + [|area|];
      i := i + 1;
    }
  }

  lemma BucketsMore(es: seq<CaseLab>, tabs: nat, n: nat, ptrs: seq<nat>, area: seq<int>, labs: seq<int>, def: int,
      a: seq<int>, l: seq<int>)
    requires tabs > 0 && |ptrs| == n + 1 && ptrs[n] == |area| == |labs| && |a| == |l|
    requires Buckets(es, tabs, n, ptrs, area, labs, def) && BucketAt(es, tabs, n, 0, |a|, a, l, def)
    ensures Buckets(es, tabs, n + 1, ptrs + [|area + a|], area + a, labs + l, def)
  {
    hide Bucket;
    var p2 := ptrs + [|area + a|];
    forall i: nat | i < n + 1 ensures BucketAt(es, tabs, i, p2[i], p2[i + 1], area + a, labs + l, def) {
      if i < n { assert BucketAt(es, tabs, i, ptrs[i], ptrs[i + 1], area, labs, def); }
    }
  }

  lemma {:induction false} ScanDownFinds(mem: seq<int>, lo: nat, k: nat, x: int)
    requires lo < k <= |mem| && mem[lo] == x
    ensures var r := ScanDown(mem, k, x);
      r.Some? && lo <= r.value < k && mem[r.value] == x && forall j :: r.value < j < k ==> mem[j] != x
  {
    if mem[k - 1] != x {
      ScanDownFinds(mem, lo, k - 1, x);
    }
  }

  // The bucket of r0's remainder holds exactly the cases with that remainder.
  lemma {:induction false} BucketIs(es: seq<CaseLab>, tabs: nat, i: nat)
    requires tabs > 0
    ensures forall e :: e in Bucket(es, tabs, i) <==> e in es && U(e.val) % tabs == i
  {
    if es != [] {
      var n := |es| - 1;
      BucketIs(es[..n], tabs, i);
      assert es == es[..n] + [es[n]];
    }
  }

  lemma HashRight(es: seq<CaseLab>, tabs: nat, def: int, ptrs: seq<nat>, area: seq<int>, labs: seq<int>, r0: int)
    requires Distinct(es) && Words(es) && IsWord(r0) && tabs > 0
    requires |ptrs| == tabs + 1 && Buckets(es, tabs, tabs, ptrs, area, labs, def)
    ensures GoHash(tabs, ptrs, area, labs, r0) == Some(Pick(es, def, r0))
  {
    hide Bucket, Distinct, Pick, Words;
    var q, r := U(r0) / tabs, U(r0) % tabs;
    var b := Bucket(es, tabs, r);
    BucketIs(es, tabs, r);
    assert BucketAt(es, tabs, r, ptrs[r], ptrs[r + 1], area, labs, def);
    var lo := ptrs[r];
    var mem := area[lo := q];
    ScanDownFinds(mem, lo, ptrs[r + 1], q);
    var k := ScanDown(mem, ptrs[r + 1], q).value;
    if k > lo {
      var e := b[k - lo - 1];
      assert e in b;
      SameWord(e.val, r0, tabs);
      var i :| 0 <= i < |es| && es[i] == e;
      WordOf(es, i);
      PickAt(es, i, def);
    } else {
      forall e | e in b ensures e.val != r0 {
        var j :| 0 <= j < |b| && b[j] == e;
        assert mem[lo + 1 + j] != q;
      }
      forall i | 0 <= i < |es| ensures es[i].val != r0 {
        assert es[i] in b <==> U(es[i].val) % tabs == r;
      }
      PickNone(es, def, r0);
    }
  }

  lemma WordOf(es: seq<CaseLab>, i: nat)
    requires Words(es) && i < |es|
    ensures IsWord(es[i].val)
  {
  }

  // Quotient and remainder determine a word.
  lemma SameWord(v: int, w: int, tabs: nat)
    requires tabs > 0 && U(v) / tabs == U(w) / tabs && U(v) % tabs == U(w) % tabs
    ensures U(v) == U(w) && (IsWord(v) && IsWord(w) ==> v == w)
  {
    assert U(v) == U(v) / tabs * tabs + U(v) % tabs;
    assert U(w) == U(w) / tabs * tabs + U(w) % tabs;
  }

  lemma Quotient(x: nat, t: nat, q: nat, r: nat)
    requires t >= 2 && x == t * q + r
    ensures 2 * q <= x
  {
    assert t * q == 2 * q + (t - 2) * q;
  }

  // The quotient fits the signed word that div leaves it in.
  lemma QuotientFits(r0: int, tabs: nat)
    requires tabs >= 2
    ensures U(r0) / tabs < 32768
  {
    Quotient(U(r0), tabs, U(r0) / tabs, U(r0) % tabs);
  }

  // ---- the size of the hash table

  // How many cases fall into bucket j of i.
  function Load(es: seq<CaseLab>, i: nat, j: nat): (n: nat)
    requires i > 0
    ensures n <= |es|
  {
    if es == [] then 0
    else Load(es[..|es| - 1], i, j) + if U(es[|es| - 1].val) % i == j then 1 else 0
  }

  // The fullest of the buckets below k.
  function Worst(es: seq<CaseLab>, i: nat, k: nat): (n: nat)
    requires i > 0
    ensures n <= |es|
  {
    if k == 0 then 0 else if Load(es, i, k - 1) > Worst(es, i, k - 1) then Load(es, i, k - 1) else Worst(es, i, k - 1)
  }

  function Cost(es: seq<CaseLab>, i: nat): int
    requires i > 0
  {
    i * Worst(es, i, i)
  }

  // The loops over poctab for one size.
  method WorstOf(es: seq<CaseLab>, i: nat) returns (worst: nat)
    requires 0 < i <= SWSIZ
    ensures worst == Worst(es, i, i)
  {
    var poctab := new nat[SWSIZ];
    var j := 0;
    while j < i
      invariant j <= i && forall l :: 0 <= l < j ==> poctab[l] == 0
    {
      poctab[j] := 0;
      j := j + 1;
    }
    var swp := 0;
    while swp < |es|
      invariant swp <= |es| && forall l :: 0 <= l < i ==> poctab[l] == Load(es[..swp], i, l)
    {
      assert es[..swp + 1][..swp] == es[..swp];
      var l := U(es[swp].val) % i;
      poctab[l] := poctab[l] + 1;
      swp := swp + 1;
    }
    assert es[..swp] == es;
    worst := 0;
    j := 0;
    while j < i
      invariant j <= i && worst == Worst(es, i, j)
    {
      if poctab[j] > worst {
        worst := poctab[j];
      }
      j := j + 1;
    }
  }

  // The cheapest size between a quarter and a half of the number of cases.
  method HashSize(es: seq<CaseLab>) returns (tabs: nat)
    requires 8 <= |es| <= SWSIZ
    ensures |es| / 4 <= tabs <= |es| / 2 && tabs >= 2
    ensures forall i: nat :: |es| / 4 <= i <= |es| / 2 ==> Cost(es, tabs) <= Cost(es, i)
  {
    hide Worst, Load;
    var best := 32767;
    tabs := |es| / 4;
    var i := |es| / 4;
    while i <= |es| / 2
      invariant 2 <= |es| / 4 <= i <= |es| / 2 + 1
      invariant i > |es| / 4 ==> |es| / 4 <= tabs < i && best == Cost(es, tabs)
      invariant i == |es| / 4 ==> best == 32767 && tabs == i
      invariant forall k: nat :: |es| / 4 <= k < i ==> best <= Cost(es, k)
    {
      var worst := WorstOf(es, i);
      CostSmall(es, i);
      if i * worst < best {
        tabs := i;
        best := i * worst;
      }
      i := i + 1;
    }
  }

  // The product stays below the value best starts with.
  lemma AtMost(i: nat, w: nat)
    requires i <= 100 && w <= 200
    ensures 0 <= i * w <= 20000
  {
    assert i * w <= 100 * w;
  }

  lemma CostSmall(es: seq<CaseLab>, i: nat)
    requires 0 < i <= |es| / 2 && |es| <= SWSIZ
    ensures 0 <= Cost(es, i) < 32767
  {
    AtMost(i, Worst(es, i, i));
  }

  // ---- pswitch()

  // Is the table dense enough for the direct jump?
  predicate Dense(es: seq<CaseLab>) {
    es != [] && 0 < es[|es| - 1].val - es[0].val <= 32767 && es[|es| - 1].val - es[0].val <= 3 * |es|
  }

  // For every table of at most SWSIZ words: a duplicate is reported exactly if there is one;
  // the loop over a dense table is endless exactly if its last case is 32767; otherwise the
  // code emitted takes every r0 to the label of the case equal to it, or to the default.
  method PSwitch(a: array<CaseLab>, def: int) returns (d: Dispatch)
    requires a.Length <= SWSIZ && Words(a[..])
    modifies a
    ensures multiset(a[..]) == multiset(old(a[..]))
    ensures d.Duplicate? <==> !Distinct(old(a[..]))
    ensures Distinct(a[..]) ==> Ascending(a[..])
    ensures d.Endless? <==> Distinct(a[..]) && Dense(a[..]) && a[a.Length - 1].val == 32767
    ensures !d.Duplicate? && !d.Endless? ==> forall r0 :: IsWord(r0) ==> Go(d, r0) == Some(Pick(old(a[..]), def, r0))
  {
    hide Pick, Go, Bucket, Buckets, ScanUp, ScanDown, Words, Distinct, Ascending;
    ghost var was := a[..];
    if a.Length == 0 {
      d := Always(def);
      Trivial(was, def);
      forall r0 | IsWord(r0) ensures Go(d, r0) == Some(Pick(was, def, r0)) {
        GoIs(d, r0);
        PickNone(was, def, r0);
      }
      return;
    }
    var dup := Sort(a);
    DistinctPermutes(was, a[..]);
    DistinctPermutes(a[..], was);
    if dup {
      return Duplicate;
    }
    WordsPermute(was, a[..]);
    AscendingDistinct(a[..]);
    var ncase := a.Length;
    var first, last := a[0].val, a[ncase - 1].val;
    WordOf(a[..], 0);
    WordOf(a[..], ncase - 1);
    var range := S16(last - first);
    var es := a[..];
    if range > 0 && range <= 3 * ncase {
      if last == 32767 {
        return Endless;
      }
      var labs := DirectTable(es, def);
      d := Direct(first, range, def, labs);
      forall r0 | IsWord(r0) ensures Go(d, r0) == Some(Pick(was, def, r0)) {
        GoIs(d, r0);
        DirectRight(es, def, labs, r0);
        PickPermutes(es, was, def, r0);
      }
      return;
    }
    if ncase < 8 {
      var vals, labs := LinearTables(es, def);
      d := Linear(vals, labs);
      forall r0 | IsWord(r0) ensures Go(d, r0) == Some(Pick(was, def, r0)) {
        GoIs(d, r0);
        LinearRight(es, def, vals, labs, r0);
        PickPermutes(es, was, def, r0);
      }
      return;
    }
    var tabs := HashSize(es);
    var ptrs, area, labs := HashTables(es, tabs, def);
    d := Hash(tabs, ptrs, area, labs);
    forall r0 | IsWord(r0) ensures Go(d, r0) == Some(Pick(was, def, r0)) {
      GoIs(d, r0);
      HashRight(es, tabs, def, ptrs, area, labs, r0);
      PickPermutes(es, was, def, r0);
    }
  }

  // Subtraction in 16-bit words, read as signed.
  function S16(x: int): (s: int)
    ensures -65535 <= x <= 65535 ==>
        (0 < s <= 32767 <==> 0 < x <= 32767 || -65535 <= x < -32768) && (0 <= x <= 32767 ==> s == x)
  {
    if U(x) < 32768 then U(x) else U(x) - WORD
  }

  lemma GoIs(d: Dispatch, r0: int)
    ensures d.Always? ==> Go(d, r0) == Some(d.def)
    ensures d.Direct? ==> Go(d, r0) == GoDirect(d.first, d.range, d.def, d.labs, r0)
    ensures d.Linear? ==> Go(d, r0) == GoLinear(d.vals, d.labs, r0)
    ensures d.Hash? && d.tabs > 0 ==> Go(d, r0) == GoHash(d.tabs, d.ptrs, d.area, d.labs, r0)
  {
  }

  lemma Trivial(es: seq<CaseLab>, def: int)
    requires es == []
    ensures Distinct(es) && Ascending(es)
  {
  }

  lemma AscendingDistinct(es: seq<CaseLab>)
    requires Ascending(es)
    ensures Distinct(es) && (es != [] ==> es[0].val <= es[|es| - 1].val)
  {
    forall i, j | 0 <= i < j < |es| ensures es[i].val != es[j].val {
      assert es[i].val < es[j].val;
    }
  }

  lemma WordsPermute(s: seq<CaseLab>, t: seq<CaseLab>)
    requires Words(s) && multiset(s) == multiset(t)
    ensures Words(t)
  {
    forall i | 0 <= i < |t| ensures IsWord(t[i].val) {
      assert t[i] in multiset(s);
      var j :| 0 <= j < |s| && s[j] == t[i];
    }
  }
}
