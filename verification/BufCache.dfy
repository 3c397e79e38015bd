// The buffer cache of xv6-x86/bio.c over the disk of xv6-x86/memide.c: each method is what one
// process does while it holds bcache.lock, or while it holds a buffer's sleep lock.
module BufCache {
  import opened Helpers
  import opened BufRing

  // Block contents are known by number.
  datatype Buf = Buf(dev: nat, blockno: nat, valid: bool, dirty: bool, refcnt: nat, data: int, locked: bool) {
    predicate Unused() { refcnt == 0 && !dirty }
  }

  // The ring goes through the head, which has number n, and all n buffers.
  predicate Whole(ring: seq<nat>, n: nat) {
    |ring| == n + 1 && ring[0] == n && Distinct(ring) && forall i :: 0 < i <= n ==> ring[i] < n
  }

  lemma {:induction false} AllOnRing(ring: seq<nat>, n: nat, b: nat) returns (k: nat)
    requires Whole(ring, n) && b < n
    ensures 0 < k <= n && k < |ring| && ring[k] == b
  {
    if b !in ring[1..] {
      var s := Elements(ring[1..]);
      SizeOfDistinct(ring[1..]);
      var all := Upto(n);
      assert s <= all - {b};
      SubsetSize(s, all - {b});
      assert false;
    }
    k :| 0 < k <= n && ring[k] == b;
  }

  function Elements(r: seq<nat>): set<nat> { set i: nat | i in r }

  function Upto(n: nat): (s: set<nat>)
    ensures |s| == n && forall i: nat :: i in s <==> i < n
  {
    if n == 0 then {} else Upto(n - 1) + {n - 1}
  }

  lemma {:induction false} SizeOfDistinct(r: seq<nat>)
    requires Distinct(r)
    ensures |Elements(r)| == |r|
  {
    if r != [] {
      var n := |r| - 1;
      SizeOfDistinct(r[..n]);
      assert Elements(r) == Elements(r[..n]) + {r[n]};
    }
  }

  lemma {:induction false} SubsetSize(a: set<nat>, b: set<nat>)
    requires a <= b
    ensures |a| <= |b|
  {
    if a != {} {
      var x :| x in a;
      SubsetSize(a - {x}, b - {x});
    }
  }

  // No block of a real device is in two buffers.
  predicate Unique(bufs: seq<Buf>) {
    forall a, b :: 0 <= a < b < |bufs| && bufs[a].dev != 0 ==>
        bufs[a].dev != bufs[b].dev || bufs[a].blockno != bufs[b].blockno
  }

  // Of two unreferenced buffers the one nearer the head was released later.
  predicate ByRelease(ring: seq<nat>, bufs: seq<Buf>, freed: seq<nat>)
    requires |freed| == |bufs| && Whole(ring, |bufs|)
  {
    forall i, j :: 0 < i < j < |ring| && bufs[ring[i]].refcnt == 0 && bufs[ring[j]].refcnt == 0 ==>
        freed[ring[i]] > freed[ring[j]]
  }

  // A valid clean buffer that no one is changing equals the disk.
  predicate Coherent(b: Buf, touched: bool, disk: seq<int>) {
    && (b.valid ==> b.dev == 1 && b.blockno < |disk|)
    && (b.valid && !b.dirty && !touched ==> b.data == disk[b.blockno])
    && (touched ==> b.locked && b.valid)
  }

  // No one has the lock, and what is to be written has been read.
  predicate Free(b: Buf, leaving: nat) {
    !b.locked && b.refcnt >= leaving && (b.dirty ==> b.valid)
  }

  // The contents of a block: those of the buffer that has it, or those on disk.
  ghost function Last(bufs: seq<Buf>, disk: seq<int>, dev: nat, blockno: nat): int {
    if b :| 0 <= b < |bufs| && Has(bufs[b], dev, blockno) && bufs[b].valid then bufs[b].data
    else if blockno < |disk| then disk[blockno] else 0
  }

  predicate Counted(b: Buf, leaving: nat) { b.refcnt >= leaving + if b.locked then 1 else 0 }

  class Cache {
    var next: seq<nat>
    var prev: seq<nat>
    var bufs: seq<Buf>
    var disk: seq<int>
    ghost var ring: seq<nat>
    ghost var freed: seq<nat>                     // when each buffer was last released
    ghost var clock: nat
    ghost var touched: set<nat>                   // changed under their locks, not yet written or marked
    ghost var leaving: seq<nat>                   // holders between the two halves of brelse

    ghost predicate Valid() reads this {
      && bufs != [] && |next| == |bufs| + 1 == |prev| && |freed| == |bufs| && |leaving| == |bufs|
      && Whole(ring, |bufs|) && Ring(ring, next, prev)
      && Unique(bufs) && ByRelease(ring, bufs, freed) && (forall b :: 0 <= b < |bufs| ==> freed[b] < clock)
      && (forall b :: 0 <= b < |bufs| ==> Coherent(bufs[b], b in touched, disk))
      && (forall b :: 0 <= b < |bufs| ==> Counted(bufs[b], leaving[b]))
    }

    // binit()
    constructor (nbuf: nat, disk0: seq<int>)
      requires nbuf > 0
      ensures Valid() && |bufs| == nbuf && disk == disk0 && touched == {}
    {
      var empty := Buf(0, 0, false, false, 0, 0, false);
      bufs := seq(nbuf, _ => empty);
      disk := disk0;
      touched, clock := {}, nbuf;
      freed, leaving := seq(nbuf, i => i), seq(nbuf, _ => 0);
      var n1: seq<nat>, p1: seq<nat> := seq(nbuf + 1, _ => nbuf), seq(nbuf + 1, _ => nbuf);
      ghost var r := [nbuf];
      assert Ring(r, n1, p1) by { assert Linked(r, n1, p1, 0); }
      var b := 0;
      while b < nbuf
        invariant b <= nbuf && |n1| == nbuf + 1 && Ring(r, n1, p1)
        invariant |r| == b + 1 && r[0] == nbuf && forall i :: 0 < i <= b ==> r[i] == b - i
      {
        Relink(r, n1, p1, b);
        var f := n1[nbuf];
        n1, p1 := n1[b := f], p1[b := nbuf];
        p1 := p1[f := b];
        n1 := n1[nbuf := b];
        r := After(r, b);
        b := b + 1;
      }
      next, prev, ring := n1, p1, r;
    }

    // The first scan of bget: the buffer that has the block.
    method FindCached(dev: nat, blockno: nat) returns (b: nat, found: bool)
      requires Valid()
      ensures found ==> b < |bufs| && bufs[b].dev == dev && bufs[b].blockno == blockno
      ensures !found ==> forall a :: 0 <= a < |bufs| ==> !(bufs[a].dev == dev && bufs[a].blockno == blockno)
    {
      hide Ring, Unique, ByRelease, Coherent, Counted, Distinct;
      var head := |bufs|;
      InBounds(ring, next, prev, 0);
      b := next[head];
      ghost var k := Succ(0, |ring|);
      while b != head
        invariant 0 <= k < |ring| && b == ring[k]
        invariant forall i :: 0 < i < |ring| && (i < k || k == 0) ==>
            !(bufs[ring[i]].dev == dev && bufs[ring[i]].blockno == blockno)
        decreases if k == 0 then 0 else |ring| - k
      {
        InBounds(ring, next, prev, k);
        if bufs[b].dev == dev && bufs[b].blockno == blockno {
          return b, true;
        }
        b := next[b];
        k := Succ(k, |ring|);
      }
      forall a | 0 <= a < |bufs| ensures !(bufs[a].dev == dev && bufs[a].blockno == blockno) {
        var i := AllOnRing(ring, |bufs|, a);
      }
      found := false;
    }

    // The second scan, from the other end: the unused buffer released longest ago.
    method FindUnused() returns (b: nat, found: bool)
      requires Valid()
      ensures found ==> Oldest(bufs, freed, b)
      ensures !found ==> forall a :: 0 <= a < |bufs| ==> !bufs[a].Unused()
    {
      hide Ring, Unique, ByRelease, Coherent, Counted, Distinct, Oldest;
      var head := |bufs|;
      InBounds(ring, next, prev, |ring| - 1);
      b := prev[head];
      ghost var k: int := |ring| - 1;
      while b != head
        invariant 0 <= k < |ring| && b == ring[k]
        invariant forall i :: k < i < |ring| ==> !bufs[ring[i]].Unused()
        decreases k
      {
        InBounds(ring, next, prev, k - 1);
        if bufs[b].refcnt == 0 && !bufs[b].dirty {
          LastIsOldest(ring, bufs, freed, k);
          return b, true;
        }
        b := prev[b];
        k := k - 1;
      }
      forall a | 0 <= a < |bufs| ensures !bufs[a].Unused() {
        var i := AllOnRing(ring, |bufs|, a);
      }
      found := false;
    }

    // bget() under bcache.lock: the buffer that has the block, or the unused one released
    // longest ago; ok is false where it panics.
    method Bget(dev: nat, blockno: nat) returns (b: nat, ok: bool)
      requires Valid() && dev != 0
      modifies this`bufs
      ensures Valid() && |bufs| == |old(bufs)|
      ensures !ok ==> bufs == old(bufs) && forall a :: 0 <= a < |bufs| ==>
          !bufs[a].Unused() && !Has(bufs[a], dev, blockno)
      ensures ok ==> b < |bufs| && Has(bufs[b], dev, blockno)
      ensures ok ==> if Has(old(bufs)[b], dev, blockno) then bufs ==
          old(bufs)[b := old(bufs)[b].(refcnt := old(bufs)[b].refcnt + 1)]
        else Oldest(old(bufs), freed, b) && bufs == old(bufs)[b := Fresh(old(bufs)[b], dev, blockno)]
      ensures ok && !Has(old(bufs)[b], dev, blockno) ==> forall a :: 0 <= a < |bufs| ==>
          !Has(old(bufs)[a], dev, blockno)
    {
      hide Ring, Coherent, Counted, Distinct, Whole, ByRelease, Unique;
      b, ok := FindCached(dev, blockno);
      if ok {
        Referenced(ring, bufs, freed, disk, touched, leaving, b, bufs[b].(refcnt := bufs[b].refcnt + 1));
        bufs := bufs[b := bufs[b].(refcnt := bufs[b].refcnt + 1)];
        return;
      }
      b, ok := FindUnused();
      if ok {
        UnusedIsFree(bufs[b], b in touched, leaving[b], disk, dev, blockno);
        Recycled(bufs, b, dev, blockno);
        Referenced(ring, bufs, freed, disk, touched, leaving, b, Fresh(bufs[b], dev, blockno));
        bufs := bufs[b := Fresh(bufs[b], dev, blockno)];
      }
    }

    // acquiresleep() by a process that holds a reference, once the lock is free.
    method AcquireSleep(b: nat)
      requires Valid() && b < |bufs| && !bufs[b].locked && bufs[b].refcnt > leaving[b]
      modifies this`bufs
      ensures Valid() && bufs == old(bufs)[b := old(bufs)[b].(locked := true)]
    {
      hide Ring, Distinct, Whole, ByRelease, Unique;
      SameBlock(ring, bufs, freed, b, bufs[b].(locked := true));
      bufs := bufs[b := bufs[b].(locked := true)];
    }

    // iderw(): false where it panics. The buffer and the disk block agree afterwards.
    method Iderw(b: nat) returns (ok: bool)
      requires Valid() && b < |bufs| && bufs[b].locked
      modifies this`bufs, this`disk, this`touched
      ensures Valid() && |bufs| == |old(bufs)| && |disk| == |old(disk)|
      ensures ok <==>
          old(bufs)[b].dev == 1 && old(bufs)[b].blockno < |disk| && (old(bufs)[b].dirty || !old(bufs)[b].valid)
      ensures !ok ==> bufs == old(bufs) && disk == old(disk) && touched == old(touched)
      ensures ok ==>
          bufs[b].valid && !bufs[b].dirty && bufs[b].data == disk[bufs[b].blockno] && touched == old(touched) - {b}
      ensures ok ==> disk == (if old(bufs)[b].dirty then old(disk)[bufs[b].blockno := old(bufs)[b].data] else old(disk))
      ensures ok ==> bufs == old(bufs)[b := old(bufs)[b].(valid := true, dirty := false, data := bufs[b].data)]
    {
      hide Ring, Distinct, Whole, ByRelease;
      var x := bufs[b];
      if (x.valid && !x.dirty) || x.dev != 1 || x.blockno >= |disk| {
        return false;
      }
      if x.dirty {
        disk := disk[x.blockno := x.data];
        OthersCoherent(bufs, old(disk), touched, b);
      } else {
        x := x.(data := disk[x.blockno]);
      }
      x := x.(valid := true, dirty := false);
      SameBlock(ring, bufs, freed, b, x);
      assert Counted(bufs[b], leaving[b]);
      bufs := bufs[b := x];
      touched := touched - {b};
      ok := true;
    }

    /** bread(), where no one holds the block's lock: the buffer returned is locked and has the
        contents last written to the block, by whoever had it before, or those on disk. Nothing
        is written. False where bget or iderw panics. */
    method Bread(dev: nat, blockno: nat) returns (b: nat, ok: bool)
      requires Valid() && dev != 0
      requires forall a :: 0 <= a < |bufs| && Has(bufs[a], dev, blockno) ==> Free(bufs[a], leaving[a])
      modifies this`bufs, this`disk, this`touched
      ensures Valid() && |bufs| == |old(bufs)|
      ensures ok ==> b < |bufs| && Has(bufs[b], dev, blockno) && bufs[b].locked && bufs[b].valid
      ensures ok ==> bufs[b].data == Last(old(bufs), old(disk), dev, blockno)
      ensures disk == old(disk)
      ensures ok ==> forall a :: 0 <= a < |bufs| && a != b ==> bufs[a] == old(bufs)[a]
      ensures ok ==> bufs[b].dirty == (Has(old(bufs)[b], dev, blockno) && old(bufs)[b].dirty)
      ensures ok ==> bufs[b].refcnt == if Has(old(bufs)[b], dev, blockno) then old(bufs)[b].refcnt + 1 else 1
      ensures !ok ==> (dev != 1 || blockno >= |disk|) || forall a :: 0 <= a < |old(bufs)| ==> !old(bufs)[a].Unused()
    {
      hide Ring, Counted, Distinct, Whole, ByRelease;
      b, ok := Bget(dev, blockno);
      if !ok {
        return;
      }
      if !Has(old(bufs)[b], dev, blockno) {
        UnusedIsFree(old(bufs)[b], b in touched, leaving[b], disk, dev, blockno);
      }
      AcquireSleep(b);
      if !bufs[b].valid {
        ok := Iderw(b);
      }
    }

    // A process changes the contents of a buffer it has locked.
    method Modify(b: nat, data: int)
      requires Valid() && b < |bufs| && bufs[b].locked && bufs[b].valid
      modifies this`bufs, this`touched
      ensures Valid() && bufs == old(bufs)[b := old(bufs)[b].(data := data)] && touched == old(touched) + {b}
    {
      hide Ring, Distinct, Whole, ByRelease, Unique;
      SameBlock(ring, bufs, freed, b, bufs[b].(data := data));
      assert Counted(bufs[b], leaving[b]) && Coherent(bufs[b], b in touched, disk);
      bufs := bufs[b := bufs[b].(data := data)];
      touched := touched + {b};
    }

    // What log_write() does to keep a changed buffer in the cache.
    method MarkDirty(b: nat)
      requires Valid() && b < |bufs| && bufs[b].locked
      modifies this`bufs, this`touched
      ensures Valid() && bufs == old(bufs)[b := old(bufs)[b].(dirty := true)] && touched == old(touched) - {b}
    {
      hide Ring, Distinct, Whole, ByRelease, Unique;
      SameBlock(ring, bufs, freed, b, bufs[b].(dirty := true));
      assert Counted(bufs[b], leaving[b]) && Coherent(bufs[b], b in touched, disk);
      bufs := bufs[b := bufs[b].(dirty := true)];
      touched := touched - {b};
    }

    // bwrite(): false where iderw panics. The disk has the buffer's contents, read before or not.
    method Bwrite(b: nat) returns (ok: bool)
      requires Valid() && b < |bufs| && bufs[b].locked
      modifies this`bufs, this`disk, this`touched
      ensures Valid() && touched == old(touched) - {b}
      ensures ok <==> old(bufs)[b].dev == 1 && old(bufs)[b].blockno < |old(disk)|
      ensures old(bufs)[b].valid ==> ok
      ensures ok ==> disk == old(disk)[old(bufs)[b].blockno := old(bufs)[b].data]
      ensures ok ==> bufs == old(bufs)[b := old(bufs)[b].(valid := true, dirty := false)]
      ensures !ok ==> disk == old(disk) && bufs == old(bufs)[b := old(bufs)[b].(dirty := true)]
    {
      hide Ring, Distinct, Whole, ByRelease, Unique;
      assert Coherent(bufs[b], b in touched, disk);
      MarkDirty(b);
      ok := Iderw(b);
    }

    // The first half of brelse(): what was changed must have been written or marked dirty.
    method ReleaseSleep(b: nat)
      requires Valid() && b < |bufs| && bufs[b].locked && b !in touched
      modifies this`bufs, this`leaving
      ensures Valid() && bufs == old(bufs)[b := old(bufs)[b].(locked := false)] &&
          leaving == old(leaving)[b := old(leaving)[b] + 1]
    {
      hide Ring, Distinct, Whole, ByRelease, Unique;
      SameBlock(ring, bufs, freed, b, bufs[b].(locked := false));
      assert Counted(bufs[b], leaving[b]) && Coherent(bufs[b], b in touched, disk);
      bufs := bufs[b := bufs[b].(locked := false)];
      leaving := leaving[b := leaving[b] + 1];
    }

    // The relinking in brelse().
    method MoveToHead(b: nat, ghost k: nat)
      requires bufs != [] && |next| == |bufs| + 1 == |prev| && Whole(ring, |bufs|) && Ring(ring, next, prev)
      requires 0 < k <= |bufs| && k < |ring| && ring[k] == b && b < |bufs|
      modifies this`next, this`prev, this`ring
      ensures |next| == |bufs| + 1 == |prev| && Ring(ring, next, prev) && Whole(ring, |bufs|)
      ensures ring == After(Without(old(ring), k), b) && |ring| > 1 && ring[1] == b
    {
      hide Ring, Distinct, Whole;
      var head := |bufs|;
      MovedWhole(ring, |bufs|, k);
      Unlink(ring, next, prev, k);
      var n, p := next[b], prev[b];
      prev := prev[n := p];
      next := next[p := n];
      Relink(Without(ring, k), next, prev, b);
      var f := next[head];
      next := next[b := f];
      prev := prev[b := head];
      prev := prev[f := b];
      next := next[head := b];
      ring := After(Without(ring, k), b);
    }

    // The second half, under bcache.lock: the last one out moves the buffer to the head.
    method Drop(b: nat)
      requires Valid() && b < |bufs| && leaving[b] > 0
      modifies this`bufs, this`leaving, this`next, this`prev, this`ring, this`freed, this`clock
      ensures Valid() && old(bufs)[b].refcnt > 0
      ensures bufs == old(bufs)[b := old(bufs)[b].(refcnt := old(bufs)[b].refcnt - 1)]
      ensures leaving == old(leaving)[b := old(leaving)[b] - 1]
      ensures bufs[b].refcnt == 0 ==> ring[1] == b
      ensures bufs[b].refcnt > 0 ==> ring == old(ring) && freed == old(freed) && clock == old(clock)
      ensures bufs[b].refcnt == 0 ==> freed == old(freed)[b := old(clock)] && clock == old(clock) + 1
    {
      hide Ring, Distinct, Whole, ByRelease, Unique;
      assert Counted(bufs[b], leaving[b]) && Coherent(bufs[b], b in touched, disk);
      var x := bufs[b].(refcnt := bufs[b].refcnt - 1);
      leaving := leaving[b := leaving[b] - 1];
      SameAddress(bufs, b, x);
      if x.refcnt > 0 {
        SameBlock(ring, bufs, freed, b, x);
        bufs := bufs[b := x];
      } else {
        ghost var k := AllOnRing(ring, |bufs|, b);
        MovedByRelease(ring, bufs, freed, clock, k, x);
        MoveToHead(b, k);
        bufs := bufs[b := x];
        freed := freed[b := clock];
        clock := clock + 1;
      }
    }
  }

  // A buffer that keeps its block and is referenced, or keeps its count.
  lemma SameBlock(ring: seq<nat>, bufs: seq<Buf>, freed: seq<nat>, b: nat, x: Buf)
    requires |freed| == |bufs| && b < |bufs| && Whole(ring, |bufs|) && ByRelease(ring, bufs, freed) && Unique(bufs)
    requires x.dev == bufs[b].dev && x.blockno == bufs[b].blockno && (x.refcnt == 0 ==> bufs[b].refcnt == 0)
    ensures ByRelease(ring, bufs[b := x], freed) && Unique(bufs[b := x])
  {
  }

  lemma SameAddress(bufs: seq<Buf>, b: nat, x: Buf)
    requires b < |bufs| && Unique(bufs) && x.dev == bufs[b].dev && x.blockno == bufs[b].blockno
    ensures Unique(bufs[b := x])
  {
  }

  // Writing a block to disk concerns no other buffer: no other has that block.
  lemma OthersCoherent(bufs: seq<Buf>, disk: seq<int>, touched: set<nat>, b: nat)
    requires Unique(bufs) && b < |bufs| && bufs[b].dev == 1 && bufs[b].blockno < |disk|
    requires forall a :: 0 <= a < |bufs| ==> Coherent(bufs[a], a in touched, disk)
    ensures forall a :: 0 <= a < |bufs| && a != b ==> Coherent(bufs[a], a in touched,
        disk[bufs[b].blockno := bufs[b].data])
  {
    forall a | 0 <= a < |bufs| && a != b
        ensures Coherent(bufs[a], a in touched, disk[bufs[b].blockno := bufs[b].data]) {
      assert Coherent(bufs[a], a in touched, disk);
      if bufs[a].valid { assert bufs[a].blockno != bufs[b].blockno; }
    }
  }

  // Buffer ring[k] moved behind the head: still a ring of all.
  lemma MovedWhole(ring: seq<nat>, n: nat, k: nat)
    requires Whole(ring, n) && 0 < k <= n
    ensures Without(ring, k) != [] && Without(ring, k)[0] == n && ring[k] !in Without(ring, k)
    ensures Whole(After(Without(ring, k), ring[k]), n) && After(Without(ring, k), ring[k])[1] == ring[k]
  {
    WithoutAt(ring, k);
    AfterAt(Without(ring, k), ring[k]);
  }

  lemma MovedByRelease(ring: seq<nat>, bufs: seq<Buf>, freed: seq<nat>, clock: nat, k: nat, x: Buf)
    requires |freed| == |bufs| && Whole(ring, |bufs|) && ByRelease(ring, bufs, freed) && 0 < k < |ring|
    requires forall b :: 0 <= b < |bufs| ==> freed[b] < clock
    ensures ring[k] < |bufs| && Whole(After(Without(ring, k), ring[k]), |bufs|)
    ensures ByRelease(After(Without(ring, k), ring[k]), bufs[ring[k] := x], freed[ring[k] := clock])
  {
    hide Without, After;
    MovedWhole(ring, |bufs|, k);
    WithoutAt(ring, k);
    AfterAt(Without(ring, k), ring[k]);
    var b := ring[k];
    var r2, u, f2 := After(Without(ring, k), b), bufs[b := x], freed[b := clock];
    forall i, j | 0 < i < j < |r2| && u[r2[i]].refcnt == 0 && u[r2[j]].refcnt == 0 ensures f2[r2[i]] > f2[r2[j]] {
      var j1 := if j - 1 < k then j - 1 else j;
      assert r2[j] == ring[j1] && ring[j1] != b;
      if i > 1 {
        var i1 := if i - 1 < k then i - 1 else i;
        assert r2[i] == ring[i1] && ring[i1] != b;
      }
    }
  }

  predicate Has(b: Buf, dev: nat, blockno: nat) { b.dev == dev && b.blockno == blockno }

  // What recycling leaves of a buffer.
  function Fresh(b: Buf, dev: nat, blockno: nat): Buf { Buf(dev, blockno, false, false, 1, b.data, b.locked) }

  // An unused buffer is not locked, nor is anyone changing it.
  lemma UnusedIsFree(b: Buf, touched: bool, leaving: nat, disk: seq<int>, dev: nat, blockno: nat)
    requires b.Unused() && Coherent(b, touched, disk) && Counted(b, leaving)
    ensures !b.locked && !touched && leaving == 0
    ensures Coherent(Fresh(b, dev, blockno), touched, disk) && Counted(Fresh(b, dev, blockno), leaving)
  {
  }

  lemma Recycled(bufs: seq<Buf>, b: nat, dev: nat, blockno: nat)
    requires Unique(bufs) && b < |bufs| && forall a :: 0 <= a < |bufs| ==> !Has(bufs[a], dev, blockno)
    ensures Unique(bufs[b := Fresh(bufs[b], dev, blockno)])
  {
    assert forall a :: 0 <= a < |bufs| ==> !Has(bufs[a], dev, blockno);
  }

  // A buffer is given references: nothing else of the invariant is touched.
  lemma Referenced(ring: seq<nat>, bufs: seq<Buf>, freed: seq<nat>, disk: seq<int>, touched: set<nat>,
      leaving: seq<nat>, b: nat, x: Buf)
    requires |freed| == |bufs| == |leaving| && b < |bufs| && x.refcnt > 0 && Whole(ring, |bufs|) &&
        ByRelease(ring, bufs, freed)
    requires (forall a :: 0 <= a < |bufs| ==> Coherent(bufs[a], a in touched, disk)) &&
        (forall a :: 0 <= a < |bufs| ==> Counted(bufs[a], leaving[a]))
    requires (x == bufs[b].(refcnt := bufs[b].refcnt + 1) && Unique(bufs)) ||
        (Unique(bufs[b := x]) && Coherent(x, b in touched, disk) && Counted(x, leaving[b]))
    ensures var u := bufs[b := x];
      && ByRelease(ring, u, freed) && Unique(u)
      && (forall a :: 0 <= a < |u| ==> Coherent(u[a], a in touched, disk)) &&
          (forall a :: 0 <= a < |u| ==> Counted(u[a], leaving[a]))
  {
    assert Counted(bufs[b], leaving[b]) && Coherent(bufs[b], b in touched, disk);
  }

  // b is unused, and every other unused buffer was released after it.
  predicate Oldest(bufs: seq<Buf>, freed: seq<nat>, b: nat)
    requires |freed| == |bufs|
  {
    b < |bufs| && bufs[b].Unused() && forall a :: 0 <= a < |bufs| && a != b && bufs[a].Unused() ==> freed[a] > freed[b]
  }

  lemma LastIsOldest(ring: seq<nat>, bufs: seq<Buf>, freed: seq<nat>, k: nat)
    requires |freed| == |bufs| && Whole(ring, |bufs|) && ByRelease(ring, bufs, freed) && 0 < k < |ring| &&
        bufs[ring[k]].Unused()
    requires forall i :: k < i < |ring| ==> !bufs[ring[i]].Unused()
    ensures Oldest(bufs, freed, ring[k])
  {
    forall a | 0 <= a < |bufs| && a != ring[k] && bufs[a].Unused() ensures freed[a] > freed[ring[k]] {
      var i := AllOnRing(ring, |bufs|, a);
    }
  }
}
