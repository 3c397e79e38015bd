// The log of xv6-x86/log.c over the NBUF buffers of xv6-x86/bio.c: committing reads a block
// for which bget must find a buffer while every listed block is pinned in one.
module LogBuffers {
  import opened LogFormat
  import opened LogCache
  import opened LogReserve
  import opened LogRuns
  import BufCache

  const NBUF := 30

  // The block that the next step of write_log, install_trans or write_head reads first.
  function Wanted(s: State, L: Layout): int {
    match s.phase
    case Copying(k) => if k < |s.bs| then L.start + k + 1 else L.start
    case Homing(k) => if k < |s.bs| then L.start + k + 1 else L.start
    case _ => L.start
  }

  // bget finds no buffer for it: each of nbuf holds a dirty block, and none holds this one.
  ghost predicate Stuck(s: State, L: Layout, nbuf: nat) {
    && (s.phase.Copying? || s.phase.Homing?)
    && Wanted(s, L) !in s.cache && |s.cache| == nbuf && forall b :: b in s.cache ==> s.cache[b].dirty
  }

  // ---- buffers and cached blocks

  // The valid buffers hold the cached blocks, and between operations nobody refers to one.
  ghost predicate Holds(bufs: seq<BufCache.Buf>, cache: Cache) {
    && BufCache.Unique(bufs)
    && (forall a :: 0 <= a < |bufs| ==> bufs[a].refcnt == 0 && (bufs[a].dirty ==> bufs[a].valid))
    && (forall a :: 0 <= a < |bufs| && bufs[a].valid ==>
          bufs[a].dev == 1 && bufs[a].blockno in cache && cache[bufs[a].blockno].dirty == bufs[a].dirty)
    && (forall b :: b in cache ==> exists a :: 0 <= a < |bufs| && bufs[a].valid && bufs[a].blockno == b)
  }

  // The blocks in the first n buffers.
  ghost function BlocksIn(bufs: seq<BufCache.Buf>, n: nat): set<int>
    requires n <= |bufs|
  {
    set a | 0 <= a < n && bufs[a].valid :: bufs[a].blockno
  }

  lemma {:induction false} BlocksCounted(bufs: seq<BufCache.Buf>, n: nat)
    requires n <= |bufs| && BufCache.Unique(bufs)
    requires forall a :: 0 <= a < |bufs| && bufs[a].valid ==> bufs[a].dev == 1
    ensures |BlocksIn(bufs, n)| <= n
    ensures |BlocksIn(bufs, n)| == n <==> forall a :: 0 <= a < n ==> bufs[a].valid
    decreases n
  {
    hide BlocksIn, BufCache.Unique;
    BlocksNext(bufs, n);
    if n > 0 {
      BlocksCounted(bufs, n - 1);
    }
  }

  lemma BlocksNext(bufs: seq<BufCache.Buf>, n: nat)
    requires n <= |bufs| && BufCache.Unique(bufs)
    requires forall a :: 0 <= a < |bufs| && bufs[a].valid ==> bufs[a].dev == 1
    ensures n == 0 ==> BlocksIn(bufs, n) == {}
    ensures n > 0 ==> var b := bufs[n - 1];
      BlocksIn(bufs, n) == BlocksIn(bufs, n - 1) + (if b.valid then {b.blockno} else {})
      && (b.valid ==> b.blockno !in BlocksIn(bufs, n - 1))
  {
  }

  /** bget finds no buffer to recycle exactly if as many dirty blocks are cached as there are
      buffers. */
  lemma NoBufferIff(bufs: seq<BufCache.Buf>, cache: Cache)
    requires Holds(bufs, cache)
    ensures (forall a :: 0 <= a < |bufs| ==> !bufs[a].Unused())
            <==> |cache| == |bufs| && forall b :: b in cache ==> cache[b].dirty
  {
    BlocksCounted(bufs, |bufs|);
    forall b | b in cache.Keys
      ensures b in BlocksIn(bufs, |bufs|)
    {
      var a :| 0 <= a < |bufs| && bufs[a].valid && bufs[a].blockno == b;
    }
    assert BlocksIn(bufs, |bufs|) == cache.Keys;
    assert |cache| == |cache.Keys|;
    if forall a :: 0 <= a < |bufs| ==> !bufs[a].Unused() {
      assert forall a :: 0 <= a < |bufs| ==> bufs[a].dirty && bufs[a].valid;
    }
  }

  // ---- when a commit is stuck

  /** In a state that can be reached with nbuf buffers, write_log is stuck if and only if as
      many blocks are listed as there are buffers. */
  lemma StuckIff(s: State, L: Layout, image: Disk, nbuf: nat)
    requires Reaches(s, L, image, nbuf) && s.phase.Copying?
    ensures Stuck(s, L, nbuf) <==> |s.bs| == nbuf
    ensures |s.bs| <= nbuf
  {
    hide Reaches, Recovered, Durable, GroupsWhole, Shows, SameHome;
    ReachInv(s, L, image, nbuf);
    PinnedAre(s.disk, s.cache, s.bs, L);
    assert |s.cache| == |s.cache.Keys|;
    SubsetCount(Elements(s.bs), s.cache.Keys);
    WantedIsLog(s, L);
    if |s.bs| == nbuf {
      SameCount(Elements(s.bs), s.cache.Keys);
      assert forall b :: b in s.cache.Keys <==> b in s.bs;
    }
    if Stuck(s, L, nbuf) {
      forall b | b in s.cache.Keys
        ensures b in Elements(s.bs)
      {
        assert s.cache[b].dirty;
      }
      SubsetCount(s.cache.Keys, Elements(s.bs));
    }
  }

  lemma WantedIsLog(s: State, L: Layout)
    requires ValidList(s.bs, L)
    ensures Wanted(s, L) !in s.bs
  {
  }

  // The listed blocks are cached and dirty, and no others are dirty.
  lemma PinnedAre(disk: Disk, cache: Cache, bs: seq<int>, L: Layout)
    requires Quiet(disk, cache, bs, L)
    ensures Elements(bs) <= cache.Keys && |Elements(bs)| == |bs| && ValidList(bs, L)
    ensures forall b :: b in cache ==> (cache[b].dirty <==> b in bs)
  {
    SetOfSeq(bs);
    forall b | b in bs
      ensures b in cache.Keys
    {
      assert Dirty(cache, b);
    }
    forall b | b in cache
      ensures cache[b].dirty <==> b in bs
    {
      assert Dirty(cache, b) <==> b in bs;
    }
  }

  lemma SubsetCount(a: set<int>, b: set<int>)
    requires a <= b
    ensures |a| <= |b|
  {
    assert b == a + (b - a);
  }

  lemma SameCount(a: set<int>, b: set<int>)
    requires a <= b && |b| <= |a|
    ensures a == b
  {
    assert b == a + (b - a);
  }

  lemma NeverStuck(s: State, L: Layout, image: Disk, nbuf: nat)
    requires Reaches(s, L, image, nbuf) && LOGSIZE < nbuf
    ensures !Stuck(s, L, nbuf)
  {
    hide Reaches, Recovered, Durable, GroupsWhole, Shows, SameHome;
    if s.phase.Copying? {
      StuckIff(s, L, image, nbuf);
      ReachInv(s, L, image, nbuf);
    } else if s.phase.Homing? && Stuck(s, L, nbuf) {
      ReachInv(s, L, image, nbuf);
      assert |s.cache| == |s.cache.Keys|;
      forall b | b in s.cache.Keys
        ensures b in Elements(s.bs)
      {
        assert Dirty(s.cache, b);
      }
      SetOfSeq(s.bs);
      SubsetCount(s.cache.Keys, Elements(s.bs));
    }
  }

  // One of the open operations leaves, but not the last.
  lemma ReachEnd(L: Layout, image: Disk, nbuf: nat, s: State, op: nat) returns (t: State)
    requires Reaches(s, L, image, nbuf) && s.phase == Running && op in s.h.active && s.bs != []
    ensures Reaches(t, L, image, nbuf) && t.bs == s.bs && t.h.active == s.h.active - {op}
    ensures t.phase == if t.h.active == map[] then Copying(0) else Running
  {
    hide Reaches;
    ReachInv(s, L, image, nbuf);
    var h := s.h.(active := s.h.active - {op}, ended := s.h.ended + {op});
    t := if h.active != map[] then s.(h := h) else s.(h := h, phase := Copying(0));
    ReachNext(s, End(op), t, L, image, nbuf);
  }

  // A commit of k blocks.
  lemma ReachCommit(L: Layout, image: Disk, nbuf: nat, homes: seq<int>, k: nat) returns (s: State)
    requires GoodDisk(image, L) && HeaderList(image[L.start]) == []
    requires NoDup(homes) && forall i :: 0 <= i < |homes| ==> L.IsHome(homes[i])
    requires 0 < k <= |homes| && k <= L.size - 1 && k <= LOGSIZE && k <= nbuf
    ensures Reaches(s, L, image, nbuf) && s.phase == Copying(0) && |s.bs| == k
  {
    hide Reaches, Filled;
    s := ReachFilled(L, image, nbuf, homes, k);
    FilledSize(s, homes, k);
    FilledRunning(s, homes, k);
    assert 0 in s.h.active && 1 in s.h.active && 2 in s.h.active;
    s := ReachEnd(L, image, nbuf, s, 0);
    assert 1 in s.h.active && 2 in s.h.active;
    s := ReachEnd(L, image, nbuf, s, 1);
    assert 2 in s.h.active;
    s := ReachEnd(L, image, nbuf, s, 2);
    assert s.h.active.Keys == {};
  }

  /** Within their allowance operations never make log_write panic, and never make a commit
      stuck, if and only if the log has more than LOGSIZE blocks and there are more than LOGSIZE
      buffers. */
  lemma SafeIff(L: Layout, image: Disk, nbuf: nat, homes: seq<int>)
    requires GoodDisk(image, L) && HeaderList(image[L.start]) == [] && nbuf > 0
    requires |homes| == LOGSIZE && NoDup(homes) && forall i :: 0 <= i < |homes| ==> L.IsHome(homes[i])
    ensures (forall s :: Reaches(s, L, image, nbuf) ==> !CanPanic(s, L) && !Stuck(s, L, nbuf))
            <==> LOGSIZE < L.size && LOGSIZE < nbuf
  {
    hide Reaches, Filled, Promised, Inv, Stuck, CanPanic;
    if LOGSIZE < L.size && LOGSIZE < nbuf {
      forall s | Reaches(s, L, image, nbuf)
        ensures !CanPanic(s, L) && !Stuck(s, L, nbuf)
      {
        ReachInv(s, L, image, nbuf);
        FitsWithRoom(s, L);
        NeverStuck(s, L, image, nbuf);
      }
    } else {
      var s := Unsafe(L, image, nbuf, homes);
    }
  }

  // A state that shows it: where the buffers are too few, a commit of as many blocks.
  lemma Unsafe(L: Layout, image: Disk, nbuf: nat, homes: seq<int>) returns (s: State)
    requires GoodDisk(image, L) && HeaderList(image[L.start]) == [] && nbuf > 0
    requires |homes| == LOGSIZE && NoDup(homes) && forall i :: 0 <= i < |homes| ==> L.IsHome(homes[i])
    requires L.size <= LOGSIZE || nbuf <= LOGSIZE
    ensures Reaches(s, L, image, nbuf)
    ensures if nbuf < L.size then Stuck(s, L, nbuf) else CanPanic(s, L)
  {
    hide Reaches, Filled, Promised, Inv;
    if nbuf < L.size {
      s := ReachCommit(L, image, nbuf, homes, nbuf);
      StuckIff(s, L, image, nbuf);
    } else {
      var k := L.size - 1;
      s := ReachFilled(L, image, nbuf, homes, k);
      FilledSize(s, homes, k);
      FilledRunning(s, homes, k);
      assert k / MAXOPBLOCKS in s.h.active;
    }
  }

  /** With the NBUF buffers of the source no length of the log is safe: up to LOGSIZE blocks
      log_write panics, and beyond that bget panics in write_log. */
  lemma NeverSafe(L: Layout, image: Disk, homes: seq<int>)
    requires GoodDisk(image, L) && HeaderList(image[L.start]) == []
    requires |homes| == LOGSIZE && NoDup(homes) && forall i :: 0 <= i < |homes| ==> L.IsHome(homes[i])
    ensures exists s :: Reaches(s, L, image, NBUF) && if NBUF < L.size then Stuck(s, L, NBUF) else CanPanic(s, L)
  {
    hide Reaches, Stuck, CanPanic;
    var s := Unsafe(L, image, NBUF, homes);
  }
}
