// The cached disk during the three phases of a commit, and one lemma per block write.
// Both the log object (LogDevice) and the whole-run machine (LogRuns) are built on these.
module LogCache {
  import opened LogFormat

  // A cached block: its bytes and B_DIRTY. A block absent from the cache is read from disk.
  datatype Buf = Buf(data: Block, dirty: bool)

  type Cache = map<int, Buf>

  // The bytes bread returns.
  function View(disk: Disk, cache: Cache, b: int): Block
    requires 0 <= b < |disk|
  {
    if b in cache then cache[b].data else disk[b]
  }

  // bwrite stores the block and clears B_DIRTY.
  function Stored(cache: Cache, b: int, data: Block): Cache {
    cache[b := Buf(data, false)]
  }

  function Merged(disk: Disk, cache: Cache): (r: Disk)
    ensures |r| == |disk|
    ensures forall b :: 0 <= b < |disk| ==> r[b] == View(disk, cache, b)
  {
    seq(|disk|, b requires 0 <= b < |disk| => View(disk, cache, b))
  }

  ghost predicate Dirty(cache: Cache, b: int) {
    b in cache && cache[b].dirty
  }

  ghost predicate Coherent(disk: Disk, cache: Cache, L: Layout) {
    && ValidDisk(disk, L)
    && (forall b :: b in cache ==> 0 <= b < |disk| && |cache[b].data| == WORDS)
    && (forall b :: b in cache && !cache[b].dirty ==> cache[b].data == disk[b])
  }

  // The file system sees image m outside the log.
  ghost predicate Shows(m: Disk, disk: Disk, cache: Cache, L: Layout)
    requires Coherent(disk, cache, L)
  {
    |m| == L.total && forall b :: L.IsHome(b) ==> View(disk, cache, b) == m[b]
  }

  // Operations may run: the on-disk header is clear, exactly the logged blocks are pinned.
  ghost predicate Quiet(disk: Disk, cache: Cache, bs: seq<int>, L: Layout) {
    && Coherent(disk, cache, L)
    && GoodDisk(disk, L)
    && HeaderList(disk[L.start]) == []
    && ValidList(bs, L)
    && (forall b :: Dirty(cache, b) <==> b in bs)
  }

  // write_log has copied the first k pinned blocks of image m to their slots.
  ghost predicate Logging(m: Disk, disk: Disk, cache: Cache, bs: seq<int>, k: nat, L: Layout) {
    && Quiet(disk, cache, bs, L)
    && Shows(m, disk, cache, L)
    && k <= |bs|
    && (forall j :: 0 <= j < k ==> disk[L.start + j + 1] == m[bs[j]])
  }

  // The header names bs on disk; install_trans has copied the first k slots home.
  ghost predicate Installing(m: Disk, disk: Disk, cache: Cache, bs: seq<int>, k: nat, L: Layout) {
    && Coherent(disk, cache, L)
    && GoodDisk(disk, L)
    && HeaderList(disk[L.start]) == bs
    && ValidList(bs, L)
    && |m| == L.total
    && k <= |bs|
    && (forall j :: 0 <= j < |bs| ==> disk[L.start + j + 1] == m[bs[j]])
    && (forall j :: 0 <= j < k ==> disk[bs[j]] == m[bs[j]])
    && (forall b :: L.IsHome(b) && b !in bs ==> disk[b] == m[b])
    && (forall b :: Dirty(cache, b) ==> b in bs[k..])
  }

  // bread: the block is cached clean if it was not there.
  function Fetched(disk: Disk, cache: Cache, b: int): Cache
    requires 0 <= b < |disk|
  {
    cache[b := Buf(View(disk, cache, b), b in cache && cache[b].dirty)]
  }

  // Reading a block into the cache changes nothing that matters.
  lemma FetchedSame(disk: Disk, cache: Cache, b: int, L: Layout)
    requires Coherent(disk, cache, L) && 0 <= b < |disk|
    ensures Coherent(disk, Fetched(disk, cache, b), L)
    ensures forall x :: 0 <= x < |disk| ==> View(disk, Fetched(disk, cache, b), x) == View(disk, cache, x)
    ensures forall x :: Dirty(Fetched(disk, cache, b), x) <==> Dirty(cache, x)
  {
  }

  // What copying to the log rests on, and where its next block goes.
  lemma LoggingParts(m: Disk, disk: Disk, cache: Cache, bs: seq<int>, k: nat, L: Layout)
    requires Logging(m, disk, cache, bs, k, L)
    ensures Coherent(disk, cache, L) && GoodDisk(disk, L) && |bs| <= LOGSIZE
    ensures k < |bs| ==> 0 <= L.start + k + 1 < |disk| && 0 <= bs[k] < |disk|
  {
    if k < |bs| {
      assert L.InLog(L.start + k + 1) && L.IsHome(bs[k]);
    }
  }

  lemma LoggingFetched(m: Disk, disk: Disk, cache: Cache, bs: seq<int>, k: nat, b: int, L: Layout)
    requires Logging(m, disk, cache, bs, k, L) && 0 <= b < |disk|
    ensures Logging(m, disk, Fetched(disk, cache, b), bs, k, L)
  {
    FetchedSame(disk, cache, b, L);
  }

  lemma InstallingFetched(m: Disk, disk: Disk, cache: Cache, bs: seq<int>, k: nat, b: int, L: Layout)
    requires Installing(m, disk, cache, bs, k, L) && 0 <= b < |disk|
    ensures Installing(m, disk, Fetched(disk, cache, b), bs, k, L)
  {
    FetchedSame(disk, cache, b, L);
  }

  // Recycling a clean buffer changes nothing either.
  lemma EvictClean(disk: Disk, cache: Cache, b: int, L: Layout)
    requires Coherent(disk, cache, L) && b in cache && !cache[b].dirty
    ensures Coherent(disk, cache - {b}, L)
    ensures forall x :: 0 <= x < |disk| ==> View(disk, cache - {b}, x) == View(disk, cache, x)
    ensures forall x :: Dirty(cache - {b}, x) <==> Dirty(cache, x)
  {
  }

  lemma LoggingEvicted(m: Disk, disk: Disk, cache: Cache, bs: seq<int>, k: nat, b: int, L: Layout)
    requires Logging(m, disk, cache, bs, k, L) && b in cache && !cache[b].dirty
    ensures Logging(m, disk, cache - {b}, bs, k, L)
  {
    EvictClean(disk, cache, b, L);
  }

  lemma InstallingEvicted(m: Disk, disk: Disk, cache: Cache, bs: seq<int>, k: nat, b: int, L: Layout)
    requires Installing(m, disk, cache, bs, k, L) && b in cache && !cache[b].dirty
    ensures Installing(m, disk, cache - {b}, bs, k, L)
  {
    EvictClean(disk, cache, b, L);
  }

  lemma LogStep(m: Disk, disk: Disk, cache: Cache, bs: seq<int>, k: nat, L: Layout)
    requires Logging(m, disk, cache, bs, k, L) && k < |bs|
    ensures var b, data := L.start + k + 1, View(disk, cache, bs[k]);
            && Logging(m, disk[b := data], Stored(cache, b, data), bs, k + 1, L)
            && SameHome(disk[b := data], disk, L)
            && SameHome(Recovered(disk[b := data], L), disk, L)
  {
    var b, data := L.start + k + 1, View(disk, cache, bs[k]);
    assert L.InLog(b);
    assert L.IsHome(bs[k]);
    RecoverEmpty(disk[b := data], L);
  }

  // write_head is the commit point.
  lemma HeadStep(m: Disk, disk: Disk, cache: Cache, bs: seq<int>, L: Layout)
    requires Logging(m, disk, cache, bs, |bs|, L)
    ensures |View(disk, cache, L.start)| == WORDS
    ensures var h := PutHeader(View(disk, cache, L.start), bs);
            Installing(m, disk[L.start := h], Stored(cache, L.start, h), bs, 0, L)
  {
    assert L.InLog(L.start);
    assert bs[0..] == bs;
    var h := PutHeader(View(disk, cache, L.start), bs);
    forall j | 0 <= j < |bs|
      ensures disk[L.start := h][L.start + j + 1] == m[bs[j]]
    {
    }
  }

  lemma InstallStep(m: Disk, disk: Disk, cache: Cache, bs: seq<int>, k: nat, L: Layout)
    requires Installing(m, disk, cache, bs, k, L) && k < |bs|
    ensures var data := View(disk, cache, L.start + k + 1);
            && data == m[bs[k]]
            && Installing(m, disk[bs[k] := data], Stored(cache, bs[k], data), bs, k + 1, L)
  {
    assert L.InLog(L.start + k + 1);
    assert L.IsHome(bs[k]);
    SlotIsClean(m, disk, cache, bs, k, L);
    var d := disk[bs[k] := m[bs[k]]];
    forall j | 0 <= j < |bs|
      ensures d[L.start + j + 1] == m[bs[j]]
    {
      assert L.InLog(L.start + j + 1);
    }
    assert L.InLog(L.start);
    forall b | Dirty(Stored(cache, bs[k], m[bs[k]]), b)
      ensures b in bs[k + 1..]
    {
      assert Dirty(cache, b);
      var i :| 0 <= i < |bs[k..]| && bs[k..][i] == b;
      assert i != 0 && bs[k + 1..][i - 1] == b;
    }
  }

  lemma SlotIsClean(m: Disk, disk: Disk, cache: Cache, bs: seq<int>, k: nat, L: Layout)
    requires Installing(m, disk, cache, bs, k, L) && k < |bs|
    ensures View(disk, cache, L.start + k + 1) == m[bs[k]]
  {
    var slot := L.start + k + 1;
    assert L.InLog(slot);
    assert !L.IsHome(slot);
    assert slot !in bs[k..];
  }

  // The erasing write_head, with log.lh.n already 0.
  lemma EraseStep(m: Disk, disk: Disk, cache: Cache, bs: seq<int>, L: Layout)
    requires Installing(m, disk, cache, bs, |bs|, L)
    ensures |View(disk, cache, L.start)| == WORDS
    ensures var h := PutHeader(View(disk, cache, L.start), []);
            && Quiet(disk[L.start := h], Stored(cache, L.start, h), [], L)
            && Shows(m, disk[L.start := h], Stored(cache, L.start, h), L)
            && SameHome(disk[L.start := h], m, L)
            && SameHome(Recovered(disk[L.start := h], L), m, L)
  {
    var h := PutHeader(View(disk, cache, L.start), []);
    assert L.InLog(L.start);
    assert bs[|bs|..] == [];
    assert forall b :: !Dirty(cache, b);
    forall b | L.IsHome(b)
      ensures disk[b] == m[b] && View(disk, cache, b) == m[b]
    {
      assert !Dirty(cache, b);
      if b in bs {
        var j :| 0 <= j < |bs| && bs[j] == b;
      }
    }
    RecoverEmpty(disk[L.start := h], L);
  }

  lemma NothingLogged(disk: Disk, cache: Cache, L: Layout)
    requires Quiet(disk, cache, [], L)
    ensures SameHome(disk, Merged(disk, cache), L)
  {
    assert forall b :: !Dirty(cache, b);
    forall b | L.IsHome(b)
      ensures View(disk, cache, b) == disk[b]
    {
      assert !Dirty(cache, b);
    }
  }

  // Whatever was installed when the power failed, recovery installs the rest.
  lemma CrashWhileInstalling(m: Disk, disk: Disk, cache: Cache, bs: seq<int>, k: nat, L: Layout)
    requires Installing(m, disk, cache, bs, k, L)
    ensures GoodDisk(disk, L) && SameHome(Recovered(disk, L), m, L)
  {
    RecoverIff(disk, m, L);
  }

  // recover_from_log starts installing with an empty cache.
  lemma RecoveryStarts(disk: Disk, cache: Cache, L: Layout)
    requires GoodDisk(disk, L) && Coherent(disk, cache, L) && forall b :: !Dirty(cache, b)
    ensures Installing(Recovered(disk, L), disk, cache, HeaderList(disk[L.start]), 0, L)
  {
    RecoveredAt(disk, L);
  }

  // log_write: pin the block and name it once (absorption).
  function Absorb(bs: seq<int>, b: int): seq<int> {
    if b in bs then bs else bs + [b]
  }

  lemma LogWriteStep(m: Disk, disk: Disk, cache: Cache, bs: seq<int>, b: int, data: Block, L: Layout)
    requires Quiet(disk, cache, bs, L) && Shows(m, disk, cache, L)
    requires L.IsHome(b) && |data| == WORDS && |bs| < LOGSIZE && |bs| < L.size - 1
    ensures Quiet(disk, cache[b := Buf(data, true)], Absorb(bs, b), L)
    ensures Shows(m[b := data], disk, cache[b := Buf(data, true)], L)
  {
  }
}
