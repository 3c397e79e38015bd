// The on-disk redo log of xv6-x86/log.c: the header block, the slots that follow it,
// and what recovery makes of a disk image.
module LogFormat {

  const MAXOPBLOCKS := 10
  const LOGSIZE := 30
  // 32-bit words in one 512-byte block
  const WORDS := 128

  type Block = seq<int>
  type Disk = seq<Block>

  // log.start, log.size and the number of blocks of the device
  datatype Layout = Layout(start: nat, size: nat, total: nat) {
    ghost predicate Valid() {
      1 <= size && start + size <= total
    }

    // The header and the log blocks. Everything else is a home block.
    predicate InLog(b: int) {
      start <= b < start + size
    }

    predicate IsHome(b: int) {
      0 <= b < total && !InLog(b)
    }
  }

  ghost predicate ValidDisk(d: Disk, L: Layout) {
    L.Valid() && |d| == L.total && forall b :: 0 <= b < |d| ==> |d[b]| == WORDS
  }

  ghost predicate NoDup(bs: seq<int>) {
    forall i, j :: 0 <= i < j < |bs| ==> bs[i] != bs[j]
  }

  // A list of home blocks that the in-memory and the on-disk header may hold.
  ghost predicate ValidList(bs: seq<int>, L: Layout) {
    && |bs| <= LOGSIZE
    && |bs| <= L.size - 1
    && NoDup(bs)
    && forall i :: 0 <= i < |bs| ==> L.IsHome(bs[i])
  }

  // Struct logheader laid over a block: word 0 is n, then block[0..n).
  ghost predicate HasHeader(h: Block) {
    |h| == WORDS && 0 <= h[0] <= LOGSIZE
  }

  function HeaderList(h: Block): (bs: seq<int>)
    requires HasHeader(h)
    ensures |bs| == h[0]
  {
    h[1..1 + h[0]]
  }

  // write_head leaves the words after block[n-1] as they were.
  function PutHeader(h: Block, bs: seq<int>): (r: Block)
    requires |h| == WORDS && |bs| <= LOGSIZE
    ensures HasHeader(r) && HeaderList(r) == bs
  {
    [|bs|] + bs + h[1 + |bs|..]
  }

  ghost predicate GoodDisk(d: Disk, L: Layout) {
    ValidDisk(d, L) && HasHeader(d[L.start]) && ValidList(HeaderList(d[L.start]), L)
  }

  function WriteHeader(d: Disk, L: Layout, bs: seq<int>): Disk
    requires ValidDisk(d, L) && |bs| <= LOGSIZE
  {
    d[L.start := PutHeader(d[L.start], bs)]
  }

  // The disk after install_trans has copied the first k log slots home.
  function Install(d: Disk, L: Layout, bs: seq<int>, k: nat): (r: Disk)
    requires ValidDisk(d, L) && ValidList(bs, L) && k <= |bs|
    ensures ValidDisk(r, L)
    ensures forall b :: L.InLog(b) && 0 <= b < |d| ==> r[b] == d[b]
    ensures forall b :: 0 <= b < |d| && b !in bs[..k] ==> r[b] == d[b]
    ensures forall j :: 0 <= j < k ==> r[bs[j]] == d[L.start + j + 1]
  {
    if k == 0 then d
    else
      var p := Install(d, L, bs, k - 1);
      assert bs[k - 1] !in bs[..k - 1];
      assert forall b :: b !in bs[..k] ==> b !in bs[..k - 1];
      p[bs[k - 1] := p[L.start + k]]
  }

  // recover_from_log: install what the header names, then clear the header.
  function Recovered(d: Disk, L: Layout): (r: Disk)
    requires GoodDisk(d, L)
    ensures GoodDisk(r, L) && HeaderList(r[L.start]) == []
  {
    var bs := HeaderList(d[L.start]);
    WriteHeader(Install(d, L, bs, |bs|), L, [])
  }

  // The two images agree on every block outside the log.
  ghost predicate SameHome(d: Disk, e: Disk, L: Layout) {
    |d| == |e| == L.total && forall b :: L.IsHome(b) ==> d[b] == e[b]
  }

  // What recovery restores, block by block.
  lemma RecoveredAt(d: Disk, L: Layout)
    requires GoodDisk(d, L)
    ensures var bs := HeaderList(d[L.start]);
            && (forall j :: 0 <= j < |bs| ==> Recovered(d, L)[bs[j]] == d[L.start + j + 1])
            && (forall b :: L.IsHome(b) && b !in bs ==> Recovered(d, L)[b] == d[b])
  {
    var bs := HeaderList(d[L.start]);
    assert bs[..|bs|] == bs;
  }

  // An empty header recovers to the home blocks as they are.
  lemma RecoverEmpty(d: Disk, L: Layout)
    requires GoodDisk(d, L) && HeaderList(d[L.start]) == []
    ensures SameHome(Recovered(d, L), d, L)
  {
    RecoveredAt(d, L);
  }

  // Home blocks, slots: the condition under which recovering d yields image e.
  // Every block the header names is in its slot; every other home block is in place.
  ghost predicate Redoes(d: Disk, e: Disk, L: Layout)
    requires GoodDisk(d, L)
  {
    var bs := HeaderList(d[L.start]);
    && |e| == L.total
    && (forall j :: 0 <= j < |bs| ==> d[L.start + j + 1] == e[bs[j]])
    && (forall b :: L.IsHome(b) && b !in bs ==> d[b] == e[b])
  }

  lemma RecoverIff(d: Disk, e: Disk, L: Layout)
    requires GoodDisk(d, L) && |e| == L.total
    ensures SameHome(Recovered(d, L), e, L) <==> Redoes(d, e, L)
  {
    RecoveredAt(d, L);
    var bs := HeaderList(d[L.start]);
    forall b | L.IsHome(b) && Redoes(d, e, L)
      ensures Recovered(d, L)[b] == e[b]
    {
      if b in bs {
        var j :| 0 <= j < |bs| && bs[j] == b;
      }
    }
  }

  // Recovery is idempotent, and a crash after any of its block writes changes nothing:
  // installing the first k slots and crashing recovers to the same home blocks.
  lemma RecoverAfterPartialInstall(d: Disk, L: Layout, k: nat)
    requires GoodDisk(d, L) && k <= |HeaderList(d[L.start])|
    ensures var p := Install(d, L, HeaderList(d[L.start]), k);
            GoodDisk(p, L) && SameHome(Recovered(p, L), Recovered(d, L), L)
  {
    var bs := HeaderList(d[L.start]);
    var p := Install(d, L, bs, k);
    assert p[L.start] == d[L.start];
    RecoveredAt(d, L);
    RecoverIff(p, Recovered(d, L), L);
    forall b | L.IsHome(b) && b !in bs
      ensures p[b] == Recovered(d, L)[b]
    {
      assert b !in bs[..k];
    }
    forall j | 0 <= j < |bs|
      ensures p[L.start + j + 1] == Recovered(d, L)[bs[j]]
    {
      assert L.InLog(L.start + j + 1);
    }
  }

  lemma RecoverTwice(d: Disk, L: Layout)
    requires GoodDisk(d, L)
    ensures GoodDisk(Recovered(d, L), L)
    ensures SameHome(Recovered(Recovered(d, L), L), Recovered(d, L), L)
  {
    RecoverEmpty(Recovered(d, L), L);
  }
}
