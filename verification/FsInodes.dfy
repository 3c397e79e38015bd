// Inodes on disk (xv6-x86/fs.h): eight to a block of 512 bytes, each four shorts, a size and
// thirteen block addresses, all little-endian.
module FsInodes {
  import opened FsLayout

  const IPB := 8

  // ---- a block as 256 shorts

  function ShortAt(d: seq<Byte>, i: nat): nat
    requires 2 * i + 2 <= |d|
  {
    (d[2 * i] as nat) + 0x100 * (d[2 * i + 1] as nat)
  }

  function SetShort(d: seq<Byte>, i: nat, v: nat): (r: seq<Byte>)
    requires 2 * i + 2 <= |d| && v < 0x1_0000
    ensures |r| == |d| && forall x :: 0 <= x < |d| && x / 2 != i ==> r[x] == d[x]
  {
    d[2 * i := v % 0x100][2 * i + 1 := v / 0x100]
  }

  lemma ShortSet(d: seq<Byte>, i: nat, v: nat, j: nat)
    requires 2 * i + 2 <= |d| && 2 * j + 2 <= |d| && v < 0x1_0000
    ensures ShortAt(SetShort(d, i, v), j) == if i == j then v else ShortAt(d, j)
  {
  }

  // Two blocks that agree on the bytes of a word or a short agree on it.
  lemma SameUint(d: seq<Byte>, e: seq<Byte>, i: nat)
    requires 4 * i + 4 <= |d| == |e| && forall x :: 4 * i <= x < 4 * i + 4 ==> d[x] == e[x]
    ensures UintAt(d, i) == UintAt(e, i)
  {
  }

  lemma SameShort(d: seq<Byte>, e: seq<Byte>, i: nat)
    requires 2 * i + 2 <= |d| == |e| && d[2 * i] == e[2 * i] && d[2 * i + 1] == e[2 * i + 1]
    ensures ShortAt(d, i) == ShortAt(e, i)
  {
  }

  // ---- an inode in slot k of a block

  function Addrs(d: seq<Byte>, i: nat, n: nat): (a: seq<nat>)
    requires 4 * (i + n) <= |d|
    ensures |a| == n && forall l :: 0 <= l < n ==> a[l] == UintAt(d, i + l)
  {
    if n == 0 then [] else Addrs(d, i, n - 1) + [UintAt(d, i + n - 1)]
  }

  function InodeAt(d: seq<Byte>, k: nat): Inode
    requires |d| == BSIZE && k < IPB
  {
    Inode(ShortAt(d, 32 * k), ShortAt(d, 32 * k + 1), ShortAt(d, 32 * k + 2), ShortAt(d, 32 * k + 3),
          UintAt(d, 16 * k + 2), Addrs(d, 16 * k + 3, NDIRECT + 1))
  }

  // An inode whose fields fit the ones on disk.
  predicate Encodable(ip: Inode) {
    && Shorts(ip) && ip.size < 0x1_0000_0000
    && |ip.addrs| == NDIRECT + 1 && forall l :: 0 <= l <= NDIRECT ==> ip.addrs[l] < 0x1_0000_0000
  }

  predicate Shorts(ip: Inode) {
    ip.kind < 0x1_0000 && ip.major < 0x1_0000 && ip.minor < 0x1_0000 && ip.nlink < 0x1_0000
  }

  /** What stands in one slot of an inode block does not depend on the other seven. */
  lemma OtherSlots(d: seq<Byte>, e: seq<Byte>, k: nat)
    requires |d| == |e| == BSIZE && k < IPB
    requires forall x :: 64 * k <= x < 64 * k + 64 ==> d[x] == e[x]
    ensures InodeAt(d, k) == InodeAt(e, k)
  {
    hide UintAt, ShortAt;
    forall i | 16 * k <= i < 16 * k + 16
      ensures UintAt(d, i) == UintAt(e, i)
    {
      SameUint(d, e, i);
    }
    forall i | 32 * k <= i < 32 * k + 32
      ensures ShortAt(d, i) == ShortAt(e, i)
    {
      SameShort(d, e, i);
    }
    assert Addrs(d, 16 * k + 3, NDIRECT + 1) == Addrs(e, 16 * k + 3, NDIRECT + 1);
  }

  // ---- the table of inode blocks

  predicate Table(itable: seq<seq<Byte>>) {
    forall b :: 0 <= b < |itable| ==> |itable[b]| == BSIZE
  }

  function OnDisk(itable: seq<seq<Byte>>, i: nat): Inode
    requires Table(itable) && i / IPB < |itable|
  {
    InodeAt(itable[i / IPB], i % IPB)
  }

  // Every inode in memory is on disk as it is in memory.
  ghost predicate Synced(itable: seq<seq<Byte>>, inodes: map<nat, Inode>) {
    && Table(itable)
    && forall i :: i in inodes ==> i / IPB < |itable| && Shorts(inodes[i]) && OnDisk(itable, i) == inodes[i]
  }

  // Bytes that lie outside slot k, and what a write into slot k leaves alone.
  ghost predicate Elsewhere(d: seq<Byte>, e: seq<Byte>, k: nat) {
    |d| == |e| == BSIZE && forall x :: 0 <= x < BSIZE && !(64 * k <= x < 64 * k + 64) ==> e[x] == d[x]
  }

  lemma UintBytes(d: seq<Byte>, i: nat, v: nat, k: nat)
    requires |d| == BSIZE && k < IPB && 16 * k <= i < 16 * k + 16 && v < 0x1_0000_0000
    ensures Elsewhere(d, SetUint(d, i, v), k)
    ensures forall j :: 0 <= j && 2 * j + 2 <= BSIZE && j / 2 != i ==> ShortAt(SetUint(d, i, v), j) == ShortAt(d, j)
  {
  }

  lemma ElsewhereThen(d: seq<Byte>, e: seq<Byte>, f: seq<Byte>, k: nat)
    requires Elsewhere(d, e, k) && Elsewhere(e, f, k)
    ensures Elsewhere(d, f, k)
  {
  }

  /** Writing slot i % IPB of its block leaves every other inode on disk as it was. */
  lemma OthersOnDisk(itable: seq<seq<Byte>>, i: nat, d: seq<Byte>, j: nat)
    requires Table(itable) && i / IPB < |itable| && j / IPB < |itable| && i != j
    requires Elsewhere(itable[i / IPB], d, i % IPB)
    ensures Table(itable[i / IPB := d]) && OnDisk(itable[i / IPB := d], j) == OnDisk(itable, j)
  {
    hide InodeAt;
    if i / IPB == j / IPB {
      assert i % IPB != j % IPB;
      OtherSlots(itable[i / IPB], d, j % IPB);
    }
  }

  // The four shorts, as iupdate() assigns them.
  function PutShorts(d: seq<Byte>, k: nat, ip: Inode): (r: seq<Byte>)
    requires |d| == BSIZE && k < IPB && Shorts(ip)
    ensures |r| == BSIZE
  {
    SetShort(SetShort(SetShort(SetShort(d, 32 * k, ip.kind), 32 * k + 1, ip.major), 32 * k + 2, ip.minor),
             32 * k + 3, ip.nlink)
  }

  ghost predicate HasShorts(d: seq<Byte>, k: nat, ip: Inode)
    requires |d| == BSIZE && k < IPB
  {
    && ShortAt(d, 32 * k) == ip.kind && ShortAt(d, 32 * k + 1) == ip.major
    && ShortAt(d, 32 * k + 2) == ip.minor && ShortAt(d, 32 * k + 3) == ip.nlink
  }

  lemma ShortsPut(d: seq<Byte>, k: nat, ip: Inode)
    requires |d| == BSIZE && k < IPB && Shorts(ip)
    ensures HasShorts(PutShorts(d, k, ip), k, ip) && Elsewhere(d, PutShorts(d, k, ip), k)
  {
    hide ShortAt;
    var a := SetShort(d, 32 * k, ip.kind);
    var b := SetShort(a, 32 * k + 1, ip.major);
    var c := SetShort(b, 32 * k + 2, ip.minor);
    var e := SetShort(c, 32 * k + 3, ip.nlink);
    ShortSet(d, 32 * k, ip.kind, 32 * k);
    ShortSet(a, 32 * k + 1, ip.major, 32 * k);
    ShortSet(a, 32 * k + 1, ip.major, 32 * k + 1);
    ShortSet(b, 32 * k + 2, ip.minor, 32 * k);
    ShortSet(b, 32 * k + 2, ip.minor, 32 * k + 1);
    ShortSet(b, 32 * k + 2, ip.minor, 32 * k + 2);
    ShortSet(c, 32 * k + 3, ip.nlink, 32 * k);
    ShortSet(c, 32 * k + 3, ip.nlink, 32 * k + 1);
    ShortSet(c, 32 * k + 3, ip.nlink, 32 * k + 2);
    ShortSet(c, 32 * k + 3, ip.nlink, 32 * k + 3);
    assert e == PutShorts(d, k, ip);
  }

  // A word of slot k set behind the shorts keeps them, and the other words.
  lemma WordPut(d: seq<Byte>, k: nat, ip: Inode, w: nat, v: nat)
    requires |d| == BSIZE && k < IPB && 2 <= w < 16 && v < 0x1_0000_0000 && HasShorts(d, k, ip)
    ensures var e := SetUint(d, 16 * k + w, v);
      && Elsewhere(d, e, k) && HasShorts(e, k, ip)
      && forall j :: 16 * k <= j < 16 * k + 16 ==> UintAt(e, j) == if j == 16 * k + w then v else UintAt(d, j)
  {
    hide ShortAt, UintAt, SetUint;
    UintBytes(d, 16 * k + w, v, k);
    forall j | 16 * k <= j < 16 * k + 16
      ensures UintAt(SetUint(d, 16 * k + w, v), j) == if j == 16 * k + w then v else UintAt(d, j)
    {
      UintSet(d, 16 * k + w, v, j);
    }
  }

  /** An inode read back from the fields that were written. */
  lemma InodeIs(d: seq<Byte>, k: nat, ip: Inode)
    requires |d| == BSIZE && k < IPB && HasShorts(d, k, ip) && |ip.addrs| == NDIRECT + 1
    requires UintAt(d, 16 * k + 2) == ip.size
    requires forall l :: 0 <= l <= NDIRECT ==> UintAt(d, 16 * k + 3 + l) == ip.addrs[l]
    ensures InodeAt(d, k) == ip
  {
    assert Addrs(d, 16 * k + 3, NDIRECT + 1) == ip.addrs;
  }
}
