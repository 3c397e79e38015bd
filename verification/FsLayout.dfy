// Blocks, block maps and the free bitmap of xv6-x86/fs.c, and what the small changes the
// code makes to them keep.
module FsLayout {

  const BSIZE := 512
  const NDIRECT := 12
  const NINDIRECT := 128
  const MAXFILE := 140
  const BPB := 4096

  type Byte = x: int | 0 <= x < 256

  // The parts of the superblock that matter here; data blocks are those from datastart up.
  datatype Super = Super(size: nat, inodestart: nat, bmapstart: nat, datastart: nat) {
    predicate Sane() {
      && 0 < inodestart < bmapstart && bmapstart <= datastart <= size < 0x1_0000_0000
      && forall b :: 0 <= b < size ==> BBlock(b) < datastart
    }

    function BBlock(b: nat): nat { b / BPB + bmapstart }
  }

  // struct dinode; kind is its type.
  datatype Inode = Inode(kind: nat, major: nat, minor: nat, nlink: nat, size: nat, addrs: seq<nat>)

  // ---- a block as 128 little-endian words

  function UintAt(d: seq<Byte>, i: nat): nat
    requires 4 * i + 4 <= |d|
  {
    (d[4 * i] as nat) + 0x100 * (d[4 * i + 1] as nat) + 0x1_0000 * (d[4 * i + 2] as nat) +
        0x100_0000 * (d[4 * i + 3] as nat)
  }

  function SetUint(d: seq<Byte>, i: nat, v: nat): (r: seq<Byte>)
    requires 4 * i + 4 <= |d|
    ensures |r| == |d|
  {
    var low := d[4 * i := v % 0x100][4 * i + 1 := v / 0x100 % 0x100];
    low[4 * i + 2 := v / 0x1_0000 % 0x100][4 * i + 3 := v / 0x100_0000 % 0x100]
  }

  lemma UintSet(d: seq<Byte>, i: nat, v: nat, j: nat)
    requires 4 * i + 4 <= |d| && 4 * j + 4 <= |d| && v < 0x1_0000_0000
    ensures UintAt(SetUint(d, i, v), j) == if i == j then v else UintAt(d, j)
  {
    if i == j {
      FourBytes(v);
    }
  }

  lemma FourBytes(v: nat)
    requires v < 0x1_0000_0000
    ensures v == v % 0x100 + 0x100 * (v / 0x100 % 0x100) + 0x1_0000 * (v / 0x1_0000 % 0x100) +
        0x100_0000 * (v / 0x100_0000 % 0x100)
  {
    var a, b, c := v / 0x100, v / 0x1_0000, v / 0x100_0000;
    assert v == 0x100 * a + v % 0x100;
    assert a == 0x100 * b + a % 0x100;
    assert b == 0x100 * c + b % 0x100;
  }

  // What bzero() writes.
  function Zeros(n: nat): (z: seq<Byte>)
    ensures |z| == n && forall i :: 0 <= i < n ==> z[i] == 0
  {
    if n == 0 then [] else Zeros(n - 1) + [0]
  }

  // ---- a block as 4096 bits

  function Mask(k: nat): (m: nat)
    ensures m > 0
  {
    if k == 0 then 1 else 2 * Mask(k - 1)
  }

  // x & Mask(k)
  predicate Bit(x: nat, k: nat) {
    if k == 0 then x % 2 == 1 else Bit(x / 2, k - 1)
  }

  predicate BitAt(d: seq<Byte>, i: nat)
    requires i / 8 < |d|
  {
    Bit(d[i / 8], i % 8)
  }

  // data[bi/8] |= m where the bit is clear, and &= ~m where it is set.
  function SetBit(d: seq<Byte>, i: nat): (r: seq<Byte>)
    requires i / 8 < |d| && !BitAt(d, i)
    ensures |r| == |d|
  {
    assert Mask(8) == 256 by { assert Mask(4) == 16; }
    MaskSet(d[i / 8], i % 8, 8, i % 8);
    d[i / 8 := d[i / 8] + Mask(i % 8)]
  }

  function ClearBit(d: seq<Byte>, i: nat): (r: seq<Byte>)
    requires i / 8 < |d| && BitAt(d, i)
    ensures |r| == |d|
  {
    MaskClear(d[i / 8], i % 8, i % 8);
    d[i / 8 := d[i / 8] - Mask(i % 8)]
  }

  lemma {:induction false} MaskSet(x: nat, k: nat, n: nat, l: nat)
    requires k < n && x < Mask(n) && !Bit(x, k)
    ensures x + Mask(k) < Mask(n)
    ensures Bit(x + Mask(k), l) <==> k == l || Bit(x, l)
    decreases k
  {
    if k > 0 {
      MaskSet(x / 2, k - 1, n - 1, if l > 0 then l - 1 else 0);
      assert (x + Mask(k)) / 2 == x / 2 + Mask(k - 1);
    }
  }

  lemma {:induction false} MaskClear(x: nat, k: nat, l: nat)
    requires Bit(x, k)
    ensures x >= Mask(k)
    ensures Bit(x - Mask(k), l) <==> k != l && Bit(x, l)
    decreases k
  {
    if k > 0 {
      MaskClear(x / 2, k - 1, if l > 0 then l - 1 else 0);
      assert (x - Mask(k)) / 2 == x / 2 - Mask(k - 1);
    }
  }

  lemma BitSet(d: seq<Byte>, i: nat, j: nat)
    requires i / 8 < |d| && j / 8 < |d| && !BitAt(d, i)
    ensures BitAt(SetBit(d, i), j) <==> i == j || BitAt(d, j)
  {
    assert Mask(8) == 256 by { assert Mask(4) == 16; }
    if i / 8 == j / 8 {
      MaskSet(d[i / 8], i % 8, 8, j % 8);
    }
  }

  lemma BitClear(d: seq<Byte>, i: nat, j: nat)
    requires i / 8 < |d| && j / 8 < |d| && BitAt(d, i)
    ensures BitAt(ClearBit(d, i), j) <==> i != j && BitAt(d, j)
  {
    if i / 8 == j / 8 {
      MaskClear(d[i / 8], i % 8, j % 8);
    }
  }
}
