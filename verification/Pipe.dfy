// The pipe of xv6-x86/pipe.c: its ring buffer with counters that wrap at 2^32, and the parts
// of pipewrite and piperead between two releases of the lock.
module Pipe {

  const PIPESIZE := 512
  const WRAP := 0x1_0000_0000

  type Byte = x: int | 0 <= x < 256

  lemma WrapSlot(k: nat)
    ensures k % WRAP % PIPESIZE == k % PIPESIZE
  {
    var q := k / WRAP;
    assert k == q * WRAP + k % WRAP;
    assert WRAP == 0x80_0000 * PIPESIZE;
    assert k == (q * 0x80_0000) * PIPESIZE + k % WRAP;
    Multiple(q * 0x80_0000, k % WRAP);
  }

  lemma Multiple(q: nat, r: nat)
    ensures (q * PIPESIZE + r) % PIPESIZE == r % PIPESIZE
  {
    if q > 0 {
      Multiple(q - 1, r);
      assert q * PIPESIZE + r == ((q - 1) * PIPESIZE + r) + PIPESIZE;
    }
  }

  function W(x: int): (w: int)
    ensures 0 <= w < WRAP
  {
    x % WRAP
  }

  function At(x: int): (k: int)
    ensures 0 <= k < PIPESIZE
  {
    x % PIPESIZE
  }

  // Counters at most PIPESIZE apart tell the occupancy although they wrap.
  lemma Counters(taken: nat, stored: nat)
    requires taken <= stored <= taken + PIPESIZE
    ensures W(taken) == W(stored) <==> taken == stored
    ensures W(W(taken) + PIPESIZE) == W(stored) <==> stored == taken + PIPESIZE
  {
    var a, b := taken / WRAP, stored / WRAP;
    assert taken == a * WRAP + taken % WRAP;
    assert stored == b * WRAP + stored % WRAP;
    assert a == b || b == a + 1;
  }

  lemma NextCount(k: nat)
    ensures W(W(k) + 1) == W(k + 1) && At(W(k)) == At(k)
  {
    WrapSlot(k);
  }

  // Bytes still in the pipe are not in the slot written next.
  lemma Apart(k: nat, stored: nat)
    requires k < stored < k + PIPESIZE
    ensures At(k) != At(stored)
  {
  }

  // The bytes stored and not yet taken are in their slots.
  predicate Holds(data: seq<Byte>, stored: seq<Byte>, taken: nat) {
    && |data| == PIPESIZE && taken <= |stored| <= taken + PIPESIZE
    && forall k :: taken <= k < |stored| ==> data[At(k)] == stored[k]
  }

  lemma HoldsMore(data: seq<Byte>, stored: seq<Byte>, taken: nat, x: Byte)
    requires Holds(data, stored, taken) && |stored| < taken + PIPESIZE
    ensures Holds(data[At(|stored|) := x], stored + [x], taken)
  {
    hide At;
    forall k | taken <= k < |stored| ensures At(k) != At(|stored|) {
      Apart(k, |stored|);
    }
  }

  class Ring {
    const data: array<Byte>
    var nread: int
    var nwrite: int
    var readopen: bool
    var writeopen: bool
    ghost var stored: seq<Byte>                   // all bytes ever written
    ghost var taken: nat                          // how many have been read

    ghost predicate Valid() reads this, data {
      Holds(data[..], stored, taken) && nread == W(taken) && nwrite == W(|stored|)
    }

    constructor ()
      ensures Valid() && fresh(data) && readopen && writeopen && stored == [] && taken == 0
    {
      data := new Byte[PIPESIZE];
      nread, nwrite, readopen, writeopen, stored, taken := 0, 0, true, true, [], 0;
    }

    // One byte into the buffer.
    method Put(x: Byte)
      requires Valid() && |stored| < taken + PIPESIZE
      modifies this`nwrite, this`stored, data
      ensures Valid() && stored == old(stored) + [x]
    {
      hide Holds, At, W;
      HoldsMore(data[..], stored, taken, x);
      NextCount(|stored|);
      assert data.Length == PIPESIZE by { Sized(data[..], stored, taken); }
      ghost var was := data[..];
      data[At(nwrite)] := x;
      assert data[..] == was[At(|stored|) := x];
      nwrite := W(nwrite + 1);
      stored := stored + [x];
    }

    // One byte out of it.
    method Get() returns (x: Byte)
      requires Valid() && taken < |stored|
      modifies this`nread, this`taken
      ensures Valid() && taken == old(taken) + 1 && x == stored[old(taken)]
    {
      hide At, W;
      NextCount(taken);
      x := data[At(nread)];
      nread := W(nread + 1);
      taken := taken + 1;
    }

    // pipewrite from byte i0 on, until everything is stored or the pipe is full.
    method Store(addr: seq<Byte>, i0: nat) returns (i: nat)
      requires Valid() && i0 <= |addr|
      modifies this`nwrite, this`stored, data
      ensures Valid() && i0 <= i <= |addr| && stored == old(stored) + addr[i0..i]
      ensures i == |addr| || |stored| == taken + PIPESIZE
    {
      hide Holds, At, W;
      i := i0;
      while i < |addr|
        invariant Valid() && i0 <= i <= |addr| && stored == old(stored) + addr[i0..i]
      {
        Sized(data[..], stored, taken);
        Counters(taken, |stored|);
        if nwrite == W(nread + PIPESIZE) {
          break;
        }
        Put(addr[i]);
        i := i + 1;
      }
    }

    // The copying loop of piperead.
    method Fetch(n: nat) returns (addr: seq<Byte>)
      requires Valid()
      modifies this`nread, this`taken
      ensures Valid() && taken == old(taken) + |addr| && taken <= |stored| && addr == stored[old(taken)..taken]
      ensures |addr| <= n && (|addr| < n ==> taken == |stored|)
    {
      hide Holds, At, W;
      Sized(data[..], stored, taken);
      addr := [];
      var i := 0;
      while i < n
        invariant Valid() && i == |addr| <= n && taken == old(taken) + i && taken <= |stored| &&
            addr == stored[old(taken)..taken]
      {
        Sized(data[..], stored, taken);
        Counters(taken, |stored|);
        if nread == nwrite {
          break;
        }
        var x := Get();
        addr := addr + [x];
        i := i + 1;
        Sized(data[..], stored, taken);
      }
    }
  }

  lemma Sized(data: seq<Byte>, stored: seq<Byte>, taken: nat)
    requires Holds(data, stored, taken)
    ensures |data| == PIPESIZE && taken <= |stored| <= taken + PIPESIZE
  {
  }
}
