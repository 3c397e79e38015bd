// The doubly linked list of xv6-x86/bio.c as a ring of indices, the list head first.
module BufRing {
  import opened Helpers

  // No index occurs twice.
  predicate Distinct(ring: seq<nat>) {
    forall i, j :: 0 <= i < j < |ring| ==> ring[i] != ring[j]
  }

  function Succ(i: nat, n: nat): nat { if i + 1 >= n then 0 else i + 1 }

  // next and prev link the ring both ways.
  predicate Linked(ring: seq<nat>, next: seq<nat>, prev: seq<nat>, i: nat)
    requires i < |ring|
  {
    var a, b := ring[i], ring[Succ(i, |ring|)];
    a < |next| && b < |prev| && next[a] == b && prev[b] == a
  }

  predicate Ring(ring: seq<nat>, next: seq<nat>, prev: seq<nat>) {
    && ring != [] && Distinct(ring) && |next| == |prev|
    && forall i :: 0 <= i < |ring| ==> Linked(ring, next, prev, i)
  }

  function After(ring: seq<nat>, b: nat): seq<nat>
    requires ring != []
  {
    [ring[0], b] + ring[1..]
  }

  lemma AfterAt(ring: seq<nat>, b: nat)
    requires ring != []
    ensures |After(ring, b)| == |ring| + 1
    ensures forall i {:trigger After(ring, b)[i]} :: 0 <= i <= |ring| ==>
        After(ring, b)[i] == if i == 0 then ring[0] else if i == 1 then b else ring[i - 1]
  {
  }

  lemma InBounds(ring: seq<nat>, next: seq<nat>, prev: seq<nat>, i: nat)
    requires Ring(ring, next, prev) && i < |ring|
    ensures ring[i] < |next| && ring[Succ(i, |ring|)] < |next| && next[ring[i]] == ring[Succ(i, |ring|)] &&
        prev[ring[Succ(i, |ring|)]] == ring[i]
  {
    assert Linked(ring, next, prev, i);
    assert Linked(ring, next, prev, Succ(i, |ring|));
  }

  // Joining the two neighbours of the k-th member takes it off the ring.
  lemma Unlink(ring: seq<nat>, next: seq<nat>, prev: seq<nat>, k: nat)
    requires Ring(ring, next, prev) && 0 < k < |ring|
    ensures ring[k] < |next| && ring[k - 1] < |next| && ring[Succ(k, |ring|)] < |next|
    ensures next[ring[k]] == ring[Succ(k, |ring|)] && prev[ring[k]] == ring[k - 1]
    ensures Ring(Without(ring, k), next[ring[k - 1] := ring[Succ(k, |ring|)]],
        prev[ring[Succ(k, |ring|)] := ring[k - 1]])
  {
    hide Without;
    InBounds(ring, next, prev, k);
    InBounds(ring, next, prev, k - 1);
    var n2, p2 := next[ring[k - 1] := ring[Succ(k, |ring|)]], prev[ring[Succ(k, |ring|)] := ring[k - 1]];
    var r2 := Without(ring, k);
    WithoutAt(ring, k);
    forall i | 0 <= i < |r2| ensures Linked(r2, n2, p2, i) {
      var j := if i < k then i else i + 1;
      InBounds(ring, next, prev, j);
    }
  }

  // A buffer off the ring is put in behind the head.
  lemma Relink(ring: seq<nat>, next: seq<nat>, prev: seq<nat>, b: nat)
    requires Ring(ring, next, prev) && b < |next| && b !in ring
    ensures ring[0] < |next| && next[ring[0]] < |next|
    ensures Ring(After(ring, b), next[b := next[ring[0]]][ring[0] := b], prev[b := ring[0]][next[ring[0]] := b])
  {
    hide After;
    InBounds(ring, next, prev, 0);
    var h, f := ring[0], next[ring[0]];
    var n2, p2 := next[b := f][h := b], prev[b := h][f := b];
    var r2 := After(ring, b);
    AfterAt(ring, b);
    forall i | 0 <= i < |r2| ensures Linked(r2, n2, p2, i) {
      if i >= 2 {
        InBounds(ring, next, prev, i - 1);
      } else if i == 1 {
        InBounds(ring, next, prev, 0);
      }
    }
  }
}
