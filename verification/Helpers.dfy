// What several of the models use.
module Helpers {
  datatype Option<+T> = None | Some(value: T)

  // The sequence with one element taken out.
  function Without<T>(s: seq<T>, i: nat): (r: seq<T>)
    requires i < |s|
    ensures |r| == |s| - 1
    ensures forall k :: 0 <= k < i ==> r[k] == s[k]
    ensures forall k :: i <= k < |r| ==> r[k] == s[k + 1]
  {
    s[..i] + s[i + 1..]
  }

  lemma WithoutAt<T>(s: seq<T>, i: nat)
    requires i < |s|
    ensures |Without(s, i)| == |s| - 1
    ensures forall k {:trigger Without(s, i)[k]} :: 0 <= k < |s| - 1 ==>
      Without(s, i)[k] == if k < i then s[k] else s[k + 1]
  {
  }
}
