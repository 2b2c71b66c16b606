/**
  Selecting elements of a sequence by position: the column and row
  selections behind pruning and duplicate removal.
 */
module Positions {
  /** Strictly increasing positions. */
  predicate Increasing(idx: seq<nat>) {
    forall a, b :: 0 <= a < b < |idx| ==> idx[a] < idx[b]
  }

  predicate AllBelow(idx: seq<nat>, n: nat) {
    forall k :: 0 <= k < |idx| ==> idx[k] < n
  }

  /** The elements of `s` at positions `idx`, in the order of `idx`. */
  function Pick<T>(s: seq<T>, idx: seq<nat>): (r: seq<T>)
    requires AllBelow(idx, |s|)
    ensures |r| == |idx|
    ensures forall k :: 0 <= k < |idx| ==> r[k] == s[idx[k]]
  {
    seq(|idx|, k requires 0 <= k < |idx| => s[idx[k]])
  }

  lemma PickSnoc<T>(s: seq<T>, idx: seq<nat>, i: nat)
    requires AllBelow(idx, |s|) && i < |s|
    ensures AllBelow(idx + [i], |s|)
    ensures Pick(s, idx + [i]) == Pick(s, idx) + [s[i]]
  {
  }

  /** `0, 1, ..., n - 1`. */
  function Upto(n: nat): (r: seq<nat>)
    ensures |r| == n && AllBelow(r, n)
    ensures forall k :: 0 <= k < n ==> r[k] == k
  {
    seq(n, k requires 0 <= k < n => k)
  }

  lemma PickAll<T>(s: seq<T>)
    ensures Pick(s, Upto(|s|)) == s
  {
  }
}
