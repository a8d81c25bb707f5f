/** Sequence vocabulary: what it means for one list to be a stable selection of another. */
module Seqs {

  /** `idx` picks the elements of `r` out of `b`: one strictly increasing
      position of `b` per element of `r`, so `r` keeps `b`'s order. */
  ghost predicate StableSelection<T>(r: seq<T>, b: seq<T>, idx: seq<nat>)
  {
    && |idx| == |r|
    && (forall k :: 0 <= k < |idx| ==> idx[k] < |b| && r[k] == b[idx[k]])
    && (forall k, l :: 0 <= k < l < |idx| ==> idx[k] < idx[l])
  }

  /** `a` is a subsequence of `b`: some order-preserving choice of positions of `b` spells `a`. */
  ghost predicate IsSubsequence<T>(a: seq<T>, b: seq<T>)
  {
    exists idx :: StableSelection(a, b, idx)
  }

  /** Every position of `idx`, shifted one to the right (to skip a new head of `b`). */
  function Shift(idx: seq<nat>): (r: seq<nat>)
    ensures |r| == |idx|
    ensures forall k :: 0 <= k < |idx| ==> r[k] == idx[k] + 1
  {
    seq(|idx|, k requires 0 <= k < |idx| => idx[k] + 1)
  }

  /** A shifted position list holds `j + 1` exactly when the original holds `j`, and never 0. */
  lemma ShiftMembership(idx: seq<nat>)
    ensures 0 !in Shift(idx)
    ensures forall j :: j in idx <==> j + 1 in Shift(idx)
  {
    var s := Shift(idx);
    forall j | j + 1 in s
      ensures j in idx
    {
      var k :| 0 <= k < |s| && s[k] == j + 1;
      assert idx[k] == j;
    }
    forall j | j in idx
      ensures j + 1 in s
    {
      var k :| 0 <= k < |idx| && idx[k] == j;
      assert s[k] == j + 1;
    }
  }

  /** Prepending the same element to both lists extends a selection by position 0. */
  lemma SelectionCons<T>(x: T, r: seq<T>, b: seq<T>, idx: seq<nat>)
    requires StableSelection(r, b, idx)
    ensures StableSelection([x] + r, [x] + b, [0] + Shift(idx))
  {
    var idx' := [0] + Shift(idx);
    forall k | 0 < k < |idx'|
      ensures idx'[k] < |[x] + b| && ([x] + r)[k] == ([x] + b)[idx'[k]]
    {
      assert idx'[k] == idx[k - 1] + 1;
    }
  }

  /** Prepending an element only to the larger list keeps the selection, shifted. */
  lemma SelectionSkip<T>(x: T, r: seq<T>, b: seq<T>, idx: seq<nat>)
    requires StableSelection(r, b, idx)
    ensures StableSelection(r, [x] + b, Shift(idx))
  {
  }
}
