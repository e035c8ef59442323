/**
  The reference meaning of "first occurrence": the lowest index of an array
  holding the target value. Every search strategy in this model is measured
  against these definitions.
 */
module Occurrences {
  import opened Wrappers

  /** Index `j` holds the target. */
  predicate IsMatch(a: seq<int>, x: int, j: int) {
    0 <= j < |a| && a[j] == x
  }

  /** `k` is the lowest index holding the target. */
  predicate IsFirst(a: seq<int>, x: int, k: int) {
    IsMatch(a, x, k) && forall j :: 0 <= j < k ==> a[j] != x
  }

  /** No index holds the target. */
  predicate Absent(a: seq<int>, x: int) {
    forall j :: 0 <= j < |a| ==> a[j] != x
  }

  /** `r` is no larger than any index of `[lo, hi)` that holds the target. */
  predicate BelowMatches(a: seq<int>, x: int, lo: int, hi: int, r: int) {
    forall j :: lo <= j < hi && 0 <= j < |a| && a[j] == x ==> r <= j
  }

  /** The first index at or after `i` holding the target, if any. */
  function FirstFrom(a: seq<int>, x: int, i: nat): (r: Option<nat>)
    requires i <= |a|
    ensures r.Some? ==> i <= r.value < |a| && a[r.value] == x
    ensures r.Some? ==> forall j :: i <= j < r.value ==> a[j] != x
    ensures r.None? ==> forall j :: i <= j < |a| ==> a[j] != x
    decreases |a| - i
  {
    if i == |a| then None
    else if a[i] == x then Some(i)
    else FirstFrom(a, x, i + 1)
  }

  /** The first occurrence of `x` in `a`, or None when `x` is absent. */
  function FirstOccurrence(a: seq<int>, x: int): (r: Option<nat>)
    ensures r.Some? <==> !Absent(a, x)
    ensures r.Some? ==> IsFirst(a, x, r.value)
  {
    FirstFrom(a, x, 0)
  }

  /** There is at most one first occurrence. */
  lemma FirstIsUnique(a: seq<int>, x: int, k1: int, k2: int)
    requires IsFirst(a, x, k1) && IsFirst(a, x, k2)
    ensures k1 == k2
  {
  }
}
