/**
  The worker loop of `linear_search`, run without interference: while the
  worker runs, the shared value changes only through its own update.
 */
module Worker {
  import opened Occurrences
  import opened SharedBest

  /**
    Scan `[i, end)` in ascending order starting from shared value `found`:
    stop when the shared value is already below the current index, and on the
    first match apply the update rule and stop. The result is the shared value
    afterwards.
   */
  function Scan(a: seq<int>, x: int, i: nat, end: nat, found: int): (r: int)
    requires end <= |a|
    ensures r <= found
    ensures r == found || (i <= r < end && a[r] == x)
    ensures BelowMatches(a, x, i, end, r)
    decreases end - i
  {
    if i >= end then found
    else if found < i then found
    else if x == a[i] then Update(found, i)
    else Scan(a, x, i + 1, end, found)
  }

  /**
    Pruning never loses an answer: the worker leaves exactly the smaller of the
    old shared value and the first match of its range, or the old value when
    the range holds no match.
   */
  lemma ScanIsMin(a: seq<int>, x: int, i: nat, end: nat, found: int)
    requires end <= |a|
    ensures (forall j :: i <= j < end ==> a[j] != x) ==> Scan(a, x, i, end, found) == found
    ensures forall m :: i <= m < end && a[m] == x && (forall j :: i <= j < m ==> a[j] != x) ==>
      Scan(a, x, i, end, found) == Update(found, m)
  {
  }
}
