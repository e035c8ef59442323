/**
  `setupThreads` with the threads abstracted: every worker runs to completion
  atomically, in an arbitrary order chosen by the scheduler, against the one
  shared `foundIndex`.
 */
module Coordinator {
  import opened Occurrences
  import opened Partition
  import opened SharedBest
  import opened Worker

  /** Which resource acquisition, if any, fails during setup. */
  datatype Resources =
    | Available
    | ThreadArrayAllocFails
    | BarrierInitFails
    | MutexInitFails
    | CreateFails(worker: int)

  /** Setup gives up: an allocation or initialisation fails, or creating one of the `t` workers does. */
  predicate Fails(res: Resources, t: int) {
    match res
    case Available => false
    case CreateFails(k) => 0 <= k < t
    case _ => true
  }

  /** Every range is well formed and lies inside the array. */
  predicate RangesInArray(a: seq<int>, rs: seq<Range>) {
    forall k :: 0 <= k < |rs| ==> rs[k].start <= rs[k].end <= |a|
  }

  /** `order` names only workers `0 .. t-1` and names each of them. */
  predicate IsSchedule(order: seq<int>, t: int) {
    && (forall p :: 0 <= p < |order| ==> 0 <= order[p] < t)
    && (forall k :: 0 <= k < t ==> k in order)
  }

  /**
    Run the workers named by `order`, one after another, each to completion,
    starting from shared value `found`.
   */
  function RunInOrder(a: seq<int>, x: int, rs: seq<Range>, order: seq<int>, found: int): (r: int)
    requires RangesInArray(a, rs)
    requires forall p :: 0 <= p < |order| ==> 0 <= order[p] < |rs|
    ensures r <= found
    ensures r == found || exists p :: 0 <= p < |order| && rs[order[p]].start <= r < rs[order[p]].end && a[r] == x
    ensures forall p :: 0 <= p < |order| ==> BelowMatches(a, x, rs[order[p]].start, rs[order[p]].end, r)
    decreases |order|
  {
    if |order| == 0 then found
    else
      var rg := rs[order[0]];
      var r := RunInOrder(a, x, rs, order[1..], Scan(a, x, rg.start, rg.end, found));
      assert forall p :: 1 <= p < |order| ==> order[p] == order[1..][p - 1];
      r
  }

  /**
    Whatever order the workers run in, once every worker of a covering
    partition has run, starting from a sentinel above every index, the shared
    value is the first occurrence of `x`, or still the sentinel when `x` is
    absent.
   */
  lemma AnyOrderFindsFirst(a: seq<int>, x: int, rs: seq<Range>, order: seq<int>, sentinel: int)
    requires RangesInArray(a, rs)
    requires IsSchedule(order, |rs|)
    requires forall j :: 0 <= j < |a| ==> Covers(rs, j)
    requires sentinel >= |a|
    ensures IsFirst(a, x, RunInOrder(a, x, rs, order, sentinel))
      || (Absent(a, x) && RunInOrder(a, x, rs, order, sentinel) == sentinel)
  {
    var r := RunInOrder(a, x, rs, order, sentinel);
    forall j | 0 <= j < |a| && a[j] == x
      ensures r <= j
    {
      assert Covers(rs, j);
      var k :| 0 <= k < |rs| && rs[k].start <= j < rs[k].end;
      assert k in order;
      var p :| 0 <= p < |order| && order[p] == k;
    }
  }

  /**
    The one accepted input where a range formula leaves `long long`: an array
    of `LONG_LONG_MAX` elements on one thread, where `portion + 1` is
    `LONG_LONG_MAX + 1`.
   */
  lemma OneThreadOverflow()
    ensures ValidThreadCount(LongLongMax, 1)
    ensures Portion(LongLongMax, 1) + 1 > LongLongMax
    ensures forall n: nat, t :: n <= LongLongMax && ValidThreadCount(n, t) && t != 1 ==>
      Portion(n, t) + 1 <= LongLongMax
  {
    forall n: nat, t | n <= LongLongMax && ValidThreadCount(n, t) && t != 1
      ensures Portion(n, t) + 1 <= LongLongMax
    {
      Intermediates(n, t, 0);
    }
  }

  /** The value `setupThreads` returns: -1 on a rejected thread count or a failed setup, else the final `foundIndex`. */
  function SetupThreads(a: seq<int>, x: int, t: int, order: seq<int>, res: Resources): (r: int)
    requires |a| <= LongLongMax
    requires ValidThreadCount(|a|, t) ==> IsSchedule(order, t)
    ensures !ValidThreadCount(|a|, t) || Fails(res, t) ==> r == -1
    ensures ValidThreadCount(|a|, t) && !Fails(res, t) ==>
      IsFirst(a, x, r) || (Absent(a, x) && r == LongLongMax)
  {
    match Partitions(|a|, t)
    case None => -1
    case Some(rs) =>
      if Fails(res, t) then -1
      else
        AnyOrderFindsFirst(a, x, rs, order, LongLongMax);
        RunInOrder(a, x, rs, order, LongLongMax)
  }
}
