/**
  `parallel_linear_search`: the entry point that folds the coordinator's
  result into one signed integer, and the three-way outcome that integer
  stands for.
 */
module Engine {
  import opened Wrappers
  import opened Occurrences
  import opened Partition
  import opened SharedBest
  import opened Coordinator

  /** What a search establishes. */
  datatype Outcome = Found(index: nat) | NotFound | Error

  /** The outcome a search should have: Error for a rejected thread count or a failed setup, else the first occurrence. */
  function Intended(a: seq<int>, x: int, t: int, res: Resources): Outcome {
    if !ValidThreadCount(|a|, t) || Fails(res, t) then Error
    else match FirstOccurrence(a, x)
      case Some(k) => Found(k)
      case None => NotFound
  }

  /** The integer encoding the entry point uses: the index when found, -1 for both other outcomes. */
  function Encode(o: Outcome): int {
    match o
    case Found(k) => k
    case NotFound => -1
    case Error => -1
  }

  /**
    The value `parallel_linear_search` returns: -1 for an error from setup, -1
    for the "not found" sentinel, otherwise the index. Whatever order the
    workers ran in, it is the encoding of the intended outcome.
   */
  function ParallelLinearSearch(a: seq<int>, x: int, t: int, order: seq<int>, res: Resources): (r: int)
    requires |a| <= LongLongMax
    requires ValidThreadCount(|a|, t) ==> IsSchedule(order, t)
    ensures r == Encode(Intended(a, x, t, res))
  {
    var result := SetupThreads(a, x, t, order, res);
    if result < 0 then -1
    else if result == LongLongMax then -1
    else
      FirstIsUnique(a, x, result, FirstOccurrence(a, x).value);
      result
  }

  /**
    The encoding keeps found indices apart and is non-negative exactly for
    them, but maps "not found" and "error" to the same -1.
   */
  lemma EncodingLossy(o1: Outcome, o2: Outcome)
    ensures Encode(o1) >= 0 <==> o1.Found?
    ensures Encode(o1) == Encode(o2) <==> o1 == o2 || (!o1.Found? && !o2.Found?)
  {
  }

  /** The caller sees a non-negative result exactly when the value occurs, the thread count is accepted and setup succeeds. */
  lemma ResultMeaning(a: seq<int>, x: int, t: int, order: seq<int>, res: Resources)
    requires |a| <= LongLongMax
    requires ValidThreadCount(|a|, t) ==> IsSchedule(order, t)
    ensures ParallelLinearSearch(a, x, t, order, res) >= 0
      <==> ValidThreadCount(|a|, t) && !Fails(res, t) && !Absent(a, x)
    ensures ParallelLinearSearch(a, x, t, order, res) >= 0 ==>
      IsFirst(a, x, ParallelLinearSearch(a, x, t, order, res))
    ensures ParallelLinearSearch(a, x, t, order, res) < 0 ==> ParallelLinearSearch(a, x, t, order, res) == -1
  {
  }

  /** Two runs with different worker orders return the same value. */
  lemma ScheduleIndependent(a: seq<int>, x: int, t: int, order1: seq<int>, order2: seq<int>, res: Resources)
    requires |a| <= LongLongMax
    requires ValidThreadCount(|a|, t) ==> IsSchedule(order1, t) && IsSchedule(order2, t)
    ensures ParallelLinearSearch(a, x, t, order1, res) == ParallelLinearSearch(a, x, t, order2, res)
  {
  }

  /** [0,0,0,7,0,0,7,0] with target 7 on 3 threads: ranges of sizes 3, 3, 2 and result 3, whichever worker runs first. */
  lemma ThreeThreadExample(order: seq<int>)
    requires IsSchedule(order, 3)
    ensures Partitions(8, 3) == Some([Range(0, 3), Range(3, 6), Range(6, 8)])
    ensures ParallelLinearSearch([0, 0, 0, 7, 0, 0, 7, 0], 7, 3, order, Available) == 3
  {
    var a := [0, 0, 0, 7, 0, 0, 7, 0];
    assert IsFirst(a, 7, 3);
    FirstIsUnique(a, 7, 3, FirstOccurrence(a, 7).value);
    assert Portion(8, 3) == 2 && Remainder(8, 3) == 2;
    assert Start(8, 3, 2) == 6 && End(8, 3, 1) == 6;
    var rs := Partitions(8, 3).value;
    assert rs[0] == Range(0, 3) && rs[1] == Range(3, 6) && rs[2] == Range(6, 8);
    assert rs == [Range(0, 3), Range(3, 6), Range(6, 8)];
  }

  /** Eight zeros never contain 7: every accepted thread count gives -1. */
  lemma AllZerosNotFound(t: int, order: seq<int>)
    requires 1 <= t <= 8 && IsSchedule(order, t)
    ensures ParallelLinearSearch([0, 0, 0, 0, 0, 0, 0, 0], 7, t, order, Available) == -1
  {
  }

  /** A thread count of zero or above the array length is rejected with -1, whatever the resources. */
  lemma RejectedThreadCount(a: seq<int>, x: int, t: int, order: seq<int>, res: Resources)
    requires |a| <= LongLongMax
    requires t < 1 || t > |a|
    ensures ParallelLinearSearch(a, x, t, order, res) == -1
    ensures Intended(a, x, t, res) == Error
  {
  }
}
