/**
  The workers of `setupThreads` at the granularity of single loop
  iterations, interleaved in any order. The prune check reads `foundIndex`
  without the mutex and may see a stale value; since the shared value only
  ever decreases, a stale value is some value at least the current one,
  written here as the current value plus a lag. The compare-and-update runs
  as its own step, under the mutex.
 */
module Interleaving {
  import opened Occurrences
  import opened Partition
  import opened SharedBest
  import opened Worker
  import opened Coordinator

  /** Where a worker is: about to test index `i`, holding the mutex to report a match at `i`, or returned. */
  datatype Pc = Scanning(i: nat) | Updating(i: nat) | Finished

  /** The shared `foundIndex` and every worker's position. */
  datatype State = State(found: int, pcs: seq<Pc>)

  /** The scheduler lets `worker` take one step; a prune check in that step sees `found + lag`. */
  datatype Event = Event(worker: int, lag: nat)

  /** Before any step: the sentinel is stored and every worker is at the start of its range. */
  function Init(rs: seq<Range>): State {
    State(LongLongMax, seq(|rs|, k requires 0 <= k < |rs| => Scanning(rs[k].start)))
  }

  /**
    One step of one worker. A returned worker, or a worker number out of
    range, does nothing. Only a worker holding the mutex writes, only its own
    index, and only downwards; no other worker moves.
   */
  function Step(a: seq<int>, x: int, rs: seq<Range>, s: State, e: Event): (s': State)
    requires RangesInArray(a, rs) && |s.pcs| == |rs|
    ensures |s'.pcs| == |rs|
    ensures s'.found <= s.found
    ensures s'.found != s.found ==> 0 <= e.worker < |rs| && s.pcs[e.worker].Updating? && s'.found == s.pcs[e.worker].i
    ensures forall k :: 0 <= k < |rs| && k != e.worker ==> s'.pcs[k] == s.pcs[k]
  {
    var k := e.worker;
    if !(0 <= k < |rs|) then s
    else match s.pcs[k]
      case Finished => s
      case Updating(i) => State(Update(s.found, i), s.pcs[k := Finished])
      case Scanning(i) =>
        if i >= rs[k].end then State(s.found, s.pcs[k := Finished])
        else if s.found + e.lag < i then State(s.found, s.pcs[k := Finished])
        else if x == a[i] then State(s.found, s.pcs[k := Updating(i)])
        else State(s.found, s.pcs[k := Scanning(i + 1)])
  }

  /** The state after the events of `sched`, in order. */
  function Run(a: seq<int>, x: int, rs: seq<Range>, s: State, sched: seq<Event>): (s': State)
    requires RangesInArray(a, rs) && |s.pcs| == |rs|
    ensures |s'.pcs| == |rs|
    ensures s'.found <= s.found
    decreases |sched|
  {
    if |sched| == 0 then s
    else Run(a, x, rs, Step(a, x, rs, s, sched[0]), sched[1..])
  }

  /** Every worker has returned. */
  predicate AllFinished(s: State) {
    forall k :: 0 <= k < |s.pcs| ==> s.pcs[k] == Finished
  }

  /** What a worker's position guarantees about the shared value `found`. */
  predicate PcOk(a: seq<int>, x: int, rg: Range, pc: Pc, found: int) {
    match pc
    case Scanning(i) => rg.start <= i <= rg.end && BelowMatches(a, x, rg.start, i, found)
    case Updating(i) => rg.start <= i < rg.end && IsMatch(a, x, i) && BelowMatches(a, x, rg.start, i, found)
    case Finished => BelowMatches(a, x, rg.start, rg.end, found)
  }

  /**
    The invariant: the shared value is the sentinel or an index holding the
    target, and lies below every match a worker has already passed.
   */
  predicate Inv(a: seq<int>, x: int, rs: seq<Range>, s: State) {
    && |s.pcs| == |rs|
    && (s.found == LongLongMax || IsMatch(a, x, s.found))
    && forall k :: 0 <= k < |rs| ==> PcOk(a, x, rs[k], s.pcs[k], s.found)
  }

  lemma InitInv(a: seq<int>, x: int, rs: seq<Range>)
    requires RangesInArray(a, rs)
    ensures Inv(a, x, rs, Init(rs))
  {
  }

  /** Lowering the shared value keeps every worker's guarantee. */
  lemma PcOkLower(a: seq<int>, x: int, rg: Range, pc: Pc, found: int, found': int)
    requires PcOk(a, x, rg, pc, found) && found' <= found
    ensures PcOk(a, x, rg, pc, found')
  {
  }

  /** Every step, with any staleness of the prune read, keeps the invariant. */
  lemma StepInv(a: seq<int>, x: int, rs: seq<Range>, s: State, e: Event)
    requires RangesInArray(a, rs) && Inv(a, x, rs, s)
    ensures Inv(a, x, rs, Step(a, x, rs, s, e))
  {
    var s' := Step(a, x, rs, s, e);
    forall k | 0 <= k < |rs| && k != e.worker
      ensures PcOk(a, x, rs[k], s'.pcs[k], s'.found)
    {
      PcOkLower(a, x, rs[k], s.pcs[k], s.found, s'.found);
    }
  }

  lemma {:induction false} RunInv(a: seq<int>, x: int, rs: seq<Range>, s: State, sched: seq<Event>)
    requires RangesInArray(a, rs) && Inv(a, x, rs, s)
    ensures Inv(a, x, rs, Run(a, x, rs, s, sched))
    decreases |sched|
  {
    if |sched| > 0 {
      StepInv(a, x, rs, s, sched[0]);
      RunInv(a, x, rs, Step(a, x, rs, s, sched[0]), sched[1..]);
    }
  }

  /**
    A worker prunes only when a strictly smaller match has already been
    recorded: the value it acts on is above the true shared value, so the
    shared value is an index below the worker's own that holds the target.
   */
  lemma PruneJustified(a: seq<int>, x: int, rs: seq<Range>, s: State, k: int, lag: nat)
    requires RangesInArray(a, rs) && Inv(a, x, rs, s) && |a| <= LongLongMax
    requires 0 <= k < |rs| && s.pcs[k].Scanning? && s.pcs[k].i < rs[k].end
    requires s.found + lag < s.pcs[k].i
    ensures IsMatch(a, x, s.found) && s.found < s.pcs[k].i
  {
  }

  /**
    Whatever the interleaving and however stale the prune reads, the shared
    value is always the sentinel or an index holding the target; once every
    worker has returned it is the first occurrence, or the sentinel when the
    target is absent.
   */
  lemma InterleavedFindsFirst(a: seq<int>, x: int, rs: seq<Range>, sched: seq<Event>)
    requires RangesInArray(a, rs) && |a| <= LongLongMax
    requires forall j :: 0 <= j < |a| ==> Covers(rs, j)
    ensures Run(a, x, rs, Init(rs), sched).found == LongLongMax || IsMatch(a, x, Run(a, x, rs, Init(rs), sched).found)
    ensures AllFinished(Run(a, x, rs, Init(rs), sched)) ==>
      IsFirst(a, x, Run(a, x, rs, Init(rs), sched).found)
      || (Absent(a, x) && Run(a, x, rs, Init(rs), sched).found == LongLongMax)
  {
    InitInv(a, x, rs);
    RunInv(a, x, rs, Init(rs), sched);
    var s := Run(a, x, rs, Init(rs), sched);
    if AllFinished(s) {
      forall j | 0 <= j < |a| && a[j] == x
        ensures s.found <= j
      {
        assert Covers(rs, j);
        var k :| 0 <= k < |rs| && rs[k].start <= j < rs[k].end;
        assert PcOk(a, x, rs[k], s.pcs[k], s.found);
      }
    }
  }

  /** The step-level theorem for the ranges `setupThreads` hands out for an accepted thread count. */
  lemma PartitionsFindFirst(a: seq<int>, x: int, t: int, sched: seq<Event>)
    requires |a| <= LongLongMax && ValidThreadCount(|a|, t)
    ensures var rs := Partitions(|a|, t).value;
      && (Run(a, x, rs, Init(rs), sched).found == LongLongMax || IsMatch(a, x, Run(a, x, rs, Init(rs), sched).found))
      && (AllFinished(Run(a, x, rs, Init(rs), sched)) ==>
        IsFirst(a, x, Run(a, x, rs, Init(rs), sched).found)
        || (Absent(a, x) && Run(a, x, rs, Init(rs), sched).found == LongLongMax))
  {
    InterleavedFindsFirst(a, x, Partitions(|a|, t).value, sched);
  }

  /** `m` steps of worker `k`, each reading the shared value fresh. */
  function Solo(k: int, m: nat): (sched: seq<Event>)
    ensures |sched| == m && forall p :: 0 <= p < m ==> sched[p] == Event(k, 0)
  {
    seq(m, _ => Event(k, 0))
  }

  /** Steps of a worker that has returned change nothing. */
  lemma {:induction false} SoloAfterFinished(a: seq<int>, x: int, rs: seq<Range>, s: State, k: int, m: nat)
    requires RangesInArray(a, rs) && |s.pcs| == |rs|
    requires 0 <= k < |rs| && s.pcs[k] == Finished
    ensures Run(a, x, rs, s, Solo(k, m)) == s
    decreases m
  {
    if m > 0 {
      assert Solo(k, m)[1..] == Solo(k, m - 1);
      SoloAfterFinished(a, x, rs, s, k, m - 1);
    }
  }

  /**
    Letting one worker run alone until it returns has the effect of the
    uninterrupted worker loop: the atomic runs of the coordinator are one
    admissible interleaving.
   */
  lemma {:induction false} SoloIsScan(a: seq<int>, x: int, rs: seq<Range>, s: State, k: int, m: nat)
    requires RangesInArray(a, rs) && |s.pcs| == |rs|
    requires 0 <= k < |rs| && s.pcs[k].Scanning? && s.pcs[k].i <= rs[k].end
    requires m >= rs[k].end - s.pcs[k].i + 2
    ensures Run(a, x, rs, s, Solo(k, m)).pcs == s.pcs[k := Finished]
    ensures Run(a, x, rs, s, Solo(k, m)).found == Scan(a, x, s.pcs[k].i, rs[k].end, s.found)
    decreases m
  {
    var i := s.pcs[k].i;
    var s1 := Step(a, x, rs, s, Event(k, 0));
    assert Solo(k, m)[1..] == Solo(k, m - 1);
    assert Run(a, x, rs, s, Solo(k, m)) == Run(a, x, rs, s1, Solo(k, m - 1));
    if i >= rs[k].end || s.found < i {
      SoloAfterFinished(a, x, rs, s1, k, m - 1);
    } else if x == a[i] {
      var s2 := Step(a, x, rs, s1, Event(k, 0));
      assert Solo(k, m - 1)[1..] == Solo(k, m - 2);
      SoloAfterFinished(a, x, rs, s2, k, m - 2);
      assert s2.pcs == s.pcs[k := Finished];
    } else {
      SoloIsScan(a, x, rs, s1, k, m - 1);
      assert s1.pcs[k := Finished] == s.pcs[k := Finished];
    }
  }

  lemma {:induction false} RunConcat(a: seq<int>, x: int, rs: seq<Range>, s: State, s1: seq<Event>, s2: seq<Event>)
    requires RangesInArray(a, rs) && |s.pcs| == |rs|
    ensures Run(a, x, rs, s, s1 + s2) == Run(a, x, rs, Run(a, x, rs, s, s1), s2)
    decreases |s1|
  {
    if |s1| == 0 {
      assert s1 + s2 == s2;
    } else {
      assert (s1 + s2)[0] == s1[0];
      assert (s1 + s2)[1..] == s1[1..] + s2;
      RunConcat(a, x, rs, Step(a, x, rs, s, s1[0]), s1[1..], s2);
    }
  }

  /** The workers of `order` run one after another, each alone for enough steps to return. */
  function Sequential(rs: seq<Range>, order: seq<int>): seq<Event>
    requires forall p :: 0 <= p < |order| ==> 0 <= order[p] < |rs|
    decreases |order|
  {
    if |order| == 0 then []
    else
      Solo(order[0], rs[order[0]].end + 2) + Sequential(rs, order[1..])
  }

  /**
    Running the workers one at a time in the step model gives the shared value
    of the coordinator's atomic runs in the same order, and leaves exactly
    those workers returned.
   */
  lemma {:induction false} SequentialIsRunInOrder(a: seq<int>, x: int, rs: seq<Range>, s: State, order: seq<int>)
    requires RangesInArray(a, rs) && |s.pcs| == |rs|
    requires forall p :: 0 <= p < |order| ==> 0 <= order[p] < |rs|
    requires forall p, q :: 0 <= p < q < |order| ==> order[p] != order[q]
    requires forall p :: 0 <= p < |order| ==> s.pcs[order[p]] == Scanning(rs[order[p]].start)
    ensures Run(a, x, rs, s, Sequential(rs, order)).found == RunInOrder(a, x, rs, order, s.found)
    ensures forall k :: 0 <= k < |rs| ==>
      Run(a, x, rs, s, Sequential(rs, order)).pcs[k] == (if k in order then Finished else s.pcs[k])
    decreases |order|
  {
    if |order| > 0 {
      var k := order[0];
      var solo := Solo(k, rs[k].end + 2);
      RunConcat(a, x, rs, s, solo, Sequential(rs, order[1..]));
      SoloIsScan(a, x, rs, s, k, rs[k].end + 2);
      var s1 := Run(a, x, rs, s, solo);
      assert forall p :: 0 <= p < |order[1..]| ==> order[1..][p] == order[p + 1];
      SequentialIsRunInOrder(a, x, rs, s1, order[1..]);
      forall j | 0 <= j < |rs|
        ensures (j in order) == (j == k || j in order[1..])
      {
        if j in order {
          var p :| 0 <= p < |order| && order[p] == j;
          if p > 0 {
            assert order[1..][p - 1] == j;
          }
        }
      }
    }
  }

  /**
    Some interleaving always lets every worker return: the workers run one
    after another in order `0 .. t-1`, and the shared value then agrees with
    the atomic model.
   */
  lemma EveryWorkerCanFinish(a: seq<int>, x: int, rs: seq<Range>) returns (sched: seq<Event>)
    requires RangesInArray(a, rs)
    ensures AllFinished(Run(a, x, rs, Init(rs), sched))
    ensures Run(a, x, rs, Init(rs), sched).found == RunInOrder(a, x, rs, seq(|rs|, k => k), LongLongMax)
  {
    var order := seq(|rs|, k => k);
    forall k | 0 <= k < |rs|
      ensures k in order
    {
      assert order[k] == k;
    }
    sched := Sequential(rs, order);
    SequentialIsRunInOrder(a, x, rs, Init(rs), order);
  }

  /** How many events of `sched` belong to worker `k`. */
  function CountOf(sched: seq<Event>, k: int): nat
    decreases |sched|
  {
    if |sched| == 0 then 0
    else (if sched[0].worker == k then 1 else 0) + CountOf(sched[1..], k)
  }

  /** Steps worker `k` may still take before it has returned. */
  function Budget(rg: Range, pc: Pc): nat {
    match pc
    case Scanning(i) => if i <= rg.end then rg.end - i + 2 else 2
    case Updating(_) => 1
    case Finished => 0
  }

  /**
    Bounded progress, whatever the interleaving and the prune-read lags: a
    worker that is given as many steps as its remaining budget has returned,
    however the other workers' steps are mixed in.
   */
  lemma {:induction false} BoundedProgress(a: seq<int>, x: int, rs: seq<Range>, s: State, sched: seq<Event>, k: int)
    requires RangesInArray(a, rs) && |s.pcs| == |rs| && 0 <= k < |rs|
    requires CountOf(sched, k) >= Budget(rs[k], s.pcs[k])
    ensures Run(a, x, rs, s, sched).pcs[k] == Finished
    decreases |sched|
  {
    if |sched| == 0 {
      assert s.pcs[k] == Finished;
    } else {
      var s1 := Step(a, x, rs, s, sched[0]);
      if sched[0].worker == k {
        assert s.pcs[k] == Finished || Budget(rs[k], s1.pcs[k]) < Budget(rs[k], s.pcs[k]);
      }
      BoundedProgress(a, x, rs, s1, sched[1..], k);
    }
  }
}
