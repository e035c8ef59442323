/**
  The partition arithmetic of `setupThreads`: an array of `n` elements is cut
  into `t` contiguous half-open ranges, the first `n % t` of them one element
  longer than the rest.
 */
module Partition {
  import opened Wrappers

  /** The half-open index range `[start, end)` handed to one worker. */
  datatype Range = Range(start: nat, end: nat)

  /** The thread count is accepted: at least one thread, no more threads than elements. */
  predicate ValidThreadCount(n: nat, t: int) {
    1 <= t <= n
  }

  function Portion(n: nat, t: int): nat
    requires t >= 1
  {
    n / t
  }

  function Remainder(n: nat, t: int): nat
    requires t >= 1
  {
    n % t
  }

  /** First index of worker `i`'s range. */
  function Start(n: nat, t: int, i: int): nat
    requires 0 <= i < t
  {
    var p, r := Portion(n, t), Remainder(n, t);
    if i < r then i * (p + 1) else p * (i - r) + r * (p + 1)
  }

  /** One past the last index of worker `i`'s range. */
  function End(n: nat, t: int, i: int): nat
    requires 0 <= i < t
  {
    var p, r := Portion(n, t), Remainder(n, t);
    if i < r then Start(n, t, i) + p + 1 else Start(n, t, i) + p
  }

  /** Index `j` lies in worker `i`'s range. */
  predicate InRange(n: nat, t: int, i: int, j: int)
    requires 0 <= i < t
  {
    Start(n, t, i) <= j < End(n, t, i)
  }

  /** Worker 0 starts at 0, each worker starts where the previous one ended, and the last one ends at `n`. */
  lemma Tiling(n: nat, t: int, i: int)
    requires 0 <= i < t
    ensures Start(n, t, 0) == 0
    ensures i + 1 < t ==> End(n, t, i) == Start(n, t, i + 1)
    ensures End(n, t, t - 1) == n
  {
    var p, r := Portion(n, t), Remainder(n, t);
    assert n == p * t + r;
    if i + 1 < t {
      if i + 1 < r {
        assert (i + 1) * (p + 1) == i * (p + 1) + p + 1;
      } else if i + 1 == r {
        assert r * (p + 1) == i * (p + 1) + p + 1;
        assert p * (i + 1 - r) == 0;
      } else {
        assert p * (i + 1 - r) == p * (i - r) + p;
      }
    }
    assert r <= t - 1;
    assert p * (t - 1 - r) + r * (p + 1) + p == p * t + r;
  }

  /** Sizes: `n/t + 1` for the first `n % t` workers, `n/t` for the others, never growing with the index. */
  lemma Sizes(n: nat, t: int, i: int, k: int)
    requires 0 <= i <= k < t
    ensures End(n, t, i) - Start(n, t, i) == Portion(n, t) + 1 <==> i < Remainder(n, t)
    ensures Portion(n, t) <= End(n, t, i) - Start(n, t, i) <= Portion(n, t) + 1
    ensures End(n, t, k) - Start(n, t, k) <= End(n, t, i) - Start(n, t, i)
    ensures ValidThreadCount(n, t) ==> Start(n, t, i) < End(n, t, i)
  {
    if t <= n {
      assert Portion(n, t) * t <= n;
    }
  }

  /**
    The intermediate values of the range formulas lie in `[0, n + 1]`; only
    `portion + 1` can reach `n + 1`, and for an accepted thread count it does
    exactly when there is one thread.
   */
  lemma Intermediates(n: nat, t: int, i: int)
    requires 0 <= i < t
    ensures Portion(n, t) + 1 <= n + 1
    ensures ValidThreadCount(n, t) ==> (Portion(n, t) + 1 == n + 1 <==> t == 1)
    ensures i < Remainder(n, t) ==> i * (Portion(n, t) + 1) <= n
    ensures Remainder(n, t) <= i ==>
      Portion(n, t) * (i - Remainder(n, t)) <= n && Remainder(n, t) * (Portion(n, t) + 1) <= n
  {
    var p, r := Portion(n, t), Remainder(n, t);
    assert n == p * t + r;
    if t >= 2 {
      assert p * 2 <= p * t;
    }
    if i < r {
      assert i * (p + 1) <= r * (p + 1);
    } else {
      assert p * (i - r) <= p * t;
    }
    assert r * (p + 1) == r * p + r <= t * p + r;
  }

  /** Every range lies inside the array: `0 <= start <= end <= n`. */
  lemma InBounds(n: nat, t: int, i: int)
    requires 0 <= i < t
    ensures Start(n, t, i) <= End(n, t, i) <= n
  {
    Sizes(n, t, i, i);
    Sizes(n, t, t - 1, t - 1);
    if i < t - 1 {
      Ordered(n, t, i, t - 1);
    }
    Tiling(n, t, t - 1);
  }

  /** An earlier range ends no later than a later one starts: the ranges are pairwise disjoint. */
  lemma {:induction false} Ordered(n: nat, t: int, i: int, k: int)
    requires 0 <= i < k < t
    ensures End(n, t, i) <= Start(n, t, k)
    decreases k - i
  {
    Tiling(n, t, k - 1);
    if i + 1 < k {
      Ordered(n, t, i, k - 1);
      Sizes(n, t, k - 1, k - 1);
    }
  }

  /** Every index of `[0, n)` lies in exactly one range; `k` is the worker owning `j`. */
  lemma Owner(n: nat, t: int, j: int) returns (k: int)
    requires t >= 1 && 0 <= j < n
    ensures 0 <= k < t && InRange(n, t, k, j)
    ensures forall k' :: 0 <= k' < t && InRange(n, t, k', j) ==> k' == k
  {
    Tiling(n, t, 0);
    k := 0;
    while j >= End(n, t, k)
      invariant 0 <= k < t && Start(n, t, k) <= j
      decreases t - k
    {
      Tiling(n, t, k);
      k := k + 1;
    }
    forall k' | 0 <= k' < t && InRange(n, t, k', j)
      ensures k' == k
    {
      if k' < k {
        Ordered(n, t, k', k);
      } else if k < k' {
        Ordered(n, t, k, k');
      }
    }
  }

  /** Index `j` lies in some range of `rs`. */
  predicate Covers(rs: seq<Range>, j: int) {
    exists k :: 0 <= k < |rs| && rs[k].start <= j < rs[k].end
  }

  /**
    The partitions `setupThreads` hands out, or None when the thread count is
    rejected (no partition is computed then).
   */
  function Partitions(n: nat, t: int): (rs: Option<seq<Range>>)
    ensures rs.None? <==> !ValidThreadCount(n, t)
    ensures rs.Some? ==> |rs.value| == t
    ensures rs.Some? ==> rs.value[0].start == 0 && rs.value[t - 1].end == n
    ensures rs.Some? ==> forall i :: 0 < i < t ==> rs.value[i - 1].end == rs.value[i].start
    ensures rs.Some? ==> forall i :: 0 <= i < t ==> 0 <= rs.value[i].start < rs.value[i].end <= n
    ensures rs.Some? ==> forall i :: 0 <= i < t ==>
      rs.value[i].end - rs.value[i].start == (if i < n % t then n / t + 1 else n / t)
    ensures rs.Some? ==> forall i, k :: 0 <= i < k < t ==>
      rs.value[i].end <= rs.value[k].start
      && rs.value[k].end - rs.value[k].start <= rs.value[i].end - rs.value[i].start
    ensures rs.Some? ==> forall j :: 0 <= j < n ==> Covers(rs.value, j)
  {
    if !ValidThreadCount(n, t) then None
    else
      var rs := seq(t, i requires 0 <= i < t => Range(Start(n, t, i), End(n, t, i)));
      assert forall i :: 0 <= i < t ==>
        0 <= rs[i].start < rs[i].end <= n && rs[i].end - rs[i].start == (if i < n % t then n / t + 1 else n / t) by {
        forall i | 0 <= i < t
          ensures 0 <= rs[i].start < rs[i].end <= n
          ensures rs[i].end - rs[i].start == (if i < n % t then n / t + 1 else n / t)
        {
          InBounds(n, t, i);
          Sizes(n, t, i, i);
        }
      }
      assert forall i :: 0 < i < t ==> rs[i - 1].end == rs[i].start by {
        forall i | 0 < i < t
          ensures rs[i - 1].end == rs[i].start
        {
          Tiling(n, t, i - 1);
        }
      }
      assert forall i, k :: 0 <= i < k < t ==>
        rs[i].end <= rs[k].start && rs[k].end - rs[k].start <= rs[i].end - rs[i].start by {
        forall i, k | 0 <= i < k < t
          ensures rs[i].end <= rs[k].start && rs[k].end - rs[k].start <= rs[i].end - rs[i].start
        {
          Ordered(n, t, i, k);
          Sizes(n, t, i, k);
        }
      }
      assert forall j :: 0 <= j < n ==> Covers(rs, j) by {
        forall j | 0 <= j < n
          ensures Covers(rs, j)
        {
          var k := Owner(n, t, j);
          assert rs[k].start <= j < rs[k].end;
        }
      }
      Tiling(n, t, 0);
      Some(rs)
  }
}
