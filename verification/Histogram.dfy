/** The pool's duration histogram: fixed cumulative buckets, every counter a saturating u64. */
module Histogram {
  import opened Bytes

  const BOUNDS_MS: seq<nat> := [10, 25, 50, 100, 250, 500, 1_000, 2_500, 5_000, 10_000]
  const BUCKET_COUNT: nat := 11

  /** A saturating u64 counter that has counted n. */
  function Cap(n: nat): (c: nat)
    ensures c <= U64_MAX && c <= n && (n <= U64_MAX ==> c == n)
  {
    if n > U64_MAX then U64_MAX else n
  }

  function SatAdd(a: nat, b: nat): (c: nat)
  {
    Cap(a + b)
  }

  /** The durations of a log that bucket i is for: up to its bound, or all of them in the last bucket. */
  function Within(log: seq<nat>, i: nat): (n: nat)
    requires i < BUCKET_COUNT
    ensures n <= |log|
  {
    if log == [] then 0
    else Within(log[..|log| - 1], i) + if i == BUCKET_COUNT - 1 || log[|log| - 1] <= BOUNDS_MS[i] then 1 else 0
  }

  /** The total of a log, each duration clamped to 64 bits. */
  function Total(log: seq<nat>): (n: nat)
  {
    if log == [] then 0 else Total(log[..|log| - 1]) + Cap(log[|log| - 1])
  }

  /** Buckets are cumulative and the last one counts everything. */
  lemma {:induction false} BucketsAreCumulative(log: seq<nat>, i: nat, j: nat)
    requires i <= j < BUCKET_COUNT
    ensures Within(log, i) <= Within(log, j)
    ensures Within(log, BUCKET_COUNT - 1) == |log|
    ensures Cap(Within(log, i)) <= Cap(Within(log, j))
  {
    if log != [] {
      BucketsAreCumulative(log[..|log| - 1], i, j);
      assert j < BUCKET_COUNT - 1 ==> BOUNDS_MS[i] <= BOUNDS_MS[j];
    }
  }

  /** Recording one more duration, on the capped values. */
  lemma {:induction false} WithinSnoc(log: seq<nat>, d: nat, i: nat)
    requires i < BUCKET_COUNT
    ensures Cap(Within(log + [d], i)) ==
            if i == BUCKET_COUNT - 1 || Cap(d) <= BOUNDS_MS[i] then SatAdd(Cap(Within(log, i)), 1)
            else Cap(Within(log, i))
  {
    assert (log + [d])[..|log|] == log;
    assert i < BUCKET_COUNT - 1 ==> BOUNDS_MS[i] <= 10_000;
  }

  lemma {:induction false} TotalSnoc(log: seq<nat>, d: nat)
    ensures Cap(Total(log + [d])) == SatAdd(Cap(Total(log)), Cap(d))
  {
    assert (log + [d])[..|log|] == log;
    CapAdd(Total(log), Cap(d));
    hide Cap, SatAdd;
  }

  lemma CapAdd(n: nat, d: nat)
    ensures Cap(n + d) == SatAdd(Cap(n), d)
  {
  }

  class DurationHistogram {
    var count: nat
    var sumMs: nat
    const buckets: array<nat>
    ghost var log: seq<nat>  // every duration recorded, in milliseconds

    /** Every field is the capped statistic of the log. */
    ghost predicate Valid()
      reads this, buckets
    {
      && buckets.Length == BUCKET_COUNT
      && count == Cap(|log|)
      && sumMs == Cap(Total(log))
      && forall i :: 0 <= i < BUCKET_COUNT ==> buckets[i] == Cap(Within(log, i))
    }

    constructor ()
      ensures Valid() && log == [] && fresh(buckets)
    {
      count, sumMs, log := 0, 0, [];
      buckets := new nat[BUCKET_COUNT](_ => 0);
    }

    method Record(elapsedMs: nat)
      requires Valid()
      modifies this, buckets
      ensures Valid() && log == old(log) + [elapsedMs]
    {
      hide Cap, SatAdd, Within, Total;
      var ms := Cap(elapsedMs);
      ghost var before := log;
      log := log + [elapsedMs];
      TotalSnoc(before, elapsedMs);
      CapAdd(|before|, 1);
      count := SatAdd(count, 1);
      sumMs := SatAdd(sumMs, ms);
      for i := 0 to BUCKET_COUNT - 1
        modifies buckets
        invariant forall k :: 0 <= k < i ==> buckets[k] == Cap(Within(log, k))
        invariant forall k :: i <= k < BUCKET_COUNT ==> buckets[k] == Cap(Within(before, k))
      {
        WithinSnoc(before, elapsedMs, i);
        if ms <= BOUNDS_MS[i] {
          buckets[i] := SatAdd(buckets[i], 1);
        }
      }
      WithinSnoc(before, elapsedMs, BUCKET_COUNT - 1);
      buckets[BUCKET_COUNT - 1] := SatAdd(buckets[BUCKET_COUNT - 1], 1);
    }
  }
}
