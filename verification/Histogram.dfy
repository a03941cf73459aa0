/**
 The fixed-granularity latency histogram: 1 ns, 10 ns, 100 ns and 1 us buckets
 and one for overflow. Percentiles read from the buckets are compared with the
 order statistics of the samples themselves.
 */
module Histogram {
  const R0: nat := 1000
  const R1: nat := 1900
  const R2: nat := 2800
  const R3: nat := 3700
  const BUCKETS: nat := 3701

  function NsToBucket(ns: nat): (i: nat)
    ensures i < BUCKETS
  {
    if ns < 1000 then ns
    else if ns < 10000 then R0 + (ns - 1000) / 10
    else if ns < 100000 then R1 + (ns - 10000) / 100
    else if ns < 1000000 then R2 + (ns - 100000) / 1000
    else R3
  }

  function BucketLo(i: nat): nat {
    if i < R0 then i
    else if i < R1 then 1000 + (i - R0) * 10
    else if i < R2 then 10000 + (i - R1) * 100
    else if i < R3 then 100000 + (i - R2) * 1000
    else 1000000
  }

  function BucketStep(i: nat): nat {
    if i < R0 then 1 else if i < R1 then 10 else if i < R2 then 100 else if i < R3 then 1000 else 0
  }

  /** What a percentile query reports for a bucket. */
  function Midpoint(i: nat): nat {
    BucketLo(i) + BucketStep(i) / 2
  }

  /** Buckets are intervals in order: a sample lies in its bucket's interval. */
  lemma BucketHoldsSample(ns: nat)
    ensures BucketLo(NsToBucket(ns)) <= ns
    ensures ns < 1000000 ==> ns < BucketLo(NsToBucket(ns)) + BucketStep(NsToBucket(ns))
  {
  }

  lemma BucketsMonotone(x: nat, y: nat)
    requires x <= y
    ensures NsToBucket(x) <= NsToBucket(y)
  {
  }

  /** The value reported for a sample, by the sample alone. */
  function Reported(x: nat): nat {
    if x < 1000 then x
    else if x < 10000 then x - x % 10 + 5
    else if x < 100000 then x - x % 100 + 50
    else if x < 1000000 then x - x % 1000 + 500
    else 1000000
  }

  lemma MidpointIsReported(x: nat)
    ensures Midpoint(NsToBucket(x)) == Reported(x)
  {
  }

  /** Half a percent: the reported value is within 1/200 of the sample. */
  lemma MidpointIsClose(x: nat)
    requires x < 1000000
    ensures var r := Midpoint(NsToBucket(x)); 200 * (r - x) <= x && 200 * (x - r) <= x
  {
    BucketHoldsSample(x);
  }

  // ---------------------------------------------------------------------- counting

  /** Samples that fall in bucket `i`. */
  function InBucket(samples: seq<nat>, i: nat): nat {
    if samples == [] then 0
    else InBucket(samples[..|samples| - 1], i) + if NsToBucket(samples[|samples| - 1]) == i then 1 else 0
  }

  /** Samples that fall below bucket `i`. */
  function Below(samples: seq<nat>, i: nat): nat {
    if samples == [] then 0
    else Below(samples[..|samples| - 1], i) + if NsToBucket(samples[|samples| - 1]) < i then 1 else 0
  }

  lemma {:induction false} BelowNext(samples: seq<nat>, i: nat)
    ensures Below(samples, i + 1) == Below(samples, i) + InBucket(samples, i)
  {
    if samples != [] {
      BelowNext(samples[..|samples| - 1], i);
    }
  }

  lemma {:induction false} BelowEnds(samples: seq<nat>)
    ensures Below(samples, 0) == 0 && Below(samples, BUCKETS) == |samples|
  {
    if samples != [] {
      BelowEnds(samples[..|samples| - 1]);
    }
  }

  ghost predicate Sorted(s: seq<nat>) {
    forall i, j :: 0 <= i <= j < |s| ==> s[i] <= s[j]
  }

  /** Below a bucket depends on the samples as a multiset, not on their order. */
  lemma {:induction false} BelowOfPermutation(s: seq<nat>, t: seq<nat>, i: nat)
    requires multiset(s) == multiset(t)
    ensures Below(s, i) == Below(t, i)
    decreases |s|
  {
    if s == [] {
      assert |multiset(t)| == 0;
    } else {
      var n := |s| - 1;
      var x := s[n];
      assert x in multiset(t);
      var j :| 0 <= j < |t| && t[j] == x;
      DropOne(s, n);
      DropOne(t, j);
      assert multiset(s[..n] + s[n + 1..]) == multiset(s) - multiset{x};
      assert multiset(t[..j] + t[j + 1..]) == multiset(t) - multiset{x};
      BelowOfPermutation(s[..n] + s[n + 1..], t[..j] + t[j + 1..], i);
      BelowWithout(s, n, i);
      BelowWithout(t, j, i);
    }
  }

  lemma DropOne(t: seq<nat>, j: nat)
    requires j < |t|
    ensures multiset(t) == multiset(t[..j] + t[j + 1..]) + multiset{t[j]}
  {
    assert t == t[..j] + [t[j]] + t[j + 1..];
  }

  lemma BelowWithout(t: seq<nat>, j: nat, i: nat)
    requires j < |t|
    ensures Below(t, i) == Below(t[..j] + t[j + 1..], i) + if NsToBucket(t[j]) < i then 1 else 0
  {
    hide NsToBucket;
    assert t == t[..j + 1] + t[j + 1..] && t[..j + 1][..j] == t[..j];
    BelowConcat(t[..j + 1], t[j + 1..], i);
    BelowConcat(t[..j], t[j + 1..], i);
  }

  lemma {:induction false} BelowConcat(a: seq<nat>, b: seq<nat>, i: nat)
    ensures Below(a + b, i) == Below(a, i) + Below(b, i)
    decreases |b|
  {
    if b == [] {
      assert a + b == a;
    } else {
      var n := |b| - 1;
      BelowConcat(a, b[..n], i);
      assert (a + b)[..|a + b| - 1] == a + b[..n];
    }
  }

  /** In sorted order the samples below a bucket come first. */
  lemma {:induction false} BelowOfSorted(s: seq<nat>, k: nat, i: nat)
    requires Sorted(s) && k < |s|
    ensures NsToBucket(s[k]) < i ==> Below(s, i) > k
    ensures NsToBucket(s[k]) >= i ==> Below(s, i) <= k
  {
    hide NsToBucket;
    var n := |s| - 1;
    if k < n {
      BelowOfSorted(s[..n], k, i);
      BucketsMonotone(s[k], s[n]);
    } else if n > 0 {
      BelowOfSorted(s[..n], n - 1, i);
      BelowAtMost(s[..n], i);
      BucketsMonotone(s[n - 1], s[n]);
    }
  }

  lemma {:induction false} BelowAtMost(s: seq<nat>, i: nat)
    ensures Below(s, i) <= |s|
  {
    if s != [] {
      BelowAtMost(s[..|s| - 1], i);
    }
  }

  // --------------------------------------------------------------------- histogram

  function Sum(samples: seq<nat>): nat {
    if samples == [] then 0 else Sum(samples[..|samples| - 1]) + samples[|samples| - 1]
  }

  /** A new sample has its place in ascending order. */
  lemma {:induction false} PlaceFor(s: seq<nat>, x: nat) returns (r: seq<nat>)
    requires Sorted(s)
    ensures Sorted(r) && multiset(r) == multiset(s) + multiset{x}
  {
    if s == [] || s[|s| - 1] <= x {
      r := s + [x];
    } else {
      var n := |s| - 1;
      var q := PlaceFor(s[..n], x);
      r := q + [s[n]];
      assert s == s[..n] + [s[n]];
      forall i | 0 <= i < |q| ensures q[i] <= s[n] {
        assert q[i] in multiset(q);
        assert q[i] == x || q[i] in s[..n];
      }
    }
  }

  /** Every histogram's samples can be ranked, so the percentile's promise is never empty. */
  lemma {:induction false} RankingExists(samples: seq<nat>) returns (s: seq<nat>)
    ensures Ranks(s, samples)
  {
    if samples == [] {
      s := [];
    } else {
      var n := |samples| - 1;
      var q := RankingExists(samples[..n]);
      s := PlaceFor(q, samples[n]);
      assert samples == samples[..n] + [samples[n]];
    }
  }

  /** `s` is the samples in ascending order. */
  ghost predicate Ranks(s: seq<nat>, samples: seq<nat>) {
    Sorted(s) && multiset(s) == multiset(samples)
  }

  /**
   The one bucket at which the running count first exceeds `target` is the
   bucket of the sample of that rank.
   */
  lemma CrossingBucket(samples: seq<nat>, s: seq<nat>, target: nat, i: nat)
    requires Ranks(s, samples) && target < |s|
    requires Below(samples, i) <= target < Below(samples, i + 1)
    ensures NsToBucket(s[target]) == i
  {
    hide NsToBucket;
    BelowOfPermutation(samples, s, i);
    BelowOfPermutation(samples, s, i + 1);
    BelowOfSorted(s, target, i);
    BelowOfSorted(s, target, i + 1);
  }

  lemma {:induction false} InBucketNext(samples: seq<nat>, ns: nat, i: nat)
    ensures InBucket(samples + [ns], i) == InBucket(samples, i) + if NsToBucket(ns) == i then 1 else 0
  {
    assert (samples + [ns])[..|samples|] == samples;
  }

  const ROWS: nat := 14

  const EDGES: seq<int> := [100, 250, 500, 1000, 2500, 5000, 10000, 25000, 50000, 100000,
                            250000, 500000, 1000000, 0xFFFF_FFFF_FFFF_FFFF]

  /** The printed row of a bucket: the first edge above its lower bound. */
  function RowOf(i: nat): (r: nat)
    ensures r < ROWS
    ensures BucketLo(i) < EDGES[r] && (r > 0 ==> EDGES[r - 1] <= BucketLo(i))
  {
    var lo := BucketLo(i);
    if lo < 100 then 0 else if lo < 250 then 1 else if lo < 500 then 2 else if lo < 1000 then 3
    else if lo < 2500 then 4 else if lo < 5000 then 5 else if lo < 10000 then 6 else if lo < 25000 then 7
    else if lo < 50000 then 8 else if lo < 100000 then 9 else if lo < 250000 then 10
    else if lo < 500000 then 11 else if lo < 1000000 then 12 else 13
  }

  /** The row's label covers the sample; the last row is open above. */
  predicate Covers(r: nat, ns: nat)
    requires r < ROWS
  {
    (r > 0 ==> EDGES[r - 1] <= ns) && (r < ROWS - 1 ==> ns < EDGES[r])
  }

  /** Row edges fall on bucket edges, so a sample is printed in the row that contains it. */
  lemma RowContainsSample(ns: nat)
    ensures Covers(RowOf(NsToBucket(ns)), ns)
  {
    BucketHoldsSample(ns);
  }

  /** Samples whose row is `r`, among the first `n` buckets' samples. */
  function InRow(samples: seq<nat>, r: nat, n: nat): nat {
    if samples == [] then 0
    else
      var i := NsToBucket(samples[|samples| - 1]);
      InRow(samples[..|samples| - 1], r, n) + if i < n && RowOf(i) == r then 1 else 0
  }

  lemma {:induction false} InRowNext(samples: seq<nat>, r: nat, n: nat)
    ensures InRow(samples, r, n + 1) == InRow(samples, r, n) + if RowOf(n) == r then InBucket(samples, n) else 0
  {
    hide NsToBucket, RowOf;
    if samples != [] {
      InRowNext(samples[..|samples| - 1], r, n);
    }
  }

  lemma {:induction false} InRowNone(samples: seq<nat>, r: nat)
    ensures InRow(samples, r, 0) == 0
  {
    if samples != [] {
      InRowNone(samples[..|samples| - 1], r);
    }
  }

  /** Samples between the row's edges. */
  function Between(samples: seq<nat>, r: nat): nat
    requires r < ROWS
  {
    if samples == [] then 0
    else Between(samples[..|samples| - 1], r) + if Covers(r, samples[|samples| - 1]) then 1 else 0
  }

  lemma {:induction false} InRowIsBetween(samples: seq<nat>, r: nat)
    requires r < ROWS
    ensures InRow(samples, r, BUCKETS) == Between(samples, r)
  {
    if samples != [] {
      var x := samples[|samples| - 1];
      InRowIsBetween(samples[..|samples| - 1], r);
      RowContainsSample(x);
      EdgesAscend(r, RowOf(NsToBucket(x)));
    }
  }

  lemma EdgesAscend(r: nat, q: nat)
    requires r < ROWS && q < ROWS
    ensures r < q ==> EDGES[r] <= EDGES[q - 1]
    ensures q < r ==> EDGES[q] <= EDGES[r - 1]
  {
  }

  function SumTo(rows: seq<nat>, n: nat): nat
    requires n <= |rows|
  {
    if n == 0 then 0 else SumTo(rows, n - 1) + rows[n - 1]
  }

  class LatencyHistogram {
    const buckets: array<nat>
    var count: nat
    var sumNs: nat
    var maxNs: nat
    ghost var samples: seq<nat>

    ghost predicate Valid()
      reads this, buckets
    {
      && buckets.Length == BUCKETS
      && count == |samples| && sumNs == Sum(samples)
      && (forall i :: 0 <= i < BUCKETS ==> buckets[i] == InBucket(samples, i))
      && (forall k :: 0 <= k < |samples| ==> samples[k] <= maxNs)
      && (if samples == [] then maxNs == 0 else maxNs in samples)
    }

    constructor ()
      ensures Valid() && samples == [] && fresh(buckets)
    {
      buckets := new nat[BUCKETS](i => 0);
      count, sumNs, maxNs, samples := 0, 0, 0, [];
    }

    /** `ns` is the conversion of `end - start`; intervals that do not advance are dropped. */
    method Record(start: nat, end: nat, ns: nat)
      requires Valid()
      modifies this, buckets
      ensures Valid()
      ensures samples == if end <= start then old(samples) else old(samples) + [ns]
      ensures sumNs == Sum(samples)
    {
      hide NsToBucket;
      if end <= start {
        return;
      }
      forall i | 0 <= i < BUCKETS
        ensures InBucket(samples + [ns], i) == InBucket(samples, i) + if NsToBucket(ns) == i then 1 else 0
      {
        InBucketNext(samples, ns, i);
      }
      buckets[NsToBucket(ns)] := buckets[NsToBucket(ns)] + 1;
      count := count + 1;
      sumNs := sumNs + ns;
      if ns > maxNs {
        maxNs := ns;
      }
      samples := samples + [ns];
      assert samples[|samples| - 1] == ns && samples[..|samples| - 1] == old(samples);
      assert old(maxNs) in old(samples) ==> old(maxNs) in samples;
    }

    /**
     The bucketed percentile against sorting: for the sample `x` of rank `target`
     below 1 ms, the answer is within half a percent of `x`; from 1 ms on it is
     the overflow bound; past the last rank it is the largest sample.
     */
    method PercentileNs(target: nat, ghost sorted: seq<nat>) returns (r: nat)
      requires Valid() && Ranks(sorted, samples)
      ensures count == 0 ==> r == 0
      ensures target < count == |sorted| ==> r == Reported(sorted[target])
      ensures target < count == |sorted| && sorted[target] >= 1000000 ==> r == 1000000
      ensures target < count == |sorted| && sorted[target] < 1000000 ==>
                var x := sorted[target]; 200 * (r - x) <= x && 200 * (x - r) <= x
      ensures 0 < count <= target ==> r in samples && forall k :: 0 <= k < |samples| ==> samples[k] <= r
    {
      hide NsToBucket;
      assert |sorted| == |multiset(sorted)| == |multiset(samples)| == count;
      if count == 0 {
        return 0;
      }
      var cum := 0;
      BelowEnds(samples);
      for i := 0 to BUCKETS
        invariant cum == Below(samples, i) <= target
      {
        BelowNext(samples, i);
        cum := cum + buckets[i];
        if cum >= target + 1 {
          BelowAtMost(samples, i + 1);
          CrossingBucket(samples, sorted, target, i);
          MidpointIsReported(sorted[target]);
          if sorted[target] < 1000000 {
            MidpointIsClose(sorted[target]);
          }
          return BucketLo(i) + BucketStep(i) / 2;
        }
      }
      return maxNs;
    }

    /** The row table of `print`: each row counts the samples between its edges. */
    method RowCounts() returns (rows: array<nat>)
      requires Valid()
      ensures rows.Length == ROWS
      ensures forall r :: 0 <= r < ROWS ==> rows[r] == Between(samples, r)
      ensures SumTo(rows[..], ROWS) == count
    {
      rows := new nat[ROWS](i => 0);
      forall r | 0 <= r < ROWS ensures InRow(samples, r, 0) == 0 {
        InRowNone(samples, r);
      }
      for i := 0 to BUCKETS
        invariant forall r :: 0 <= r < ROWS ==> rows[r] == InRow(samples, r, i)
      {
        forall r | 0 <= r < ROWS
          ensures InRow(samples, r, i + 1) == InRow(samples, r, i) + if RowOf(i) == r then buckets[i] else 0
        {
          InRowNext(samples, r, i);
        }
        if buckets[i] != 0 {
          var r := FindRow(i);
          rows[r] := rows[r] + buckets[i];
        }
      }
      forall r | 0 <= r < ROWS ensures rows[r] == Between(samples, r) {
        InRowIsBetween(samples, r);
      }
      assert rows[..] == RowVector(samples);
      RowsSum(samples);
    }
  }

  /** The inner search for the first edge above a bucket. */
  method FindRow(i: nat) returns (r: nat)
    ensures r == RowOf(i)
  {
    hide BucketLo;
    r := 0;
    while !(BucketLo(i) < EDGES[r])
      invariant 0 <= r <= RowOf(i)
      decreases RowOf(i) - r
    {
      EdgesAscend(r, RowOf(i));
      r := r + 1;
    }
    EdgesAscend(r, RowOf(i));
  }

  function RowVector(samples: seq<nat>): (v: seq<nat>)
    ensures |v| == ROWS
  {
    seq(ROWS, r requires 0 <= r < ROWS => InRow(samples, r, BUCKETS))
  }

  lemma {:induction false} SumBumped(rows: seq<nat>, k: nat, n: nat)
    requires k < |rows| && n <= |rows|
    ensures SumTo(rows[k := rows[k] + 1], n) == SumTo(rows, n) + if k < n then 1 else 0
    decreases n
  {
    if n > 0 {
      SumBumped(rows, k, n - 1);
    }
  }

  lemma {:induction false} SumOfZeros(rows: seq<nat>, n: nat)
    requires n <= |rows| && forall i :: 0 <= i < |rows| ==> rows[i] == 0
    ensures SumTo(rows, n) == 0
    decreases n
  {
    if n > 0 {
      SumOfZeros(rows, n - 1);
    }
  }

  lemma {:induction false} RowsSum(samples: seq<nat>)
    ensures SumTo(RowVector(samples), ROWS) == |samples|
  {
    hide NsToBucket, RowOf, SumTo;
    if samples == [] {
      SumOfZeros(RowVector(samples), ROWS);
    } else {
      var n := |samples| - 1;
      RowsSum(samples[..n]);
      var k := RowOf(NsToBucket(samples[n]));
      var v := RowVector(samples[..n]);
      SumBumped(v, k, ROWS);
      assert RowVector(samples) == v[k := v[k] + 1];
    }
  }
}
