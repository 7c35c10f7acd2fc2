/** Latency histograms over any ascending bounds, and the percentile read off them. Durations are reals:
    rounding is not modelled. */
module Histogram {

  /** The bounds in milliseconds the application uses. Durations above the last fall in one more,
      unbounded slot. */
  const BUCKET_BOUNDS_MS: seq<real> :=
    [5.0, 10.0, 25.0, 50.0, 100.0, 250.0, 500.0, 1000.0, 2500.0, 5000.0, 10000.0]

  ghost predicate Ascending(bounds: seq<real>) {
    && (forall i :: 0 <= i < |bounds| ==> 0.0 < bounds[i])
    && (forall i, j :: 0 <= i < j < |bounds| ==> bounds[i] < bounds[j])
  }

  lemma DefaultBoundsAscend()
    ensures Ascending(BUCKET_BOUNDS_MS) && |BUCKET_BOUNDS_MS| == 11
  {
  }

  function Lower(bounds: seq<real>, i: nat): real
    requires i < |bounds|
  {
    if i == 0 then 0.0 else bounds[i - 1]
  }

  function BucketFrom(bounds: seq<real>, duration: real, i: nat): (slot: nat)
    requires i <= |bounds|
    requires forall j :: 0 <= j < i ==> bounds[j] < duration
    ensures slot <= |bounds|
    ensures forall j :: 0 <= j < slot ==> bounds[j] < duration
    ensures slot < |bounds| ==> duration <= bounds[slot]
    decreases |bounds| - i
  {
    if i == |bounds| || duration <= bounds[i] then i else BucketFrom(bounds, duration, i + 1)
  }

  /** `bucket_index`: the first bucket whose bound the duration does not exceed. */
  function BucketIndex(bounds: seq<real>, duration: real): (slot: nat)
    ensures slot <= |bounds|
    ensures forall j :: 0 <= j < slot ==> bounds[j] < duration
    ensures slot < |bounds| ==> duration <= bounds[slot]
  {
    BucketFrom(bounds, duration, 0)
  }

  // ── Histograms of durations ───────────────────────────────────────────────────────────────────

  type Buckets = seq<nat>

  function Zeros(n: nat): Buckets { seq(n, _ => 0) }

  function Bump(b: Buckets, slot: nat): Buckets
    requires slot < |b|
  {
    b[slot := b[slot] + 1]
  }

  function Add(a: Buckets, b: Buckets): Buckets
    requires |a| == |b|
  {
    seq(|a|, i requires 0 <= i < |a| => a[i] + b[i])
  }

  /** The histogram an accumulator holds after observing `durations`. */
  function Of(bounds: seq<real>, durations: seq<real>): (b: Buckets)
    ensures |b| == |bounds| + 1
  {
    if durations == [] then Zeros(|bounds| + 1)
    else Bump(Of(bounds, durations[..|durations| - 1]), BucketIndex(bounds, durations[|durations| - 1]))
  }

  lemma AddBump(a: Buckets, b: Buckets, slot: nat)
    requires |a| == |b| && slot < |b|
    ensures Add(a, Bump(b, slot)) == Bump(Add(a, b), slot)
  {
  }

  lemma AddZeros(a: Buckets)
    ensures Add(a, Zeros(|a|)) == a
  {
  }

  lemma {:induction false} OfConcat(bounds: seq<real>, a: seq<real>, b: seq<real>)
    ensures Of(bounds, a + b) == Add(Of(bounds, a), Of(bounds, b))
    decreases |b|
  {
    if b == [] {
      assert a + b == a;
      AddZeros(Of(bounds, a));
    } else {
      var init, last := b[..|b| - 1], b[|b| - 1];
      OfConcat(bounds, a, init);
      assert (a + b)[..|a + b| - 1] == a + init && (a + b)[|a + b| - 1] == last;
      AddBump(Of(bounds, a), Of(bounds, init), BucketIndex(bounds, last));
    }
  }

  function SumTo(b: Buckets, i: nat): nat
    requires i <= |b|
  {
    if i == 0 then 0 else SumTo(b, i - 1) + b[i - 1]
  }

  function Total(b: Buckets): nat { SumTo(b, |b|) }

  lemma {:induction false} SumToBump(b: Buckets, slot: nat, i: nat)
    requires slot < |b| && i <= |b|
    ensures SumTo(Bump(b, slot), i) == SumTo(b, i) + if slot < i then 1 else 0
  {
    if i > 0 {
      SumToBump(b, slot, i - 1);
    }
  }

  lemma {:induction false} SumToZeros(n: nat, i: nat)
    requires i <= n
    ensures SumTo(Zeros(n), i) == 0
  {
    if i > 0 {
      SumToZeros(n, i - 1);
    }
  }

  lemma {:induction false} SumToAdd(a: Buckets, b: Buckets, i: nat)
    requires |a| == |b| && i <= |a|
    ensures SumTo(Add(a, b), i) == SumTo(a, i) + SumTo(b, i)
  {
    if i > 0 {
      SumToAdd(a, b, i - 1);
    }
  }

  /** How many of `durations` are at most `x`. */
  function AtMost(durations: seq<real>, x: real): nat {
    if durations == [] then 0
    else AtMost(durations[..|durations| - 1], x) + if durations[|durations| - 1] <= x then 1 else 0
  }

  /** How many of `durations` are below `x`. */
  function Under(durations: seq<real>, x: real): nat {
    if durations == [] then 0
    else Under(durations[..|durations| - 1], x) + if durations[|durations| - 1] < x then 1 else 0
  }

  lemma {:induction false} CountsOrdered(durations: seq<real>, x: real, y: real)
    requires x < y
    ensures AtMost(durations, x) <= Under(durations, y) <= AtMost(durations, y) <= |durations|
  {
    if durations != [] {
      CountsOrdered(durations[..|durations| - 1], x, y);
    }
  }

  /** The cumulative histogram counts the durations up to each bound. */
  lemma {:induction false} CumulativeCounts(bounds: seq<real>, durations: seq<real>, i: nat)
    requires Ascending(bounds) && i < |bounds|
    ensures SumTo(Of(bounds, durations), i + 1) == AtMost(durations, bounds[i])
  {
    if durations == [] {
      SumToZeros(|bounds| + 1, i + 1);
    } else {
      var init, last := durations[..|durations| - 1], durations[|durations| - 1];
      CumulativeCounts(bounds, init, i);
      SumToBump(Of(bounds, init), BucketIndex(bounds, last), i + 1);
    }
  }

  lemma {:induction false} TotalCounts(bounds: seq<real>, durations: seq<real>)
    ensures Total(Of(bounds, durations)) == |durations|
  {
    if durations == [] {
      SumToZeros(|bounds| + 1, |bounds| + 1);
    } else {
      var init := durations[..|durations| - 1];
      TotalCounts(bounds, init);
      SumToBump(Of(bounds, init), BucketIndex(bounds, durations[|durations| - 1]), |bounds| + 1);
    }
  }

  // ── The percentile ────────────────────────────────────────────────────────────────────────────

  datatype Percentile = NoValue | Value(ms: real) | DivisionByZero

  /** The scan pairs each bound with a count and stops at the shorter list. */
  function Scanned(bounds: seq<real>, b: Buckets): nat { if |b| < |bounds| then |b| else |bounds| }

  /** The counts up to and including bucket `j` fall short of `rank`. */
  predicate Short(b: Buckets, rank: real, j: nat) {
    j < |b| && (SumTo(b, j + 1) as real) < rank
  }

  /** The bucket the scan stops in: the first that does not fall short, or `n` when all of the first `n`
      do. */
  function StopAt(b: Buckets, rank: real, n: nat, i: nat): (stop: nat)
    requires i <= n <= |b|
    requires forall j :: 0 <= j < i ==> Short(b, rank, j)
    ensures stop <= n
    ensures forall j :: 0 <= j < stop ==> Short(b, rank, j)
    ensures stop < n ==> !Short(b, rank, stop)
    decreases n - i
  {
    if i == n || !Short(b, rank, i) then i else StopAt(b, rank, n, i + 1)
  }

  lemma StopIsUnique(b: Buckets, rank: real, n: nat, i: nat)
    requires i <= n <= |b|
    requires forall j :: 0 <= j < i ==> Short(b, rank, j)
    requires i < n ==> !Short(b, rank, i)
    ensures StopAt(b, rank, n, 0) == i
  {
    var stop := StopAt(b, rank, n, 0);
    var atStop, atI := Short(b, rank, stop), Short(b, rank, i);
    assert stop == n || atStop == (stop < i);
  }

  /** A rank reached `part` of the way into a bucket's `count` observations, spread uniformly. */
  function Spread(lower: real, bound: real, part: real, count: nat): real
    requires count > 0
  {
    lower + (bound - lower) * part / (count as real)
  }

  /** Linear interpolation inside bucket `i`. */
  function Interpolate(bounds: seq<real>, b: Buckets, rank: real, i: nat): Percentile
    requires i < |b| && i < |bounds|
  {
    if b[i] == 0 then DivisionByZero
    else Value(Spread(Lower(bounds, i), bounds[i], rank - SumTo(b, i) as real, b[i]))
  }

  function AtRank(bounds: seq<real>, b: Buckets, rank: real): Percentile {
    var stop := StopAt(b, rank, Scanned(bounds, b), 0);
    if stop == Scanned(bounds, b) then NoValue else Interpolate(bounds, b, rank, stop)
  }

  function Rank(quantile: real, total: nat): real { quantile * total as real }

  lemma RankMonotone(q1: real, q2: real, total: nat)
    requires 0.0 < q1 <= q2 && total > 0
    ensures 0.0 < Rank(q1, total) <= Rank(q2, total)
  {
    Product(q1, total as real);
    if q1 < q2 {
      Product(q2 - q1, total as real);
      assert Rank(q2, total) - Rank(q1, total) == (q2 - q1) * total as real;
    }
  }

  function PercentileOf(bounds: seq<real>, b: Buckets, quantile: real): Percentile {
    if Total(b) == 0 then NoValue else AtRank(bounds, b, Rank(quantile, Total(b)))
  }

  /** Observations spread uniformly over a bucket: the value divides its width as the rank divides its count. */
  predicate Divides(lower: real, bound: real, count: real, part: real, ms: real) {
    (ms - lower) * count == (bound - lower) * part
  }

  /** A percentile of this rank is read in bucket `i`, the first whose running count reaches it. */
  ghost predicate ReadsIn(bounds: seq<real>, b: Buckets, rank: real, i: nat, p: Percentile) {
    && i < |bounds| && i < |b|
    && (i > 0 ==> (SumTo(b, i) as real) < rank) && rank <= SumTo(b, i) as real + b[i] as real
    && (if b[i] == 0 then p == DivisionByZero
        else p.Value? && Divides(if i == 0 then 0.0 else bounds[i - 1], bounds[i], b[i] as real,
                                 rank - SumTo(b, i) as real, p.ms))
  }

  /** The rank is beyond every bounded bucket. */
  ghost predicate BeyondAll(bounds: seq<real>, b: Buckets, rank: real) {
    var n := if |b| < |bounds| then |b| else |bounds|;
    n > 0 ==> (SumTo(b, n) as real) < rank
  }

  ghost predicate IsAtRank(bounds: seq<real>, b: Buckets, rank: real, p: Percentile) {
    if BeyondAll(bounds, b, rank) then p == NoValue else exists i :: ReadsIn(bounds, b, rank, i, p)
  }

  /** What a percentile is, whatever computes it. */
  ghost predicate IsPercentile(bounds: seq<real>, b: Buckets, quantile: real, p: Percentile) {
    if Total(b) == 0 then p == NoValue
    else exists rank: real :: rank == quantile * Total(b) as real && IsAtRank(bounds, b, rank, p)
  }

  lemma SpreadDivides(lower: real, bound: real, part: real, count: nat)
    requires count > 0
    ensures Divides(lower, bound, count as real, part, Spread(lower, bound, part, count))
  {
    var c, x := count as real, (bound - lower) * part;
    assert x / c * c == x;
  }

  lemma {:induction false} SumGrows(b: Buckets, i: nat, j: nat)
    requires i <= j <= |b|
    ensures SumTo(b, i) <= SumTo(b, j)
    decreases j - i
  {
    if i < j {
      SumGrows(b, i, j - 1);
      assert SumTo(b, j) == SumTo(b, j - 1) + b[j - 1];
    }
  }

  lemma ReadsWhereItStops(bounds: seq<real>, b: Buckets, rank: real)
    ensures IsAtRank(bounds, b, rank, AtRank(bounds, b, rank))
  {
    var n := Scanned(bounds, b);
    var i := StopAt(b, rank, n, 0);
    assert i > 0 ==> Short(b, rank, i - 1);
    if i < n {
      assert !Short(b, rank, i) && SumTo(b, i + 1) == SumTo(b, i) + b[i];
      SumGrows(b, i + 1, n);
      if b[i] > 0 {
        SpreadDivides(Lower(bounds, i), bounds[i], rank - SumTo(b, i) as real, b[i]);
      }
      assert ReadsIn(bounds, b, rank, i, AtRank(bounds, b, rank));
    }
  }

  lemma PercentileIsOne(bounds: seq<real>, b: Buckets, quantile: real)
    ensures IsPercentile(bounds, b, quantile, PercentileOf(bounds, b, quantile))
  {
    var rank := Rank(quantile, Total(b));
    ReadsWhereItStops(bounds, b, rank);
    assert Total(b) > 0 ==> IsAtRank(bounds, b, rank, PercentileOf(bounds, b, quantile));
  }

  /** Inside a bucket equal steps of the rank move the value equally. */
  lemma EqualStepsMoveEqually(bounds: seq<real>, b: Buckets, r1: real, r2: real, i: nat, p1: Percentile, p2: Percentile)
    requires ReadsIn(bounds, b, r1, i, p1) && ReadsIn(bounds, b, r2, i, p2) && b[i] > 0
    ensures (p2.ms - p1.ms) * b[i] as real == (bounds[i] - Lower(bounds, i)) * (r2 - r1)
  {
    var lower, count, before := Lower(bounds, i), b[i] as real, SumTo(b, i) as real;
    Differences(p1.ms - lower, p2.ms - lower, count);
    Differences(r1 - before, r2 - before, bounds[i] - lower);
  }

  lemma Differences(x: real, y: real, factor: real)
    ensures (y - x) * factor == y * factor - x * factor && factor * (y - x) == factor * y - factor * x
  {
  }

  /** And the value is stuck on the bucket's bound for its last rank alone. */
  lemma BoundAtLastRankOnly(bounds: seq<real>, b: Buckets, rank: real, i: nat, p: Percentile)
    requires Ascending(bounds) && ReadsIn(bounds, b, rank, i, p) && b[i] > 0
    ensures p.ms == bounds[i] <==> rank == SumTo(b, i) as real + b[i] as real
  {
    WidthPositive(bounds, i);
    DividesAtBound(Lower(bounds, i), bounds[i], b[i] as real, rank - SumTo(b, i) as real, p.ms);
  }

  lemma DividesAtBound(lower: real, bound: real, count: real, part: real, ms: real)
    requires lower < bound && count > 0.0 && Divides(lower, bound, count, part, ms)
    ensures ms == bound <==> part == count
  {
    Proportional(ms - lower, count, bound - lower, part);
  }

  lemma Proportional(x: real, count: real, width: real, part: real)
    requires count > 0.0 && width > 0.0 && x * count == width * part
    ensures x == width <==> part == count
  {
    Differences(width, x, count);
    Differences(count, part, width);
    Scales(x - width, count);
    Scales(part - count, width);
  }

  lemma Scales(a: real, b: real)
    requires b > 0.0
    ensures a * b == 0.0 <==> a == 0.0
    ensures b * a == 0.0 <==> a == 0.0
  {
    Product(a, b);
    Product(-a, b);
  }

  method SumOf(b: Buckets) returns (total: nat)
    ensures total == Total(b)
  {
    total := 0;
    for i := 0 to |b|
      invariant total == SumTo(b, i)
    {
      total := total + b[i];
    }
  }

  /** `percentile_ms`: sum, then scan with a running count and lower bound. */
  method PercentileMs(bounds: seq<real>, b: Buckets, quantile: real) returns (p: Percentile)
    ensures p == PercentileOf(bounds, b, quantile)
    ensures IsPercentile(bounds, b, quantile, p)
  {
    PercentileIsOne(bounds, b, quantile);
    var total := SumOf(b);
    if total == 0 {
      return NoValue;
    }
    var rank := Rank(quantile, total);
    var cumulative, lower := 0, 0.0;
    var n := Scanned(bounds, b);
    for i := 0 to n
      invariant cumulative == SumTo(b, i)
      invariant i < n ==> lower == Lower(bounds, i)
      invariant forall j :: 0 <= j < i ==> Short(b, rank, j)
    {
      var bound, count := bounds[i], b[i];
      if (cumulative + count) as real >= rank {
        StopIsUnique(b, rank, n, i);
        assert PercentileOf(bounds, b, quantile) == Interpolate(bounds, b, rank, i);
        if count == 0 {
          return DivisionByZero;
        }
        return Value(Spread(lower, bound, rank - cumulative as real, count));
      }
      assert Short(b, rank, i);
      cumulative := cumulative + count;
      lower := bound;
    }
    StopIsUnique(b, rank, n, n);
    assert PercentileOf(bounds, b, quantile) == AtRank(bounds, b, rank);
    p := NoValue;
  }

  lemma Product(a: real, b: real)
    requires b > 0.0
    ensures a * b > 0.0 <==> a > 0.0
  {
  }

  /** It divides by zero exactly when asked for a quantile of zero or less of a histogram whose first
      bucket is empty. */
  lemma DividesByZeroIff(bounds: seq<real>, b: Buckets, quantile: real)
    requires bounds != []
    ensures PercentileOf(bounds, b, quantile) == DivisionByZero <==> Total(b) > 0 && quantile <= 0.0 && b[0] == 0
  {
    if Total(b) > 0 {
      var rank := Rank(quantile, Total(b));
      Product(quantile, Total(b) as real);
      assert SumTo(b, 1) == SumTo(b, 0) + b[0];
      if quantile <= 0.0 {
        assert !Short(b, rank, 0);
        StopIsUnique(b, rank, Scanned(bounds, b), 0);
      } else {
        StopsInside(bounds, b, rank);
      }
    }
  }

  /** Where the scan stops on a positive rank, the rank falls inside the bucket's counts. */
  lemma StopsInside(bounds: seq<real>, b: Buckets, rank: real)
    requires rank > 0.0
    ensures var stop := StopAt(b, rank, Scanned(bounds, b), 0);
            stop < Scanned(bounds, b) ==>
              (SumTo(b, stop) as real) < rank <= SumTo(b, stop + 1) as real && b[stop] > 0
  {
    var stop := StopAt(b, rank, Scanned(bounds, b), 0);
    if 0 < stop < Scanned(bounds, b) {
      assert Short(b, rank, stop - 1);
    }
  }

  lemma FractionOfWidth(width: real, part: real, whole: real)
    requires width > 0.0 && 0.0 < part <= whole
    ensures 0.0 < width * part / whole <= width
  {
    var t := part / whole;
    assert 0.0 < t <= 1.0;
    assert width * part / whole == width * t;
    Product(t, width);
    Product(1.0 - t, width);
    assert width * t <= width;
  }

  lemma WidthPositive(bounds: seq<real>, i: nat)
    requires Ascending(bounds) && i < |bounds|
    ensures Lower(bounds, i) < bounds[i]
  {
  }

  /** Inside the stopping bucket, the value lies above the lower bound and at most at the upper. */
  lemma InterpolationInBucket(bounds: seq<real>, b: Buckets, rank: real, i: nat)
    requires Ascending(bounds) && i < |b| && i < |bounds|
    requires (SumTo(b, i) as real) < rank <= SumTo(b, i + 1) as real
    ensures var p := Interpolate(bounds, b, rank, i); p.Value? && Lower(bounds, i) < p.ms <= bounds[i]
  {
    WidthPositive(bounds, i);
    var width, part, count := bounds[i] - Lower(bounds, i), rank - SumTo(b, i) as real, b[i] as real;
    assert SumTo(b, i + 1) == SumTo(b, i) + b[i];
    FractionOfWidth(width, part, count);
    assert Interpolate(bounds, b, rank, i) == Value(Lower(bounds, i) + width * part / count);
  }

  lemma SpreadMonotone(lower: real, bound: real, p1: real, p2: real, count: nat)
    requires count > 0 && lower < bound && p1 <= p2
    ensures Spread(lower, bound, p1, count) <= Spread(lower, bound, p2, count)
  {
    ScaledMonotone(bound - lower, p1, p2, count as real);
  }

  lemma SameBucketMonotone(bounds: seq<real>, b: Buckets, r1: real, r2: real, i: nat)
    requires Ascending(bounds) && i < |b| && i < |bounds| && b[i] > 0 && r1 <= r2
    ensures Interpolate(bounds, b, r1, i).ms <= Interpolate(bounds, b, r2, i).ms
  {
    var before := SumTo(b, i) as real;
    WidthPositive(bounds, i);
    SpreadMonotone(Lower(bounds, i), bounds[i], r1 - before, r2 - before, b[i]);
  }

  lemma ScaledMonotone(width: real, a: real, b: real, c: real)
    requires width > 0.0 && a <= b && c > 0.0
    ensures width * a / c <= width * b / c
  {
    if a < b {
      Product(b - a, width);
      assert width * b - width * a == width * (b - a);
    }
  }

  lemma AtRankMonotone(bounds: seq<real>, b: Buckets, r1: real, r2: real)
    requires Ascending(bounds) && 0.0 < r1 <= r2
    ensures AtRank(bounds, b, r1).NoValue? ==> AtRank(bounds, b, r2).NoValue?
    ensures AtRank(bounds, b, r1).Value? && AtRank(bounds, b, r2).Value? ==>
              AtRank(bounds, b, r1).ms <= AtRank(bounds, b, r2).ms
  {
    var n := Scanned(bounds, b);
    var s1, s2 := StopAt(b, r1, n, 0), StopAt(b, r2, n, 0);
    assert forall j :: Short(b, r1, j) ==> Short(b, r2, j);
    assert s1 <= s2;
    if s2 < n {
      StopsInside(bounds, b, r1);
      StopsInside(bounds, b, r2);
      InterpolationInBucket(bounds, b, r1, s1);
      InterpolationInBucket(bounds, b, r2, s2);
      if s1 == s2 {
        SameBucketMonotone(bounds, b, r1, r2, s1);
      } else {
        assert bounds[s1] <= Lower(bounds, s2);
      }
    }
  }

  /** A higher quantile never reads lower, and once one falls off the last bound so do all above it. */
  lemma PercentileIsMonotone(bounds: seq<real>, b: Buckets, q1: real, q2: real)
    requires Ascending(bounds) && 0.0 < q1 <= q2
    ensures PercentileOf(bounds, b, q1).NoValue? ==> PercentileOf(bounds, b, q2).NoValue?
    ensures PercentileOf(bounds, b, q1).Value? && PercentileOf(bounds, b, q2).Value? ==>
              PercentileOf(bounds, b, q1).ms <= PercentileOf(bounds, b, q2).ms
  {
    if Total(b) > 0 {
      var r1, r2 := Rank(q1, Total(b)), Rank(q2, Total(b));
      RankMonotone(q1, q2, Total(b));
      AtRankMonotone(bounds, b, r1, r2);
    }
  }

  // ── Against the true order statistic ──────────────────────────────────────────────────────────

  function Ceil(r: real): int { -((-r).Floor) }

  /** `x` is the `k`-th smallest of `durations`. */
  ghost predicate IsKth(durations: seq<real>, k: int, x: real) {
    x in durations && Under(durations, x) < k <= AtMost(durations, x)
  }

  /** The buckets below the order statistic's all fall short of the rank; its own does not. */
  lemma StopsAtOrderStatistic(bounds: seq<real>, durations: seq<real>, rank: real, x: real)
    requires Ascending(bounds) && rank > 0.0 && IsKth(durations, Ceil(rank), x)
    ensures StopAt(Of(bounds, durations), rank, |bounds|, 0) == BucketIndex(bounds, x)
  {
    var b := Of(bounds, durations);
    var slot := BucketIndex(bounds, x);
    forall j | 0 <= j < slot ensures Short(b, rank, j) {
      CumulativeCounts(bounds, durations, j);
      CountsOrdered(durations, bounds[j], x);
    }
    if slot < |bounds| {
      CumulativeCounts(bounds, durations, slot);
      if x < bounds[slot] {
        CountsOrdered(durations, x, bounds[slot]);
        assert AtMost(durations, x) <= AtMost(durations, bounds[slot]) by {
          AtMostMonotone(durations, x, bounds[slot]);
        }
      }
      assert !Short(b, rank, slot);
    }
    StopIsUnique(b, rank, |bounds|, slot);
  }

  lemma {:induction false} AtMostMonotone(durations: seq<real>, x: real, y: real)
    requires x <= y
    ensures AtMost(durations, x) <= AtMost(durations, y)
  {
    if durations != [] {
      AtMostMonotone(durations[..|durations| - 1], x, y);
    }
  }

  /** For every histogram of durations and every positive quantile: with `x` the ceil(q·n)-th smallest
      duration, there is no value exactly when `x` exceeds the last bound, and otherwise the value lies
      in `x`'s own bucket. */
  lemma PercentileInBucketOfOrderStatistic(bounds: seq<real>, durations: seq<real>, quantile: real, x: real)
    requires Ascending(bounds) && durations != [] && 0.0 < quantile
    requires IsKth(durations, Ceil(Rank(quantile, |durations|)), x)
    ensures var p := PercentileOf(bounds, Of(bounds, durations), quantile);
            var slot := BucketIndex(bounds, x);
            if slot == |bounds| then p.NoValue?
            else p.Value? && Lower(bounds, slot) < p.ms <= bounds[slot]
  {
    TotalCounts(bounds, durations);
    var b := Of(bounds, durations);
    var rank := Rank(quantile, |durations|);
    RankMonotone(quantile, quantile, |durations|);
    StopsAtOrderStatistic(bounds, durations, rank, x);
    StopsInside(bounds, b, rank);
    if BucketIndex(bounds, x) < |bounds| {
      InterpolationInBucket(bounds, b, rank, BucketIndex(bounds, x));
    }
  }

  /** So for non-negative durations the value is off by at most the width of one bucket. */
  lemma PercentileError(bounds: seq<real>, durations: seq<real>, quantile: real, x: real)
    requires Ascending(bounds) && durations != [] && 0.0 < quantile && x >= 0.0
    requires IsKth(durations, Ceil(Rank(quantile, |durations|)), x)
    ensures var p := PercentileOf(bounds, Of(bounds, durations), quantile);
            var slot := BucketIndex(bounds, x);
            p.Value? ==>
              slot < |bounds| && -(bounds[slot] - Lower(bounds, slot)) < p.ms - x <= bounds[slot] - Lower(bounds, slot)
  {
    PercentileInBucketOfOrderStatistic(bounds, durations, quantile, x);
  }

  // The order statistic those results speak of exists, at every rank they use.

  lemma {:induction false} CountsAgree(durations: seq<real>, x: real, y: real)
    requires forall d :: d in durations ==> (d < x <==> d <= y)
    ensures Under(durations, x) == AtMost(durations, y)
  {
    if durations != [] {
      var init := durations[..|durations| - 1];
      assert forall d :: d in init ==> d in durations;
      assert durations[|durations| - 1] in durations;
      CountsAgree(init, x, y);
    }
  }

  /** The largest duration below `x`. */
  lemma {:induction false} Predecessor(durations: seq<real>, x: real) returns (y: real)
    requires Under(durations, x) > 0
    ensures y in durations && y < x && forall d :: d in durations && d < x ==> d <= y
  {
    var init, last := durations[..|durations| - 1], durations[|durations| - 1];
    assert forall d :: d in durations ==> d in init || d == last;
    if Under(init, x) == 0 {
      y := last;
      NoneUnder(init, x);
    } else {
      y := Predecessor(init, x);
      if y < last < x {
        y := last;
      }
    }
  }

  lemma {:induction false} NoneUnder(durations: seq<real>, x: real)
    requires Under(durations, x) == 0
    ensures forall d :: d in durations ==> d >= x
  {
    if durations != [] {
      NoneUnder(durations[..|durations| - 1], x);
      assert forall d :: d in durations ==> d in durations[..|durations| - 1] || d == durations[|durations| - 1];
    }
  }

  lemma {:induction false} Descend(durations: seq<real>, k: int, from: real) returns (x: real)
    requires from in durations && 1 <= k <= AtMost(durations, from)
    ensures IsKth(durations, k, x)
    decreases Under(durations, from)
  {
    if Under(durations, from) < k {
      x := from;
    } else {
      var y := Predecessor(durations, from);
      CountsAgree(durations, from, y);
      UnderLessThanAtMost(durations, y);
      x := Descend(durations, k, y);
    }
  }

  lemma {:induction false} UnderLessThanAtMost(durations: seq<real>, x: real)
    ensures Under(durations, x) <= AtMost(durations, x)
    ensures x in durations ==> Under(durations, x) < AtMost(durations, x)
  {
    if durations != [] {
      UnderLessThanAtMost(durations[..|durations| - 1], x);
      assert x in durations ==> x in durations[..|durations| - 1] || x == durations[|durations| - 1];
    }
  }

  lemma {:induction false} Largest(durations: seq<real>) returns (x: real)
    requires durations != []
    ensures x in durations && AtMost(durations, x) == |durations|
    ensures forall d :: d in durations ==> d <= x
  {
    var init, last := durations[..|durations| - 1], durations[|durations| - 1];
    assert forall d :: d in durations ==> d in init || d == last;
    if init == [] {
      x := last;
    } else {
      x := Largest(init);
      if x < last {
        AtMostMonotone(init, x, last);
        CountsOrdered(init, x, last);
        x := last;
      }
    }
  }

  lemma KthExists(durations: seq<real>, k: int) returns (x: real)
    requires 1 <= k <= |durations|
    ensures IsKth(durations, k, x)
  {
    var largest := Largest(durations);
    x := Descend(durations, k, largest);
  }

  /** Every quantile in (0, 1] of a non-empty history has its order statistic. */
  lemma RankInRange(n: nat, quantile: real)
    requires n > 0 && 0.0 < quantile <= 1.0
    ensures 1 <= Ceil(Rank(quantile, n)) <= n
  {
    Product(quantile, n as real);
    assert quantile * n as real <= n as real by {
      assert n as real - quantile * n as real == (1.0 - quantile) * n as real;
      if quantile < 1.0 {
        Product(1.0 - quantile, n as real);
      }
    }
  }

  /** No value comes back exactly of no durations, or when the order statistic exceeds the last bound. */
  lemma PercentileMissingIff(bounds: seq<real>, durations: seq<real>, quantile: real)
    requires Ascending(bounds) && bounds != [] && 0.0 < quantile <= 1.0
    ensures PercentileOf(bounds, Of(bounds, durations), quantile).NoValue? <==>
      durations == [] || exists x :: IsKth(durations, Ceil(Rank(quantile, |durations|)), x) && x > bounds[|bounds| - 1]
  {
    TotalCounts(bounds, durations);
    if durations != [] {
      var k := Ceil(Rank(quantile, |durations|));
      RankInRange(|durations|, quantile);
      var x := KthExists(durations, k);
      PercentileInBucketOfOrderStatistic(bounds, durations, quantile, x);
      forall y | IsKth(durations, k, y) ensures y == x {
        KthIsUnique(durations, k, x, y);
      }
    }
  }

  lemma KthIsUnique(durations: seq<real>, k: int, x: real, y: real)
    requires IsKth(durations, k, x) && IsKth(durations, k, y)
    ensures x == y
  {
    if x < y {
      CountsOrdered(durations, x, y);
    } else if y < x {
      CountsOrdered(durations, y, x);
    }
  }
}
