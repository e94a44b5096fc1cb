/** `largestTriangleThreeBuckets` of xwebql.js, for a whole number of samples. */
module Lttb {

  /** n data points are to be thinned to t of them. */
  predicate Thins(n: nat, t: nat)
  {
    3 <= t < n
  }

  /** `floor(i * every)` with `every = (n - 2) / (t - 2)`. */
  function Offset(n: nat, t: nat, i: nat): nat
    requires Thins(n, t)
  {
    (i * (n - 2)) / (t - 2)
  }

  /** Bucket i is the range from BucketStart(i) to BucketStart(i + 1). */
  function BucketStart(n: nat, t: nat, i: nat): nat
    requires Thins(n, t)
  {
    Offset(n, t, i) + 1
  }

  /** The end of the range averaged for bucket i; the range starts where bucket i ends. */
  function AverageEnd(n: nat, t: nat, i: nat): nat
    requires Thins(n, t)
  {
    if BucketStart(n, t, i + 2) < n then BucketStart(n, t, i + 2) else n
  }

  lemma ProductMonotone(a: int, b: int, d: nat)
    requires a <= b
    ensures a * d <= b * d
  {
  }

  lemma Quotient(x: nat, d: nat, q: nat)
    requires d > 0 && q * d <= x < q * d + d
    ensures x / d == q
  {
    var k := x / d;
    assert k * d <= x < k * d + d;
    if k < q {
      ProductMonotone(k + 1, q, d);
    } else if q < k {
      ProductMonotone(q + 1, k, d);
    }
  }

  lemma DivisionMonotone(x: nat, y: nat, d: nat)
    requires x <= y && d > 0
    ensures x / d <= y / d
  {
    if x / d > y / d { ProductMonotone(y / d + 1, x / d, d); }
  }

  lemma DivisionGrows(x: nat, m: nat, d: nat)
    requires 0 < d <= m
    ensures (x + m) / d >= x / d + 1
  {
    assert x / d * d <= x < x / d * d + d;
    Quotient(x + d, d, x / d + 1);
    DivisionMonotone(x + d, x + m, d);
  }

  /** No bucket is empty. */
  lemma BucketsGrow(n: nat, t: nat, i: nat)
    requires Thins(n, t)
    ensures BucketStart(n, t, i) < BucketStart(n, t, i + 1)
  {
    assert (i + 1) * (n - 2) == i * (n - 2) + (n - 2);
    DivisionGrows(i * (n - 2), n - 2, t - 2);
  }

  lemma {:induction false} BucketsIncrease(n: nat, t: nat, i: nat, j: nat)
    requires Thins(n, t) && i <= j
    ensures BucketStart(n, t, i) + (j - i) <= BucketStart(n, t, j)
    decreases j - i
  {
    if i < j {
      BucketsIncrease(n, t, i, j - 1);
      BucketsGrow(n, t, j - 1);
    }
  }

  lemma BucketEnds(n: nat, t: nat)
    requires Thins(n, t)
    ensures BucketStart(n, t, 0) == 1 && BucketStart(n, t, t - 2) == n - 1
  {
    Quotient((t - 2) * (n - 2), t - 2, n - 2);
  }

  /** Point r is in bucket i. */
  predicate InBucket(n: nat, t: nat, i: nat, r: nat)
    requires Thins(n, t)
  {
    BucketStart(n, t, i) <= r < BucketStart(n, t, i + 1)
  }

  /** The t - 2 buckets are not empty and split the points 1, ..., n - 2: each is in exactly one. */
  lemma BucketsTile(n: nat, t: nat, r: nat)
    requires Thins(n, t) && 1 <= r <= n - 2
    ensures forall i: nat :: i < t - 2 ==> BucketStart(n, t, i) < BucketStart(n, t, i + 1)
    ensures exists i: nat :: i < t - 2 && InBucket(n, t, i, r)
    ensures forall i: nat, j: nat :: InBucket(n, t, i, r) && InBucket(n, t, j, r) ==> i == j
  {
    BucketEnds(n, t);
    hide BucketStart;
    var i := FindBucket(n, t, r, t - 2);
    forall i: nat | i < t - 2 ensures BucketStart(n, t, i) < BucketStart(n, t, i + 1) {
      BucketsIncrease(n, t, i, i + 1);
    }
    forall i: nat, j: nat | InBucket(n, t, i, r) && InBucket(n, t, j, r) ensures i == j {
      if i < j { BucketsIncrease(n, t, i + 1, j); }
      if j < i { BucketsIncrease(n, t, j + 1, i); }
    }
  }

  lemma {:induction false} FindBucket(n: nat, t: nat, r: nat, k: nat) returns (i: nat)
    requires Thins(n, t) && BucketStart(n, t, 0) <= r < BucketStart(n, t, k)
    ensures i < k && InBucket(n, t, i, r)
  {
    if BucketStart(n, t, k - 1) <= r { i := k - 1; } else { i := FindBucket(n, t, r, k - 1); }
  }

  /** The range averaged for a bucket is never empty and stays inside the data. */
  lemma AverageRange(n: nat, t: nat, i: nat)
    requires Thins(n, t) && i < t - 2
    ensures BucketStart(n, t, i + 1) < AverageEnd(n, t, i) <= n
    ensures 1 <= BucketStart(n, t, i) < BucketStart(n, t, i + 1) <= n - 1
  {
    BucketsGrow(n, t, i);
    BucketsGrow(n, t, i + 1);
    BucketsIncrease(n, t, i + 1, t - 2);
    BucketEnds(n, t);
    hide Offset;
  }

  lemma BelowQuotient(x: nat, d: nat, r: nat)
    requires d > 0
    ensures r <= x / d <==> r * d <= x
  {
    var q := x / d;
    assert q * d <= x < q * d + d;
    if r <= q { ProductMonotone(r, q, d); } else { ProductMonotone(q + 1, r, d); }
  }

  /** Point r is in bucket i if and only if r steps of t - 2 end in the i-th stretch of n - 2, and the points averaged
      for bucket i are those of the next stretch. */
  lemma EvenBuckets(n: nat, t: nat, i: nat, r: nat)
    requires 3 <= t < n
    ensures InBucket(n, t, i, r) <==> i * (n - 2) < r * (t - 2) <= (i + 1) * (n - 2)
    ensures BucketStart(n, t, i + 1) <= r < AverageEnd(n, t, i) <==>
      r < n && (i + 1) * (n - 2) < r * (t - 2) <= (i + 2) * (n - 2)
  {
    StartsBelow(n, t, i, r);
    StartsBelow(n, t, i + 1, r);
    StartsBelow(n, t, i + 2, r);
    hide BucketStart;
  }

  lemma StartsBelow(n: nat, t: nat, i: nat, r: nat)
    requires 3 <= t < n
    ensures BucketStart(n, t, i) <= r <==> i * (n - 2) < r * (t - 2)
  {
    BelowQuotient(i * (n - 2), t - 2, r);
  }

  // ----- half a sample
  //
  // The caller passes half the width of the plot, which may be half an odd number h. The loop then takes
  // (h - 3) / 2 turns, rounded down, with `every = (n - 2) / (h / 2 - 2)`.

  function HalfOffset(n: nat, h: nat, i: nat): nat
    requires 4 < h < 2 * n
  {
    2 * (i * (n - 2)) / (h - 4)
  }

  /** For even h this is the arithmetic above. */
  lemma WholeThreshold(n: nat, t: nat, i: nat)
    requires Thins(n, t)
    ensures HalfOffset(n, 2 * t, i) == Offset(n, t, i)
  {
    var q := Offset(n, t, i);
    var x := i * (n - 2);
    assert q * (t - 2) <= x < q * (t - 2) + (t - 2);
    assert q * (2 * t - 4) == 2 * (q * (t - 2));
    Quotient(2 * x, 2 * t - 4, q);
  }

  /** The last bucket stops before the last point exactly when h is even or exceeds n + 2. */
  lemma HalfThreshold(n: nat, h: nat)
    requires 4 < h < 2 * n
    ensures HalfOffset(n, h, (h - 3) / 2) + 1 <= n - 1 <==> h % 2 == 0 || h > n + 2
  {
    var m, d := n - 2, h - 4;
    if h % 2 == 0 {
      assert 2 * ((h - 3) / 2) == d;
      assert 2 * ((h - 3) / 2 * m) == m * d;
      Quotient(m * d, d, m);
    } else {
      assert 2 * ((h - 3) / 2) == d + 1;
      assert 2 * ((h - 3) / 2 * m) == m * d + m;
      if m < d {
        Quotient(m * d + m, d, m);
      } else {
        Quotient(m * d, d, m);
        DivisionGrows(m * d, m, d);
      }
    }
  }

  // ----- areas

  function Abs(x: real): (r: real)
    ensures r >= 0.0
  {
    if x < 0.0 then -x else x
  }

  function Sum(s: seq<real>): real
  {
    if s == [] then 0.0 else Sum(s[..|s| - 1]) + s[|s| - 1]
  }

  /** The mean point of the range averaged for bucket i: the middle index, and the mean of the data. */
  function MeanX(n: nat, t: nat, i: nat): real
    requires Thins(n, t)
  {
    (BucketStart(n, t, i + 1) + AverageEnd(n, t, i) - 1) as real / 2.0
  }

  function MeanY(data: seq<real>, t: nat, i: nat): real
    requires Thins(|data|, t) && i < t - 2
  {
    AverageRange(|data|, t, i);
    var lo, hi := BucketStart(|data|, t, i + 1), AverageEnd(|data|, t, i);
    Sum(data[lo..hi]) / (hi - lo) as real
  }

  /** The area of the triangle of (ax, ay), (rx, ry) and (mx, my). */
  function TriangleArea(ax: real, ay: real, mx: real, my: real, rx: real, ry: real): (s: real)
    ensures s >= 0.0
  {
    Abs((ax - mx) * (ry - ay) - (ax - rx) * (my - ay)) * 0.5
  }

  /** The area of the triangle of point a, point r and the mean of the next range. */
  function Area(data: seq<real>, t: nat, i: nat, a: nat, r: nat): (s: real)
    requires Thins(|data|, t) && i < t - 2 && a < |data| && r < |data|
    ensures s >= 0.0
  {
    TriangleArea(a as real, data[a], MeanX(|data|, t, i), MeanY(data, t, i), r as real, data[r])
  }

  /** The first point of bucket i, before hi, whose triangle is largest. */
  function Best(data: seq<real>, t: nat, i: nat, a: nat, hi: nat): (b: nat)
    requires Thins(|data|, t) && i < t - 2 && a < |data| && BucketStart(|data|, t, i) < hi <= |data|
    ensures BucketStart(|data|, t, i) <= b < hi
  {
    var lo := BucketStart(|data|, t, i);
    if hi == lo + 1 then lo
    else
      var b := Best(data, t, i, a, hi - 1);
      if Area(data, t, i, a, hi - 1) > Area(data, t, i, a, b) then hi - 1 else b
  }

  lemma {:induction false} BestIsLargest(data: seq<real>, t: nat, i: nat, a: nat, hi: nat, r: nat)
    requires Thins(|data|, t) && i < t - 2 && a < |data| && BucketStart(|data|, t, i) <= r < hi <= |data|
    ensures var b := Best(data, t, i, a, hi);
      Area(data, t, i, a, r) <= Area(data, t, i, a, b) && (r < b ==> Area(data, t, i, a, r) < Area(data, t, i, a, b))
  {
    hide Area, BucketStart;
    if r < hi - 1 {
      BestIsLargest(data, t, i, a, hi - 1, r);
    } else if BucketStart(|data|, t, i) < hi - 1 {
      BestIsLargest(data, t, i, a, hi - 1, hi - 2);
    }
  }

  /** The index of sample k. */
  function Index(data: seq<real>, t: nat, k: nat): (r: nat)
    requires Thins(|data|, t) && k < t
    ensures r < |data|
    decreases k
  {
    if k == 0 then 0
    else if k == t - 1 then |data| - 1
    else
      AverageRange(|data|, t, k - 1);
      Best(data, t, k - 1, Index(data, t, k - 1), BucketStart(|data|, t, k))
  }

  /** The whole sample. */
  function Sampled(data: seq<real>, t: nat): (s: seq<real>)
    requires Thins(|data|, t)
    ensures |s| == t
  {
    seq(t, k requires 0 <= k < t => data[Index(data, t, k)])
  }

  /**
   * Sample 0 is the first point and sample t - 1 the last; every other sample lies in its own bucket and makes
   * the largest triangle there with the sample before it; so the indices increase strictly.
   */
  lemma SampleProperties(data: seq<real>, t: nat)
    requires 3 <= t < |data|
    ensures Index(data, t, 0) == 0 && Index(data, t, t - 1) == |data| - 1
    ensures forall k: nat :: 0 < k < t - 1 ==> InBucket(|data|, t, k - 1, Index(data, t, k))
    ensures forall i: nat, r: nat :: i < t - 2 && InBucket(|data|, t, i, r) && r < |data| ==>
      Area(data, t, i, Index(data, t, i), r) <= Area(data, t, i, Index(data, t, i), Index(data, t, i + 1))
    ensures forall k: nat :: k < t - 1 ==> Index(data, t, k) < Index(data, t, k + 1)
  {
    var n := |data|;
    BucketEnds(n, t);
    forall k: nat | 0 < k < t - 1 ensures InBucket(n, t, k - 1, Index(data, t, k)) {
      AverageRange(n, t, k - 1);
    }
    forall i: nat, r: nat | i < t - 2 && InBucket(n, t, i, r) && r < n
      ensures Area(data, t, i, Index(data, t, i), r) <= Area(data, t, i, Index(data, t, i), Index(data, t, i + 1))
    {
      AverageRange(n, t, i);
      BestIsLargest(data, t, i, Index(data, t, i), BucketStart(n, t, i + 1), r);
    }
    forall k: nat | k < t - 1 ensures Index(data, t, k) < Index(data, t, k + 1) {
      IndexIncreases(data, t, k);
    }
    hide Area, Index, BucketStart;
  }

  lemma IndexIncreases(data: seq<real>, t: nat, k: nat)
    requires Thins(|data|, t) && k < t - 1
    ensures Index(data, t, k) < Index(data, t, k + 1)
  {
    BucketEnds(|data|, t);
    if k > 0 { AverageRange(|data|, t, k - 1); }
    if k < t - 2 { AverageRange(|data|, t, k); }
    hide Area, BucketStart;
  }

  // ----- the loops

  lemma SumNext(data: seq<real>, lo: nat, k: nat)
    requires lo <= k < |data|
    ensures Sum(data[lo..k + 1]) == Sum(data[lo..k]) + data[k]
  {
    assert data[lo..k + 1][..k - lo] == data[lo..k];
  }

  lemma MiddleIndex(lo: nat, hi: nat, total: real)
    requires lo < hi && 2.0 * total == ((hi - lo) * (hi + lo - 1)) as real
    ensures total / (hi - lo) as real == (lo + hi - 1) as real / 2.0
  {
    var m, w := (hi - lo) as real, (lo + hi - 1) as real;
    assert ((hi - lo) * (hi + lo - 1)) as real == m * w;
    assert (total / m) * m == total;
    assert (total / m - w / 2.0) * m == 0.0;
  }

  lemma IndexSum(lo: nat, k: nat)
    requires lo <= k
    ensures ((k + 1 - lo) * (k + 1 + lo - 1)) as real == ((k - lo) * (k + lo - 1)) as real + 2.0 * k as real
  {
    assert (k + 1 - lo) * (k + 1 + lo - 1) == (k - lo) * (k + lo - 1) + 2 * k;
  }

  /** The averaging loop for bucket i. */
  method Average(data: seq<real>, threshold: nat, i: nat) returns (avgX: real, avgY: real)
    requires Thins(|data|, threshold) && i < threshold - 2
    ensures avgX == MeanX(|data|, threshold, i) && avgY == MeanY(data, threshold, i)
  {
    AverageRange(|data|, threshold, i);
    avgX, avgY := 0.0, 0.0;
    var avgRangeStart := ((i + 1) * (|data| - 2)) / (threshold - 2) + 1;
    var avgRangeEnd := ((i + 2) * (|data| - 2)) / (threshold - 2) + 1;
    avgRangeEnd := if avgRangeEnd < |data| then avgRangeEnd else |data|;
    ghost var lo := BucketStart(|data|, threshold, i + 1);
    assert avgRangeStart == lo && avgRangeEnd == AverageEnd(|data|, threshold, i);
    hide BucketStart, AverageEnd, Sum;
    var avgRangeLength := avgRangeEnd - avgRangeStart;
    EmptySum(data[lo..lo]);
    while avgRangeStart < avgRangeEnd
      invariant lo <= avgRangeStart <= avgRangeEnd
      invariant 2.0 * avgX == ((avgRangeStart - lo) * (avgRangeStart + lo - 1)) as real
      invariant avgY == Sum(data[lo..avgRangeStart])
    {
      IndexSum(lo, avgRangeStart);
      SumNext(data, lo, avgRangeStart);
      avgX := avgX + avgRangeStart as real;
      avgY := avgY + data[avgRangeStart];
      avgRangeStart := avgRangeStart + 1;
    }
    MiddleIndex(lo, avgRangeEnd, avgX);
    avgX := avgX / avgRangeLength as real;
    avgY := avgY / avgRangeLength as real;
  }

  lemma EmptySum(s: seq<real>)
    requires s == []
    ensures Sum(s) == 0.0
  {
  }

  /** The search for the largest triangle in bucket i. */
  method Search(data: seq<real>, threshold: nat, i: nat, a: nat, avgX: real, avgY: real)
    returns (nextA: nat, maxAreaPoint: real)
    requires Thins(|data|, threshold) && i < threshold - 2 && a < |data|
    requires avgX == MeanX(|data|, threshold, i) && avgY == MeanY(data, threshold, i)
    ensures BucketStart(|data|, threshold, i) < BucketStart(|data|, threshold, i + 1) <= |data|
    ensures nextA == Best(data, threshold, i, a, BucketStart(|data|, threshold, i + 1)) && maxAreaPoint == data[nextA]
  {
    AverageRange(|data|, threshold, i);
    var rangeOffs := (i * (|data| - 2)) / (threshold - 2) + 1;
    var rangeTo := ((i + 1) * (|data| - 2)) / (threshold - 2) + 1;
    ghost var lo := BucketStart(|data|, threshold, i);
    assert rangeOffs == lo && rangeTo == BucketStart(|data|, threshold, i + 1);
    var pointAX, pointAY := a as real, data[a];
    var maxArea := -1.0;
    nextA, maxAreaPoint := 0, data[0];
    assert Found(data, threshold, i, a, rangeOffs, nextA, maxArea, maxAreaPoint);
    hide BucketStart, MeanX, MeanY, Best, Found, TriangleArea;
    while rangeOffs < rangeTo
      invariant lo <= rangeOffs <= rangeTo
      invariant Found(data, threshold, i, a, rangeOffs, nextA, maxArea, maxAreaPoint)
    {
      var area := TriangleArea(pointAX, pointAY, avgX, avgY, rangeOffs as real, data[rangeOffs]);
      FoundNext(data, threshold, i, a, rangeOffs, nextA, maxArea, maxAreaPoint);
      if area > maxArea {
        maxArea := area;
        maxAreaPoint := data[rangeOffs];
        nextA := rangeOffs;
      }
      rangeOffs := rangeOffs + 1;
    }
    AllFound(data, threshold, i, a, rangeTo, nextA, maxArea, maxAreaPoint);
  }

  /** What the search knows before point r. */
  ghost predicate Found(data: seq<real>, t: nat, i: nat, a: nat, r: nat, nextA: nat, maxArea: real, maxAreaPoint: real)
    requires Thins(|data|, t) && i < t - 2 && a < |data| && BucketStart(|data|, t, i) <= r <= |data|
  {
    if r == BucketStart(|data|, t, i) then maxArea == -1.0
    else nextA == Best(data, t, i, a, r) && maxArea == Area(data, t, i, a, nextA) && maxAreaPoint == data[nextA]
  }

  lemma FoundNext(data: seq<real>, t: nat, i: nat, a: nat, r: nat, nextA: nat, maxArea: real, maxAreaPoint: real)
    requires Thins(|data|, t) && i < t - 2 && a < |data| && BucketStart(|data|, t, i) <= r < |data|
    requires Found(data, t, i, a, r, nextA, maxArea, maxAreaPoint)
    ensures var area := Area(data, t, i, a, r);
      if area > maxArea then Found(data, t, i, a, r + 1, r, area, data[r])
      else Found(data, t, i, a, r + 1, nextA, maxArea, maxAreaPoint)
  {
    hide Area, BucketStart;
  }

  lemma AllFound(data: seq<real>, t: nat, i: nat, a: nat, r: nat, nextA: nat, maxArea: real, maxAreaPoint: real)
    requires Thins(|data|, t) && i < t - 2 && a < |data| && BucketStart(|data|, t, i) < r <= |data|
    requires Found(data, t, i, a, r, nextA, maxArea, maxAreaPoint)
    ensures nextA == Best(data, t, i, a, r) && maxAreaPoint == data[nextA]
  {
  }

  /** The samples taken before turn i of the loop. */
  ghost predicate Taken(data: seq<real>, t: nat, i: nat, a: nat, sampled: seq<real>)
    requires data != []
  {
    if Thins(|data|, t) && i <= t - 2 then
      && |sampled| == i + 1 && a == Index(data, t, i)
      && forall k: nat :: k <= i ==> sampled[k] == data[Index(data, t, k)]
    else i == 0 && sampled == [data[0]]
  }

  lemma TakenNext(data: seq<real>, t: nat, i: nat, a: nat, sampled: seq<real>, b: nat)
    requires Thins(|data|, t) && i < t - 2 && Taken(data, t, i, a, sampled)
    requires a < |data| && BucketStart(|data|, t, i) < BucketStart(|data|, t, i + 1) <= |data|
    requires b == Best(data, t, i, a, BucketStart(|data|, t, i + 1)) && b < |data|
    ensures Taken(data, t, i + 1, b, sampled + [data[b]])
  {
    hide Best, BucketStart;
  }

  lemma TakenAll(data: seq<real>, t: nat, i: nat, a: nat, sampled: seq<real>)
    requires data != [] && Taken(data, t, i, a, sampled) && (Thins(|data|, t) ==> i == t - 2)
    ensures if Thins(|data|, t) then sampled + [data[|data| - 1]] == Sampled(data, t) else sampled == [data[0]]
  {
    hide Best, BucketStart;
  }

  /** Few or no samples leave the data alone; one or two give the first and the last point; more are chosen as above. */
  method Downsample(data: seq<real>, threshold: nat) returns (sampled: seq<real>)
    ensures threshold >= |data| || threshold == 0 ==> sampled == data
    ensures threshold < |data| && 1 <= threshold <= 2 ==> sampled == [data[0], data[|data| - 1]]
    ensures 3 <= threshold < |data| ==> sampled == Sampled(data, threshold)
  {
    if threshold >= |data| || threshold == 0 {
      return data;
    }
    var a := 0;
    sampled := [data[a]];
    assert Taken(data, threshold, 0, a, sampled);
    hide Taken, Best, BucketStart, Sampled;
    var i := 0;
    while i < threshold - 2
      invariant 0 <= i && (i <= threshold - 2 || i == 0) && 0 <= a < |data|
      invariant Taken(data, threshold, i, a, sampled)
    {
      var avgX, avgY := Average(data, threshold, i);
      var nextA, maxAreaPoint := Search(data, threshold, i, a, avgX, avgY);
      TakenNext(data, threshold, i, a, sampled, nextA);
      sampled := sampled + [maxAreaPoint];
      a := nextA;
      i := i + 1;
    }
    TakenAll(data, threshold, i, a, sampled);
    sampled := sampled + [data[|data| - 1]];
  }
}
