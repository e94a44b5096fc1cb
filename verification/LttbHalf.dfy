/** `largestTriangleThreeBuckets` of xwebql.js for half numbers of samples: the caller passes half the width of a
    plot. */
module LttbHalf {
  import opened Lttb
  import opened Options

  // For h / 2 samples the loop takes (h - 3) / 2 turns, rounded down.

  predicate Halves(n: nat, h: nat) { 4 < h < 2 * n }

  function Turns(h: nat): nat { if h < 4 then 0 else (h - 3) / 2 }

  /** Where bucket i starts. */
  function Start(n: nat, h: nat, i: nat): nat
    requires Halves(n, h)
  {
    HalfOffset(n, h, i) + 1
  }

  /** Where the range averaged for bucket i ends; it starts where bucket i ends. */
  function End(n: nat, h: nat, i: nat): nat
    requires Halves(n, h)
  {
    if Start(n, h, i + 2) < n then Start(n, h, i + 2) else n
  }

  lemma StartsGrow(n: nat, h: nat, i: nat)
    requires Halves(n, h)
    ensures 1 <= Start(n, h, i) < Start(n, h, i + 1)
  {
    assert 2 * ((i + 1) * (n - 2)) == 2 * (i * (n - 2)) + 2 * (n - 2);
    DivisionGrows(2 * (i * (n - 2)), 2 * (n - 2), h - 4);
  }

  lemma {:induction false} StartsIncrease(n: nat, h: nat, i: nat, j: nat)
    requires Halves(n, h) && i <= j
    ensures Start(n, h, i) <= Start(n, h, j)
    decreases j - i
  {
    hide Start;
    if i < j {
      StartsIncrease(n, h, i, j - 1);
      StartsGrow(n, h, j - 1);
    }
  }

  /** Point r is in bucket i if and only if r steps of h - 4 end in the i-th stretch of 2 n - 4, and the points averaged
      for bucket i are those of the next stretch. */
  lemma HalfBuckets(n: nat, h: nat, i: nat, r: nat)
    requires 4 < h < 2 * n
    ensures Start(n, h, i) <= r < Start(n, h, i + 1) <==>
      2 * (i * (n - 2)) < r * (h - 4) <= 2 * ((i + 1) * (n - 2))
    ensures Start(n, h, i + 1) <= r < End(n, h, i) <==>
      r < n && 2 * ((i + 1) * (n - 2)) < r * (h - 4) <= 2 * ((i + 2) * (n - 2))
  {
    HalfStartsBelow(n, h, i, r);
    HalfStartsBelow(n, h, i + 1, r);
    HalfStartsBelow(n, h, i + 2, r);
    hide Start;
  }

  lemma HalfStartsBelow(n: nat, h: nat, i: nat, r: nat)
    requires 4 < h < 2 * n
    ensures Start(n, h, i) <= r <==> 2 * (i * (n - 2)) < r * (h - 4)
  {
    BelowQuotient(2 * (i * (n - 2)), h - 4, r);
  }

  lemma OddProducts(m: nat, d: nat, k: nat)
    requires 2 * k == d + 1 && k >= 1
    ensures 2 * (k * m) == m * d + m && 2 * ((k - 1) * m) == m * d - m
  {
    assert 2 * (k * m) == (d + 1) * m;
    assert (k - 1) * m == k * m - m;
  }

  lemma QuotientAdds(m: nat, d: nat)
    requires d > 0
    ensures (m * d + m) / d == m + m / d
  {
    var q := m / d;
    assert q * d <= m < q * d + d;
    assert (m + q) * d == m * d + q * d;
    Quotient(m * d + m, d, m + q);
  }

  lemma StartIs(n: nat, h: nat, i: nat, x: nat)
    requires Halves(n, h) && 2 * (i * (n - 2)) == x
    ensures Start(n, h, i) == x / (h - 4) + 1
  {
  }

  lemma QuotientRange(m: nat, d: nat)
    requires d > 0
    ensures m / d >= 1 <==> m >= d
    ensures m / d >= 2 <==> m >= 2 * d
  {
    var q := m / d;
    assert q * d <= m < q * d + d;
    if q >= 2 { ProductMonotone(2, q, d); }
    if q <= 1 { ProductMonotone(q, 1, d); }
    if q >= 1 { ProductMonotone(1, q, d); }
  }

  /** For odd h: where the last bucket starts and ends. */
  lemma LastStarts(n: nat, h: nat)
    requires Halves(n, h) && h % 2 == 1
    ensures Turns(h) >= 1 && Start(n, h, Turns(h) - 1) <= n - 2
    ensures Start(n, h, Turns(h)) == n - 1 + (n - 2) / (h - 4)
  {
    hide Start;
    var m, d, k := n - 2, h - 4, Turns(h);
    OddProducts(m, d, k);
    QuotientAdds(m, d);
    ProductMonotone(1, d, m);
    BelowMultiple(m * d - m, d, m);
    StartIs(n, h, k, m * d + m);
    StartIs(n, h, k - 1, m * d - m);
  }

  lemma BelowMultiple(x: nat, d: nat, m: nat)
    requires d > 0 && x < m * d
    ensures x / d <= m - 1
  {
    var k := x / d;
    assert k * d <= x;
    if k >= m { ProductMonotone(m, k, d); }
  }

  /** For even h. */
  lemma LastStartsEven(n: nat, h: nat)
    requires Halves(n, h) && h % 2 == 0
    ensures Turns(h) >= 1 && Start(n, h, Turns(h)) == n - 1
  {
    var m, d := n - 2, h - 4;
    assert 2 * Turns(h) == d;
    assert 2 * (Turns(h) * m) == m * d;
    Quotient(m * d, d, m);
  }

  // ----- one turn

  /** The averaged point; `Nowhere` when the range is empty, and its sums are divided by 0. */
  datatype Mean = Nowhere | Point(x: real, y: real)

  /** A range that ends before it starts has sums 0 over a negative length. */
  function HalfMean(data: seq<real>, h: nat, i: nat): Mean
    requires Halves(|data|, h)
  {
    var lo, hi := Start(|data|, h, i + 1), End(|data|, h, i);
    if hi == lo then Nowhere
    else if hi < lo then Point(0.0, 0.0)
    else Point((lo + hi - 1) as real / 2.0, Sum(data[lo..hi]) / (hi - lo) as real)
  }

  function AreaAt(data: seq<real>, mean: Mean, a: nat, r: nat): real
    requires mean.Point? && a < |data| && r < |data|
  {
    TriangleArea(a as real, data[a], mean.x, mean.y, r as real, data[r])
  }

  /** The first of the points lo, ..., hi - 1 whose triangle is largest. */
  function Largest(data: seq<real>, mean: Mean, a: nat, lo: nat, hi: nat): (b: nat)
    requires mean.Point? && a < |data| && lo < hi <= |data|
    ensures lo <= b < hi
  {
    if hi == lo + 1 then lo
    else
      var b := Largest(data, mean, a, lo, hi - 1);
      if AreaAt(data, mean, a, hi - 1) > AreaAt(data, mean, a, b) then hi - 1 else b
  }

  lemma {:induction false} LargestIsLargest(data: seq<real>, mean: Mean, a: nat, lo: nat, hi: nat, r: nat)
    requires mean.Point? && a < |data| && lo <= r < hi <= |data|
    ensures var b := Largest(data, mean, a, lo, hi);
      AreaAt(data, mean, a, r) <= AreaAt(data, mean, a, b)
        && (r < b ==> AreaAt(data, mean, a, r) < AreaAt(data, mean, a, b))
  {
    hide AreaAt;
    if r < hi - 1 {
      LargestIsLargest(data, mean, a, lo, hi - 1, r);
    } else if lo < hi - 1 {
      LargestIsLargest(data, mean, a, lo, hi - 1, hi - 2);
    }
  }

  /** Where the search of bucket i ends: what lies behind the data makes no triangle. */
  function SearchEnd(n: nat, h: nat, i: nat): nat
    requires Halves(n, h)
  {
    if Start(n, h, i + 1) < n then Start(n, h, i + 1) else n
  }

  /** The point that turn i chooses after point a, if any. */
  function Chosen(data: seq<real>, h: nat, i: nat, a: nat): (r: Option<nat>)
    requires Halves(|data|, h) && a < |data|
    ensures r.Some? ==> Start(|data|, h, i) <= r.value < SearchEnd(|data|, h, i)
  {
    var mean := HalfMean(data, h, i);
    var lo, hi := Start(|data|, h, i), SearchEnd(|data|, h, i);
    if mean.Nowhere? || hi <= lo then None else Some(Largest(data, mean, a, lo, hi))
  }

  /** The index of sample k; the index before is kept when no point is chosen, and there is none before the first. */
  function HalfIndex(data: seq<real>, h: nat, k: nat): (r: Option<nat>)
    requires Halves(|data|, h)
    ensures r.Some? ==> r.value < |data|
  {
    if k == 0 then Some(0)
    else
      var a := HalfIndex(data, h, k - 1);
      if a.None? then None
      else
        var r := Chosen(data, h, k - 1, a.value);
        if r.None? && k > 1 then a else r
  }

  /** The sample; a missing point is `undefined`. */
  function HalfSampled(data: seq<real>, h: nat): seq<Option<real>>
    requires Halves(|data|, h)
  {
    seq(Turns(h) + 1, k requires 0 <= k <= Turns(h) => Value(data, HalfIndex(data, h, k)))
    + [Some(data[|data| - 1])]
  }

  function Value(data: seq<real>, r: Option<nat>): Option<real>
    requires r.Some? ==> r.value < |data|
  {
    if r.None? then None else Some(data[r.value])
  }

  // ----- what is sampled

  lemma TurnEnds(n: nat, h: nat, i: nat)
    requires Halves(n, h) && i < Turns(h) && (h % 2 == 0 || h > n + 2 || i < Turns(h) - 1)
    ensures Start(n, h, i + 1) <= n - 1
  {
    hide Start, Turns;
    if h % 2 == 0 {
      LastStartsEven(n, h);
      StartsIncrease(n, h, i + 1, Turns(h));
    } else {
      LastStarts(n, h);
      QuotientRange(n - 2, h - 4);
      StartsIncrease(n, h, i + 1, if i < Turns(h) - 1 then Turns(h) - 1 else Turns(h));
    }
  }

  /** Every turn but the last of an odd h averages a range that is not empty and searches a whole bucket. */
  lemma TurnInside(n: nat, h: nat, i: nat)
    requires Halves(n, h) && i < Turns(h) && (h % 2 == 0 || h > n + 2 || i < Turns(h) - 1)
    ensures Start(n, h, i) < Start(n, h, i + 1) == SearchEnd(n, h, i) <= n - 1
    ensures Start(n, h, i + 1) < End(n, h, i)
  {
    hide Start, Turns;
    StartsGrow(n, h, i);
    StartsGrow(n, h, i + 1);
    TurnEnds(n, h, i);
  }

  lemma TurnChooses(data: seq<real>, h: nat, i: nat, a: nat)
    requires var n := |data|;
      Halves(n, h) && i < Turns(h) && (h % 2 == 0 || h > n + 2 || i < Turns(h) - 1) && a < n
    ensures Chosen(data, h, i, a).Some? && HalfMean(data, h, i).Point?
  {
    TurnInside(|data|, h, i);
    hide Start;
  }

  lemma {:induction false} IndexInBucket(data: seq<real>, h: nat, k: nat)
    requires var n := |data|;
      Halves(n, h) && 0 < k <= Turns(h) && (h % 2 == 0 || h > n + 2 || k < Turns(h))
    ensures var r := HalfIndex(data, h, k);
      r.Some? && Start(|data|, h, k - 1) <= r.value < Start(|data|, h, k) <= |data| - 1
  {
    if k > 1 { IndexInBucket(data, h, k - 1); }
    TurnInside(|data|, h, k - 1);
    TurnChooses(data, h, k - 1, HalfIndex(data, h, k - 1).value);
    hide Start, Chosen;
  }

  /** Turn k - 1 chooses sample k from its own bucket. */
  ghost predicate InBuckets(data: seq<real>, h: nat, k: nat)
    requires Halves(|data|, h) && k > 0
  {
    var r := HalfIndex(data, h, k);
    r.Some? && Start(|data|, h, k - 1) <= r.value < Start(|data|, h, k) <= |data| - 1
  }

  /**
   * For h / 2 samples. Every sample but the first and last lies in its own bucket, so the indices increase, unless h
   * is odd and at most n + 2. Then this holds up to the last turn, whose range to average begins behind the data:
   * - Below 2 h - 6 points the range is empty, and the last turn repeats the sample before it; the only turn of h = 5
   *   leaves its sample undefined.
   * - From there on the turn compares triangles with the origin, over all points from the start of its bucket.
   */
  lemma HalfSampleProperties(data: seq<real>, h: nat)
    requires 4 < h < 2 * |data|
    ensures forall k: nat :: 0 < k <= Turns(h) && (h % 2 == 0 || h > |data| + 2 || k < Turns(h)) ==>
      InBuckets(data, h, k)
    ensures h % 2 == 1 && h <= |data| + 2 && |data| < 2 * h - 6 ==>
      HalfIndex(data, h, Turns(h)) == if h == 5 then None else HalfIndex(data, h, Turns(h) - 1)
    ensures h % 2 == 1 && |data| >= 2 * h - 6 ==>
      var m := Turns(h); var a := HalfIndex(data, h, m - 1);
      m >= 1 && a.Some? && Start(|data|, h, m - 1) < |data|
      && HalfIndex(data, h, m) == Some(Largest(data, Point(0.0, 0.0), a.value, Start(|data|, h, m - 1), |data|))
  {
    forall k: nat | 0 < k <= Turns(h) && (h % 2 == 0 || h > |data| + 2 || k < Turns(h)) ensures InBuckets(data, h, k) {
      IndexInBucket(data, h, k);
    }
    hide HalfIndex, Start, Largest, InBuckets;
    if h % 2 == 1 && h <= |data| + 2 { LastTurn(data, h); }
  }

  lemma LastTurn(data: seq<real>, h: nat)
    requires Halves(|data|, h) && h % 2 == 1 && h <= |data| + 2
    ensures |data| < 2 * h - 6 ==>
      HalfIndex(data, h, Turns(h)) == if h == 5 then None else HalfIndex(data, h, Turns(h) - 1)
    ensures |data| >= 2 * h - 6 ==>
      var m := Turns(h); var a := HalfIndex(data, h, m - 1);
      m >= 1 && a.Some? && Start(|data|, h, m - 1) < |data|
      && HalfIndex(data, h, m) == Some(Largest(data, Point(0.0, 0.0), a.value, Start(|data|, h, m - 1), |data|))
  {
    var n, m := |data|, Turns(h);
    LastStarts(n, h);
    LastMean(n, h);
    StartsGrow(n, h, m);
    if m > 1 { IndexInBucket(data, h, m - 1); }
    hide Start, Largest, HalfOffset;
    assert HalfIndex(data, h, m - 1).Some?;
    assert h == 5 <==> m == 1;
    if n < 2 * h - 6 {
      assert HalfMean(data, h, m - 1) == Nowhere;
    } else {
      assert HalfMean(data, h, m - 1) == Point(0.0, 0.0);
    }
  }

  /** The range averaged in the last turn. */
  lemma LastMean(n: nat, h: nat)
    requires Halves(n, h) && h % 2 == 1 && h <= n + 2
    ensures Turns(h) >= 1 && Start(n, h, Turns(h)) >= n && End(n, h, Turns(h) - 1) == n
    ensures Start(n, h, Turns(h)) == n <==> n < 2 * h - 6
  {
    hide Start;
    LastStarts(n, h);
    StartsGrow(n, h, Turns(h));
    QuotientRange(n - 2, h - 4);
  }

  // ----- even h

  lemma EvenStart(n: nat, t: nat, i: nat)
    requires Thins(n, t)
    ensures Halves(n, 2 * t) && Start(n, 2 * t, i) == BucketStart(n, t, i)
  {
    WholeThreshold(n, t, i);
    hide Offset, HalfOffset;
  }

  lemma EvenMean(data: seq<real>, t: nat, i: nat)
    requires Thins(|data|, t) && i < t - 2
    ensures Halves(|data|, 2 * t) && HalfMean(data, 2 * t, i) == Point(MeanX(|data|, t, i), MeanY(data, t, i))
  {
    EvenStart(|data|, t, i + 1);
    EvenStart(|data|, t, i + 2);
    AverageRange(|data|, t, i);
    hide Start, BucketStart, Sum;
  }

  lemma {:induction false} EvenLargest(data: seq<real>, t: nat, i: nat, a: nat, hi: nat)
    requires Thins(|data|, t) && i < t - 2 && a < |data| && BucketStart(|data|, t, i) < hi <= |data|
    ensures Largest(data, Point(MeanX(|data|, t, i), MeanY(data, t, i)), a, BucketStart(|data|, t, i), hi)
         == Best(data, t, i, a, hi)
  {
    hide BucketStart, MeanX, MeanY, TriangleArea;
    if hi > BucketStart(|data|, t, i) + 1 { EvenLargest(data, t, i, a, hi - 1); }
  }

  lemma EvenChosen(data: seq<real>, t: nat, i: nat, a: nat)
    requires Thins(|data|, t) && i < t - 2 && a < |data|
    ensures BucketStart(|data|, t, i) < BucketStart(|data|, t, i + 1) <= |data|
    ensures Halves(|data|, 2 * t) && Chosen(data, 2 * t, i, a)
      == Some(Best(data, t, i, a, BucketStart(|data|, t, i + 1)))
  {
    hide BucketStart, Start, HalfMean, MeanX, MeanY, Largest, Best;
    EvenStart(|data|, t, i);
    EvenStart(|data|, t, i + 1);
    EvenMean(data, t, i);
    AverageRange(|data|, t, i);
    EvenLargest(data, t, i, a, BucketStart(|data|, t, i + 1));
  }

  lemma {:induction false} EvenIndex(data: seq<real>, t: nat, k: nat)
    requires Thins(|data|, t) && k <= t - 2
    ensures Halves(|data|, 2 * t) && HalfIndex(data, 2 * t, k) == Some(Index(data, t, k))
  {
    hide BucketStart, Chosen, Best;
    if k > 0 {
      EvenIndex(data, t, k - 1);
      EvenChosen(data, t, k - 1, Index(data, t, k - 1));
    }
  }

  /** For even h this is the sample of a whole number. */
  lemma EvenSample(data: seq<real>, t: nat)
    requires Thins(|data|, t)
    ensures Halves(|data|, 2 * t) && |HalfSampled(data, 2 * t)| == t
    ensures forall k :: 0 <= k < t ==> HalfSampled(data, 2 * t)[k] == Some(Sampled(data, t)[k])
  {
    assert Turns(2 * t) == t - 2;
    hide HalfIndex;
    forall k: nat | k < t ensures HalfSampled(data, 2 * t)[k] == Some(Sampled(data, t)[k]) {
      if k < t - 1 { EvenIndex(data, t, k); }
    }
  }

  // ----- the loops

  /** The averaging loop for bucket i. */
  method HalfAverage(data: seq<real>, h: nat, i: nat) returns (mean: Mean)
    requires Halves(|data|, h)
    ensures mean == HalfMean(data, h, i)
  {
    var avgX, avgY := 0.0, 0.0;
    var avgRangeStart := 2 * ((i + 1) * (|data| - 2)) / (h - 4) + 1;
    var avgRangeEnd := 2 * ((i + 2) * (|data| - 2)) / (h - 4) + 1;
    avgRangeEnd := if avgRangeEnd < |data| then avgRangeEnd else |data|;
    ghost var lo := Start(|data|, h, i + 1);
    assert avgRangeStart == lo && avgRangeEnd == End(|data|, h, i);
    hide HalfOffset, Start, End, Sum;
    var avgRangeLength := avgRangeEnd - avgRangeStart;
    ghost var hi := if lo <= avgRangeEnd then avgRangeEnd else lo;
    if lo <= avgRangeEnd { EmptySum(data[lo..lo]); }
    while avgRangeStart < avgRangeEnd
      invariant lo <= avgRangeStart <= hi
      invariant 2.0 * avgX == ((avgRangeStart - lo) * (avgRangeStart + lo - 1)) as real
      invariant lo <= avgRangeEnd ==> avgY == Sum(data[lo..avgRangeStart])
      invariant lo > avgRangeEnd ==> avgY == 0.0
    {
      IndexSum(lo, avgRangeStart);
      SumNext(data, lo, avgRangeStart);
      avgX := avgX + avgRangeStart as real;
      avgY := avgY + data[avgRangeStart];
      avgRangeStart := avgRangeStart + 1;
    }
    if avgRangeLength == 0 {
      return Nowhere;
    }
    if lo < avgRangeEnd { MiddleIndex(lo, avgRangeEnd, avgX); } else { Zero(avgX, lo); }
    mean := Point(avgX / avgRangeLength as real, avgY / avgRangeLength as real);
  }

  lemma Zero(x: real, lo: nat)
    requires 2.0 * x == ((lo - lo) * (lo + lo - 1)) as real
    ensures x == 0.0
  {
    assert (lo - lo) * (lo + lo - 1) == 0;
  }

  /** What the search knows before point r. */
  ghost predicate FoundSo(data: seq<real>, mean: Mean, a: nat, lo: nat, r: nat, nextA: Option<nat>, maxArea: real)
    requires a < |data|
  {
    var hi := if r < |data| then r else |data|;
    if mean.Nowhere? || hi <= lo then nextA == None && maxArea == -1.0
    else nextA == Some(Largest(data, mean, a, lo, hi)) && maxArea == AreaAt(data, mean, a, nextA.value)
  }

  lemma FoundMore(data: seq<real>, mean: Mean, a: nat, lo: nat, r: nat, nextA: Option<nat>, maxArea: real)
    requires a < |data| && lo <= r && FoundSo(data, mean, a, lo, r, nextA, maxArea)
    ensures mean.Point? && r < |data| && AreaAt(data, mean, a, r) > maxArea ==>
      FoundSo(data, mean, a, lo, r + 1, Some(r), AreaAt(data, mean, a, r))
    ensures !(mean.Point? && r < |data| && AreaAt(data, mean, a, r) > maxArea) ==>
      FoundSo(data, mean, a, lo, r + 1, nextA, maxArea)
  {
    if mean.Point? && r < |data| { assert AreaAt(data, mean, a, r) >= 0.0; }
    hide AreaAt;
  }

  /** The search in bucket i; comparisons with the area of a missing point or mean fail. */
  method HalfSearch(data: seq<real>, h: nat, i: nat, a: nat, mean: Mean) returns (nextA: Option<nat>)
    requires Halves(|data|, h) && a < |data| && mean == HalfMean(data, h, i)
    ensures nextA == Chosen(data, h, i, a)
  {
    var rangeOffs := 2 * (i * (|data| - 2)) / (h - 4) + 1;
    var rangeTo := 2 * ((i + 1) * (|data| - 2)) / (h - 4) + 1;
    ghost var lo := Start(|data|, h, i);
    StartsGrow(|data|, h, i);
    assert rangeOffs == lo && rangeTo == Start(|data|, h, i + 1);
    hide HalfOffset, Start, HalfMean, AreaAt, FoundSo;
    var maxArea := -1.0;
    nextA := None;
    NothingFound(data, mean, a, lo);
    while rangeOffs < rangeTo
      invariant lo <= rangeOffs <= rangeTo
      invariant FoundSo(data, mean, a, lo, rangeOffs, nextA, maxArea)
    {
      FoundMore(data, mean, a, lo, rangeOffs, nextA, maxArea);
      if mean.Point? && rangeOffs < |data| {
        var area := AreaAt(data, mean, a, rangeOffs);
        if area > maxArea {
          maxArea := area;
          nextA := Some(rangeOffs);
        }
      }
      rangeOffs := rangeOffs + 1;
    }
    FoundAtEnd(data, h, i, a, nextA, maxArea);
  }

  lemma NothingFound(data: seq<real>, mean: Mean, a: nat, lo: nat)
    requires a < |data|
    ensures FoundSo(data, mean, a, lo, lo, None, -1.0)
  {
  }

  lemma FoundAtEnd(data: seq<real>, h: nat, i: nat, a: nat, nextA: Option<nat>, maxArea: real)
    requires Halves(|data|, h) && a < |data|
    requires FoundSo(data, HalfMean(data, h, i), a, Start(|data|, h, i), Start(|data|, h, i + 1), nextA, maxArea)
    ensures nextA == Chosen(data, h, i, a)
  {
    hide Start, HalfMean, AreaAt;
  }

  /** The samples taken before turn i, and the variables. */
  ghost predicate HalfTaken(data: seq<real>, h: nat, i: nat, sampled: seq<Option<real>>,
      a: Option<nat>, nextA: Option<nat>, maxAreaPoint: Option<real>)
    requires data != []
  {
    if Halves(|data|, h) then
      && |sampled| == i + 1 && a == HalfIndex(data, h, i) && (i > 0 ==> nextA == a) && (i == 0 ==> nextA == None)
      && (nextA.Some? ==> nextA.value < |data|) && maxAreaPoint == Value(data, nextA)
      && forall k: nat :: k <= i ==> sampled[k] == Value(data, HalfIndex(data, h, k))
    else i == 0 && sampled == [Some(data[0])]
  }

  lemma HalfTakenNext(data: seq<real>, h: nat, i: nat, sampled: seq<Option<real>>,
      a: Option<nat>, nextA: Option<nat>, maxAreaPoint: Option<real>, r: Option<nat>)
    requires Halves(|data|, h) && HalfTaken(data, h, i, sampled, a, nextA, maxAreaPoint)
    requires a.Some? ==> a.value < |data| && r == Chosen(data, h, i, a.value)
    requires a.None? ==> r == None
    ensures var b := if r.Some? then r else nextA;
      && (b.Some? ==> b.value < |data|)
      && HalfTaken(data, h, i + 1, sampled + [Value(data, b)], b, b, Value(data, b))
  {
    hide Chosen, Start;
  }

  lemma AllHalfTaken(data: seq<real>, h: nat, i: nat, sampled: seq<Option<real>>,
      a: Option<nat>, nextA: Option<nat>, maxAreaPoint: Option<real>)
    requires data != [] && HalfTaken(data, h, i, sampled, a, nextA, maxAreaPoint)
      && (Halves(|data|, h) ==> i == Turns(h))
    ensures if Halves(|data|, h) then sampled + [Some(data[|data| - 1])] == HalfSampled(data, h)
            else sampled == [Some(data[0])]
  {
    hide HalfIndex;
  }

  lemma FirstTaken(data: seq<real>, h: nat)
    requires data != []
    ensures HalfTaken(data, h, 0, [Some(data[0])], Some(0), None, None)
  {
  }

  /** The function for h / 2 samples. */
  method HalfDownsample(data: seq<real>, h: nat) returns (sampled: seq<Option<real>>)
    ensures h >= 2 * |data| || h == 0 ==>
      |sampled| == |data| && forall k :: 0 <= k < |data| ==> sampled[k] == Some(data[k])
    ensures h < 2 * |data| && 1 <= h <= 4 ==> sampled == [Some(data[0]), Some(data[|data| - 1])]
    ensures 4 < h < 2 * |data| ==> sampled == HalfSampled(data, h)
  {
    if h >= 2 * |data| || h == 0 {
      return seq(|data|, k requires 0 <= k < |data| => Some(data[k]));
    }
    var a: Option<nat> := Some(0);
    var nextA: Option<nat>, maxAreaPoint: Option<real> := None, None;
    sampled := [Some(data[0])];
    FirstTaken(data, h);
    hide Start, HalfMean, Chosen, HalfSampled;
    var i: nat := 0;
    while 2 * i < h - 4
      invariant HalfTaken(data, h, i, sampled, a, nextA, maxAreaPoint) && i <= Turns(h) && (h <= 4 ==> i == 0)
    {
      var mean := HalfAverage(data, h, i);
      var r: Option<nat> := None;
      if a.Some? {
        r := HalfSearch(data, h, i, a.value, mean);
      }
      HalfTakenNext(data, h, i, sampled, a, nextA, maxAreaPoint, r);
      if r.Some? {
        nextA := r;
        maxAreaPoint := Some(data[r.value]);
      }
      sampled := sampled + [maxAreaPoint];
      a := nextA;
      i := i + 1;
    }
    AllHalfTaken(data, h, i, sampled, a, nextA, maxAreaPoint);
    sampled := sampled + [Some(data[|data| - 1])];
  }
}
