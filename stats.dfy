/** internal/stats/stats.go: hourly statistics of a plant's power readings.
    One day's readings are bucketed by hour of day (AggregateToHourly),
    several days are combined hour by hour (AggregateDays), and the buckets
    are flattened into rows (GetHourlyRows).  Power values are exact reals;
    math.Sqrt is a parameter `sqrt`, and the facts that depend on it assume
    it is the exact square root (IsSqrt). */
module Stats {
  import opened Wrappers
  import Plant
  import Sorting

  /** The number of hour slots in a day. */
  const HoursPerDay: int := 24

  /** math.MaxFloat64, the largest finite float64, (2^53 - 1) * 2^971.
      It is the "no reading yet" value of a running minimum, and its
      negation that of a running maximum. */
  const MaxFloat64: real := 179769313486231570814527423731704356798070567525844996598917476803157260780028538760589558632766878171540458953514382464234321326889464182768467546703537516986049910576551282076245490090389328944075868508455133942304583236903222948165808559332123348274797826204144723168738177180919299881250404026184124858368.0

  /** `sqrt` is the square root on the non-negative reals, as math.Sqrt is. */
  ghost predicate IsSqrt(sqrt: real -> real)
  {
    forall x :: 0.0 <= x ==> 0.0 <= sqrt(x) && Square(sqrt(x)) == x
  }

  function Square(x: real): real
  {
    x * x
  }

  /** Every value is a finite float64. */
  predicate InFloatRange(vs: seq<real>)
  {
    forall i :: 0 <= i < |vs| ==> -MaxFloat64 <= vs[i] <= MaxFloat64
  }

  // ---------------------------------------------------------------------------
  // Sums, extremes, standard deviation

  /** The sum of the values, added left to right. */
  function Sum(vs: seq<real>): real
  {
    if |vs| == 0 then 0.0 else Sum(vs[..|vs| - 1]) + vs[|vs| - 1]
  }

  /** Σ (v - mean)², added left to right. */
  function SumSquares(vs: seq<real>, mean: real): real
  {
    if |vs| == 0 then 0.0
    else
      SumSquares(vs[..|vs| - 1], mean) + Square(vs[|vs| - 1] - mean)
  }

  /** What CalculateStdDev returns: 0 for fewer than two values, otherwise
      the root of the sample variance Σ (v - mean)² / (n - 1). */
  function StdDevOf(vs: seq<real>, mean: real, sqrt: real -> real): real
  {
    if |vs| < 2 then 0.0 else sqrt(SumSquares(vs, mean) / (|vs| - 1) as real)
  }

  /** A running minimum started at MaxFloat64: each value replaces the
      current one when it is strictly smaller. */
  function RunningMin(vs: seq<real>): real
  {
    if |vs| == 0 then MaxFloat64
    else
      var m := RunningMin(vs[..|vs| - 1]);
      var v := vs[|vs| - 1];
      if v < m then v else m
  }

  /** A running maximum started at -MaxFloat64: each value replaces the
      current one when it is strictly larger. */
  function RunningMax(vs: seq<real>): real
  {
    if |vs| == 0 then -MaxFloat64
    else
      var m := RunningMax(vs[..|vs| - 1]);
      var v := vs[|vs| - 1];
      if v > m then v else m
  }

  /** The running minimum is below every value, and it is one of them once
      there is a value and all values are finite. */
  lemma {:induction false} RunningMinIsMinimum(vs: seq<real>)
    ensures forall i :: 0 <= i < |vs| ==> RunningMin(vs) <= vs[i]
    ensures |vs| > 0 && InFloatRange(vs) ==> RunningMin(vs) in vs
  {
    if |vs| > 0 {
      var pre := vs[..|vs| - 1];
      RunningMinIsMinimum(pre);
      assert vs == pre + [vs[|vs| - 1]];
    }
  }

  /** The running maximum is above every value, and it is one of them once
      there is a value and all values are finite. */
  lemma {:induction false} RunningMaxIsMaximum(vs: seq<real>)
    ensures forall i :: 0 <= i < |vs| ==> vs[i] <= RunningMax(vs)
    ensures |vs| > 0 && InFloatRange(vs) ==> RunningMax(vs) in vs
  {
    if |vs| > 0 {
      var pre := vs[..|vs| - 1];
      RunningMaxIsMaximum(pre);
      assert vs == pre + [vs[|vs| - 1]];
    }
  }

  /** A sum of n values between lo and hi lies between n * lo and n * hi. */
  lemma {:induction false} SumBounds(vs: seq<real>, lo: real, hi: real)
    requires forall i :: 0 <= i < |vs| ==> lo <= vs[i] <= hi
    ensures |vs| as real * lo <= Sum(vs) <= |vs| as real * hi
  {
    if |vs| > 0 {
      SumBounds(vs[..|vs| - 1], lo, hi);
    }
  }

  /** Dividing a non-negative real gap by a positive count keeps it
      non-negative: lo <= s / n follows from n * lo <= s. */
  lemma DivideBounds(s: real, n: real, lo: real, hi: real)
    requires n > 0.0 && n * lo <= s <= n * hi
    ensures lo <= s / n <= hi
  {
    var q := s / n;
    assert q * n == s;
    if q < lo {
      MulPositive(lo - q, n);
    }
    if q > hi {
      MulPositive(q - hi, n);
    }
  }

  lemma MulPositive(a: real, b: real)
    requires a > 0.0 && b > 0.0
    ensures a * b > 0.0
  {
  }

  /** The mean of some values lies between their minimum and maximum. */
  lemma MeanBetweenExtremes(vs: seq<real>)
    requires |vs| > 0
    ensures RunningMin(vs) <= Sum(vs) / |vs| as real <= RunningMax(vs)
  {
    RunningMinIsMinimum(vs);
    RunningMaxIsMaximum(vs);
    SumBounds(vs, RunningMin(vs), RunningMax(vs));
    DivideBounds(Sum(vs), |vs| as real, RunningMin(vs), RunningMax(vs));
  }

  /** CalculateStdDev, with math.Sqrt passed in as `sqrt`.  `values` is a
      value here, so the caller's slice is untouched. */
  method CalculateStdDev(values: seq<real>, mean: real, sqrt: real -> real) returns (r: real)
    ensures r == StdDevOf(values, mean, sqrt)
  {
    if |values| < 2 {
      return 0.0;
    }
    var sumSquares: real := 0.0;
    for i := 0 to |values|
      invariant sumSquares == SumSquares(values[..i], mean)
    {
      assert values[..i + 1][..i] == values[..i];
      var diff := values[i] - mean;
      sumSquares := sumSquares + diff * diff;
    }
    assert values[..|values|] == values;
    var variance := sumSquares / (|values| - 1) as real;
    r := sqrt(variance);
  }

  /** Squared deviations add up to a non-negative number, which is zero
      exactly when every value equals the mean. */
  lemma {:induction false} SumSquaresZero(vs: seq<real>, mean: real)
    ensures SumSquares(vs, mean) >= 0.0
    ensures SumSquares(vs, mean) == 0.0 <==> forall i :: 0 <= i < |vs| ==> vs[i] == mean
  {
    if |vs| > 0 {
      var pre := vs[..|vs| - 1];
      SumSquaresZero(pre, mean);
      var diff := vs[|vs| - 1] - mean;
      SquareFacts(diff);
      var sq := Square(diff);
      assert SumSquares(vs, mean) == SumSquares(pre, mean) + sq;
      if SumSquares(vs, mean) == 0.0 {
        assert SumSquares(pre, mean) == 0.0 && sq == 0.0;
        assert vs[|vs| - 1] == mean;
        assert forall i :: 0 <= i < |vs| - 1 ==> vs[i] == pre[i];
      } else if SumSquares(pre, mean) != 0.0 {
        var i :| 0 <= i < |pre| && pre[i] != mean;
        assert vs[i] != mean;
      } else {
        assert sq != 0.0;
        assert vs[|vs| - 1] != mean;
      }
    }
  }

  /** The standard deviation is never negative. */
  lemma StdDevNonNegative(vs: seq<real>, mean: real, sqrt: real -> real)
    requires IsSqrt(sqrt)
    ensures StdDevOf(vs, mean, sqrt) >= 0.0
  {
    if |vs| >= 2 {
      SumSquaresZero(vs, mean);
      assert SumSquares(vs, mean) / (|vs| - 1) as real >= 0.0;
    }
  }

  /** With at least two values the standard deviation is zero exactly when
      every value equals the mean; with fewer it is zero. */
  lemma StdDevZeroIffConstant(vs: seq<real>, mean: real, sqrt: real -> real)
    requires IsSqrt(sqrt)
    ensures |vs| < 2 ==> StdDevOf(vs, mean, sqrt) == 0.0
    ensures |vs| >= 2 ==>
      (StdDevOf(vs, mean, sqrt) == 0.0 <==> forall i :: 0 <= i < |vs| ==> vs[i] == mean)
  {
    if |vs| >= 2 {
      SumSquaresZero(vs, mean);
      var n := (|vs| - 1) as real;
      var ss := SumSquares(vs, mean);
      var variance := ss / n;
      assert variance * n == ss;
      var r := sqrt(variance);
      assert Square(r) == variance;
      SquareFacts(r);
      if r == 0.0 {
        assert variance == 0.0;
        assert ss == 0.0;
      } else {
        assert variance != 0.0;
        assert ss != 0.0;
      }
    }
  }

  /** A square is non-negative, and positive unless zero. */
  lemma SquareFacts(x: real)
    ensures Square(x) >= 0.0
    ensures x != 0.0 ==> Square(x) > 0.0
    ensures Square(x) == 0.0 ==> x == 0.0
  {
    if x > 0.0 {
      SquarePositive(x);
    } else if x < 0.0 {
      SquarePositive(-x);
      SquareNegated(x);
    }
  }

  lemma SquarePositive(x: real)
    requires x > 0.0
    ensures Square(x) > 0.0
  {
    ProductPositive(x, x, Square(x));
  }

  lemma ProductPositive(a: real, b: real, p: real)
    requires a > 0.0 && b > 0.0 && p == a * b
    ensures p > 0.0
  {
  }

  lemma SquareNegated(x: real)
    ensures Square(-x) == Square(x)
  {
  }

  /** Squaring is monotonic on the non-negative reals. */
  lemma SquareMonotonic(a: real, b: real)
    requires 0.0 <= a <= b
    ensures Square(a) <= Square(b)
  {
    if a < b {
      MulPositive(b - a, b + a);
      assert b * b - a * a == (b - a) * (b + a);
    }
  }

  lemma SumSquaresSnoc(vs: seq<real>, x: real, mean: real)
    ensures SumSquares(vs + [x], mean) == SumSquares(vs, mean) + Square(x - mean)
  {
    assert (vs + [x])[..|vs|] == vs;
  }

  /** The sample standard deviation of 2, 4, 4, 4, 5, 5, 7, 9 around 5 is
      the root of 32/7, about 2.138. */
  lemma StdDevExample(sqrt: real -> real)
    requires IsSqrt(sqrt)
    ensures var r := StdDevOf([2.0, 4.0, 4.0, 4.0, 5.0, 5.0, 7.0, 9.0], 5.0, sqrt);
      Square(r) == 32.0 / 7.0 && 2.138 < r < 2.139
  {
    var vs := [2.0, 4.0, 4.0, 4.0, 5.0, 5.0, 7.0, 9.0];
    var s0: seq<real> := [];
    var s1 := s0 + [2.0];
    SumSquaresSnoc(s0, 2.0, 5.0);
    var s2 := s1 + [4.0];
    SumSquaresSnoc(s1, 4.0, 5.0);
    var s3 := s2 + [4.0];
    SumSquaresSnoc(s2, 4.0, 5.0);
    var s4 := s3 + [4.0];
    SumSquaresSnoc(s3, 4.0, 5.0);
    var s5 := s4 + [5.0];
    SumSquaresSnoc(s4, 5.0, 5.0);
    var s6 := s5 + [5.0];
    SumSquaresSnoc(s5, 5.0, 5.0);
    var s7 := s6 + [7.0];
    SumSquaresSnoc(s6, 7.0, 5.0);
    var s8 := s7 + [9.0];
    SumSquaresSnoc(s7, 9.0, 5.0);
    assert s8 == vs;
    var r := sqrt(32.0 / 7.0);
    assert Square(r) == 32.0 / 7.0;
    assert r >= 0.0;
    if r <= 2.138 {
      SquareMonotonic(r, 2.138);
    }
    if r >= 2.139 {
      SquareMonotonic(2.139, r);
    }
  }

  // ---------------------------------------------------------------------------
  // Median

  /** Each value is at most the next one, so at most every later one. */
  predicate Ascending(s: seq<real>)
  {
    forall i, j :: 0 <= i < j < |s| ==> s[i] <= s[j]
  }

  /** `x` inserted into an ascending sequence before the first larger value. */
  function Insert(x: real, s: seq<real>): (r: seq<real>)
    ensures multiset(r) == multiset(s) + multiset{x}
    ensures |r| == |s| + 1
  {
    if |s| == 0 then [x]
    else if x <= s[0] then [x] + s
    else
      assert s == [s[0]] + s[1..];
      [s[0]] + Insert(x, s[1..])
  }

  /** The values in ascending order (an insertion sort). */
  function SortedReals(s: seq<real>): (r: seq<real>)
    ensures multiset(r) == multiset(s)
    ensures |r| == |s|
  {
    if |s| == 0 then []
    else
      assert s == [s[0]] + s[1..];
      Insert(s[0], SortedReals(s[1..]))
  }

  lemma {:induction false} InsertAscending(x: real, s: seq<real>)
    requires Ascending(s)
    ensures Ascending(Insert(x, s))
  {
    if |s| > 0 && x > s[0] {
      InsertAscending(x, s[1..]);
      var r := Insert(x, s[1..]);
      forall k | 0 <= k < |r|
        ensures s[0] <= r[k]
      {
        assert r[k] in multiset(r);
        assert r[k] in multiset(s[1..]) + multiset{x};
        if r[k] in multiset(s[1..]) {
          var j :| 0 <= j < |s[1..]| && s[1..][j] == r[k];
          assert s[j + 1] == r[k];
        }
      }
    }
  }

  lemma {:induction false} SortedRealsAscending(s: seq<real>)
    ensures Ascending(SortedReals(s))
  {
    if |s| > 0 {
      SortedRealsAscending(s[1..]);
      InsertAscending(s[0], SortedReals(s[1..]));
    }
  }

  /** The first element of an ascending sequence is its least. */
  lemma AscendingHeadIsLeast(s: seq<real>, x: real)
    requires Ascending(s) && x in multiset(s)
    ensures |s| > 0 && s[0] <= x
  {
    var i :| 0 <= i < |s| && s[i] == x;
  }

  /** Dropping the first element keeps the rest ascending. */
  lemma AscendingDropHead(s: seq<real>)
    requires Ascending(s) && |s| > 0
    ensures Ascending(s[1..]) && multiset(s[1..]) == multiset(s) - multiset{s[0]}
  {
    assert s == [s[0]] + s[1..];
  }

  lemma {:induction false} AscendingUnique(s: seq<real>, t: seq<real>)
    requires Ascending(s) && Ascending(t) && multiset(s) == multiset(t)
    ensures s == t
  {
    assert |t| == |multiset(t)| == |multiset(s)| == |s|;
    if |s| > 0 {
      AscendingHeadIsLeast(t, s[0]);
      AscendingHeadIsLeast(s, t[0]);
      AscendingDropHead(s);
      AscendingDropHead(t);
      AscendingUnique(s[1..], t[1..]);
      SameHeadSameTail(s, t);
    }
  }

  lemma SameHeadSameTail(s: seq<real>, t: seq<real>)
    requires |s| > 0 && |t| > 0 && s[0] == t[0] && s[1..] == t[1..]
    ensures s == t
  {
    assert s == [s[0]] + s[1..] && t == [t[0]] + t[1..];
  }

  /** The middle of an ascending sequence: the middle value for an odd
      count, the mean of the two middle values for an even one, 0 for none. */
  function MedianOfSorted(s: seq<real>): real
  {
    if |s| == 0 then 0.0
    else if |s| % 2 == 0 then (s[|s| / 2 - 1] + s[|s| / 2]) / 2.0
    else s[|s| / 2]
  }

  /** What CalculateMedian returns: the middle of the values once sorted. */
  function Median(vs: seq<real>): real
  {
    MedianOfSorted(SortedReals(vs))
  }

  /** The order sort.Float64s uses (no value here is NaN). */
  function RealLess(x: real, y: real): bool
  {
    x < y
  }

  lemma RealLessIsStrictWeakOrder()
    ensures Sorting.StrictWeakOrder(RealLess)
  {
  }

  lemma SortedByRealLess(s: seq<real>)
    requires Sorting.SortedBy(s, RealLess)
    ensures Ascending(s)
  {
    forall i, j | 0 <= i < j < |s|
      ensures s[i] <= s[j]
    {
      assert !RealLess(s[j], s[i]);
    }
  }

  /** CalculateMedian: sorts a copy of the values, so the caller's slice is
      left as it was, and picks the middle. */
  method CalculateMedian(values: seq<real>) returns (m: real)
    ensures m == Median(values)
  {
    if |values| == 0 {
      return 0.0;
    }
    var sorted := new real[|values|];
    forall i | 0 <= i < |values| {
      sorted[i] := values[i];
    }
    assert sorted[..] == values;
    RealLessIsStrictWeakOrder();
    Sorting.SortInPlace(sorted, RealLess);
    SortedByRealLess(sorted[..]);
    SortedRealsAscending(values);
    AscendingUnique(sorted[..], SortedReals(values));
    var n := sorted.Length;
    if n % 2 == 0 {
      m := (sorted[n / 2 - 1] + sorted[n / 2]) / 2.0;
    } else {
      m := sorted[n / 2];
    }
  }

  /** The median depends only on which values there are, not their order. */
  lemma MedianPermutationInvariant(a: seq<real>, b: seq<real>)
    requires multiset(a) == multiset(b)
    ensures Median(a) == Median(b)
  {
    SortedRealsAscending(a);
    SortedRealsAscending(b);
    AscendingUnique(SortedReals(a), SortedReals(b));
  }

  /** The median of some values lies between the smallest and the largest. */
  lemma MedianBounds(vs: seq<real>)
    requires |vs| > 0
    ensures exists i :: 0 <= i < |vs| && vs[i] <= Median(vs)
    ensures exists j :: 0 <= j < |vs| && Median(vs) <= vs[j]
  {
    var s := SortedReals(vs);
    SortedRealsAscending(vs);
    var n := |s|;
    if n % 2 == 0 {
      assert s[0] <= s[n / 2 - 1] && s[n / 2] <= s[n - 1];
    } else {
      assert s[0] <= s[n / 2] <= s[n - 1];
    }
    assert s[0] in multiset(vs) && s[n - 1] in multiset(vs);
    var i :| 0 <= i < |vs| && vs[i] == s[0];
    var j :| 0 <= j < |vs| && vs[j] == s[n - 1];
  }

  lemma MedianOfNone()
    ensures Median([]) == 0.0
  {
  }

  lemma MedianOfOne()
    ensures Median([5.0]) == 5.0
  {
  }

  /** An odd count of values in ascending order: the median is the middle
      one (1, 3, 5 gives 3). */
  lemma MedianOddCount(vs: seq<real>)
    requires |vs| % 2 == 1 && Ascending(vs)
    ensures Median(vs) == vs[|vs| / 2]
  {
    MedianOfArrangement(vs, vs);
  }

  /** An even, non-zero count of values in ascending order: the median is the
      mean of the middle two (1, 2, 3, 4 gives 2.5). */
  lemma MedianEvenCount(vs: seq<real>)
    requires |vs| > 0 && |vs| % 2 == 0 && Ascending(vs)
    ensures Median(vs) == (vs[|vs| / 2 - 1] + vs[|vs| / 2]) / 2.0
  {
    MedianOfArrangement(vs, vs);
  }

  /** The median of some values is the middle of any ascending arrangement
      of them. */
  lemma MedianOfArrangement(vs: seq<real>, sorted: seq<real>)
    requires Ascending(sorted) && multiset(vs) == multiset(sorted)
    ensures Median(vs) == MedianOfSorted(sorted)
  {
    SortedRealsAscending(vs);
    AscendingUnique(SortedReals(vs), sorted);
  }

  // ---------------------------------------------------------------------------
  // HourlyStats

  /** The fields of an HourlyStats, as a value. */
  datatype Bucket = Bucket(Hour: int, Samples: nat, Min: real, Max: real, Sum: real,
                           Mean: real, StdDev: real, Values: seq<real>)

  /** NewHourlyStats(hour): no readings, the extremes at their sentinels. */
  function NewBucket(hour: int): Bucket
  {
    Bucket(hour, 0, MaxFloat64, -MaxFloat64, 0.0, 0.0, 0.0, [])
  }

  /** AddValue(power) applied to a bucket. */
  function Added(b: Bucket, power: real): Bucket
  {
    b.(Samples := b.Samples + 1,
       Sum := b.Sum + power,
       Values := b.Values + [power],
       Min := if power < b.Min then power else b.Min,
       Max := if power > b.Max then power else b.Max)
  }

  /** AddValue applied to each reading in turn. */
  function AddedAll(b: Bucket, vs: seq<real>): Bucket
  {
    if |vs| == 0 then b else Added(AddedAll(b, vs[..|vs| - 1]), vs[|vs| - 1])
  }

  /** Finalize applied to a bucket: an empty one has its extremes reset to 0;
      otherwise the mean and the standard deviation are filled in. */
  function Finalized(b: Bucket, sqrt: real -> real): Bucket
  {
    if b.Samples == 0 then b.(Min := 0.0, Max := 0.0)
    else
      var mean := b.Sum / b.Samples as real;
      b.(Mean := mean, StdDev := StdDevOf(b.Values, mean, sqrt))
  }

  lemma AddedAllSnoc(b: Bucket, vs: seq<real>, x: real)
    ensures AddedAll(b, vs + [x]) == Added(AddedAll(b, vs), x)
  {
    assert (vs + [x])[..|vs|] == vs;
  }

  /** A finalized bucket for `hour` that was given the readings `vs`. */
  function HourSummary(hour: int, vs: seq<real>, sqrt: real -> real): Bucket
  {
    Finalized(AddedAll(NewBucket(hour), vs), sqrt)
  }

  class HourlyStats {
    var Hour: int
    var Samples: nat
    var Min: real
    var Max: real
    var Sum: real
    var Mean: real
    var StdDev: real
    var Values: seq<real>

    function Snapshot(): Bucket
      reads this
    {
      Bucket(Hour, Samples, Min, Max, Sum, Mean, StdDev, Values)
    }

    /** NewHourlyStats. */
    constructor (hour: int)
      ensures Snapshot() == NewBucket(hour)
    {
      Hour := hour;
      Samples := 0;
      Min := MaxFloat64;
      Max := -MaxFloat64;
      Sum := 0.0;
      Mean := 0.0;
      StdDev := 0.0;
      Values := [];
    }

    method AddValue(power: real)
      modifies this
      ensures Snapshot() == Added(old(Snapshot()), power)
    {
      Samples := Samples + 1;
      Sum := Sum + power;
      Values := Values + [power];
      if power < Min {
        Min := power;
      }
      if power > Max {
        Max := power;
      }
    }

    method Finalize(sqrt: real -> real)
      modifies this
      ensures Snapshot() == Finalized(old(Snapshot()), sqrt)
    {
      if Samples == 0 {
        Min := 0.0;
        Max := 0.0;
        return;
      }
      Mean := Sum / Samples as real;
      StdDev := CalculateStdDev(Values, Mean, sqrt);
    }
  }

  /** After NewHourlyStats and any run of AddValue calls the bucket holds
      the readings in call order, their count and their sum, and its
      extremes are the running minimum and maximum. */
  lemma {:induction false} AccumulationInvariant(hour: int, vs: seq<real>)
    ensures var b := AddedAll(NewBucket(hour), vs);
      && b.Hour == hour && b.Samples == |vs| && b.Values == vs && b.Sum == Sum(vs)
      && b.Min == RunningMin(vs) && b.Max == RunningMax(vs)
      && b.Mean == 0.0 && b.StdDev == 0.0
  {
    if |vs| > 0 {
      var p, x := vs[..|vs| - 1], vs[|vs| - 1];
      AccumulationInvariant(hour, p);
      var b := AddedAll(NewBucket(hour), p);
      assert AddedAll(NewBucket(hour), vs) == Added(b, x);
      assert Sum(vs) == Sum(p) + x;
      assert RunningMin(vs) == if x < RunningMin(p) then x else RunningMin(p);
      assert RunningMax(vs) == if x > RunningMax(p) then x else RunningMax(p);
      assert p + [x] == vs;
    }
  }

  /** Once there are readings, the minimum and the maximum are among them
      and every reading lies between them. */
  lemma AccumulatedExtremes(hour: int, vs: seq<real>)
    requires |vs| > 0 && InFloatRange(vs)
    ensures var b := AddedAll(NewBucket(hour), vs);
      && b.Min in b.Values && b.Max in b.Values
      && forall i :: 0 <= i < |b.Values| ==> b.Min <= b.Values[i] <= b.Max
  {
    AccumulationInvariant(hour, vs);
    RunningMinIsMinimum(vs);
    RunningMaxIsMaximum(vs);
  }

  /** What Finalize leaves: an empty bucket reads all zeros; otherwise the
      mean is Sum / Samples and the standard deviation that of the readings
      around it.  Count, sum and readings are untouched. */
  lemma FinalizedSummary(hour: int, vs: seq<real>, sqrt: real -> real)
    ensures var f := HourSummary(hour, vs, sqrt);
      && f.Hour == hour && f.Samples == |vs| && f.Values == vs && f.Sum == Sum(vs)
      && (|vs| == 0 ==> f.Min == 0.0 && f.Max == 0.0 && f.Mean == 0.0 && f.StdDev == 0.0)
      && (|vs| > 0 ==>
            && f.Min == RunningMin(vs) && f.Max == RunningMax(vs)
            && f.Mean == Sum(vs) / |vs| as real
            && f.StdDev == StdDevOf(vs, f.Mean, sqrt))
  {
    AccumulationInvariant(hour, vs);
  }

  /** A finalized bucket's mean lies between its minimum and maximum, and
      its standard deviation is not negative. */
  lemma FinalizedBounds(hour: int, vs: seq<real>, sqrt: real -> real)
    requires |vs| > 0 && IsSqrt(sqrt)
    ensures var f := HourSummary(hour, vs, sqrt);
      f.Min <= f.Mean <= f.Max && f.StdDev >= 0.0
  {
    FinalizedSummary(hour, vs, sqrt);
    MeanBetweenExtremes(vs);
    StdDevNonNegative(vs, Sum(vs) / |vs| as real, sqrt);
  }

  /** Finalizing twice is the same as finalizing once. */
  lemma FinalizeIdempotent(b: Bucket, sqrt: real -> real)
    ensures Finalized(Finalized(b, sqrt), sqrt) == Finalized(b, sqrt)
  {
  }

  lemma SumSnoc(vs: seq<real>, x: real)
    ensures Sum(vs + [x]) == Sum(vs) + x
  {
    assert (vs + [x])[..|vs|] == vs;
  }

  /** The extremes of finite readings that never decrease are the first
      and the last. */
  lemma ExtremesOfAscending(vs: seq<real>)
    requires |vs| > 0 && Ascending(vs) && InFloatRange(vs)
    ensures RunningMin(vs) == vs[0] && RunningMax(vs) == vs[|vs| - 1]
  {
    RunningMinIsMinimum(vs);
    RunningMaxIsMaximum(vs);
  }

  /** Readings 100, 200, 300, 400, 500 in hour 12: five samples, minimum 100,
      maximum 500, sum 1500 and mean 300. */
  lemma HourlyStatsExample(vs: seq<real>, sqrt: real -> real)
    requires vs == [100.0, 200.0, 300.0, 400.0, 500.0]
    ensures var f := HourSummary(12, vs, sqrt);
      && f.Hour == 12 && f.Samples == 5 && f.Min == 100.0 && f.Max == 500.0
      && f.Sum == 1500.0 && f.Mean == 300.0
  {
    FinalizedSummary(12, vs, sqrt);
    var s0: seq<real> := [];
    var s1 := s0 + [100.0];
    SumSnoc(s0, 100.0);
    var s2 := s1 + [200.0];
    SumSnoc(s1, 200.0);
    var s3 := s2 + [300.0];
    SumSnoc(s2, 300.0);
    var s4 := s3 + [400.0];
    SumSnoc(s3, 400.0);
    var s5 := s4 + [500.0];
    SumSnoc(s4, 500.0);
    assert s5 == vs;
    ExtremesOfAscending(vs);
  }

  /** The same readings are spread out, so their standard deviation is not 0. */
  lemma HourlyStatsExampleSpread(vs: seq<real>, sqrt: real -> real)
    requires vs == [100.0, 200.0, 300.0, 400.0, 500.0] && IsSqrt(sqrt)
    ensures HourSummary(12, vs, sqrt).StdDev != 0.0
  {
    HourlyStatsExample(vs, sqrt);
    FinalizedSummary(12, vs, sqrt);
    StdDevZeroIffConstant(vs, 300.0, sqrt);
    assert vs[0] != 300.0;
  }

  /** An hour that had no readings reads 0 for both extremes. */
  lemma EmptyHourExample(sqrt: real -> real)
    ensures var f := HourSummary(0, [], sqrt);
      f.Min == 0.0 && f.Max == 0.0 && f.Samples == 0
  {
  }

  // ---------------------------------------------------------------------------
  // DailyStats and AggregateToHourly

  class DailyStats {
    var Date: string
    /** The 24 hour slots; a slot may be nil. */
    const Hours: array<HourlyStats?>

    /** A day with all 24 slots nil (the zero value of the Go struct). */
    constructor (date: string)
      ensures Date == date && fresh(Hours) && Hours.Length == HoursPerDay
      ensures forall h :: 0 <= h < HoursPerDay ==> Hours[h] == null
    {
      Date := date;
      Hours := new HourlyStats?[HoursPerDay](_ => null);
    }
  }

  /** The powers of the samples whose hour is `hour`, in input order. */
  function PowersAt(data: seq<Plant.ParsedPowerData>, hour: int): seq<real>
  {
    if |data| == 0 then []
    else
      var p := data[|data| - 1];
      PowersAt(data[..|data| - 1], hour) + (if p.Hour == hour then [p.Power] else [])
  }

  /** How many samples have an hour in 0..23. */
  function InDayCount(data: seq<Plant.ParsedPowerData>): nat
  {
    if |data| == 0 then 0
    else
      var p := data[|data| - 1];
      InDayCount(data[..|data| - 1]) + (if 0 <= p.Hour < HoursPerDay then 1 else 0)
  }

  /** Σ over the hours below n of how many readings the hour receives. */
  function SamplesBelow(data: seq<Plant.ParsedPowerData>, n: nat): nat
  {
    if n == 0 then 0 else SamplesBelow(data, n - 1) + |PowersAt(data, n - 1)|
  }

  /** The 24 slots of a day all hold a bucket, and no two slots share one. */
  predicate DistinctSlots(stats: DailyStats)
    reads stats, stats.Hours
  {
    && stats.Hours.Length == HoursPerDay
    && (forall h :: 0 <= h < HoursPerDay ==> stats.Hours[h] != null)
    && (forall h, g :: 0 <= h < g < HoursPerDay ==> stats.Hours[h] != stats.Hours[g])
  }

  /** The first loop of AggregateToHourly: a day whose every slot holds a
      new empty bucket for its hour. */
  method NewDay(date: string) returns (stats: DailyStats)
    ensures fresh(stats) && fresh(stats.Hours) && stats.Date == date && DistinctSlots(stats)
    ensures forall h :: 0 <= h < HoursPerDay ==>
      fresh(stats.Hours[h]) && stats.Hours[h].Snapshot() == NewBucket(h)
  {
    stats := new DailyStats(date);
    for i := 0 to HoursPerDay
      invariant stats.Date == date
      invariant forall h :: 0 <= h < i ==>
        stats.Hours[h] != null && fresh(stats.Hours[h]) && stats.Hours[h].Snapshot() == NewBucket(h)
      invariant forall h, g :: 0 <= h < g < i ==> stats.Hours[h] != stats.Hours[g]
    {
      stats.Hours[i] := new HourlyStats(i);
    }
  }

  /** The second loop of AggregateToHourly: each sample is added to the
      bucket of its hour; samples outside 0..23 are dropped. */
  method AddSamples(stats: DailyStats, data: seq<Plant.ParsedPowerData>)
    requires DistinctSlots(stats)
    requires forall h :: 0 <= h < HoursPerDay ==> stats.Hours[h].Snapshot() == NewBucket(h)
    modifies set h | 0 <= h < HoursPerDay :: stats.Hours[h]
    ensures forall h :: 0 <= h < HoursPerDay ==>
      stats.Hours[h].Snapshot() == AddedAll(NewBucket(h), PowersAt(data, h))
  {
    for k := 0 to |data|
      invariant forall h :: 0 <= h < HoursPerDay ==>
        stats.Hours[h].Snapshot() == AddedAll(NewBucket(h), PowersAt(data[..k], h))
    {
      var p := data[k];
      label before:
      if p.Hour >= 0 && p.Hour < HoursPerDay {
        stats.Hours[p.Hour].AddValue(p.Power);
      }
      forall h | 0 <= h < HoursPerDay
        ensures stats.Hours[h].Snapshot() == AddedAll(NewBucket(h), PowersAt(data[..k + 1], h))
      {
        assert old@before(stats.Hours[h].Snapshot()) == AddedAll(NewBucket(h), PowersAt(data[..k], h));
        BucketStep(data, k, h);
      }
    }
    assert data[..|data|] == data;
  }

  /** The third loop of AggregateToHourly: every bucket is finalized. */
  method FinalizeSlots(stats: DailyStats, ghost data: seq<Plant.ParsedPowerData>, sqrt: real -> real)
    requires DistinctSlots(stats)
    requires forall h :: 0 <= h < HoursPerDay ==>
      stats.Hours[h].Snapshot() == AddedAll(NewBucket(h), PowersAt(data, h))
    modifies set h | 0 <= h < HoursPerDay :: stats.Hours[h]
    ensures forall h :: 0 <= h < HoursPerDay ==>
      stats.Hours[h].Snapshot() == HourSummary(h, PowersAt(data, h), sqrt)
  {
    for i := 0 to HoursPerDay
      invariant forall h :: 0 <= h < i ==>
        stats.Hours[h].Snapshot() == HourSummary(h, PowersAt(data, h), sqrt)
      invariant forall h :: i <= h < HoursPerDay ==>
        stats.Hours[h].Snapshot() == AddedAll(NewBucket(h), PowersAt(data, h))
    {
      stats.Hours[i].Finalize(sqrt);
    }
  }

  /** AggregateToHourly (math.Sqrt passed in as `sqrt`): nil for no samples;
      otherwise a day dated by the first sample whose 24 slots are distinct
      new buckets, slot h finalized over the powers of the samples in
      hour h, in input order.  Samples with an hour outside 0..23 land in
      no slot. */
  method AggregateToHourly(data: seq<Plant.ParsedPowerData>, sqrt: real -> real) returns (stats: DailyStats?)
    ensures (stats == null) <==> |data| == 0
    ensures stats != null ==>
      && fresh(stats) && fresh(stats.Hours) && stats.Hours.Length == HoursPerDay
      && stats.Date == data[0].Date
      && (forall h :: 0 <= h < HoursPerDay ==>
            && stats.Hours[h] != null && fresh(stats.Hours[h])
            && stats.Hours[h].Snapshot() == HourSummary(h, PowersAt(data, h), sqrt))
      && (forall h, g :: 0 <= h < g < HoursPerDay ==> stats.Hours[h] != stats.Hours[g])
  {
    if |data| == 0 {
      return null;
    }
    var day := NewDay(data[0].Date);
    AddSamples(day, data);
    FinalizeSlots(day, data, sqrt);
    stats := day;
  }

  lemma BucketStep(data: seq<Plant.ParsedPowerData>, k: nat, h: int)
    requires k < |data|
    ensures AddedAll(NewBucket(h), PowersAt(data[..k + 1], h))
         == if data[k].Hour == h then Added(AddedAll(NewBucket(h), PowersAt(data[..k], h)), data[k].Power)
            else AddedAll(NewBucket(h), PowersAt(data[..k], h))
  {
    assert data[..k + 1][..k] == data[..k];
    if data[k].Hour == h {
      AddedAllSnoc(NewBucket(h), PowersAt(data[..k], h), data[k].Power);
    } else {
      assert PowersAt(data[..k + 1], h) == PowersAt(data[..k], h) + [];
      assert PowersAt(data[..k], h) + [] == PowersAt(data[..k], h);
    }
  }

  /** Bucketing distributes over concatenation: the readings an hour gets
      from two runs of samples are those of the first run, then those of
      the second. */
  lemma {:induction false} PowersAtAppend(a: seq<Plant.ParsedPowerData>, b: seq<Plant.ParsedPowerData>, hour: int)
    ensures PowersAt(a + b, hour) == PowersAt(a, hour) + PowersAt(b, hour)
  {
    if |b| == 0 {
      assert a + b == a;
      assert PowersAt(a, hour) + PowersAt(b, hour) == PowersAt(a, hour);
    } else {
      var b' := b[..|b| - 1];
      PowersAtAppend(a, b', hour);
      assert (a + b)[..|a + b| - 1] == a + b';
      var last := b[|b| - 1];
      var extra := if last.Hour == hour then [last.Power] else [];
      assert PowersAt(b, hour) == PowersAt(b', hour) + extra;
      assert PowersAt(a + b, hour) == PowersAt(a + b', hour) + extra;
      assert PowersAt(a + b, hour) == (PowersAt(a, hour) + PowersAt(b', hour)) + extra;
    }
  }

  /** One sample goes to its own hour and to no other. */
  lemma PowersAtSingle(p: Plant.ParsedPowerData, hour: int)
    ensures PowersAt([p], hour) == if p.Hour == hour then [p.Power] else []
  {
  }

  /** Every reading an hour gets comes from a sample of that hour. */
  lemma {:induction false} PowersAtFromHour(data: seq<Plant.ParsedPowerData>, hour: int)
    ensures |PowersAt(data, hour)| <= |data|
    ensures forall v :: v in PowersAt(data, hour) ==>
      exists i :: 0 <= i < |data| && data[i].Hour == hour && data[i].Power == v
  {
    if |data| > 0 {
      var pre := data[..|data| - 1];
      PowersAtFromHour(pre, hour);
      forall v | v in PowersAt(data, hour)
        ensures exists i :: 0 <= i < |data| && data[i].Hour == hour && data[i].Power == v
      {
        if v in PowersAt(pre, hour) {
          var i :| 0 <= i < |pre| && pre[i].Hour == hour && pre[i].Power == v;
          assert data[i] == pre[i];
        } else {
          assert data[|data| - 1].Hour == hour && data[|data| - 1].Power == v;
        }
      }
    }
  }

  /** A sample adds one reading to the total over the hours below n exactly
      when its hour is below n. */
  lemma {:induction false} SamplesBelowSnoc(data: seq<Plant.ParsedPowerData>, p: Plant.ParsedPowerData, n: nat)
    ensures SamplesBelow(data + [p], n) == SamplesBelow(data, n) + (if 0 <= p.Hour < n then 1 else 0)
  {
    assert (data + [p])[..|data|] == data;
    if n > 0 {
      SamplesBelowSnoc(data, p, n - 1);
    }
  }

  lemma {:induction false} NoSamplesBelow(data: seq<Plant.ParsedPowerData>, n: nat)
    requires |data| == 0
    ensures SamplesBelow(data, n) == 0
  {
    if n > 0 {
      NoSamplesBelow(data, n - 1);
    }
  }

  /** The 24 hours partition the samples with an hour in 0..23: the readings
      of all slots together number exactly that many. */
  lemma {:induction false} HoursPartitionSamples(data: seq<Plant.ParsedPowerData>)
    ensures SamplesBelow(data, HoursPerDay) == InDayCount(data)
  {
    if |data| == 0 {
      NoSamplesBelow(data, HoursPerDay);
    } else {
      var pre := data[..|data| - 1];
      HoursPartitionSamples(pre);
      SamplesBelowSnoc(pre, data[|data| - 1], HoursPerDay);
      assert pre + [data[|data| - 1]] == data;
      assert InDayCount(data) == InDayCount(pre) + (if 0 <= data[|data| - 1].Hour < HoursPerDay then 1 else 0);
    }
  }

  // ---------------------------------------------------------------------------
  // Days as values

  /** A day's slots as values: None for a nil slot. */
  datatype Day = Day(Date: string, Hours: seq<Option<Bucket>>)

  /** Every day object has its 24-slot array ([24]*HourlyStats in Go). */
  predicate DayArrays(days: seq<DailyStats>)
  {
    forall i :: 0 <= i < |days| ==> days[i].Hours.Length == HoursPerDay
  }

  ghost function BucketOf(s: HourlyStats?): Option<Bucket>
    reads s
  {
    if s == null then None else Some(s.Snapshot())
  }

  ghost function Slots(d: DailyStats): set<HourlyStats?>
    reads d.Hours
  {
    set h | 0 <= h < d.Hours.Length :: d.Hours[h]
  }

  /** The value a DailyStats object holds. */
  ghost function DayOf(d: DailyStats): (r: Day)
    reads d, d.Hours, Slots(d)
    ensures |r.Hours| == d.Hours.Length
  {
    Day(d.Date, seq(d.Hours.Length, h requires 0 <= h < d.Hours.Length reads d.Hours, Slots(d) => BucketOf(d.Hours[h])))
  }

  /** The values a run of DailyStats objects hold. */
  ghost function DaysOf(days: seq<DailyStats>): (r: seq<Day>)
    reads set i | 0 <= i < |days| :: days[i]
    reads set i | 0 <= i < |days| :: days[i].Hours
    reads set i, h | 0 <= i < |days| && 0 <= h < days[i].Hours.Length :: days[i].Hours[h]
    ensures |r| == |days|
    ensures forall i :: 0 <= i < |days| ==> r[i] == DayOf(days[i])
  {
    if |days| == 0 then [] else DaysOf(days[..|days| - 1]) + [DayOf(days[|days| - 1])]
  }

  // ---------------------------------------------------------------------------
  // AggregateDays

  /** The fields of an AggregatedHourStats, as a value. */
  datatype HourAggregate = HourAggregate(Hour: int, SampleDays: nat, Min: real, Max: real,
                                         Average: real, Median: real, StdDev: real, Values: seq<real>)

  /** The aggregate AggregateDays starts each hour with. */
  function NewAggregate(hour: int): HourAggregate
  {
    HourAggregate(hour, 0, MaxFloat64, -MaxFloat64, 0.0, 0.0, 0.0, [])
  }

  /** A day counts for an hour when its slot is set and has readings. */
  predicate Contributes(day: Day, hour: int)
  {
    0 <= hour < |day.Hours| && day.Hours[hour].Some? && day.Hours[hour].value.Samples != 0
  }

  /** One contributing day's bucket folded into an hour's aggregate. */
  function Merged(a: HourAggregate, b: Bucket): HourAggregate
  {
    a.(SampleDays := a.SampleDays + 1,
       Min := if b.Min < a.Min then b.Min else a.Min,
       Max := if b.Max > a.Max then b.Max else a.Max,
       Values := a.Values + [b.Mean])
  }

  /** One day seen by the day loop for `hour`: folded in when it counts. */
  function Accumulated(a: HourAggregate, day: Day, hour: int): HourAggregate
  {
    if Contributes(day, hour) then Merged(a, day.Hours[hour].value) else a
  }

  /** The aggregate of `hour` after the day loop has seen `days`. */
  function FoldDays(days: seq<Day>, hour: int): (a: HourAggregate)
    ensures a.Hour == hour && a.SampleDays == |a.Values|
    ensures a.Average == 0.0 && a.Median == 0.0 && a.StdDev == 0.0
  {
    if |days| == 0 then NewAggregate(hour)
    else
      Accumulated(FoldDays(days[..|days| - 1], hour), days[|days| - 1], hour)
  }

  /** The final statistics of one hour: extremes reset to 0 when no day
      counted; otherwise average, median and standard deviation of the
      days' means. */
  function FinalizedAggregate(a: HourAggregate, sqrt: real -> real): HourAggregate
    requires a.SampleDays == |a.Values|
  {
    if a.SampleDays == 0 then a.(Min := 0.0, Max := 0.0)
    else
      var average := Sum(a.Values) / |a.Values| as real;
      a.(Average := average, Median := Median(a.Values), StdDev := StdDevOf(a.Values, average, sqrt))
  }

  /** What AggregateDays reports for `hour`. */
  function HourOverDays(days: seq<Day>, hour: int, sqrt: real -> real): HourAggregate
  {
    FinalizedAggregate(FoldDays(days, hour), sqrt)
  }

  /** The 24 aggregates as the day loop leaves them. */
  function FoldedHours(days: seq<Day>): (r: seq<HourAggregate>)
    ensures |r| == HoursPerDay
    ensures forall h :: 0 <= h < HoursPerDay ==> r[h] == FoldDays(days, h)
  {
    seq(HoursPerDay, h requires 0 <= h < HoursPerDay => FoldDays(days, h))
  }

  /** The 24 aggregates AggregateDays reports; an hour no day counted for
      keeps a zero average. */
  function HoursOverDays(days: seq<Day>, sqrt: real -> real): (r: seq<HourAggregate>)
    ensures |r| == HoursPerDay
    ensures forall h :: 0 <= h < HoursPerDay ==> r[h] == HourOverDays(days, h, sqrt)
    ensures forall h :: 0 <= h < HoursPerDay ==> r[h].SampleDays == 0 ==> r[h].Average == 0.0
  {
    seq(HoursPerDay, h requires 0 <= h < HoursPerDay => HourOverDays(days, h, sqrt))
  }

  /** The average of each aggregate, in hour order. */
  function AveragesOf(aggs: seq<HourAggregate>): (avgs: seq<real>)
    ensures |avgs| == |aggs|
    ensures forall h :: 0 <= h < |aggs| ==> avgs[h] == aggs[h].Average
  {
    seq(|aggs|, h requires 0 <= h < |aggs| => aggs[h].Average)
  }

  /** The 24 hourly averages. */
  function Averages(days: seq<Day>, sqrt: real -> real): (avgs: seq<real>)
    ensures |avgs| == HoursPerDay
  {
    AveragesOf(HoursOverDays(days, sqrt))
  }

  /** The peak scan: starting from hour 0 and 0 W, an hour replaces the
      current peak when its average is strictly larger. */
  function Peak(avgs: seq<real>): (int, real)
  {
    if |avgs| == 0 then (0, 0.0)
    else
      var (hour, best) := Peak(avgs[..|avgs| - 1]);
      if avgs[|avgs| - 1] > best then (|avgs| - 1, avgs[|avgs| - 1]) else (hour, best)
  }

  /** A day's estimated energy: Σ Mean / 1000 over its set slots. */
  function SlotEnergy(slots: seq<Option<Bucket>>): real
  {
    if |slots| == 0 then 0.0
    else
      var last := slots[|slots| - 1];
      SlotEnergy(slots[..|slots| - 1]) + (if last.Some? then last.value.Mean / 1000.0 else 0.0)
  }

  /** The estimated energy of all days together. */
  function TotalEnergy(days: seq<Day>): real
  {
    if |days| == 0 then 0.0 else TotalEnergy(days[..|days| - 1]) + SlotEnergy(days[|days| - 1].Hours)
  }

  class MultiDayStats {
    var StartDate: string
    var EndDate: string
    var DaysAnalyzed: int
    /** The 24 per-hour aggregates, one value per hour. */
    const ByHour: array<HourAggregate>
    var TotalProduction: real
    var DailyAverage: real
    var PeakHour: int
    var PeakPowerAvg: real

    /** The struct literal AggregateDays returns, built once every field
        has been computed. */
    constructor (startDate: string, endDate: string, daysAnalyzed: int, byHour: array<HourAggregate>,
                 totalProduction: real, dailyAverage: real, peakHour: int, peakPowerAvg: real)
      ensures StartDate == startDate && EndDate == endDate && DaysAnalyzed == daysAnalyzed && ByHour == byHour
      ensures TotalProduction == totalProduction && DailyAverage == dailyAverage
      ensures PeakHour == peakHour && PeakPowerAvg == peakPowerAvg
    {
      StartDate := startDate;
      EndDate := endDate;
      DaysAnalyzed := daysAnalyzed;
      ByHour := byHour;
      TotalProduction := totalProduction;
      DailyAverage := dailyAverage;
      PeakHour := peakHour;
      PeakPowerAvg := peakPowerAvg;
    }
  }

  lemma PeakStep(avgs: seq<real>, k: nat)
    requires k < |avgs|
    ensures Peak(avgs[..k + 1]) == if avgs[k] > Peak(avgs[..k]).1 then (k, avgs[k]) else Peak(avgs[..k])
  {
    assert avgs[..k + 1][..k] == avgs[..k];
  }

  /** The first loop of AggregateDays: a new aggregate for every hour. */
  method NewAggregates() returns (byHour: seq<HourAggregate>)
    ensures |byHour| == HoursPerDay
    ensures forall h :: 0 <= h < HoursPerDay ==> byHour[h] == NewAggregate(h)
  {
    byHour := [];
    for i := 0 to HoursPerDay
      invariant |byHour| == i
      invariant forall h :: 0 <= h < i ==> byHour[h] == NewAggregate(h)
    {
      byHour := byHour + [NewAggregate(i)];
    }
  }

  /** The day loop of AggregateDays: every day, in order, folded into the
      hours' aggregates; a nil slot or one without readings is skipped. */
  method AccumulateDays(days: seq<DailyStats>) returns (byHour: seq<HourAggregate>)
    requires DayArrays(days)
    ensures byHour == FoldedHours(old(DaysOf(days)))
  {
    ghost var views := DaysOf(days);
    byHour := NewAggregates();
    for k := 0 to |days|
      invariant |byHour| == HoursPerDay
      invariant forall h :: 0 <= h < HoursPerDay ==> byHour[h] == FoldDays(views[..k], h)
    {
      var day := days[k];
      assert views[..k + 1][..k] == views[..k];
      for hour := 0 to HoursPerDay
        invariant |byHour| == HoursPerDay
        invariant forall h :: 0 <= h < hour ==> byHour[h] == FoldDays(views[..k + 1], h)
        invariant forall h :: hour <= h < HoursPerDay ==> byHour[h] == FoldDays(views[..k], h)
      {
        var hourStats := day.Hours[hour];
        assert views[k].Hours[hour] == BucketOf(hourStats);
        if hourStats == null || hourStats.Samples == 0 {
          continue;
        }
        var agg := byHour[hour];
        agg := agg.(SampleDays := agg.SampleDays + 1);
        if hourStats.Min < agg.Min {
          agg := agg.(Min := hourStats.Min);
        }
        if hourStats.Max > agg.Max {
          agg := agg.(Max := hourStats.Max);
        }
        agg := agg.(Values := agg.Values + [hourStats.Mean]);
        byHour := byHour[hour := agg];
      }
    }
    assert views[..|days|] == views;
  }

  /** The loop `for _, v := range agg.Values { sum += v }`. */
  method SumOf(values: seq<real>) returns (sum: real)
    ensures sum == Sum(values)
  {
    sum := 0.0;
    for j := 0 to |values|
      invariant sum == Sum(values[..j])
    {
      assert values[..j + 1][..j] == values[..j];
      sum := sum + values[j];
    }
    assert values[..|values|] == values;
  }

  /** One step of the finalisation loop of AggregateDays: extremes reset
      when no day counted, otherwise the average, median and standard
      deviation of the days' means. */
  method FinalizeHour(agg: HourAggregate, sqrt: real -> real) returns (r: HourAggregate)
    requires agg.SampleDays == |agg.Values|
    ensures r == FinalizedAggregate(agg, sqrt)
  {
    if agg.SampleDays == 0 {
      return agg.(Min := 0.0, Max := 0.0);
    }
    var sum := SumOf(agg.Values);
    var average := sum / |agg.Values| as real;
    var median := CalculateMedian(agg.Values);
    var stdDev := CalculateStdDev(agg.Values, average, sqrt);
    r := agg.(Average := average, Median := median, StdDev := stdDev);
  }

  /** The finalisation loop of AggregateDays: each hour's aggregate
      `folded[h]` becomes its finalised value `finals[h]`, and the peak hour
      and its average are the first hour of largest positive average, as
      the scan finds it. */
  method FinalizeHours(folded: seq<HourAggregate>, ghost finals: seq<HourAggregate>, sqrt: real -> real)
      returns (byHour: seq<HourAggregate>, peakHour: int, peakPowerAvg: real)
    requires |folded| == HoursPerDay && |finals| == HoursPerDay
    requires forall h :: 0 <= h < HoursPerDay ==>
      && folded[h].SampleDays == |folded[h].Values|
      && (finals[h].SampleDays == 0 ==> finals[h].Average == 0.0)
    requires forall h {:trigger FinalizedAggregate(folded[h], sqrt)} :: 0 <= h < HoursPerDay ==>
      finals[h] == FinalizedAggregate(folded[h], sqrt)
    ensures byHour == finals
    ensures (peakHour, peakPowerAvg) == Peak(AveragesOf(finals))
  {
    ghost var averages := AveragesOf(finals);
    byHour := folded;
    var maxAvg: real := 0.0;
    peakHour, peakPowerAvg := 0, 0.0;
    for hour := 0 to HoursPerDay
      invariant |byHour| == HoursPerDay
      invariant forall h :: 0 <= h < hour ==> byHour[h] == finals[h]
      invariant forall h :: hour <= h < HoursPerDay ==> byHour[h] == folded[h]
      invariant (peakHour, maxAvg) == Peak(averages[..hour]) && peakPowerAvg == maxAvg
    {
      PeakStep(averages, hour);
      var agg := FinalizeHour(byHour[hour], sqrt);
      byHour := byHour[hour := agg];
      if agg.SampleDays == 0 {
        PeakNonNegative(averages[..hour]);
        continue;
      }
      if agg.Average > maxAvg {
        maxAvg := agg.Average;
        peakHour := hour;
        peakPowerAvg := agg.Average;
      }
    }
    assert averages[..HoursPerDay] == averages;
  }

  /** The energy loop of AggregateDays: Σ Mean / 1000 over the set slots of
      every day. */
  method EstimateEnergy(days: seq<DailyStats>) returns (total: real)
    requires DayArrays(days)
    ensures total == TotalEnergy(old(DaysOf(days)))
  {
    ghost var views := DaysOf(days);
    total := 0.0;
    for k := 0 to |days|
      invariant total == TotalEnergy(views[..k])
    {
      var day := days[k];
      ghost var slots := views[k].Hours;
      var dailyEnergy: real := 0.0;
      for hour := 0 to HoursPerDay
        invariant dailyEnergy == SlotEnergy(slots[..hour])
      {
        assert slots[..hour + 1][..hour] == slots[..hour];
        assert slots[hour] == BucketOf(day.Hours[hour]);
        if day.Hours[hour] != null {
          dailyEnergy := dailyEnergy + day.Hours[hour].Mean / 1000.0;
        }
      }
      assert slots[..HoursPerDay] == slots;
      assert views[..k + 1][..k] == views[..k];
      total := total + dailyEnergy;
    }
    assert views[..|days|] == views;
  }

  /** A new array holding the aggregates. */
  method ToArray(s: seq<HourAggregate>) returns (a: array<HourAggregate>)
    ensures fresh(a) && a[..] == s
  {
    a := new HourAggregate[|s|](i requires 0 <= i < |s| => s[i]);
  }

  /** AggregateDays (math.Sqrt passed in as `sqrt`): nil for no days;
      otherwise the first and last dates, the day count, for every hour a
      new aggregate as HourOverDays describes it, the peak hour and its
      average as the scan finds them over the 24 averages, the estimated
      total energy and its mean per day. */
  method AggregateDays(days: seq<DailyStats>, sqrt: real -> real) returns (result: MultiDayStats?)
    requires DayArrays(days)
    ensures (result == null) <==> |days| == 0
    ensures result != null ==>
      && fresh(result) && fresh(result.ByHour)
      && result.StartDate == days[0].Date && result.EndDate == days[|days| - 1].Date
      && result.DaysAnalyzed == |days|
      && result.ByHour[..] == HoursOverDays(old(DaysOf(days)), sqrt)
      && (result.PeakHour, result.PeakPowerAvg) == Peak(Averages(old(DaysOf(days)), sqrt))
      && result.TotalProduction == TotalEnergy(old(DaysOf(days)))
      && result.DailyAverage == result.TotalProduction / |days| as real
  {
    if |days| == 0 {
      return null;
    }
    ghost var views := DaysOf(days);
    var folded := AccumulateDays(days);
    // The days are only read, so estimating the energy before finalising
    // the hours gives the same result as stats.go's order.
    assert DaysOf(days) == views;
    var totalProduction := EstimateEnergy(days);
    var aggregates, peakHour, peakPowerAvg := FinalizeHours(folded, HoursOverDays(views, sqrt), sqrt);
    var dailyAverage := 0.0;
    if |days| > 0 {
      dailyAverage := totalProduction / |days| as real;
    }
    var byHour := ToArray(aggregates);
    result := new MultiDayStats(days[0].Date, days[|days| - 1].Date, |days|, byHour,
                                totalProduction, dailyAverage, peakHour, peakPowerAvg);
  }

  /** The peak value the scan keeps is never negative. */
  lemma {:induction false} PeakNonNegative(avgs: seq<real>)
    ensures Peak(avgs).1 >= 0.0
  {
    if |avgs| > 0 {
      PeakNonNegative(avgs[..|avgs| - 1]);
    }
  }

  // ---------------------------------------------------------------------------
  // What AggregateDays computes

  /** The indices of the days that count for `hour`, in order. */
  function ContributingDays(days: seq<Day>, hour: int): seq<nat>
  {
    if |days| == 0 then []
    else
      ContributingDays(days[..|days| - 1], hour) +
      (if Contributes(days[|days| - 1], hour) then [|days| - 1] else [])
  }

  /** `idx` lists exactly the days that count for `hour`, in increasing
      order, and `values` holds the hourly means of those days. */
  predicate MeansTrace(days: seq<Day>, hour: int, values: seq<real>, idx: seq<nat>)
  {
    && |values| == |idx|
    && (forall j, l :: 0 <= j < l < |idx| ==> idx[j] < idx[l])
    && (forall j :: 0 <= j < |idx| ==>
          && idx[j] < |days| && Contributes(days[idx[j]], hour)
          && values[j] == days[idx[j]].Hours[hour].value.Mean)
    && (forall i :: 0 <= i < |days| && Contributes(days[i], hour) ==> i in idx)
  }

  /** A last day that does not count leaves the trace as it is. */
  lemma MeansTraceWiden(days: seq<Day>, hour: int, values: seq<real>, idx: seq<nat>)
    requires |days| > 0 && MeansTrace(days[..|days| - 1], hour, values, idx)
    requires !Contributes(days[|days| - 1], hour)
    ensures MeansTrace(days, hour, values, idx)
  {
    var p := days[..|days| - 1];
    forall j | 0 <= j < |idx|
      ensures idx[j] < |days| && Contributes(days[idx[j]], hour)
      ensures values[j] == days[idx[j]].Hours[hour].value.Mean
    {
      assert days[idx[j]] == p[idx[j]];
    }
    forall i | 0 <= i < |days| && Contributes(days[i], hour)
      ensures i in idx
    {
      if i < |p| {
        assert days[i] == p[i];
      }
    }
  }

  /** A last day that counts adds its index and its mean to the trace. */
  lemma MeansTraceAppend(days: seq<Day>, hour: int, values: seq<real>, idx: seq<nat>)
    requires |days| > 0 && MeansTrace(days[..|days| - 1], hour, values, idx)
    requires Contributes(days[|days| - 1], hour)
    ensures MeansTrace(days, hour, values + [days[|days| - 1].Hours[hour].value.Mean], idx + [|days| - 1])
  {
    var p, n := days[..|days| - 1], |days|;
    var values', idx' := values + [days[n - 1].Hours[hour].value.Mean], idx + [n - 1];
    forall j | 0 <= j < |idx'|
      ensures idx'[j] < |days| && Contributes(days[idx'[j]], hour)
      ensures values'[j] == days[idx'[j]].Hours[hour].value.Mean
    {
      if j < |idx| {
        assert idx'[j] == idx[j] && values'[j] == values[j];
        assert days[idx[j]] == p[idx[j]];
      }
    }
    forall j, l | 0 <= j < l < |idx'|
      ensures idx'[j] < idx'[l]
    {
      assert idx'[j] == idx[j];
      if l < |idx| {
        assert idx'[l] == idx[l];
      }
    }
    forall i | 0 <= i < |days| && Contributes(days[i], hour)
      ensures i in idx'
    {
      if i < |p| {
        assert days[i] == p[i];
      } else {
        assert idx'[|idx|] == i;
      }
    }
  }

  /** The day loop keeps, for each hour, one mean per day that counts, in
      day order, and counts exactly those days. */
  lemma {:induction false} FoldDaysTrace(days: seq<Day>, hour: int)
    ensures FoldDays(days, hour).SampleDays == |ContributingDays(days, hour)|
    ensures MeansTrace(days, hour, FoldDays(days, hour).Values, ContributingDays(days, hour))
  {
    if |days| > 0 {
      var p, last := days[..|days| - 1], days[|days| - 1];
      FoldDaysTrace(p, hour);
      var a0, idx0 := FoldDays(p, hour), ContributingDays(p, hour);
      if Contributes(last, hour) {
        assert FoldDays(days, hour) == Merged(a0, last.Hours[hour].value);
        assert ContributingDays(days, hour) == idx0 + [|days| - 1];
        MeansTraceAppend(days, hour, a0.Values, idx0);
      } else {
        assert FoldDays(days, hour) == a0;
        assert ContributingDays(days, hour) == idx0 + [];
        assert idx0 + [] == idx0;
        MeansTraceWiden(days, hour, a0.Values, idx0);
      }
    }
  }

  /** An hour has no sample days exactly when no day counts for it. */
  lemma NoSampleDaysIffNoContribution(days: seq<Day>, hour: int)
    ensures FoldDays(days, hour).SampleDays == 0 <==>
      forall i :: 0 <= i < |days| ==> !Contributes(days[i], hour)
  {
    FoldDaysTrace(days, hour);
    var idx := ContributingDays(days, hour);
    if |idx| > 0 {
      assert Contributes(days[idx[0]], hour);
    }
  }

  /** For every day that counts, the hour's extremes bound that day's; an
      hour no day counted for still holds the initial extremes. */
  lemma {:induction false} FoldDaysBounds(days: seq<Day>, hour: int)
    ensures var a := FoldDays(days, hour);
      && (a.SampleDays == 0 ==> a.Min == MaxFloat64 && a.Max == -MaxFloat64)
      && (forall i :: 0 <= i < |days| && Contributes(days[i], hour) ==>
            a.Min <= days[i].Hours[hour].value.Min && days[i].Hours[hour].value.Max <= a.Max)
  {
    if |days| > 0 {
      var p, last := days[..|days| - 1], days[|days| - 1];
      FoldDaysBounds(p, hour);
      var a0, a := FoldDays(p, hour), FoldDays(days, hour);
      assert a == Accumulated(a0, last, hour);
      assert a.Min <= a0.Min && a0.Max <= a.Max;
      forall i | 0 <= i < |days| && Contributes(days[i], hour)
        ensures a.Min <= days[i].Hours[hour].value.Min && days[i].Hours[hour].value.Max <= a.Max
      {
        if i < |p| {
          assert days[i] == p[i];
        }
      }
    }
  }

  /** The day loop's extremes are those of some day that counts, as long as
      every such day's own extremes lie within ±MaxFloat64: the returned
      indices name a day with the hour's minimum and one with its maximum. */
  lemma {:induction false} FoldDaysExtremesAttained(days: seq<Day>, hour: int) returns (iMin: nat, iMax: nat)
    requires FoldDays(days, hour).SampleDays > 0
    requires forall i :: 0 <= i < |days| && Contributes(days[i], hour) ==>
      days[i].Hours[hour].value.Min <= MaxFloat64 && days[i].Hours[hour].value.Max >= -MaxFloat64
    ensures iMin < |days| && Contributes(days[iMin], hour)
    ensures FoldDays(days, hour).Min == days[iMin].Hours[hour].value.Min
    ensures iMax < |days| && Contributes(days[iMax], hour)
    ensures FoldDays(days, hour).Max == days[iMax].Hours[hour].value.Max
  {
    var n := |days|;
    var p, last := days[..n - 1], days[n - 1];
    var a0 := FoldDays(p, hour);
    assert forall i :: 0 <= i < |p| ==> p[i] == days[i];
    if !Contributes(last, hour) {
      assert FoldDays(days, hour) == a0;
      iMin, iMax := FoldDaysExtremesAttained(p, hour);
    } else {
      var b := last.Hours[hour].value;
      assert FoldDays(days, hour) == Merged(a0, b);
      if a0.SampleDays == 0 {
        FoldDaysBounds(p, hour);
        iMin, iMax := n - 1, n - 1;
      } else {
        var jMin, jMax := FoldDaysExtremesAttained(p, hour);
        iMin := if b.Min < a0.Min then n - 1 else jMin;
        iMax := if b.Max > a0.Max then n - 1 else jMax;
      }
    }
  }

  /** What AggregateDays reports for one hour: an hour no day counted for
      reads all zeros; otherwise the extremes of the day loop and the
      average, median and standard deviation of the days' means. */
  lemma HourOverDaysSummary(days: seq<Day>, hour: int, sqrt: real -> real)
    ensures var f, a := HourOverDays(days, hour, sqrt), FoldDays(days, hour);
      && f.Hour == hour && f.SampleDays == a.SampleDays && f.Values == a.Values
      && (f.SampleDays == 0 <==> forall i :: 0 <= i < |days| ==> !Contributes(days[i], hour))
      && (f.SampleDays == 0 ==>
            f.Min == 0.0 && f.Max == 0.0 && f.Average == 0.0 && f.Median == 0.0 && f.StdDev == 0.0)
      && (f.SampleDays > 0 ==>
            && f.Min == a.Min && f.Max == a.Max
            && f.Average == Sum(f.Values) / |f.Values| as real
            && f.Median == Median(f.Values)
            && f.StdDev == StdDevOf(f.Values, f.Average, sqrt))
  {
    NoSampleDaysIffNoContribution(days, hour);
  }

  /** The peak the scan reports: never negative, at least every average,
      and, when positive, the average of the first hour that reaches it;
      when no average is positive it is hour 0 with 0 W. */
  lemma {:induction false} PeakIsFirstMaximum(avgs: seq<real>)
    ensures var (h, v) := Peak(avgs);
      && v >= 0.0
      && (forall i :: 0 <= i < |avgs| ==> avgs[i] <= v)
      && (v > 0.0 ==> 0 <= h < |avgs| && avgs[h] == v && forall i :: 0 <= i < h ==> avgs[i] < v)
      && (v == 0.0 ==> h == 0)
  {
    if |avgs| > 0 {
      var n := |avgs|;
      var p, x := avgs[..n - 1], avgs[n - 1];
      PeakIsFirstMaximum(p);
      var (h0, v0) := Peak(p);
      assert forall i :: 0 <= i < n - 1 ==> avgs[i] == p[i];
      if x > v0 {
        assert Peak(avgs) == (n - 1, x);
      } else {
        assert Peak(avgs) == (h0, v0);
      }
    }
  }

  /** The energy estimate adds up over consecutive runs of days. */
  lemma {:induction false} TotalEnergyAppend(a: seq<Day>, b: seq<Day>)
    ensures TotalEnergy(a + b) == TotalEnergy(a) + TotalEnergy(b)
  {
    if |b| == 0 {
      assert a + b == a;
    } else {
      var b0 := b[..|b| - 1];
      TotalEnergyAppend(a, b0);
      assert (a + b)[..|a + b| - 1] == a + b0;
      assert (a + b)[|a + b| - 1] == b[|b| - 1];
    }
  }

  /** A day whose every slot is nil adds no energy. */
  lemma {:induction false} SlotEnergyOfEmptyDay(slots: seq<Option<Bucket>>)
    requires forall h :: 0 <= h < |slots| ==> slots[h].None?
    ensures SlotEnergy(slots) == 0.0
  {
    if |slots| > 0 {
      SlotEnergyOfEmptyDay(slots[..|slots| - 1]);
    }
  }

  /** Slots whose means are not negative give an estimate that is not
      negative. */
  lemma {:induction false} SlotEnergyNonNegative(slots: seq<Option<Bucket>>)
    requires forall h :: 0 <= h < |slots| && slots[h].Some? ==> slots[h].value.Mean >= 0.0
    ensures SlotEnergy(slots) >= 0.0
  {
    if |slots| > 0 {
      SlotEnergyNonNegative(slots[..|slots| - 1]);
    }
  }

  // ---------------------------------------------------------------------------
  // GetHourlyRows

  /** One row of the hourly CSV export. */
  datatype HourlyRow = HourlyRow(Date: string, Hour: int, Min: real, Max: real, Avg: real, Samples: int)

  /** The row for a set slot: the day's date, the slot's index as the hour,
      and the bucket's extremes, mean and sample count. */
  function RowOf(date: string, hour: int, b: Bucket): HourlyRow
  {
    HourlyRow(date, hour, b.Min, b.Max, b.Mean, b.Samples)
  }

  /** The rows of one day: one per set slot, in hour order. */
  function SlotRows(date: string, slots: seq<Option<Bucket>>): seq<HourlyRow>
  {
    if |slots| == 0 then []
    else
      var last := slots[|slots| - 1];
      SlotRows(date, slots[..|slots| - 1]) +
      (if last.Some? then [RowOf(date, |slots| - 1, last.value)] else [])
  }

  /** The rows of all days, day after day. */
  function Rows(days: seq<Day>): seq<HourlyRow>
  {
    if |days| == 0 then []
    else Rows(days[..|days| - 1]) + SlotRows(days[|days| - 1].Date, days[|days| - 1].Hours)
  }

  /** GetHourlyRows: for every day and every hour whose slot is set, a row
      with that day's date, the hour and the slot's figures. */
  method GetHourlyRows(days: seq<DailyStats>) returns (rows: seq<HourlyRow>)
    requires DayArrays(days)
    ensures rows == Rows(old(DaysOf(days)))
  {
    ghost var views := DaysOf(days);
    rows := [];
    for k := 0 to |days|
      invariant rows == Rows(views[..k])
    {
      var day := days[k];
      ghost var slots := views[k].Hours;
      ghost var before := rows;
      for hour := 0 to HoursPerDay
        invariant rows == before + SlotRows(day.Date, slots[..hour])
      {
        assert slots[..hour + 1][..hour] == slots[..hour];
        assert slots[hour] == BucketOf(day.Hours[hour]);
        var h := day.Hours[hour];
        if h == null {
          continue;
        }
        rows := rows + [HourlyRow(day.Date, hour, h.Min, h.Max, h.Mean, h.Samples)];
      }
      assert slots[..HoursPerDay] == slots;
      assert views[k].Date == day.Date;
      assert views[..k + 1][..k] == views[..k];
    }
    assert views[..|days|] == views;
  }

  /** The rows of a day are its set slots, each copied into a row under its
      own hour, in increasing hour order, and every set slot has its row. */
  predicate RowsOfSlots(date: string, slots: seq<Option<Bucket>>, rows: seq<HourlyRow>)
  {
    && (forall j :: 0 <= j < |rows| ==>
          && 0 <= rows[j].Hour < |slots| && slots[rows[j].Hour].Some?
          && rows[j] == RowOf(date, rows[j].Hour, slots[rows[j].Hour].value))
    && (forall j, l :: 0 <= j < l < |rows| ==> rows[j].Hour < rows[l].Hour)
    && (forall h :: 0 <= h < |slots| && slots[h].Some? ==>
          exists j :: 0 <= j < |rows| && rows[j].Hour == h)
  }

  lemma {:induction false} SlotRowsFaithful(date: string, slots: seq<Option<Bucket>>)
    ensures RowsOfSlots(date, slots, SlotRows(date, slots))
  {
    if |slots| > 0 {
      var n := |slots|;
      var p, last := slots[..n - 1], slots[n - 1];
      SlotRowsFaithful(date, p);
      var r0 := SlotRows(date, p);
      if last.Some? {
        assert SlotRows(date, slots) == r0 + [RowOf(date, n - 1, last.value)];
        SlotRowsAppend(date, slots, r0);
      } else {
        assert SlotRows(date, slots) == r0 + [];
        assert r0 + [] == r0;
        SlotRowsWiden(date, slots, r0);
      }
    }
  }

  lemma SlotRowsWiden(date: string, slots: seq<Option<Bucket>>, rows: seq<HourlyRow>)
    requires |slots| > 0 && RowsOfSlots(date, slots[..|slots| - 1], rows) && slots[|slots| - 1].None?
    ensures RowsOfSlots(date, slots, rows)
  {
    var p := slots[..|slots| - 1];
    forall j | 0 <= j < |rows|
      ensures 0 <= rows[j].Hour < |slots| && slots[rows[j].Hour].Some?
      ensures rows[j] == RowOf(date, rows[j].Hour, slots[rows[j].Hour].value)
    {
      assert slots[rows[j].Hour] == p[rows[j].Hour];
    }
    forall h | 0 <= h < |slots| && slots[h].Some?
      ensures exists j :: 0 <= j < |rows| && rows[j].Hour == h
    {
      if h < |p| {
        assert p[h] == slots[h];
      }
    }
  }

  lemma SlotRowsAppend(date: string, slots: seq<Option<Bucket>>, rows: seq<HourlyRow>)
    requires |slots| > 0 && RowsOfSlots(date, slots[..|slots| - 1], rows) && slots[|slots| - 1].Some?
    ensures RowsOfSlots(date, slots, rows + [RowOf(date, |slots| - 1, slots[|slots| - 1].value)])
  {
    var n := |slots|;
    var p := slots[..n - 1];
    var rows' := rows + [RowOf(date, n - 1, slots[n - 1].value)];
    forall j | 0 <= j < |rows'|
      ensures 0 <= rows'[j].Hour < |slots| && slots[rows'[j].Hour].Some?
      ensures rows'[j] == RowOf(date, rows'[j].Hour, slots[rows'[j].Hour].value)
    {
      if j < |rows| {
        assert rows'[j] == rows[j];
        assert slots[rows[j].Hour] == p[rows[j].Hour];
      }
    }
    forall j, l | 0 <= j < l < |rows'|
      ensures rows'[j].Hour < rows'[l].Hour
    {
      assert rows'[j] == rows[j];
      if l < |rows| {
        assert rows'[l] == rows[l];
      }
    }
    forall h | 0 <= h < |slots| && slots[h].Some?
      ensures exists j :: 0 <= j < |rows'| && rows'[j].Hour == h
    {
      if h < |p| {
        assert p[h] == slots[h];
        var j :| 0 <= j < |rows| && rows[j].Hour == h;
        assert rows'[j] == rows[j];
      } else {
        assert rows'[|rows|].Hour == h;
      }
    }
  }

  /** The rows of consecutive runs of days are the runs' rows one after
      the other. */
  lemma {:induction false} RowsAppend(a: seq<Day>, b: seq<Day>)
    ensures Rows(a + b) == Rows(a) + Rows(b)
  {
    if |b| == 0 {
      assert a + b == a;
    } else {
      var b0 := b[..|b| - 1];
      RowsAppend(a, b0);
      assert (a + b)[..|a + b| - 1] == a + b0;
      assert (a + b)[|a + b| - 1] == b[|b| - 1];
    }
  }

  /** The rows of one day are that day's slot rows. */
  lemma RowsOfOneDay(d: Day)
    ensures Rows([d]) == SlotRows(d.Date, d.Hours)
  {
    assert [d][..0] == [];
  }

  /** A day whose slots are all set has exactly one row per slot, and the row
      at index h is slot h's. */
  lemma {:induction false} SlotRowsAllSet(date: string, slots: seq<Option<Bucket>>)
    requires forall h :: 0 <= h < |slots| ==> slots[h].Some?
    ensures |SlotRows(date, slots)| == |slots|
    ensures forall h :: 0 <= h < |slots| ==> SlotRows(date, slots)[h] == RowOf(date, h, slots[h].value)
  {
    if |slots| > 0 {
      var n := |slots|;
      var p := slots[..n - 1];
      SlotRowsAllSet(date, p);
      var rows := SlotRows(date, slots);
      assert rows == SlotRows(date, p) + [RowOf(date, n - 1, slots[n - 1].value)];
      forall h | 0 <= h < n
        ensures rows[h] == RowOf(date, h, slots[h].value)
      {
        if h < n - 1 {
          assert p[h] == slots[h];
        }
      }
    }
  }

  /** Days whose 24 slots are all set give 24 rows per day. */
  lemma {:induction false} RowsCount(days: seq<Day>)
    requires forall i :: 0 <= i < |days| ==> |days[i].Hours| == HoursPerDay
    requires forall i, h :: 0 <= i < |days| && 0 <= h < |days[i].Hours| ==> days[i].Hours[h].Some?
    ensures |Rows(days)| == HoursPerDay * |days|
  {
    if |days| > 0 {
      var last := days[|days| - 1];
      RowsCount(days[..|days| - 1]);
      SlotRowsAllSet(last.Date, last.Hours);
    }
  }

  /** A single day with all 24 slots set gives 24 rows, row h being hour h's
      figures. */
  lemma FullDayRows(d: Day)
    requires |d.Hours| == HoursPerDay && forall h :: 0 <= h < HoursPerDay ==> d.Hours[h].Some?
    ensures |Rows([d])| == HoursPerDay
    ensures forall h :: 0 <= h < HoursPerDay ==> Rows([d])[h] == RowOf(d.Date, h, d.Hours[h].value)
  {
    RowsOfOneDay(d);
    SlotRowsAllSet(d.Date, d.Hours);
  }
}
