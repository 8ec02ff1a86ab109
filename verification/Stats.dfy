/** Image statistics, histograms and percentiles, over exact reals. */
module Stats {
  import opened Reals
  import opened Words
  import Lists

  datatype Stats = Stats(count: nat, min: real, max: real, mean: real, variance: real)

  /** Largest finite 32-bit float: where the running minimum starts. */
  const F32_MAX: real := 340282346638528859811704183484516925440.0

  ghost predicate Finite(data: seq<real>) {
    forall i :: 0 <= i < |data| ==> -F32_MAX <= data[i] <= F32_MAX
  }

  function Sum(data: seq<real>): real {
    if data == [] then 0.0 else Sum(data[..|data| - 1]) + data[|data| - 1]
  }

  /** Squared deviations from `mean`. */
  function Squares(data: seq<real>, mean: real): (dev: seq<real>)
    ensures |dev| == |data| && forall i :: 0 <= i < |data| ==> dev[i] == Square(data[i] - mean)
  {
    seq(|data|, i requires 0 <= i < |data| => Square(data[i] - mean))
  }

  function Over(x: real, n: nat): real
    requires n > 0
  {
    x / n as real
  }

  function MeanOf(data: seq<real>): real
    requires data != []
  {
    Over(Sum(data), |data|)
  }

  /** Population variance: the mean squared deviation from the mean. */
  function VarianceOf(data: seq<real>): real
    requires data != []
  {
    Over(Sum(Squares(data, MeanOf(data))), |data|)
  }

  ghost predicate IsLeast(m: real, data: seq<real>) {
    m in data && forall i :: 0 <= i < |data| ==> m <= data[i]
  }

  ghost predicate IsGreatest(m: real, data: seq<real>) {
    m in data && forall i :: 0 <= i < |data| ==> data[i] <= m
  }

  method Compute(data: seq<real>) returns (s: Stats)
    requires Finite(data)
    ensures data == [] ==> s == Stats(0, 0.0, 0.0, 0.0, 0.0)
    ensures data != [] ==>
              && s.count == |data| && IsLeast(s.min, data) && IsGreatest(s.max, data)
              && s.mean == MeanOf(data) && s.variance == VarianceOf(data)
  {
    if |data| == 0 {
      return Stats(0, 0.0, 0.0, 0.0, 0.0);
    }
    var min, max, sum := F32_MAX, -F32_MAX, 0.0;
    for i := 0 to |data|
      invariant sum == Sum(data[..i])
      invariant i == 0 ==> min == F32_MAX && max == -F32_MAX
      invariant forall k :: 0 <= k < i ==> min <= data[k] <= max
      invariant i > 0 ==> min in data && max in data
    {
      assert data[..i + 1][..i] == data[..i];
      if data[i] < min {
        min := data[i];
      }
      if data[i] > max {
        max := data[i];
      }
      sum := sum + data[i];
    }
    assert data[..|data|] == data;
    var mean := Over(sum, |data|);
    var varSum := SumOfSquares(data, mean);
    s := Stats(|data|, min, max, mean, Over(varSum, |data|));
  }

  method SumOfSquares(data: seq<real>, mean: real) returns (varSum: real)
    ensures varSum == Sum(Squares(data, mean))
  {
    ghost var dev := Squares(data, mean);
    varSum := 0.0;
    for i := 0 to |data|
      invariant varSum == Sum(dev[..i])
    {
      assert dev[..i + 1][..i] == dev[..i];
      var d := data[i] - mean;
      varSum := varSum + d * d;
    }
    assert dev[..|data|] == dev;
  }

  // ----- Sums, means and spread ------------------------------------------------------------

  lemma {:induction false} SumConcat(s: seq<real>, t: seq<real>)
    ensures Sum(s + t) == Sum(s) + Sum(t)
    decreases |t|
  {
    if t == [] {
      assert s + t == s;
    } else {
      var n := |t| - 1;
      SumConcat(s, t[..n]);
      assert (s + t)[..|s| + n] == s + t[..n];
    }
  }

  lemma SumFront(x: real, rest: seq<real>)
    ensures Sum([x] + rest) == x + Sum(rest)
  {
    SumConcat([x], rest);
    assert [x][..0] == [] && Sum([x]) == x;
  }

  lemma SumPieces(before: seq<real>, x: real, behind: seq<real>)
    ensures Sum(before + ([x] + behind)) == Sum(before + behind) + x
  {
    SumConcat(before, [x] + behind);
    SumFront(x, behind);
    SumConcat(before, behind);
  }

  lemma SumWithout(t: seq<real>, j: nat)
    requires j < |t|
    ensures Sum(t) == Sum(Lists.Without(t, j)) + t[j]
  {
    SumPieces(t[..j], t[j], t[j + 1..]);
    Lists.AroundOne(t, j);
  }

  /** The order of the values does not matter. */
  lemma {:induction false} SumRearranges(s: seq<real>, t: seq<real>)
    requires multiset(s) == multiset(t)
    ensures |s| == |t| && Sum(s) == Sum(t)
    decreases |s|
  {
    assert |s| == |multiset(s)| == |multiset(t)| == |t|;
    if s != [] {
      var n := |s| - 1;
      assert s[n] in multiset(t);
      var j :| 0 <= j < |t| && t[j] == s[n];
      Lists.WithoutRest(s, t, j);
      SumRearranges(s[..n], Lists.Without(t, j));
      SumWithout(t, j);
    }
  }

  /** Squared deviations from `c`, added up, as a polynomial in `c`. */
  ghost predicate Expands(c: real, n: real, sum: real, squares: real, about: real) {
    about == squares - 2.0 * (c * sum) + n * (c * c)
  }

  lemma ExpandsOneMore(c: real, n: real, sum: real, squares: real, about: real, x: real)
    requires Expands(c, n, sum, squares, about)
    ensures Expands(c, n + 1.0, sum + x, squares + Square(x), about + Square(x - c))
  {
    assert c * (sum + x) == c * sum + c * x;
    assert Square(x - c) == Square(x) - 2.0 * (c * x) + c * c;
    assert (n + 1.0) * (c * c) == n * (c * c) + c * c;
  }

  lemma ExpandsNothing(c: real)
    ensures Expands(c, 0.0, 0.0, 0.0, 0.0)
  {
  }

  lemma SquaresOneMore(data: seq<real>, c: real)
    requires data != []
    ensures var n := |data| - 1; Sum(Squares(data, c)) == Sum(Squares(data[..n], c)) + Square(data[n] - c)
  {
    var n := |data| - 1;
    assert Squares(data, c)[..n] == Squares(data[..n], c);
  }

  lemma {:induction false} SquaresExpand(data: seq<real>, c: real)
    ensures Expands(c, |data| as real, Sum(data), Sum(Squares(data, 0.0)), Sum(Squares(data, c)))
    decreases |data|
  {
    if data == [] {
      ExpandsNothing(c);
    } else {
      var n := |data| - 1;
      var front, x := data[..n], data[n];
      SquaresExpand(front, c);
      SquaresOneMore(data, c);
      SquaresOneMore(data, 0.0);
      ExpandsOneMore(c, n as real, Sum(front), Sum(Squares(front, 0.0)), Sum(Squares(front, c)), x);
      assert x - 0.0 == x;
    }
  }

  lemma OverTimes(x: real, n: nat)
    requires n > 0
    ensures n as real * Over(x, n) == x
  {
  }

  /** `n` values of mean `m` and variance `v` have squared deviations from `c` that add up to `about`. */
  ghost predicate SpreadsBy(n: real, m: real, v: real, c: real, about: real) {
    about == n * (v + Square(c - m))
  }

  lemma SpreadFrom(c: real, n: real, m: real, v: real, sum: real, squares: real, dev: real, about: real)
    requires sum == n * m && dev == n * v
    requires Expands(m, n, sum, squares, dev) && Expands(c, n, sum, squares, about)
    ensures SpreadsBy(n, m, v, c, about)
  {
    var nmm := n * (m * m);
    assert m * sum == nmm && c * sum == n * (c * m);
    assert Square(c - m) == c * c - 2.0 * (c * m) + m * m;
    assert n * (v + Square(c - m)) == n * v + n * (c * c) - 2.0 * (n * (c * m)) + nmm;
  }

  lemma SpreadAboutMean(data: seq<real>, c: real, n: real, m: real, v: real)
    requires n == |data| as real && Sum(data) == n * m && Sum(Squares(data, m)) == n * v
    ensures SpreadsBy(n, m, v, c, Sum(Squares(data, c)))
  {
    SquaresExpand(data, c);
    SquaresExpand(data, m);
    SpreadFrom(c, n, m, v, Sum(data), Sum(Squares(data, 0.0)), Sum(Squares(data, m)), Sum(Squares(data, c)));
  }

  /** Mean and variance are what spreads the values least: from any other value `c` the squared
      deviations add up to more, by the square of its distance from the mean for each value. */
  lemma SpreadAbout(data: seq<real>, c: real)
    requires data != []
    ensures SpreadsBy(|data| as real, MeanOf(data), VarianceOf(data), c, Sum(Squares(data, c)))
  {
    OverTimes(Sum(data), |data|);
    OverTimes(Sum(Squares(data, MeanOf(data))), |data|);
    SpreadAboutMean(data, c, |data| as real, MeanOf(data), VarianceOf(data));
  }

  lemma VarianceByShortcut(data: seq<real>, n: real, m: real, v: real, a: real)
    requires n == |data| as real > 0.0 && Sum(data) == n * m && Sum(Squares(data, m)) == n * v
    requires Sum(Squares(data, 0.0)) == n * a
    ensures v == a - Square(m)
  {
    SpreadAboutMean(data, 0.0, n, m, v);
    ShortcutFrom(n, m, v, a, Sum(Squares(data, 0.0)));
  }

  /** The shortcut for the variance: the mean square less the square of the mean. */
  lemma VarianceFromSums(data: seq<real>)
    requires data != []
    ensures VarianceOf(data) == Over(Sum(Squares(data, 0.0)), |data|) - Square(MeanOf(data))
  {
    var squares := Sum(Squares(data, 0.0));
    OverTimes(Sum(data), |data|);
    OverTimes(Sum(Squares(data, MeanOf(data))), |data|);
    OverTimes(squares, |data|);
    VarianceByShortcut(data, |data| as real, MeanOf(data), VarianceOf(data), Over(squares, |data|));
  }

  lemma VarianceNotNegative(data: seq<real>)
    requires data != []
    ensures VarianceOf(data) >= 0.0
  {
    var dev := Squares(data, MeanOf(data));
    SumNotNegative(dev);
    OverNotNegative(Sum(dev), |data|);
  }

  lemma OverNotNegative(x: real, n: nat)
    requires n > 0 && x >= 0.0
    ensures Over(x, n) >= 0.0
  {
  }

  lemma ShortcutFrom(n: real, m: real, v: real, a: real, squares: real)
    requires n > 0.0 && squares == n * a && SpreadsBy(n, m, v, 0.0, squares)
    ensures v == a - Square(m)
  {
    assert 0.0 - m == -m;
    SquareOfNegative(m);
    SameFactor(n, a, v + Square(m), squares);
  }

  lemma SameFactor(n: real, a: real, b: real, p: real)
    requires n > 0.0 && n * a == p && n * b == p
    ensures a == b
  {
  }

  lemma {:induction false} SumNotNegative(dev: seq<real>)
    requires forall i :: 0 <= i < |dev| ==> dev[i] >= 0.0
    ensures Sum(dev) >= 0.0
    decreases |dev|
  {
    if dev != [] { SumNotNegative(dev[..|dev| - 1]); }
  }

  /** Mean and deviation of a possibly empty list: zero for no values. */
  function Average(data: seq<real>): real {
    if data == [] then 0.0 else MeanOf(data)
  }

  function Spread(data: seq<real>, sqrt: real -> real): real {
    if data == [] then 0.0 else sqrt(VarianceOf(data))
  }

  lemma StatisticsRearrange(s: seq<real>, t: seq<real>, sqrt: real -> real)
    requires multiset(s) == multiset(t)
    ensures Average(s) == Average(t) && Spread(s, sqrt) == Spread(t, sqrt)
  {
    SumRearranges(s, t);
    if s != [] {
      var m := MeanOf(s);
      var f := x => Square(x - m);
      Lists.PointwiseRearranges(f, s, t);
      assert Squares(s, m) == Lists.Pointwise(f, s) && Squares(t, m) == Lists.Pointwise(f, t);
      SumRearranges(Squares(s, m), Squares(t, m));
    }
  }

  // ----- Histogram -------------------------------------------------------------------------

  /** The bin of a value: the scaled offset truncated to an unsigned index (negative offsets
      saturate at zero) and clamped to the last bin. */
  function BinOf(v: real, min: real, max: real, n: nat): (b: nat)
    requires n > 0 && max > min
    ensures b < n
  {
    var q := (v - min) / (max - min) * n as real;
    if q < 0.0 then 0 else Min(q.Floor, n - 1)
  }

  function BinsOf(data: seq<real>, min: real, max: real, n: nat): (ks: seq<nat>)
    requires n > 0 && max > min
    ensures |ks| == |data| && forall i :: 0 <= i < |data| ==> ks[i] == BinOf(data[i], min, max, n)
  {
    seq(|data|, i requires 0 <= i < |data| => BinOf(data[i], min, max, n))
  }

  lemma TakeOneMore(ks: seq<nat>, i: nat)
    requires i < |ks|
    ensures multiset(ks[..i + 1]) == multiset(ks[..i]) + multiset{ks[i]}
    ensures multiset(ks[..i])[ks[i]] <= i
  {
    assert ks[..i + 1] == ks[..i] + [ks[i]];
    assert |multiset(ks[..i])| == i;
  }

  method BinIndex(v: real, min: real, range: real, n: nat) returns (idx: nat)
    requires n > 0 && range > 0.0
    ensures idx == BinOf(v, min, min + range, n)
  {
    var q := (v - min) / range * n as real;
    idx := if q < 0.0 then 0 else Min(q.Floor, n - 1);
  }

  /** Bin `b` receives the number of values that fall into it. */
  method Histogram(data: seq<real>, min: real, max: real, bins: array<u32>)
    requires |data| < U32_RANGE
    modifies bins
    ensures bins.Length == 0 || max <= min ==> forall b :: 0 <= b < bins.Length ==> bins[b] == 0
    ensures bins.Length > 0 && max > min ==>
              forall b :: 0 <= b < bins.Length ==> bins[b] == multiset(BinsOf(data, min, max, bins.Length))[b]
  {
    var n := bins.Length;
    for b := 0 to n
      invariant forall k :: 0 <= k < b ==> bins[k] == 0
    {
      bins[b] := 0;
    }
    if n == 0 || max <= min {
      return;
    }
    var range := max - min;
    ghost var ks := BinsOf(data, min, max, n);
    for i := 0 to |data|
      invariant forall b :: 0 <= b < n ==> bins[b] == multiset(ks[..i])[b]
    {
      var idx := BinIndex(data[i], min, range, n);
      assert idx == ks[i];
      TakeOneMore(ks, i);
      bins[idx] := bins[idx] + 1;
    }
    assert ks[..|ks|] == ks;
  }

  // ----- Counting --------------------------------------------------------------------------

  /** Number of entries of `ks` below `b`. */
  ghost function CountBelow(ks: seq<nat>, b: nat): (c: nat)
    ensures c <= |ks|
  {
    if ks == [] then 0 else CountBelow(ks[..|ks| - 1], b) + (if ks[|ks| - 1] < b then 1 else 0)
  }

  /** Sum of the first `b` bins. */
  function SumTo(bins: seq<nat>, b: nat): nat
    requires b <= |bins|
  {
    if b == 0 then 0 else SumTo(bins, b - 1) + bins[b - 1]
  }

  ghost predicate BinsCount(bins: seq<nat>, ks: seq<nat>) {
    forall b :: 0 <= b < |bins| ==> bins[b] == multiset(ks)[b]
  }

  lemma {:induction false} CountNextBin(ks: seq<nat>, b: nat)
    ensures CountBelow(ks, b + 1) == CountBelow(ks, b) + multiset(ks)[b]
    decreases |ks|
  {
    if ks != [] {
      var n := |ks| - 1;
      CountNextBin(ks[..n], b);
      assert ks == ks[..n] + [ks[n]];
    }
  }

  lemma {:induction false} NothingBelowZero(ks: seq<nat>)
    ensures CountBelow(ks, 0) == 0
    decreases |ks|
  {
    if ks != [] { NothingBelowZero(ks[..|ks| - 1]); }
  }

  lemma {:induction false} SumCountsBelow(bins: seq<nat>, ks: seq<nat>, b: nat)
    requires BinsCount(bins, ks) && b <= |bins|
    ensures SumTo(bins, b) == CountBelow(ks, b)
    decreases b
  {
    if b == 0 {
      NothingBelowZero(ks);
    } else {
      SumCountsBelow(bins, ks, b - 1);
      CountNextBin(ks, b - 1);
    }
  }

  lemma {:induction false} AllBelow(ks: seq<nat>, n: nat)
    requires forall i :: 0 <= i < |ks| ==> ks[i] < n
    ensures CountBelow(ks, n) == |ks|
    decreases |ks|
  {
    if ks != [] { AllBelow(ks[..|ks| - 1], n); }
  }

  /** Conservation: the bins of a histogram add up to the number of values. */
  lemma BinsSumToLength(data: seq<real>, min: real, max: real, bins: seq<nat>)
    requires |bins| > 0 && max > min && BinsCount(bins, BinsOf(data, min, max, |bins|))
    ensures SumTo(bins, |bins|) == |data|
  {
    var ks := BinsOf(data, min, max, |bins|);
    SumCountsBelow(bins, ks, |bins|);
    AllBelow(ks, |bins|);
  }

  ghost predicate Sorted(ks: seq<nat>) {
    forall i, j :: 0 <= i < j < |ks| ==> ks[i] <= ks[j]
  }

  /** In a sorted list the entries below `b` are the first ones. */
  lemma {:induction false} SortedSplit(ks: seq<nat>, b: nat, m: nat)
    requires Sorted(ks) && m < |ks|
    ensures ks[m] < b <==> m < CountBelow(ks, b)
    decreases |ks|
  {
    var n := |ks| - 1;
    if ks[n] < b {
      AllBelow(ks, b);
    } else if m < n {
      SortedSplit(ks[..n], b, m);
    }
  }

  /** The bin that holds the `t`-th smallest entry is the first to bring the running sum to `t`. */
  lemma RankedBin(bins: seq<nat>, ks: seq<nat>, b: nat, t: nat)
    requires BinsCount(bins, ks) && Sorted(ks) && b < |bins| && 1 <= t <= |ks|
    requires SumTo(bins, b) < t <= SumTo(bins, b + 1)
    ensures ks[t - 1] == b
  {
    SumCountsBelow(bins, ks, b);
    SumCountsBelow(bins, ks, b + 1);
    SortedSplit(ks, b, t - 1);
    SortedSplit(ks, b + 1, t - 1);
  }

  // ----- Percentile ------------------------------------------------------------------------

  /** Truncation to an unsigned 32-bit integer, saturating at both ends. */
  function ToU32(x: real): u32 {
    if x < 0.0 then 0 else if x >= U32_RANGE as real then U32_RANGE - 1 else x.Floor
  }

  /** The count a percentile of `total` values asks for. */
  function TargetOf(percentile: real, total: nat): u32 {
    ToU32(percentile * total as real)
  }

  function Centre(min: real, max: real, n: nat, i: nat): real
    requires n > 0
  {
    min + (i as real + 0.5) * ((max - min) / n as real)
  }

  /** First bin, from `i` on, at which the running sum reaches the target; `n` if there is none. */
  function Reaching(bins: seq<nat>, target: nat, i: nat): (b: nat)
    requires i <= |bins|
    ensures i <= b <= |bins|
    ensures forall k :: i < k <= b ==> SumTo(bins, k) < target
    ensures b < |bins| ==> SumTo(bins, b + 1) >= target
    decreases |bins| - i
  {
    if i == |bins| || SumTo(bins, i + 1) >= target then i else Reaching(bins, target, i + 1)
  }

  /** The value reported for a target count. */
  function ValueAt(bins: seq<nat>, min: real, max: real, target: nat): real
    requires |bins| > 0
  {
    var b := Reaching(bins, target, 0);
    if b == |bins| then max else Centre(min, max, |bins|, b)
  }

  method PercentileFromHistogram(bins: seq<u32>, min: real, max: real, percentile: real) returns (r: real)
    requires SumTo(bins, |bins|) < U32_RANGE
    ensures SumTo(bins, |bins|) == 0 ==> r == min
    ensures SumTo(bins, |bins|) > 0 ==>
              |bins| > 0 && r == Percentile(bins, min, max, percentile)
  {
    var total := TotalOf(bins);
    if total == 0 {
      return min;
    }
    var target := TargetOf(percentile, total);
    r := ScanBins(bins, min, max, target);
  }

  method TotalOf(bins: seq<u32>) returns (total: u32)
    requires SumTo(bins, |bins|) < U32_RANGE
    ensures total == SumTo(bins, |bins|)
  {
    total := 0;
    for i := 0 to |bins|
      invariant total == SumTo(bins, i)
    {
      SumToMonotone(bins, i + 1, |bins|);
      total := total + bins[i];
    }
  }

  /** Walks the bins until the running sum reaches the target. */
  method ScanBins(bins: seq<u32>, min: real, max: real, target: u32) returns (r: real)
    requires |bins| > 0 && SumTo(bins, |bins|) < U32_RANGE
    ensures r == ValueAt(bins, min, max, target)
  {
    var cumulative: u32 := 0;
    for i := 0 to |bins|
      invariant cumulative == SumTo(bins, i)
      invariant Reaching(bins, target, 0) == Reaching(bins, target, i)
    {
      SumToMonotone(bins, i + 1, |bins|);
      cumulative := cumulative + bins[i];
      if cumulative >= target {
        return Centre(min, max, |bins|, i);
      }
    }
    r := max;
  }

  lemma {:induction false} SumToMonotone(bins: seq<nat>, a: nat, b: nat)
    requires a <= b <= |bins|
    ensures SumTo(bins, a) <= SumTo(bins, b)
    decreases b - a
  {
    if a < b { SumToMonotone(bins, a, b - 1); }
  }

  // ----- Values and bins -------------------------------------------------------------------

  lemma ScaleBack(d: real, range: real, n: real)
    requires range > 0.0 && n > 0.0
    ensures (d / range * n) * (range / n) == d && range / n > 0.0
  {
    var a, w := d / range, range / n;
    assert a * range == d && w * n == range;
    calc {
      (a * n) * w;
      a * (w * n);
      d;
    }
  }

  lemma ScaleMonotone(x: real, y: real, w: real)
    requires x <= y && w >= 0.0
    ensures x * w <= y * w
  {
    assert y * w == x * w + (y - x) * w;
  }

  lemma QuotientMonotone(x: real, y: real, range: real, n: real)
    requires x <= y && range > 0.0 && n >= 0.0
    ensures x / range * n <= y / range * n
  {
    assert x / range <= y / range;
    ScaleMonotone(x / range, y / range, n);
  }

  /** Larger values go to the same bin or a later one. */
  lemma BinMonotone(v: real, u: real, min: real, max: real, n: nat)
    requires n > 0 && max > min && v <= u
    ensures BinOf(v, min, max, n) <= BinOf(u, min, max, n)
  {
    QuotientMonotone(v - min, u - min, max - min, n as real);
  }

  /** The scaled offset of a value within range lies within one of its bin number. */
  lemma BinOfOffset(v: real, min: real, max: real, n: nat)
    requires n > 0 && min <= v <= max && max > min
    ensures var q, b := (v - min) / (max - min) * n as real, BinOf(v, min, max, n) as real;
            b <= q <= b + 1.0
  {
    var q := ScaledWithin(v - min, max - min, n as real);
    FloorWithin(q, n);
  }

  lemma ScaledWithin(d: real, range: real, m: real) returns (q: real)
    requires 0.0 <= d <= range && range > 0.0 && m >= 0.0
    ensures q == d / range * m && 0.0 <= q <= m
  {
    QuotientMonotone(0.0, d, range, m);
    QuotientMonotone(d, range, range, m);
    SelfQuotient(range);
    q := d / range * m;
  }

  lemma FloorWithin(q: real, n: nat)
    requires 0.0 <= q <= n as real && n > 0
    ensures var b := Min(q.Floor, n - 1) as real; b <= q <= b + 1.0
  {
  }

  /** Where bin `b` begins. */
  function Edge(min: real, max: real, n: nat, b: nat): real
    requires n > 0
  {
    min + b as real * ((max - min) / n as real)
  }

  /** A value goes to bin `b` or a later one exactly if it is not below the edge where `b` begins;
      the first bin takes everything below its end and the last one everything from its edge on. */
  lemma BinEdges(v: real, min: real, max: real, n: nat, b: nat)
    requires n > 0 && max > min && 0 < b < n
    ensures BinOf(v, min, max, n) >= b <==> v >= Edge(min, max, n, b)
  {
    var q, w := (v - min) / (max - min) * n as real, (max - min) / n as real;
    ScaleBack(v - min, max - min, n as real);
    ScaledOrder(q, b as real, w, q * w, b as real * w);
    FloorReaches(q, n, b);
  }

  lemma ScaledOrder(q: real, b: real, w: real, qw: real, bw: real)
    requires w > 0.0 && qw == q * w && bw == b * w
    ensures qw >= bw <==> q >= b
  {
    if q >= b {
      var x, y := NoSmallerProduct(q, b, w);
    } else {
      var x, y := LargerProduct(b, q, w);
    }
  }

  lemma FloorReaches(q: real, n: nat, b: nat)
    requires 0 < b < n
    ensures (if q < 0.0 then 0 else Min(q.Floor, n - 1)) >= b <==> q >= b as real
  {
  }

  /** A value within range lies within half a bin width of the centre of its bin. */
  lemma NearCentre(v: real, min: real, max: real, n: nat)
    requires n > 0 && min <= v <= max && max > min
    ensures WithinHalfBin(Centre(min, max, n, BinOf(v, min, max, n)), v, min, max, n)
  {
    var q, b, w := (v - min) / (max - min) * n as real, BinOf(v, min, max, n), (max - min) / n as real;
    BinOfOffset(v, min, max, n);
    ScaleBack(v - min, max - min, n as real);
    OffsetNearCentre(q, b as real, w, q * w, (b as real + 0.5) * w);
  }

  lemma OffsetNearCentre(q: real, b: real, w: real, qw: real, centre: real)
    requires b <= q <= b + 1.0 && w >= 0.0 && qw == q * w && centre == (b + 0.5) * w
    ensures centre - w / 2.0 <= qw <= centre + w / 2.0
  {
    var e := q - b;
    var ew := AtMostWhole(e, w);
    var bw := b * w;
    Distribute(b, e, w, bw, ew);
    Distribute(b, 0.5, w, bw, 0.5 * w);
    WithinHalf(bw, ew, w, qw, centre);
  }

  lemma WithinHalf(low: real, e: real, w: real, x: real, centre: real)
    requires x == low + e && 0.0 <= e <= w && centre == low + 0.5 * w
    ensures centre - w / 2.0 <= x <= centre + w / 2.0
  {
  }

  // ----- Sorted data -----------------------------------------------------------------------

  ghost predicate SortedReals(s: seq<real>) {
    forall i, j :: 0 <= i < j < |s| ==> s[i] <= s[j]
  }

  /** The bin of a value, as a function of the value alone. */
  function BinFor(min: real, max: real, n: nat): real -> nat
    requires n > 0 && max > min
  {
    v => if n > 0 && max > min then BinOf(v, min, max, n) else 0
  }

  lemma BinsRearrange(data: seq<real>, s: seq<real>, min: real, max: real, n: nat)
    requires n > 0 && max > min && multiset(data) == multiset(s)
    ensures multiset(BinsOf(data, min, max, n)) == multiset(BinsOf(s, min, max, n))
  {
    var f := BinFor(min, max, n);
    assert BinsOf(data, min, max, n) == Lists.Pointwise(f, data) && BinsOf(s, min, max, n) == Lists.Pointwise(f, s);
    Lists.PointwiseRearranges(f, data, s);
  }

  /** Value `x` is at most half a bin width away from `r`. */
  ghost predicate WithinHalfBin(r: real, x: real, min: real, max: real, n: nat)
    requires n > 0
  {
    var w := (max - min) / n as real;
    r - w / 2.0 <= x <= r + w / 2.0
  }

  /** Percentile bound: the reported value is within half a bin width of the target-th smallest
      value, for every percentile at most one that asks for at least one value. */
  lemma PercentileIsClose(data: seq<real>, sorted: seq<real>, min: real, max: real, bins: seq<nat>, target: nat)
    requires |bins| > 0 && max > min && forall i :: 0 <= i < |data| ==> min <= data[i] <= max
    requires BinsCount(bins, BinsOf(data, min, max, |bins|))
    requires SortedReals(sorted) && multiset(sorted) == multiset(data) && 1 <= target <= |data|
    ensures |sorted| == |data|
    ensures WithinHalfBin(ValueAt(bins, min, max, target), sorted[target - 1], min, max, |bins|)
  {
    var n := |bins|;
    assert |sorted| == |multiset(sorted)| == |data|;
    var ks := BinsOf(sorted, min, max, n);
    BinsRearrange(data, sorted, min, max, n);
    forall i, j | 0 <= i < j < |ks| ensures ks[i] <= ks[j] {
      BinMonotone(sorted[i], sorted[j], min, max, n);
    }
    BinsSumToLength(data, min, max, bins);
    var b := Reaching(bins, target, 0);
    assert b > 0 ==> SumTo(bins, b) < target;
    RankedBin(bins, ks, b, target);
    assert sorted[target - 1] in multiset(data);
    NearCentre(sorted[target - 1], min, max, n);
  }

  /** A percentile of at most one never asks for more values than there are. */
  lemma TargetWithinTotal(percentile: real, total: nat)
    requires percentile <= 1.0 && total < U32_RANGE
    ensures TargetOf(percentile, total) <= total
  {
    var x := PartOf(percentile, total as real);
    FloorBelow(x, total);
  }

  lemma PartOf(p: real, w: real) returns (x: real)
    requires p <= 1.0 && w >= 0.0
    ensures x == p * w && x <= w
  {
    x := AtMostWhole(p, w);
  }

  lemma FloorBelow(x: real, n: nat)
    requires x <= n as real && n < U32_RANGE
    ensures ToU32(x) <= n
  {
  }

  /** Number of values below `x`. */
  ghost function ValuesBelow(data: seq<real>, x: real): (c: nat)
    ensures c <= |data|
  {
    if data == [] then 0 else ValuesBelow(data[..|data| - 1], x) + (if data[|data| - 1] < x then 1 else 0)
  }

  lemma {:induction false} BinsBefore(data: seq<real>, min: real, max: real, n: nat, b: nat)
    requires n > 0 && max > min && 0 < b < n
    ensures CountBelow(BinsOf(data, min, max, n), b) == ValuesBelow(data, Edge(min, max, n, b))
    decreases |data|
  {
    if data != [] {
      var k := |data| - 1;
      BinsBefore(data[..k], min, max, n, b);
      BinEdges(data[k], min, max, n, b);
      assert BinsOf(data, min, max, n)[..k] == BinsOf(data[..k], min, max, n);
    }
  }

  /** The target is the whole part of what the percentile asks for. */
  lemma TargetIsWholePart(percentile: real, total: nat, x: real, m: nat)
    requires 0.0 <= percentile <= 1.0 && total < U32_RANGE && x == percentile * total as real
    requires m as real <= x < m as real + 1.0
    ensures TargetOf(percentile, total) == m <= total
  {
    TargetWithinTotal(percentile, total);
    var whole := AtMostWhole(percentile, total as real);
    WholePart(x, total, m);
  }

  lemma WholePart(x: real, n: nat, m: nat)
    requires 0.0 <= x <= n as real && n < U32_RANGE && m as real <= x < m as real + 1.0
    ensures ToU32(x) == m
  {
  }

  /** Fewer values than asked for lie before the bin `b`, and the bin, unless it is the last, brings
      their number to more than one less than asked for; it is the first if less than one is asked
      for. */
  ghost predicate HoldsRank(data: seq<real>, min: real, max: real, n: nat, b: nat, asked: real)
    requires n > 0
  {
    && (asked < 1.0 ==> b == 0)
    && (b > 0 ==> ValuesBelow(data, Edge(min, max, n, b)) as real < asked)
    && (b + 1 < n ==> ValuesBelow(data, Edge(min, max, n, b + 1)) as real > asked - 1.0)
  }

  lemma ReachedBinHoldsRank(data: seq<real>, min: real, max: real, bins: seq<nat>, asked: real, m: nat) returns (b: nat)
    requires |bins| > 0 && max > min && BinsCount(bins, BinsOf(data, min, max, |bins|))
    requires m as real <= asked < m as real + 1.0 && m <= |data|
    ensures b < |bins| && HoldsRank(data, min, max, |bins|, b, asked)
    ensures ValueAt(bins, min, max, m) == Centre(min, max, |bins|, b)
  {
    BinsSumToLength(data, min, max, bins);
    b := Reaching(bins, m, 0);
    assert b > 0 ==> SumTo(bins, b) < m;
    var ks := BinsOf(data, min, max, |bins|);
    if b > 0 {
      SumCountsBelow(bins, ks, b);
      BinsBefore(data, min, max, |bins|, b);
    }
    if b + 1 < |bins| {
      SumCountsBelow(bins, ks, b + 1);
      BinsBefore(data, min, max, |bins|, b + 1);
    }
  }

  lemma WholePartOf(percentile: real, total: nat, asked: real) returns (m: nat)
    requires 0.0 <= percentile <= 1.0 && total < U32_RANGE && asked == percentile * total as real
    ensures m as real <= asked < m as real + 1.0 && TargetOf(percentile, total) == m <= total
  {
    var whole := AtMostWhole(percentile, total as real);
    m := asked.Floor;
    TargetIsWholePart(percentile, total, asked, m);
  }

  lemma OneWholePart(asked: real, m: nat, n: nat)
    requires m as real <= asked < m as real + 1.0 && n as real <= asked < n as real + 1.0
    ensures m == n
  {
  }

  /** What a percentile of the whole histogram is reported as. */
  function Percentile(bins: seq<nat>, min: real, max: real, percentile: real): real
    requires |bins| > 0
  {
    ValueAt(bins, min, max, TargetOf(percentile, SumTo(bins, |bins|)))
  }

  lemma PercentileIsValueAt(data: seq<real>, min: real, max: real, bins: seq<nat>, percentile: real, asked: real)
      returns (m: nat)
    requires |bins| > 0 && max > min && BinsCount(bins, BinsOf(data, min, max, |bins|))
    requires |data| < U32_RANGE && 0.0 <= percentile <= 1.0 && asked == percentile * |data| as real
    ensures m as real <= asked < m as real + 1.0 && m <= |data|
    ensures Percentile(bins, min, max, percentile) == ValueAt(bins, min, max, m)
  {
    m := WholePartOf(percentile, |data|, asked);
    BinsSumToLength(data, min, max, bins);
  }

  /** Rank of a percentile: its value is the centre of a bin that holds the rank asked for. */
  lemma PercentileRank(data: seq<real>, min: real, max: real, bins: seq<nat>, percentile: real, asked: real)
      returns (b: nat)
    requires |bins| > 0 && max > min && BinsCount(bins, BinsOf(data, min, max, |bins|))
    requires |data| < U32_RANGE && 0.0 <= percentile <= 1.0 && asked == percentile * |data| as real
    ensures b < |bins| && HoldsRank(data, min, max, |bins|, b, asked)
    ensures Percentile(bins, min, max, percentile) == Centre(min, max, |bins|, b)
  {
    var m := PercentileIsValueAt(data, min, max, bins, percentile, asked);
    b := ReachedBinHoldsRank(data, min, max, bins, asked, m);
  }

  /** And it is within half a bin width of the value of that rank. */
  lemma PercentileNearRank(data: seq<real>, sorted: seq<real>, min: real, max: real, bins: seq<nat>,
                           percentile: real, asked: real, m: nat)
    requires |bins| > 0 && max > min && forall i :: 0 <= i < |data| ==> min <= data[i] <= max
    requires BinsCount(bins, BinsOf(data, min, max, |bins|)) && |data| < U32_RANGE
    requires SortedReals(sorted) && multiset(sorted) == multiset(data) && 0.0 <= percentile <= 1.0
    requires asked == percentile * |data| as real && 1 <= m && m as real <= asked < m as real + 1.0
    ensures m <= |sorted| == |data|
    ensures WithinHalfBin(Percentile(bins, min, max, percentile), sorted[m - 1], min, max, |bins|)
  {
    var whole := PercentileIsValueAt(data, min, max, bins, percentile, asked);
    OneWholePart(asked, m, whole);
    PercentileIsClose(data, sorted, min, max, bins, m);
  }

  /** Out of range, a percentile below zero gives the first bin, one that asks for more values than
      there are gives the upper end. */
  lemma PercentileOutside(bins: seq<nat>, min: real, max: real, percentile: real, total: nat)
    requires |bins| > 0 && total == SumTo(bins, |bins|) < U32_RANGE - 1
    ensures percentile < 0.0 ==>
      Percentile(bins, min, max, percentile) == min + 0.5 * ((max - min) / |bins| as real)
    ensures percentile * total as real >= total as real + 1.0 ==>
      Percentile(bins, min, max, percentile) == max
  {
    var x := percentile * total as real;
    if percentile < 0.0 {
      var y := NonpositiveProduct(total as real, percentile);
      Swapped(percentile, total as real, x, y);
      assert TargetOf(percentile, total) == 0;
      assert 0 as real + 0.5 == 0.5;
    } else if x >= total as real + 1.0 {
      assert TargetOf(percentile, total) > total;
      NeverReached(bins, TargetOf(percentile, total));
    }
  }

  lemma NeverReached(bins: seq<nat>, target: nat)
    requires target > SumTo(bins, |bins|)
    ensures Reaching(bins, target, 0) == |bins|
  {
    var b := Reaching(bins, target, 0);
    if b < |bins| { SumToMonotone(bins, b + 1, |bins|); }
  }

  lemma CentreMonotone(min: real, max: real, n: nat, i: nat, j: nat)
    requires n > 0 && min <= max && i <= j
    ensures Centre(min, max, n, i) <= Centre(min, max, n, j)
    ensures i < n ==> Centre(min, max, n, i) <= max
  {
    var w := (max - min) / n as real;
    assert w >= 0.0 && n as real * w == max - min;
    ScaleMonotone(i as real + 0.5, j as real + 0.5, w);
    if i < n { ScaleMonotone(i as real + 0.5, n as real, w); }
  }

  lemma ReachingMonotone(bins: seq<nat>, t: nat, u: nat)
    requires t <= u
    ensures Reaching(bins, t, 0) <= Reaching(bins, u, 0)
  {
  }

  lemma TargetMonotone(p: real, q: real, total: nat)
    requires p <= q
    ensures TargetOf(p, total) <= TargetOf(q, total)
  {
    ScaleMonotone(p, q, total as real);
  }

  /** The reported value never falls when the percentile rises. */
  lemma PercentileMonotone(bins: seq<nat>, min: real, max: real, p: real, q: real)
    requires |bins| > 0 && min <= max && p <= q
    ensures Percentile(bins, min, max, p) <= Percentile(bins, min, max, q)
  {
    var total := SumTo(bins, |bins|);
    TargetMonotone(p, q, total);
    var t, u := TargetOf(p, total), TargetOf(q, total);
    ReachingMonotone(bins, t, u);
    var a, b := Reaching(bins, t, 0), Reaching(bins, u, 0);
    CentreMonotone(min, max, |bins|, a, b);
  }
}
