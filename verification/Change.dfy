/** Change detection by image differencing with fixed and adaptive thresholds, over exact reals.
    The square root is a parameter, required to be a nonnegative root where that matters. */
module Change {
  import opened Reals
  import Words
  import opened Stats

  datatype ChangeClass = NoChange | Increase | Decrease

  /** At or above `pos` a difference is an increase, otherwise at or below `neg` a decrease. */
  method ClassifyFixed(delta: seq<real>, pos: real, neg: real, classes: array<ChangeClass>)
    modifies classes
    ensures var n := Words.Min(|delta|, classes.Length);
            && (forall i :: 0 <= i < n ==>
                  && (classes[i] == Increase <==> delta[i] >= pos)
                  && (classes[i] == Decrease <==> delta[i] < pos && delta[i] <= neg))
            && classes[n..] == old(classes[n..])
  {
    var n := Words.Min(|delta|, classes.Length);
    for i := 0 to n
      invariant forall k :: 0 <= k < i ==>
        (classes[k] == Increase <==> delta[k] >= pos)
        && (classes[k] == Decrease <==> delta[k] < pos && delta[k] <= neg)
      invariant classes[n..] == old(classes[n..])
    {
      classes[i] := if delta[i] >= pos then Increase else if delta[i] <= neg then Decrease else NoChange;
    }
  }

  /** How far from the mean a difference has to be: `k` standard deviations. */
  ghost function Reach(delta: seq<real>, k: real, sqrt: real -> real): real
    requires delta != []
  {
    k * sqrt(VarianceOf(delta))
  }

  method ClassifyAdaptive(delta: seq<real>, k: real, sqrt: real -> real, classes: array<ChangeClass>)
    requires Finite(delta)
    modifies classes
    ensures var n := Words.Min(|delta|, classes.Length);
            AdaptiveClasses(classes[..n], delta, k, sqrt) && classes[n..] == old(classes[n..])
  {
    var n := Words.Min(|delta|, classes.Length);
    if n == 0 {
      return;
    }
    var stats := Compute(delta);
    var sd := sqrt(stats.variance);
    var t := k * sd;
    ClassifyFixed(delta, stats.mean + t, stats.mean - t, classes);
    ClassesAreAdaptive(classes[..n], delta, stats.mean, t, k, sqrt);
  }

  /** The classes of a beginning of the differences, by their distance from the mean of all. */
  ghost predicate AdaptiveClasses(classes: seq<ChangeClass>, delta: seq<real>, k: real, sqrt: real -> real) {
    && |classes| <= |delta|
    && forall i :: 0 <= i < |classes| ==>
        var mean, t := MeanOf(delta), Reach(delta, k, sqrt);
        && (classes[i] == Increase <==> delta[i] >= mean + t)
        && (classes[i] == Decrease <==> delta[i] < mean + t && delta[i] <= mean - t)
  }

  lemma ClassesAreAdaptive(classes: seq<ChangeClass>, delta: seq<real>, mean: real, t: real, k: real,
                           sqrt: real -> real)
    requires delta != [] && |classes| <= |delta| && mean == MeanOf(delta) && t == Reach(delta, k, sqrt)
    requires forall i :: 0 <= i < |classes| ==>
      && (classes[i] == Increase <==> delta[i] >= mean + t)
      && (classes[i] == Decrease <==> delta[i] < mean + t && delta[i] <= mean - t)
    ensures AdaptiveClasses(classes, delta, k, sqrt)
  {
  }

  // ----- Chebyshev's bound -----------------------------------------------------------------

  /** Which values are classed as changed, against `mean` plus and minus `t`. */
  ghost function Flags(delta: seq<real>, mean: real, t: real): (flags: seq<bool>)
    ensures |flags| == |delta|
    ensures forall i :: 0 <= i < |delta| ==> (flags[i] <==> delta[i] >= mean + t || delta[i] <= mean - t)
  {
    seq(|delta|, i requires 0 <= i < |delta| => delta[i] >= mean + t || delta[i] <= mean - t)
  }

  ghost function Count(flags: seq<bool>): (c: nat)
    ensures c <= |flags|
  {
    if flags == [] then 0 else Count(flags[..|flags| - 1]) + (if flags[|flags| - 1] then 1 else 0)
  }

  /** `n` copies of `x`, added up. */
  ghost function Repeat(n: nat, x: real): real {
    if n == 0 then 0.0 else Repeat(n - 1, x) + x
  }

  lemma {:induction false} RepeatIsProduct(n: nat, x: real)
    ensures Repeat(n, x) == n as real * x
    decreases n
  {
    if n > 0 {
      RepeatIsProduct(n - 1, x);
      OneMoreTimes((n - 1) as real, x);
    }
  }

  lemma {:induction false} RepeatScaled(n: nat, x: real, v: real, xv: real, total: real)
    requires xv == x * v && total == Repeat(n, x)
    ensures Repeat(n, xv) == total * v
    decreases n
  {
    if n > 0 {
      var before := Repeat(n - 1, x);
      RepeatScaled(n - 1, x, v, xv, before);
      ScaledSum(before, x, v, xv, Repeat(n - 1, xv), total);
    } else {
      NothingScaled(total, v);
    }
  }

  lemma NothingScaled(total: real, v: real)
    requires total == 0.0
    ensures total * v == 0.0
  {
  }

  lemma ScaledSum(before: real, x: real, v: real, xv: real, scaled: real, total: real)
    requires xv == x * v && scaled == before * v && total == before + x
    ensures scaled + xv == total * v
  {
    Distribute(before, x, v, scaled, xv);
  }

  // The bound itself.

  /** A flagged value deviates by at least the threshold. */
  lemma FlaggedDeviates(d: real, mean: real, t: real)
    requires t >= 0.0 && (d >= mean + t || d <= mean - t)
    ensures Square(d - mean) >= Square(t)
  {
    if d >= mean + t {
      LargerSquare(d - mean, t);
    } else {
      LargerSquare(mean - d, t);
      SquareOfNegative(d - mean);
    }
  }

  lemma {:induction false} CountTimesLeast(flags: seq<bool>, dev: seq<real>, least: real)
    requires |flags| == |dev|
    requires forall i :: 0 <= i < |dev| ==> dev[i] >= 0.0 && (flags[i] ==> dev[i] >= least)
    ensures Repeat(Count(flags), least) <= Sum(dev)
    decreases |dev|
  {
    if dev != [] {
      var n := |dev| - 1;
      CountTimesLeast(flags[..n], dev[..n], least);
    }
  }

  lemma {:induction false} SumOfPrefix(dev: seq<real>, m: nat)
    requires m <= |dev| && forall i :: 0 <= i < |dev| ==> dev[i] >= 0.0
    ensures Sum(dev[..m]) <= Sum(dev)
    decreases |dev|
  {
    if m == |dev| {
      assert dev[..m] == dev;
    } else {
      var n := |dev| - 1;
      assert dev[..n][..m] == dev[..m];
      SumOfPrefix(dev[..n], m);
    }
  }

  /** Deviations are not negative, and those of flagged values reach the squared threshold. */
  ghost predicate Deviates(flags: seq<bool>, dev: seq<real>, least: real) {
    |flags| == |dev| && forall i :: 0 <= i < |dev| ==> dev[i] >= 0.0 && (flags[i] ==> dev[i] >= least)
  }

  lemma FlagsDeviate(delta: seq<real>, mean: real, t: real)
    requires t >= 0.0
    ensures Deviates(Flags(delta, mean, t), Squares(delta, mean), Square(t))
  {
    var flags := Flags(delta, mean, t);
    forall i | 0 <= i < |delta| && flags[i] ensures Square(delta[i] - mean) >= Square(t) {
      FlaggedDeviates(delta[i], mean, t);
    }
  }

  /** The arithmetic of the bound. */
  lemma CountFromTotals(count: nat, k2: real, v: real, n: real, t2: real, total: real)
    requires v > 0.0 && t2 == k2 * v && total == n * v && Repeat(count, t2) <= total
    ensures Repeat(count, k2) <= n
  {
    RepeatScaled(count, k2, v, t2, Repeat(count, k2));
    CancelFactor(Repeat(count, k2), n, v, Repeat(count, t2), total);
  }

  lemma FlaggedTotal(flags: seq<bool>, dev: seq<real>, m: nat, t2: real)
    requires Deviates(flags, dev, t2) && m <= |dev|
    ensures Repeat(Count(flags[..m]), t2) <= Sum(dev)
  {
    CountTimesLeast(flags[..m], dev[..m], t2);
    SumOfPrefix(dev, m);
  }

  lemma ChebyshevCore(flags: seq<bool>, dev: seq<real>, m: nat, k2: real, v: real, n: real, t2: real, total: real)
    requires Deviates(flags, dev, t2) && m <= |dev| && total == Sum(dev)
    requires v > 0.0 && t2 == k2 * v && total == n * v
    ensures Repeat(Count(flags[..m]), k2) <= n
  {
    FlaggedTotal(flags, dev, m, t2);
    CountFromTotals(Count(flags[..m]), k2, v, n, t2, total);
  }

  /** Adaptive thresholding obeys Chebyshev's inequality: of the first `m` samples, as many as are
      flagged, each counted `k * k` times, are at most all samples, provided these vary at all. */
  lemma Chebyshev(delta: seq<real>, m: nat, k: real, sqrt: real -> real)
    requires delta != [] && m <= |delta| && k > 0.0 && IsRoot(sqrt) && VarianceOf(delta) > 0.0
    ensures Repeat(Count(Flags(delta, MeanOf(delta), Reach(delta, k, sqrt))[..m]), Square(k)) <= |delta| as real
  {
    var t2 := ReachSquared(k, VarianceOf(delta), sqrt);
    var total := VarianceTimes(delta);
    BoundAround(delta, MeanOf(delta), m, VarianceOf(delta), Square(k), Reach(delta, k, sqrt), t2, total);
  }

  /** The bound for any centre and any distance `t` from it. */
  lemma BoundAround(delta: seq<real>, mean: real, m: nat, v: real, k2: real, t: real, t2: real, total: real)
    requires m <= |delta| && v > 0.0 && t >= 0.0 && t2 == Square(t) && t2 == k2 * v
    requires total == |delta| as real * v && total == Sum(Squares(delta, mean))
    ensures Repeat(Count(Flags(delta, mean, t)[..m]), k2) <= |delta| as real
  {
    FlagsDeviate(delta, mean, t);
    ChebyshevCore(Flags(delta, mean, t), Squares(delta, mean), m, k2, v, |delta| as real, t2, total);
  }

  lemma VarianceTimes(delta: seq<real>) returns (total: real)
    requires delta != []
    ensures total == |delta| as real * VarianceOf(delta) && total == Sum(Squares(delta, MeanOf(delta)))
  {
    total := Sum(Squares(delta, MeanOf(delta)));
    OverTimes(total, |delta|);
  }

  lemma ReachSquared(k: real, v: real, sqrt: real -> real) returns (t2: real)
    requires IsRoot(sqrt) && k > 0.0 && v > 0.0
    ensures k * sqrt(v) >= 0.0 && t2 == Square(k * sqrt(v)) && t2 == Square(k) * v
  {
    var reach := NonnegativeProduct(k, sqrt(v));
    SquareOfProduct(k, sqrt(v));
    t2 := Square(k) * v;
  }

  // ----- Constant data ---------------------------------------------------------------------

  lemma {:induction false} NoDeviation(dev: seq<real>)
    requires (forall i :: 0 <= i < |dev| ==> dev[i] >= 0.0) && Sum(dev) <= 0.0
    ensures Sum(dev) == 0.0 && forall i :: 0 <= i < |dev| ==> dev[i] == 0.0
    decreases |dev|
  {
    if dev != [] {
      var n := |dev| - 1;
      SumOfPrefix(dev, n);
      NoDeviation(dev[..n]);
    }
  }

  lemma {:induction false} CountOfAll(flags: seq<bool>)
    requires forall i :: 0 <= i < |flags| ==> flags[i]
    ensures Count(flags) == |flags|
    decreases |flags|
  {
    if flags != [] { CountOfAll(flags[..|flags| - 1]); }
  }

  /** Without variance no sample deviates. */
  lemma NoVariance(dev: seq<real>, v: real)
    requires dev != [] && (forall i :: 0 <= i < |dev| ==> dev[i] >= 0.0)
    requires |dev| as real * v == Sum(dev) && v <= 0.0
    ensures v == 0.0 && forall i :: 0 <= i < |dev| ==> dev[i] == 0.0
  {
    var total := NonpositiveProduct(|dev| as real, v);
    NoDeviation(dev);
    Swapped(|dev| as real, v, total, v * |dev| as real);
    ZeroFactor(|dev| as real, v, total);
  }

  lemma AllFlagged(delta: seq<real>, mean: real)
    ensures Count(Flags(delta, mean, 0.0)) == |delta|
  {
    CountOfAll(Flags(delta, mean, 0.0));
  }

  /** Then the threshold is zero and every sample is flagged. */
  lemma ConstantData(delta: seq<real>, k: real, sqrt: real -> real)
    requires delta != [] && IsRoot(sqrt) && VarianceOf(delta) <= 0.0
    ensures Count(Flags(delta, MeanOf(delta), Reach(delta, k, sqrt))) == |delta|
  {
    var mean, v := MeanOf(delta), VarianceOf(delta);
    OverTimes(Sum(Squares(delta, mean)), |delta|);
    NoVariance(Squares(delta, mean), v);
    AllFlagged(delta, mean);
  }

  lemma AtMostOne(n: nat, k: real)
    requires n > 0 && k > 0.0
    ensures Repeat(n, Square(k)) <= n as real <==> k <= 1.0
  {
    if k <= 1.0 {
      LargerSquare(1.0, k);
      RepeatMonotone(n, Square(k), 1.0);
    } else {
      StrictlyLargerSquare(k, 1.0);
      RepeatMonotone(n, 1.0, Square(k));
    }
    RepeatOne(n);
  }

  lemma {:induction false} RepeatMonotone(n: nat, x: real, y: real)
    requires x <= y
    ensures Repeat(n, x) <= Repeat(n, y)
    ensures n > 0 && x < y ==> Repeat(n, x) < Repeat(n, y)
    decreases n
  {
    if n > 0 { RepeatMonotone(n - 1, x, y); }
  }

  lemma {:induction false} RepeatOne(n: nat)
    ensures Repeat(n, 1.0) == n as real
    decreases n
  {
    if n > 0 { RepeatOne(n - 1); }
  }

  /** The exact condition.  On constant data every sample is flagged, so the bound then holds
      only for `k` up to one. */
  lemma ChebyshevExactly(delta: seq<real>, k: real, sqrt: real -> real)
    requires delta != [] && k > 0.0 && IsRoot(sqrt)
    ensures Count(Flags(delta, MeanOf(delta), Reach(delta, k, sqrt))) as real * Square(k) <= |delta| as real
            <==> VarianceOf(delta) > 0.0 || k <= 1.0
  {
    var flags := Flags(delta, MeanOf(delta), Reach(delta, k, sqrt));
    RepeatIsProduct(Count(flags), Square(k));
    if VarianceOf(delta) > 0.0 {
      Chebyshev(delta, |delta|, k, sqrt);
      assert flags[..|delta|] == flags;
    } else {
      ConstantData(delta, k, sqrt);
      AtMostOne(|delta|, k);
    }
  }

  /** What the loop writes, counted: the classes that say changed. */
  ghost function Changed(classes: seq<ChangeClass>): (flags: seq<bool>)
    ensures |flags| == |classes| && forall i :: 0 <= i < |flags| ==> (flags[i] <==> !classes[i].NoChange?)
  {
    seq(|classes|, i requires 0 <= i < |classes| => !classes[i].NoChange?)
  }

  /** The bound for the classes that `ClassifyAdaptive` writes. */
  lemma AdaptiveClassesObeyChebyshev(delta: seq<real>, k: real, sqrt: real -> real, classes: seq<ChangeClass>)
    requires delta != [] && k > 0.0 && IsRoot(sqrt) && VarianceOf(delta) > 0.0
    requires AdaptiveClasses(classes, delta, k, sqrt)
    ensures Count(Changed(classes)) as real * Square(k) <= |delta| as real
  {
    ClassesAreFlags(delta, MeanOf(delta), Reach(delta, k, sqrt), classes);
    Chebyshev(delta, |classes|, k, sqrt);
    RepeatIsProduct(Count(Changed(classes)), Square(k));
  }

  lemma ClassesAreFlags(delta: seq<real>, mean: real, t: real, classes: seq<ChangeClass>)
    requires |classes| <= |delta|
    requires forall i :: 0 <= i < |classes| ==>
      && (classes[i] == Increase <==> delta[i] >= mean + t)
      && (classes[i] == Decrease <==> delta[i] < mean + t && delta[i] <= mean - t)
    ensures Changed(classes) == Flags(delta, mean, t)[..|classes|]
  {
  }

  /** Two equal samples with k = 2: both are flagged, and the bound fails. */
  lemma ConstantDataBreaksChebyshev(sqrt: real -> real)
    requires IsRoot(sqrt)
    ensures var delta := [5.0, 5.0];
      Count(Flags(delta, MeanOf(delta), Reach(delta, 2.0, sqrt))) as real * Square(2.0) > |delta| as real
  {
    var delta := [5.0, 5.0];
    assert delta[..1] == [5.0] && delta[..1][..0] == [];
    assert Sum(delta) == 10.0;
    var dev := Squares(delta, 5.0);
    assert dev == [0.0, 0.0] && dev[..1] == [0.0];
    ChebyshevExactly(delta, 2.0, sqrt);
  }
}
