/** What a reported fire means, in terms of the pixels around it. */
module Fires {
  import opened Reals
  import opened Words
  import opened Windows
  import opened Thermal
  import opened TileDetection
  import Stats

  /** How much hotter the pixel is than the background `b`, and how much more its bands differ. */
  function Excess(p: Sample, b: seq<Sample>): real {
    p.t4 - Stats.Average(T4s(b))
  }

  function SplitExcess(p: Sample, b: seq<Sample>): real {
    p.t4 - p.t11 - Stats.Average(Dts(b))
  }

  /** The fire test: hot, with bands far enough apart, and, over enough background, above the mean
      in both respects by more than the threshold and by more than three standard deviations. */
  ghost predicate IsFire(p: Sample, b: seq<Sample>, th: Thresholds, sqrt: real -> real) {
    && p.t4 >= th.t4Abs && p.t4 - p.t11 >= th.t4T11Abs
    && (|b| >= th.minBgCount ==>
          && Excess(p, b) > th.dt4Threshold && Excess(p, b) > 3.0 * Stats.Spread(T4s(b), sqrt)
          && SplitExcess(p, b) > th.dt4T11Threshold && SplitExcess(p, b) > 3.0 * Stats.Spread(Dts(b), sqrt))
  }

  /** The fields reported for a fire: with too little background, its distance from the absolute
      threshold and a low confidence. */
  ghost predicate Reads(rd: Reading, p: Sample, b: seq<Sample>, th: Thresholds) {
    && rd.t4 == p.t4 && rd.t11 == p.t11 && rd.frp == 0.000001 * Square(Excess(p, b))
    && if |b| >= th.minBgCount then
        && rd.dt4 == Excess(p, b) && rd.dt4T11 == SplitExcess(p, b)
        && rd.confidence == (RealMin(rd.dt4 / 50.0, 1.0) + RealMin(rd.dt4T11 / 30.0, 1.0)) / 2.0
      else rd.dt4 == p.t4 - th.t4Abs && rd.dt4T11 == p.t4 - p.t11 && rd.confidence == 0.3
  }

  /** The verdict is the fire test against background `b`, with the fields that go with it. */
  ghost predicate Judges(v: Option<Reading>, p: Sample, b: seq<Sample>, th: Thresholds, sqrt: real -> real) {
    && (v.Some? <==> IsFire(p, b, th, sqrt))
    && (v.Some? ==> Reads(v.value, p, b, th))
  }

  lemma PowerIs(t4: real, mean: real, excess: real)
    requires excess == t4 - mean
    ensures EstimateFrp(t4, mean) == 0.000001 * Square(excess)
  {
    SquareNotNegative(excess);
    ScaledPower(Square(excess));
  }

  lemma ScaledPower(square: real)
    requires square >= 0.0
    ensures RealMax(square * 0.000001, 0.0) == 0.000001 * square
  {
  }

  lemma JudgeReports(p: Sample, bg: Background, b: seq<Sample>, th: Thresholds, sqrt: real -> real)
    requires DescribesBackground(bg, b, sqrt)
    ensures JudgeAgainst(p, bg, th).Some? <==> IsFire(p, b, th, sqrt)
  {
  }

  lemma JudgeReads(p: Sample, bg: Background, b: seq<Sample>, th: Thresholds, sqrt: real -> real)
    requires DescribesBackground(bg, b, sqrt) && JudgeAgainst(p, bg, th).Some?
    ensures Reads(JudgeAgainst(p, bg, th).value, p, b, th)
  {
    PowerIs(p.t4, bg.meanT4, Excess(p, b));
  }

  lemma JudgeMeans(p: Sample, t: Totals, b: seq<Sample>, th: Thresholds, sqrt: real -> real)
    requires DescribesBackground(Summarise(t, sqrt), b, sqrt)
    ensures Judges(Judge(p, t, th, sqrt), p, b, th, sqrt)
  {
    JudgeReports(p, Summarise(t, sqrt), b, th, sqrt);
    if Judge(p, t, th, sqrt).Some? { JudgeReads(p, Summarise(t, sqrt), b, th, sqrt); }
  }

  /** A pixel of a scene is reported if and only if it is a fire against the background among the
      pixels that surround it, however these are listed. */
  lemma VerdictIsFireTest(s: Scene, th: Thresholds, sqrt: real -> real, x: nat, y: nat, places: seq<Place>)
    requires s.Valid() && x < s.width && y < s.height
    requires Surrounds(places, s.width, s.height, x, y, th.bgRadius)
    ensures Judges(Verdict(s, th.bgRadius, FireTest(th, sqrt), x, y),
                   s.At(x, y), BackgroundAt(s, places, th.bgMaxT4), th, sqrt)
  {
    BackgroundIsStatistics(s, x, y, th.bgRadius, th.bgMaxT4, sqrt, places);
    VerdictIs(s, th, sqrt, x, y);
    JudgeMeans(s.At(x, y), TotalsOf(Window(s, x, y, th.bgRadius), th.bgMaxT4), BackgroundAt(s, places, th.bgMaxT4),
               th, sqrt);
  }

  /** The detector's list for a scene that fits 16-bit positions: one hit for each fire. */
  lemma DetectsFires(s: Scene, th: Thresholds, sqrt: real -> real, hit: Hit, places: seq<Place>)
    requires s.Valid() && 0 < s.width < 0x1_0000 && s.height < 0x1_0000
    requires Surrounds(places, s.width, s.height, hit.x, hit.y, th.bgRadius)
    ensures hit in DetectRaw(s.width, s.height, VerdictsOf(s, th.bgRadius, FireTest(th, sqrt))) <==>
      && hit.x < s.width && hit.y < s.height
      && IsFire(s.At(hit.x, hit.y), BackgroundAt(s, places, th.bgMaxT4), th, sqrt)
      && Reads(hit.reading, s.At(hit.x, hit.y), BackgroundAt(s, places, th.bgMaxT4), th)
  {
    RawHitAnywhere(s.width, s.height, VerdictsOf(s, th.bgRadius, FireTest(th, sqrt)), hit);
    if hit.x < s.width && hit.y < s.height {
      VerdictIsFireTest(s, th, sqrt, hit.x, hit.y, places);
      VerdictInside(s, th.bgRadius, FireTest(th, sqrt), hit.x, hit.y);
    }
  }

  /** Confidence is positive and at most one, whatever the thresholds. */
  lemma ConfidenceIsAFraction(s: Scene, th: Thresholds, sqrt: real -> real, x: nat, y: nat)
    requires s.Valid() && x < s.width && y < s.height && IsRoot(sqrt)
    ensures var v := Verdict(s, th.bgRadius, FireTest(th, sqrt), x, y);
      v.Some? ==> 0.0 < v.value.confidence <= 1.0
  {
    var places := WindowSurrounds(s, x, y, th.bgRadius);
    VerdictIsFireTest(s, th, sqrt, x, y, places);
    var b := BackgroundAt(s, places, th.bgMaxT4);
    SpreadNotNegative(T4s(b), sqrt);
    SpreadNotNegative(Dts(b), sqrt);
  }

  lemma SpreadNotNegative(xs: seq<real>, sqrt: real -> real)
    requires IsRoot(sqrt)
    ensures Stats.Spread(xs, sqrt) >= 0.0
  {
    if xs != [] { Stats.VarianceNotNegative(xs); }
  }
}
