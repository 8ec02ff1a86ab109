/** Scenes of two bands, the window around a pixel, and the statistics of its background.

    Brightness temperatures are exact reals.  The square root is a parameter: every statement
    here holds for any function in its place. */
module Windows {
  import opened Reals
  import opened Words
  import opened RowMajor
  import Lists
  import Stats

  datatype Thresholds = Thresholds(t4Abs: real, dt4Threshold: real, dt4T11Threshold: real, t4T11Abs: real,
                                   minBgCount: nat, bgRadius: nat, bgMaxT4: real)

  datatype Background = Background(meanT4: real, stdT4: real, meanDt: real, stdDt: real, count: nat)

  datatype Sample = Sample(t4: real, t11: real)

  /** Two co-registered bands of `height` rows of `width` pixels. */
  datatype Scene = Scene(t4: seq<real>, t11: seq<real>, width: nat, height: nat) {
    ghost predicate Valid() {
      |t4| == |t11| == Area(height, width)
    }

    function At(x: nat, y: nat): Sample
      requires Valid() && x < width && y < height
    {
      CellInRange(y, x, height, width);
      Sample(t4[Area(y, width) + x], t11[Area(y, width) + x])
    }
  }

  function RealMax(a: real, b: real): real { if a < b then b else a }
  function RealMin(a: real, b: real): real { if b < a then b else a }

  // ----- The window and the samples it visits ----------------------------------------------

  /** Half-open rectangle of pixels. */
  datatype Rect = Rect(x0: nat, x1: nat, y0: nat, y1: nat)

  /** The background window of radius `r` around a pixel, clipped to the scene. */
  function WindowRect(width: nat, height: nat, cx: nat, cy: nat, r: nat): (w: Rect)
    requires cx < width && cy < height
    ensures w.x0 <= cx < w.x1 <= width && w.y0 <= cy < w.y1 <= height
  {
    Rect(SaturatingSub(cx, r), Min(cx + r + 1, width), SaturatingSub(cy, r), Min(cy + r + 1, height))
  }

  /** The sample at every position; positions outside the scene are never looked at. */
  type Look = (nat, nat) -> Sample

  function SampleAt(s: Scene, x: nat, y: nat): Sample
    requires s.Valid()
  {
    if x < s.width && y < s.height then s.At(x, y) else Sample(0.0, 0.0)
  }

  function LookAt(s: Scene): Look
    requires s.Valid()
  {
    (x: nat, y: nat) => SampleAt(s, x, y)
  }

  /** The sample contributed by one position of the window: none at the centre. */
  function Visit(look: Look, cx: nat, cy: nat, x: nat, y: nat): seq<Sample> {
    if x == cx && y == cy then [] else [look(x, y)]
  }

  /** Samples visited, row by row, before position (`x`, `y`) of the window is reached. */
  function Visited(look: Look, w: Rect, cx: nat, cy: nat, x: nat, y: nat): seq<Sample>
    requires w.x0 <= x <= w.x1 && w.y0 <= y <= w.y1
    decreases y, x
  {
    if x > w.x0 then Visited(look, w, cx, cy, x - 1, y) + Visit(look, cx, cy, x - 1, y)
    else if y > w.y0 then Visited(look, w, cx, cy, w.x1, y - 1)
    else []
  }

  /** Everything the window around (`cx`, `cy`) visits. */
  function Window(s: Scene, cx: nat, cy: nat, r: nat): seq<Sample>
    requires s.Valid() && cx < s.width && cy < s.height
  {
    var w := WindowRect(s.width, s.height, cx, cy, r);
    Visited(LookAt(s), w, cx, cy, w.x0, w.y1)
  }

  // ----- Background statistics -------------------------------------------------------------

  datatype Totals = Totals(sumT4: real, sumT4Sq: real, sumDt: real, sumDtSq: real, n: nat)

  /** Pixels that are too hot, or not positive, are no background. */
  predicate IsBackground(p: Sample, bgMaxT4: real) {
    !(p.t4 > bgMaxT4 || p.t4 <= 0.0)
  }

  function AddSample(t: Totals, p: Sample): Totals {
    var dt := p.t4 - p.t11;
    Totals(t.sumT4 + p.t4, t.sumT4Sq + Square(p.t4), t.sumDt + dt, t.sumDtSq + Square(dt), t.n + 1)
  }

  const NOTHING := Totals(0.0, 0.0, 0.0, 0.0, 0)

  /** A running value over the background samples of a window, in the order of the visit. */
  function Folded<T>(add: (T, Sample) -> T, zero: T, window: seq<Sample>, bgMaxT4: real): T {
    if window == [] then zero
    else
      var t, p := Folded(add, zero, window[..|window| - 1], bgMaxT4), window[|window| - 1];
      if IsBackground(p, bgMaxT4) then add(t, p) else t
  }

  /** Sums over the background samples of a window. */
  function TotalsOf(window: seq<Sample>, bgMaxT4: real): Totals {
    Folded(AddSample, NOTHING, window, bgMaxT4)
  }

  function Summarise(t: Totals, sqrt: real -> real): Background {
    if t.n == 0 then Background(0.0, 0.0, 0.0, 0.0, 0)
    else
      var n := t.n as real;
      var meanT4, meanDt := t.sumT4 / n, t.sumDt / n;
      var varT4, varDt := t.sumT4Sq / n - Square(meanT4), t.sumDtSq / n - Square(meanDt);
      Background(meanT4, sqrt(RealMax(varT4, 0.0)), meanDt, sqrt(RealMax(varDt, 0.0)), t.n)
  }

  lemma FoldedExtend<T>(add: (T, Sample) -> T, zero: T, window: seq<Sample>, more: seq<Sample>, bgMaxT4: real)
    requires |more| <= 1
    ensures var t := Folded(add, zero, window, bgMaxT4);
            Folded(add, zero, window + more, bgMaxT4)
            == if more != [] && IsBackground(more[0], bgMaxT4) then add(t, more[0]) else t
  {
    if more == [] {
      assert window + more == window;
    } else {
      assert (window + more)[..|window|] == window;
    }
  }

  /** What one position of the window adds. */
  lemma FoldedStep<T>(add: (T, Sample) -> T, zero: T, look: Look, w: Rect, cx: nat, cy: nat, x: nat, y: nat,
                      bgMaxT4: real)
    requires w.x0 <= x < w.x1 && w.y0 <= y < w.y1
    ensures var t := Folded(add, zero, Visited(look, w, cx, cy, x, y), bgMaxT4);
            Folded(add, zero, Visited(look, w, cx, cy, x + 1, y), bgMaxT4)
            == if (x == cx && y == cy) || look(x, y).t4 > bgMaxT4 || look(x, y).t4 <= 0.0 then t
               else add(t, look(x, y))
  {
    FoldedExtend(add, zero, Visited(look, w, cx, cy, x, y), Visit(look, cx, cy, x, y), bgMaxT4);
  }

  /** A row starts where the one above ends. */
  lemma NextRow(look: Look, w: Rect, cx: nat, cy: nat, y: nat)
    requires w.x0 <= w.x1 && w.y0 <= y < w.y1
    ensures Visited(look, w, cx, cy, w.x0, y + 1) == Visited(look, w, cx, cy, w.x1, y)
  {
  }

  /** Both bands at index `y * width + x`. */
  method ReadSample(s: Scene, x: nat, y: nat) returns (p: Sample)
    requires s.Valid() && x < s.width && y < s.height
    ensures p == LookAt(s)(x, y)
  {
    var idx := y * s.width + x;
    AreaIsProduct(y, s.width);
    CellInRange(y, x, s.height, s.width);
    p := Sample(s.t4[idx], s.t11[idx]);
  }

  /** The value reached before each position of row `y`. */
  function RowFold<T>(add: (T, Sample) -> T, zero: T, look: Look, w: Rect, cx: nat, cy: nat, bgMaxT4: real,
                      y: nat): nat -> T {
    (x: nat) => FoldedTo(add, zero, look, w, cx, cy, bgMaxT4, x, y)
  }

  /** The value reached before position (`x`, `y`). */
  function FoldedTo<T>(add: (T, Sample) -> T, zero: T, look: Look, w: Rect, cx: nat, cy: nat, bgMaxT4: real,
                       x: nat, y: nat): T {
    if w.x0 <= x <= w.x1 && w.y0 <= y <= w.y1 then Folded(add, zero, Visited(look, w, cx, cy, x, y), bgMaxT4) else zero
  }

  /** `values` is the running value along row `y`: the centre and samples that are no background
      leave it alone. */
  ghost predicate RunsAlong<T(!new)>(values: nat -> T, add: (T, Sample) -> T, look: Look, w: Rect, cx: nat, cy: nat,
                                     bgMaxT4: real, y: nat) {
    forall x: nat :: w.x0 <= x < w.x1 ==>
      values(x + 1) == if (x == cx && y == cy) || look(x, y).t4 > bgMaxT4 || look(x, y).t4 <= 0.0 then values(x)
                       else add(values(x), look(x, y))
  }

  lemma RowFoldRuns<T(!new)>(add: (T, Sample) -> T, zero: T, look: Look, w: Rect, cx: nat, cy: nat, bgMaxT4: real,
                             y: nat)
    requires w.x0 <= w.x1 && w.y0 <= y < w.y1
    ensures RunsAlong(RowFold(add, zero, look, w, cx, cy, bgMaxT4, y), add, look, w, cx, cy, bgMaxT4, y)
    ensures FoldedTo(add, zero, look, w, cx, cy, bgMaxT4, w.x0, y + 1)
         == RowFold(add, zero, look, w, cx, cy, bgMaxT4, y)(w.x1)
  {
    forall x: nat | w.x0 <= x < w.x1
      ensures var t := FoldedTo(add, zero, look, w, cx, cy, bgMaxT4, x, y);
        FoldedTo(add, zero, look, w, cx, cy, bgMaxT4, x + 1, y)
        == if (x == cx && y == cy) || look(x, y).t4 > bgMaxT4 || look(x, y).t4 <= 0.0 then t else add(t, look(x, y))
    {
      FoldedStep(add, zero, look, w, cx, cy, x, y, bgMaxT4);
    }
    NextRow(look, w, cx, cy, y);
  }

  /** A row without background changes nothing. */
  lemma {:induction false} EmptyRow<T(!new)>(values: nat -> T, add: (T, Sample) -> T, look: Look, w: Rect,
                                             cx: nat, cy: nat, bgMaxT4: real, y: nat, x: nat)
    requires w.x0 <= x <= w.x1 && RunsAlong(values, add, look, w, cx, cy, bgMaxT4, y)
    requires forall x: nat :: x < w.x1 ==> (x == cx && y == cy) || !IsBackground(look(x, y), bgMaxT4)
    ensures values(x) == values(w.x0)
    decreases x
  {
    if x > w.x0 {
      EmptyRow(values, add, look, w, cx, cy, bgMaxT4, y, x - 1);
      assert values(x - 1 + 1) == values(x - 1);
    }
  }

  /** The nested summation loops over a rectangle, for any way of adding a sample. */
  method SumWindow<T(!new)>(s: Scene, w: Rect, cx: nat, cy: nat, bgMaxT4: real, add: (T, Sample) -> T, zero: T)
      returns (t: T)
    requires s.Valid() && w.x0 <= w.x1 <= s.width && w.y0 <= w.y1 <= s.height
    ensures t == Folded(add, zero, Visited(LookAt(s), w, cx, cy, w.x0, w.y1), bgMaxT4)
  {
    t := zero;
    for y := w.y0 to w.y1
      invariant t == FoldedTo(add, zero, LookAt(s), w, cx, cy, bgMaxT4, w.x0, y)
    {
      t := SumNextRow(s, w, cx, cy, bgMaxT4, add, zero, y, t);
    }
  }

  /** One turn of the outer loop. */
  method SumNextRow<T(!new)>(s: Scene, w: Rect, cx: nat, cy: nat, bgMaxT4: real, add: (T, Sample) -> T, ghost zero: T,
                             y: nat, before: T) returns (t: T)
    requires s.Valid() && w.x0 <= w.x1 <= s.width && w.y0 <= y < w.y1 <= s.height
    requires before == FoldedTo(add, zero, LookAt(s), w, cx, cy, bgMaxT4, w.x0, y)
    ensures t == FoldedTo(add, zero, LookAt(s), w, cx, cy, bgMaxT4, w.x0, y + 1)
  {
    RowFoldRuns(add, zero, LookAt(s), w, cx, cy, bgMaxT4, y);
    t := SumRow(s, w, cx, cy, bgMaxT4, add, y, before, RowFold(add, zero, LookAt(s), w, cx, cy, bgMaxT4, y));
  }

  /** The inner loop: row `y` of the rectangle. */
  method SumRow<T(!new)>(s: Scene, w: Rect, cx: nat, cy: nat, bgMaxT4: real, add: (T, Sample) -> T,
                         y: nat, before: T, ghost values: nat -> T) returns (t: T)
    requires s.Valid() && w.x0 <= w.x1 <= s.width && y < s.height
    requires RunsAlong(values, add, LookAt(s), w, cx, cy, bgMaxT4, y) && before == values(w.x0)
    ensures t == values(w.x1)
  {
    t := before;
    for x := w.x0 to w.x1
      invariant t == values(x)
    {
      var p := ReadSample(s, x, y);
      assert values(x + 1) == if (x == cx && y == cy) || p.t4 > bgMaxT4 || p.t4 <= 0.0 then values(x)
                              else add(values(x), p);
      if x == cx && y == cy {
        continue;
      }
      if p.t4 > bgMaxT4 || p.t4 <= 0.0 {
        continue;
      }
      t := add(t, p);
    }
  }

  // ----- What the statistics mean ----------------------------------------------------------

  type Place = (nat, nat)

  predicate AtMostApart(a: nat, b: nat, r: nat) {
    a <= b + r && b <= a + r
  }

  /** `places` lists, once each and in any order, the other pixels of the scene that are at most
      `r` columns and `r` rows away. */
  ghost predicate Surrounds(places: seq<Place>, width: nat, height: nat, cx: nat, cy: nat, r: nat) {
    && (forall i, j :: 0 <= i < j < |places| ==> places[i] != places[j])
    && forall x: nat, y: nat :: (x, y) in places <==>
        x < width && y < height && (x != cx || y != cy) && AtMostApart(x, cx, r) && AtMostApart(y, cy, r)
  }

  function SampleOf(s: Scene): Place -> Sample
    requires s.Valid()
  {
    (p: Place) => LookAt(s)(p.0, p.1)
  }

  /** The samples that are positive and not too hot. */
  function Filtered(samples: seq<Sample>, bgMaxT4: real): seq<Sample> {
    if samples == [] then []
    else
      var p := samples[|samples| - 1];
      Filtered(samples[..|samples| - 1], bgMaxT4) + if 0.0 < p.t4 <= bgMaxT4 then [p] else []
  }

  /** The background samples among some places. */
  function BackgroundAt(s: Scene, places: seq<Place>, bgMaxT4: real): seq<Sample>
    requires s.Valid()
  {
    Filtered(Lists.Pointwise(SampleOf(s), places), bgMaxT4)
  }

  function T4s(b: seq<Sample>): (r: seq<real>)
    ensures |r| == |b| && forall i :: 0 <= i < |b| ==> r[i] == b[i].t4
  {
    Lists.Pointwise((p: Sample) => p.t4, b)
  }

  /** The differences between the bands. */
  function Dts(b: seq<Sample>): (r: seq<real>)
    ensures |r| == |b| && forall i :: 0 <= i < |b| ==> r[i] == b[i].t4 - b[i].t11
  {
    Lists.Pointwise((p: Sample) => p.t4 - p.t11, b)
  }

  /** `bg` holds the number of the samples `b`, and mean and standard deviation of their first band
      and of the difference between the bands, all zero if there are none. */
  ghost predicate DescribesBackground(bg: Background, b: seq<Sample>, sqrt: real -> real) {
    && bg.count == |b|
    && bg.meanT4 == Stats.Average(T4s(b)) && bg.stdT4 == Stats.Spread(T4s(b), sqrt)
    && bg.meanDt == Stats.Average(Dts(b)) && bg.stdDt == Stats.Spread(Dts(b), sqrt)
  }

  /** The sums over a list of samples. */
  ghost predicate SumsUp(t: Totals, b: seq<Sample>) {
    && t.n == |b|
    && t.sumT4 == Stats.Sum(T4s(b)) && t.sumT4Sq == Stats.Sum(Stats.Squares(T4s(b), 0.0))
    && t.sumDt == Stats.Sum(Dts(b)) && t.sumDtSq == Stats.Sum(Stats.Squares(Dts(b), 0.0))
  }

  lemma SumsOneMore(xs: seq<real>, x: real)
    ensures Stats.Sum(xs + [x]) == Stats.Sum(xs) + x
    ensures Stats.Sum(Stats.Squares(xs + [x], 0.0)) == Stats.Sum(Stats.Squares(xs, 0.0)) + Square(x)
  {
    assert (xs + [x])[..|xs|] == xs;
    Stats.SquaresOneMore(xs + [x], 0.0);
    assert x - 0.0 == x;
  }

  lemma SampleSumsUp(t: Totals, b: seq<Sample>, p: Sample)
    requires SumsUp(t, b)
    ensures SumsUp(AddSample(t, p), b + [p])
  {
    SumsOneMore(T4s(b), p.t4);
    SumsOneMore(Dts(b), p.t4 - p.t11);
    assert T4s(b + [p]) == T4s(b) + [p.t4] && Dts(b + [p]) == Dts(b) + [p.t4 - p.t11];
  }

  lemma {:induction false} TotalsSumUp(window: seq<Sample>, bgMaxT4: real)
    ensures SumsUp(TotalsOf(window, bgMaxT4), Filtered(window, bgMaxT4))
    decreases |window|
  {
    if window != [] {
      var front, p := window[..|window| - 1], window[|window| - 1];
      TotalsSumUp(front, bgMaxT4);
      if IsBackground(p, bgMaxT4) {
        SampleSumsUp(TotalsOf(front, bgMaxT4), Filtered(front, bgMaxT4), p);
      } else {
        assert Filtered(window, bgMaxT4) == Filtered(front, bgMaxT4);
      }
    }
  }

  /** Mean and deviation as the source computes them, from the sums. */
  lemma StatisticsFromSums(xs: seq<real>, n: real, sum: real, squares: real, sqrt: real -> real)
    requires xs != [] && n == |xs| as real && sum == Stats.Sum(xs) && squares == Stats.Sum(Stats.Squares(xs, 0.0))
    ensures sum / n == Stats.Average(xs)
    ensures sqrt(RealMax(squares / n - Square(sum / n), 0.0)) == Stats.Spread(xs, sqrt)
  {
    Stats.VarianceFromSums(xs);
    Stats.VarianceNotNegative(xs);
  }

  lemma SummaryDescribes(t: Totals, b: seq<Sample>, sqrt: real -> real)
    requires SumsUp(t, b)
    ensures DescribesBackground(Summarise(t, sqrt), b, sqrt)
  {
    if b != [] {
      StatisticsFromSums(T4s(b), t.n as real, t.sumT4, t.sumT4Sq, sqrt);
      StatisticsFromSums(Dts(b), t.n as real, t.sumDt, t.sumDtSq, sqrt);
    }
  }

  // Which places the window visits.

  /** The places visited before (`x`, `y`). */
  ghost function VisitedPlaces(w: Rect, cx: nat, cy: nat, x: nat, y: nat): seq<Place>
    requires w.x0 <= x <= w.x1 && w.y0 <= y <= w.y1
    decreases y, x
  {
    if x > w.x0 then VisitedPlaces(w, cx, cy, x - 1, y) + if x - 1 == cx && y == cy then [] else [(x - 1, y)]
    else if y > w.y0 then VisitedPlaces(w, cx, cy, w.x1, y - 1)
    else []
  }

  lemma {:induction false} VisitedAreVisited(s: Scene, w: Rect, cx: nat, cy: nat, x: nat, y: nat)
    requires s.Valid() && w.x0 <= x <= w.x1 && w.y0 <= y <= w.y1
    ensures Visited(LookAt(s), w, cx, cy, x, y) == Lists.Pointwise(SampleOf(s), VisitedPlaces(w, cx, cy, x, y))
    decreases y, x
  {
    if x > w.x0 {
      VisitedAreVisited(s, w, cx, cy, x - 1, y);
    } else if y > w.y0 {
      VisitedAreVisited(s, w, cx, cy, w.x1, y - 1);
    }
  }

  /** Place (`px`, `py`) of the rectangle is visited before (`x`, `y`). */
  ghost predicate Before(w: Rect, cx: nat, cy: nat, x: nat, y: nat, px: nat, py: nat) {
    && w.x0 <= px < w.x1 && w.y0 <= py < w.y1 && (px != cx || py != cy)
    && (py < y || (py == y && px < x))
  }

  lemma {:induction false} VisitedOnce(w: Rect, cx: nat, cy: nat, x: nat, y: nat)
    requires w.x0 <= x <= w.x1 && w.y0 <= y <= w.y1 && (y == w.y1 ==> x == w.x0)
    ensures var places := VisitedPlaces(w, cx, cy, x, y);
      && (forall px: nat, py: nat :: (px, py) in places <==> Before(w, cx, cy, x, y, px, py))
      && (forall i, j :: 0 <= i < j < |places| ==> places[i] != places[j])
    decreases y, x
  {
    if x > w.x0 {
      VisitedOnce(w, cx, cy, x - 1, y);
      var front := VisitedPlaces(w, cx, cy, x - 1, y);
      assert (x - 1, y) !in front;
    } else if y > w.y0 {
      VisitedOnce(w, cx, cy, w.x1, y - 1);
    }
  }

  /** The window visits the surrounding pixels, each once. */
  lemma WindowSurrounds(s: Scene, cx: nat, cy: nat, r: nat) returns (places: seq<Place>)
    requires s.Valid() && cx < s.width && cy < s.height
    ensures Surrounds(places, s.width, s.height, cx, cy, r)
    ensures Window(s, cx, cy, r) == Lists.Pointwise(SampleOf(s), places)
  {
    var w := WindowRect(s.width, s.height, cx, cy, r);
    places := VisitedPlaces(w, cx, cy, w.x0, w.y1);
    VisitedOnce(w, cx, cy, w.x0, w.y1);
    VisitedAreVisited(s, w, cx, cy, w.x0, w.y1);
  }

  lemma {:induction false} DistinctOnce<T>(list: seq<T>, p: T)
    requires forall i, j :: 0 <= i < j < |list| ==> list[i] != list[j]
    ensures multiset(list)[p] == if p in list then 1 else 0
    decreases |list|
  {
    if list != [] {
      var n := |list| - 1;
      DistinctOnce(list[..n], p);
      assert list == list[..n] + [list[n]];
    }
  }

  /** Two lists of the surrounding pixels differ in their order alone. */
  lemma SurroundingsRearrange(a: seq<Place>, b: seq<Place>, width: nat, height: nat, cx: nat, cy: nat, r: nat)
    requires Surrounds(a, width, height, cx, cy, r) && Surrounds(b, width, height, cx, cy, r)
    ensures multiset(a) == multiset(b)
  {
    forall p: Place ensures multiset(a)[p] == multiset(b)[p] {
      DistinctOnce(a, p);
      DistinctOnce(b, p);
      assert (p.0, p.1) in a <==> (p.0, p.1) in b;
    }
  }

  lemma {:induction false} FilteredCount(samples: seq<Sample>, bgMaxT4: real, p: Sample)
    ensures multiset(Filtered(samples, bgMaxT4))[p] == if 0.0 < p.t4 <= bgMaxT4 then multiset(samples)[p] else 0
    decreases |samples|
  {
    if samples != [] {
      var n := |samples| - 1;
      FilteredCount(samples[..n], bgMaxT4, p);
      assert samples == samples[..n] + [samples[n]];
    }
  }

  lemma FilteredRearranges(s: seq<Sample>, t: seq<Sample>, bgMaxT4: real)
    requires multiset(s) == multiset(t)
    ensures multiset(Filtered(s, bgMaxT4)) == multiset(Filtered(t, bgMaxT4))
  {
    forall p: Sample ensures multiset(Filtered(s, bgMaxT4))[p] == multiset(Filtered(t, bgMaxT4))[p] {
      FilteredCount(s, bgMaxT4, p);
      FilteredCount(t, bgMaxT4, p);
    }
  }

  lemma DescriptionRearranges(bg: Background, b: seq<Sample>, b': seq<Sample>, sqrt: real -> real)
    requires multiset(b) == multiset(b') && DescribesBackground(bg, b, sqrt)
    ensures DescribesBackground(bg, b', sqrt)
  {
    assert |b| == |multiset(b)| == |multiset(b')| == |b'|;
    Lists.PointwiseRearranges((p: Sample) => p.t4, b, b');
    Lists.PointwiseRearranges((p: Sample) => p.t4 - p.t11, b, b');
    Stats.StatisticsRearrange(T4s(b), T4s(b'), sqrt);
    Stats.StatisticsRearrange(Dts(b), Dts(b'), sqrt);
  }

  /** The statistics of a window describe the background among the surrounding pixels, in whatever
      order these are listed. */
  lemma BackgroundIsStatistics(s: Scene, cx: nat, cy: nat, r: nat, bgMaxT4: real, sqrt: real -> real,
                               places: seq<Place>)
    requires s.Valid() && cx < s.width && cy < s.height && Surrounds(places, s.width, s.height, cx, cy, r)
    ensures DescribesBackground(Summarise(TotalsOf(Window(s, cx, cy, r), bgMaxT4), sqrt),
                                BackgroundAt(s, places, bgMaxT4), sqrt)
  {
    var window := Window(s, cx, cy, r);
    var visited := WindowSurrounds(s, cx, cy, r);
    TotalsSumUp(window, bgMaxT4);
    SummaryDescribes(TotalsOf(window, bgMaxT4), Filtered(window, bgMaxT4), sqrt);
    SurroundingsRearrange(visited, places, s.width, s.height, cx, cy, r);
    Lists.PointwiseRearranges(SampleOf(s), visited, places);
    FilteredRearranges(window, Lists.Pointwise(SampleOf(s), places), bgMaxT4);
    DescriptionRearranges(Summarise(TotalsOf(window, bgMaxT4), sqrt), Filtered(window, bgMaxT4),
                          BackgroundAt(s, places, bgMaxT4), sqrt);
  }

  /** `bg` describes the background among the pixels that surround (`cx`, `cy`). */
  ghost predicate DescribesSurroundings(bg: Background, s: Scene, cx: nat, cy: nat, th: Thresholds, sqrt: real -> real)
    requires s.Valid()
  {
    forall places :: Surrounds(places, s.width, s.height, cx, cy, th.bgRadius) ==>
      DescribesBackground(bg, BackgroundAt(s, places, th.bgMaxT4), sqrt)
  }

  lemma SummaryDescribesSurroundings(s: Scene, cx: nat, cy: nat, th: Thresholds, sqrt: real -> real)
    requires s.Valid() && cx < s.width && cy < s.height
    ensures DescribesSurroundings(Summarise(TotalsOf(Window(s, cx, cy, th.bgRadius), th.bgMaxT4), sqrt),
                                  s, cx, cy, th, sqrt)
  {
    forall places | Surrounds(places, s.width, s.height, cx, cy, th.bgRadius)
      ensures DescribesBackground(Summarise(TotalsOf(Window(s, cx, cy, th.bgRadius), th.bgMaxT4), sqrt),
                                  BackgroundAt(s, places, th.bgMaxT4), sqrt)
    {
      BackgroundIsStatistics(s, cx, cy, th.bgRadius, th.bgMaxT4, sqrt, places);
    }
  }

  /** The background of a pixel: the statistics of the samples its clipped window visits. */
  method ComputeBackground(s: Scene, cx: nat, cy: nat, th: Thresholds, sqrt: real -> real) returns (bg: Background)
    requires s.Valid() && cx < s.width && cy < s.height
    ensures bg == Summarise(TotalsOf(Window(s, cx, cy, th.bgRadius), th.bgMaxT4), sqrt)
    ensures DescribesSurroundings(bg, s, cx, cy, th, sqrt)
  {
    var r := th.bgRadius;
    var y0 := SaturatingSub(cy, r);
    var y1 := Min(cy + r + 1, s.height);
    var x0 := SaturatingSub(cx, r);
    var x1 := Min(cx + r + 1, s.width);
    var t := SumWindow(s, Rect(x0, x1, y0, y1), cx, cy, th.bgMaxT4, AddSample, NOTHING);
    bg := Summarise(t, sqrt);
    SummaryDescribesSurroundings(s, cx, cy, th, sqrt);
  }
}
