/** Contextual fire detection, and when cutting the frame into tiles leaves it unchanged.

    What a pixel is compared with is the sequence of samples its window visits, so the tiling
    theorem is about that sequence. */
module Thermal {
  import opened Reals
  import opened Words
  import opened RowMajor
  import opened Tiling
  import opened Windows

  /** What is reported about a fire pixel, apart from where it is. */
  datatype Reading = Reading(t4: real, t11: real, dt4: real, dt4T11: real, frp: real, confidence: real)

  // ----- The per-pixel test ----------------------------------------------------------------

  function EstimateFrp(t4Fire: real, t4Bg: real): real {
    var dt := t4Fire - t4Bg;
    RealMax(Square(dt) * 0.000001, 0.0)
  }

  /** The verdict on a pixel, from its own sample and its background. */
  function JudgeAgainst(p: Sample, bg: Background, th: Thresholds): Option<Reading> {
    var dt := p.t4 - p.t11;
    if p.t4 < th.t4Abs || dt < th.t4T11Abs then None
    else
      var frp := EstimateFrp(p.t4, bg.meanT4);
      if bg.count >= th.minBgCount then
        var dt4, dt4T11 := p.t4 - bg.meanT4, dt - bg.meanDt;
        if dt4 > RealMax(th.dt4Threshold, 3.0 * bg.stdT4) && dt4T11 > RealMax(th.dt4T11Threshold, 3.0 * bg.stdDt) then
          Some(Reading(p.t4, p.t11, dt4, dt4T11, frp, (RealMin(dt4 / 50.0, 1.0) + RealMin(dt4T11 / 30.0, 1.0)) / 2.0))
        else None
      else Some(Reading(p.t4, p.t11, p.t4 - th.t4Abs, dt, frp, 0.3))
  }

  /** The same from the sums over its background. */
  function Judge(p: Sample, totals: Totals, th: Thresholds, sqrt: real -> real): Option<Reading> {
    JudgeAgainst(p, Summarise(totals, sqrt), th)
  }

  /** Any test of a pixel against the samples of its window, in the order they are visited. */
  type Detector = (Sample, seq<Sample>) -> Option<Reading>

  function FireTest(th: Thresholds, sqrt: real -> real): Detector {
    (p: Sample, window: seq<Sample>) => Judge(p, TotalsOf(window, th.bgMaxT4), th, sqrt)
  }

  /** A detector with windows of radius `r`, at one pixel of a scene. */
  function Verdict(s: Scene, r: nat, d: Detector, x: nat, y: nat): Option<Reading>
    requires s.Valid() && x < s.width && y < s.height
  {
    d(s.At(x, y), Window(s, x, y, r))
  }

  // ----- Tiles of a scene ------------------------------------------------------------------

  ghost predicate TileInScene(s: Scene, t: OverlapTile) {
    s.Valid() && s.width > 0 && t.x + t.width <= s.width && t.y + t.height <= s.height
  }

  lemma RegionFits(s: Scene, t: OverlapTile)
    requires TileInScene(s, t)
    ensures Fits(Region(t), s.width, Area(s.height, s.width))
  {
    AreaMonotone(t.y + t.height, s.height, s.width);
  }

  /** The tile's own pixels, as the receiving node sees them. */
  function TileScene(s: Scene, t: OverlapTile): (tile: Scene)
    requires TileInScene(s, t)
    ensures tile.Valid() && tile.width == t.width && tile.height == t.height
  {
    RegionFits(s, t);
    Scene(Extracted(s.t4, s.width, Region(t)), Extracted(s.t11, s.width, Region(t)), t.width, t.height)
  }

  lemma TileSceneAt(s: Scene, t: OverlapTile, x: nat, y: nat)
    requires TileInScene(s, t) && x < t.width && y < t.height
    ensures TileScene(s, t).At(x, y) == s.At(t.x + x, t.y + y)
  {
    RegionFits(s, t);
    var k := Area(y, t.width) + x;
    CellInRange(y, x, t.height, t.width);
    CellAt(y, x, t.width);
    assert SourceIndex(Region(t), s.width, Area(s.height, s.width), k) == Area(t.y + y, s.width) + (t.x + x);
    CellInRange(t.y + y, t.x + x, s.height, s.width);
  }

  function Shift(w: Rect, t: OverlapTile): Rect {
    Rect(w.x0 + t.x, w.x1 + t.x, w.y0 + t.y, w.y1 + t.y)
  }

  /** Looking at the same samples, the same rectangle visits the same sequence. */
  lemma {:induction false} VisitedShifts(look: Look, look': Look, t: OverlapTile, w: Rect, cx: nat, cy: nat, x: nat,
                                         y: nat)
    requires w.x0 <= x <= w.x1 && w.y0 <= y <= w.y1 && (y == w.y1 ==> x == w.x0)
    requires forall x: nat, y: nat :: x < w.x1 && y < w.y1 ==> look(x, y) == look'(t.x + x, t.y + y)
    ensures Visited(look, w, cx, cy, x, y) == Visited(look', Shift(w, t), t.x + cx, t.y + cy, t.x + x, t.y + y)
    decreases y, x
  {
    if x > w.x0 {
      VisitedShifts(look, look', t, w, cx, cy, x - 1, y);
    } else if y > w.y0 {
      VisitedShifts(look, look', t, w, cx, cy, w.x1, y - 1);
    }
  }

  /** `tile` shows the part of `s` that `t` covers. */
  ghost predicate Shows(s: Scene, t: OverlapTile, tile: Scene) {
    && TileInScene(s, t) && tile.Valid() && tile.width == t.width && tile.height == t.height
    && forall x: nat, y: nat :: x < t.width && y < t.height ==> LookAt(tile)(x, y) == LookAt(s)(t.x + x, t.y + y)
  }

  lemma TileSceneShows(s: Scene, t: OverlapTile)
    requires TileInScene(s, t)
    ensures Shows(s, t, TileScene(s, t))
  {
    var tile := TileScene(s, t);
    forall x: nat, y: nat | x < t.width && y < t.height ensures LookAt(tile)(x, y) == LookAt(s)(t.x + x, t.y + y) {
      TileSceneLooks(s, t, tile, x, y);
    }
  }

  lemma TileSceneLooks(s: Scene, t: OverlapTile, tile: Scene, x: nat, y: nat)
    requires TileInScene(s, t) && tile == TileScene(s, t) && x < t.width && y < t.height
    ensures LookAt(tile)(x, y) == LookAt(s)(t.x + x, t.y + y)
  {
    TileSceneAt(s, t, x, y);
    LooksAt(tile, x, y);
    LooksAt(s, t.x + x, t.y + y);
  }

  lemma LooksAt(s: Scene, x: nat, y: nat)
    requires s.Valid() && x < s.width && y < s.height
    ensures LookAt(s)(x, y) == s.At(x, y)
  {
  }

  /** Inside the tile, a rectangle visits what the frame visits in the same place. */
  lemma TileVisits(s: Scene, t: OverlapTile, tile: Scene, w: Rect, cx: nat, cy: nat)
    requires Shows(s, t, tile) && w.x0 <= w.x1 <= t.width && w.y0 <= w.y1 <= t.height
    ensures Visited(LookAt(tile), w, cx, cy, w.x0, w.y1)
            == Visited(LookAt(s), Shift(w, t), t.x + cx, t.y + cy, t.x + w.x0, t.y + w.y1)
  {
    VisitedShifts(LookAt(tile), LookAt(s), t, w, cx, cy, w.x0, w.y1);
  }

  /** The rectangle, in frame coordinates, that the tile searches around its pixel (`cx`, `cy`). */
  function TileRect(t: OverlapTile, cx: nat, cy: nat, r: nat): Rect
    requires cx < t.width && cy < t.height
  {
    Shift(WindowRect(t.width, t.height, cx, cy, r), t)
  }

  lemma TileWindow(s: Scene, t: OverlapTile, tile: Scene, cx: nat, cy: nat, r: nat)
    requires Shows(s, t, tile) && cx < t.width && cy < t.height
    ensures var w := TileRect(t, cx, cy, r);
            Window(tile, cx, cy, r) == Visited(LookAt(s), w, t.x + cx, t.y + cy, w.x0, w.y1)
  {
    TileVisits(s, t, tile, WindowRect(t.width, t.height, cx, cy, r), cx, cy);
  }

  lemma TilePixel(s: Scene, t: OverlapTile, tile: Scene, cx: nat, cy: nat)
    requires Shows(s, t, tile) && cx < t.width && cy < t.height
    ensures tile.At(cx, cy) == s.At(t.x + cx, t.y + cy)
  {
    assert LookAt(tile)(cx, cy) == LookAt(s)(t.x + cx, t.y + cy);
  }

  /** The tile sees the same window as the frame around its pixel (`cx`, `cy`). */
  ghost predicate SameWindow(t: OverlapTile, w: nat, h: nat, r: nat, cx: nat, cy: nat)
    requires t.x + t.width <= w && t.y + t.height <= h && cx < t.width && cy < t.height
  {
    WindowRect(w, h, t.x + cx, t.y + cy, r) == TileRect(t, cx, cy, r)
  }

  lemma SameWindowSameVerdict(s: Scene, t: OverlapTile, tile: Scene, r: nat, d: Detector, cx: nat, cy: nat)
    requires Shows(s, t, tile) && cx < t.width && cy < t.height
    requires SameWindow(t, s.width, s.height, r, cx, cy)
    ensures Verdict(tile, r, d, cx, cy) == Verdict(s, r, d, t.x + cx, t.y + cy)
  {
    TileWindow(s, t, tile, cx, cy, r);
    TilePixel(s, t, tile, cx, cy);
  }

  // ----- Exactly when the windows agree ----------------------------------------------------

  /** The tile keeps every window of its inner pixels: enough overlap, or nothing was cut off. */
  predicate BorderSuffices(g: Grid, t: OverlapTile, r: nat) {
    || r <= g.ov
    || (t.x == 0 && t.x + t.width == g.w && t.y == 0 && t.y + t.height == g.h)
  }

  /** Tile pixel (`cx`, `cy`) belongs to the inner region. */
  predicate IsInner(t: OverlapTile, cx: nat, cy: nat) {
    t.innerX <= cx < t.innerX + t.innerW && t.innerY <= cy < t.innerY + t.innerH
  }

  lemma BorderKeepsWindow(g: Grid, t: OverlapTile, r: nat, cx: nat, cy: nat)
    requires WellCut(g, t) && IsInner(t, cx, cy) && BorderSuffices(g, t, r)
    ensures SameWindow(t, g.w, g.h, r, cx, cy)
  {
  }

  /** With too little overlap, a tile that was cut sees less around one of its own corners. */
  lemma CutTileLosesWindow(g: Grid, t: OverlapTile, r: nat) returns (cx: nat, cy: nat)
    requires WellCut(g, t) && !BorderSuffices(g, t, r)
    ensures IsInner(t, cx, cy)
    ensures var f, w := WindowRect(g.w, g.h, t.x + cx, t.y + cy, r), TileRect(t, cx, cy, r);
            f != w && f.x0 <= w.x0 && w.x1 <= f.x1 && f.y0 <= w.y0 && w.y1 <= f.y1
  {
    cx := if t.x > 0 then t.innerX else t.innerX + t.innerW - 1;
    cy := if t.y > 0 then t.innerY else t.innerY + t.innerH - 1;
  }

  /** A position of the larger rectangle that the smaller one leaves out. */
  lemma LostPosition(f: Rect, w: Rect, px: nat, py: nat) returns (qx: nat, qy: nat)
    requires f.x0 <= w.x0 <= px < w.x1 <= f.x1 && f.y0 <= w.y0 <= py < w.y1 <= f.y1 && f != w
    ensures f.x0 <= qx < f.x1 && f.y0 <= qy < f.y1
    ensures !(w.x0 <= qx < w.x1 && w.y0 <= qy < w.y1)
  {
    if f.x0 < w.x0 {
      qx, qy := f.x0, py;
    } else if w.x1 < f.x1 {
      qx, qy := w.x1, py;
    } else if f.y0 < w.y0 {
      qx, qy := px, f.y0;
    } else {
      qx, qy := px, w.y1;
    }
  }

  // ----- Tile and frame agree --------------------------------------------------------------

  /** The scene is a frame of the grid's size. */
  ghost predicate FrameOf(g: Grid, s: Scene) {
    s.Valid() && s.width == g.w && s.height == g.h
  }

  /** The tile gives the same verdict on its pixel (`cx`, `cy`) as the frame does there. */
  ghost predicate SameVerdict(t: OverlapTile, s: Scene, r: nat, d: Detector, cx: nat, cy: nat)
    requires TileInScene(s, t) && cx < t.width && cy < t.height
  {
    Verdict(TileScene(s, t), r, d, cx, cy) == Verdict(s, r, d, t.x + cx, t.y + cy)
  }

  /** Tiling preserves detection: a pixel is a hotspot of the frame, with the same fields, just
      when it is one of the tile responsible for it. */
  lemma TilingPreservesVerdict(g: Grid, t: OverlapTile, s: Scene, r: nat, d: Detector, cx: nat, cy: nat)
    requires WellCut(g, t) && FrameOf(g, s) && IsInner(t, cx, cy) && BorderSuffices(g, t, r)
    ensures SameVerdict(t, s, r, d, cx, cy)
  {
    BorderKeepsWindow(g, t, r, cx, cy);
    TileSceneShows(s, t);
    SameWindowSameVerdict(s, t, TileScene(s, t), r, d, cx, cy);
  }

  /** When no positive temperature counts as background, no window ever contributes. */
  lemma {:induction false} NoBackground<T>(add: (T, Sample) -> T, zero: T, window: seq<Sample>, bgMaxT4: real)
    requires bgMaxT4 <= 0.0
    ensures Folded(add, zero, window, bgMaxT4) == zero
    decreases |window|
  {
    if window != [] { NoBackground(add, zero, window[..|window| - 1], bgMaxT4); }
  }

  lemma NoBackgroundSameVerdict(g: Grid, t: OverlapTile, s: Scene, th: Thresholds, sqrt: real -> real, cx: nat, cy: nat)
    requires WellCut(g, t) && FrameOf(g, s) && IsInner(t, cx, cy) && th.bgMaxT4 <= 0.0
    ensures SameVerdict(t, s, th.bgRadius, FireTest(th, sqrt), cx, cy)
  {
    TileSceneShows(s, t);
    NoBackgroundShown(s, t, TileScene(s, t), th, sqrt, cx, cy);
  }

  lemma NoBackgroundShown(s: Scene, t: OverlapTile, tile: Scene, th: Thresholds, sqrt: real -> real, cx: nat, cy: nat)
    requires Shows(s, t, tile) && cx < t.width && cy < t.height && th.bgMaxT4 <= 0.0
    ensures Verdict(tile, th.bgRadius, FireTest(th, sqrt), cx, cy)
         == Verdict(s, th.bgRadius, FireTest(th, sqrt), t.x + cx, t.y + cy)
  {
    TilePixel(s, t, tile, cx, cy);
    NoBackground(AddSample, NOTHING, Window(tile, cx, cy, th.bgRadius), th.bgMaxT4);
    NoBackground(AddSample, NOTHING, Window(s, t.x + cx, t.y + cy, th.bgRadius), th.bgMaxT4);
    EqualTotalsEqualVerdicts(tile, s, th, sqrt, cx, cy, t.x + cx, t.y + cy);
  }

  lemma EqualTotalsEqualVerdicts(a: Scene, b: Scene, th: Thresholds, sqrt: real -> real, x: nat, y: nat, x': nat,
                                 y': nat)
    requires a.Valid() && b.Valid() && x < a.width && y < a.height && x' < b.width && y' < b.height
    requires a.At(x, y) == b.At(x', y')
    requires TotalsOf(Window(a, x, y, th.bgRadius), th.bgMaxT4) == TotalsOf(Window(b, x', y', th.bgRadius), th.bgMaxT4)
    ensures Verdict(a, th.bgRadius, FireTest(th, sqrt), x, y) == Verdict(b, th.bgRadius, FireTest(th, sqrt), x', y')
  {
    VerdictIs(a, th, sqrt, x, y);
    VerdictIs(b, th, sqrt, x', y');
  }

  /** The verdict depends on the window through its sums alone. */
  lemma VerdictIs(s: Scene, th: Thresholds, sqrt: real -> real, x: nat, y: nat)
    requires s.Valid() && x < s.width && y < s.height
    ensures Verdict(s, th.bgRadius, FireTest(th, sqrt), x, y)
         == Judge(s.At(x, y), TotalsOf(Window(s, x, y, th.bgRadius), th.bgMaxT4), th, sqrt)
  {
  }

  // ----- Scenes made to order --------------------------------------------------------------

  /** The frame with the given samples. */
  ghost function Painted(w: nat, h: nat, look: Look): (s: Scene)
    requires w > 0
    ensures s.Valid() && s.width == w && s.height == h
  {
    var n := Area(h, w);
    Scene(seq(n, k requires 0 <= k < n => look(ColOf(k, w), RowOf(k, w)).t4),
          seq(n, k requires 0 <= k < n => look(ColOf(k, w), RowOf(k, w)).t11), w, h)
  }

  lemma PaintedAt(w: nat, h: nat, look: Look, x: nat, y: nat)
    requires x < w && y < h
    ensures Painted(w, h, look).At(x, y) == look(x, y)
  {
    CellInRange(y, x, h, w);
    CellAt(y, x, w);
  }

  const DARK := Sample(0.0, 0.0)

  /** A hot pixel, a cool one, and darkness. */
  function SpotAt(px: nat, py: nat, hot: Sample, qx: nat, qy: nat, cool: Sample, x: nat, y: nat): Sample {
    if x == px && y == py then hot else if x == qx && y == qy then cool else DARK
  }

  ghost function Spots(px: nat, py: nat, hot: Sample, qx: nat, qy: nat, cool: Sample): Look {
    (x: nat, y: nat) => SpotAt(px, py, hot, qx, qy, cool, x, y)
  }

  /** A scene in which only the sample at (`qx`, `qy`) is background to the pixel (`px`, `py`). */
  ghost predicate OnlyBackground(look: Look, w: Rect, px: nat, py: nat, qx: nat, qy: nat, cool: Sample, bgMaxT4: real) {
    && (qx != px || qy != py) && IsBackground(cool, bgMaxT4)
    && forall x: nat, y: nat :: x < w.x1 && y < w.y1 && (x != px || y != py) ==>
        if x == qx && y == qy then look(x, y) == cool else !IsBackground(look(x, y), bgMaxT4)
  }

  /** The row of the one sample. */
  lemma {:induction false} OneSampleRow<T(!new)>(values: nat -> T, add: (T, Sample) -> T, look: Look, w: Rect,
                                                 px: nat, py: nat, qx: nat, qy: nat, cool: Sample, bgMaxT4: real,
                                                 x: nat)
    requires w.x0 <= x <= w.x1 && qy < w.y1 && OnlyBackground(look, w, px, py, qx, qy, cool, bgMaxT4)
    requires RunsAlong(values, add, look, w, px, py, bgMaxT4, qy)
    ensures values(x) == if w.x0 <= qx < x then add(values(w.x0), cool) else values(w.x0)
    decreases x
  {
    if x > w.x0 {
      OneSampleRow(values, add, look, w, px, py, qx, qy, cool, bgMaxT4, x - 1);
      assert values(x - 1 + 1) == values(x);
    }
  }

  lemma OneSampleNextRow<T(!new)>(values: nat -> T, add: (T, Sample) -> T, look: Look, w: Rect, px: nat, py: nat,
                                  qx: nat, qy: nat, cool: Sample, bgMaxT4: real, y: nat)
    requires w.x0 <= w.x1 && y < w.y1 && OnlyBackground(look, w, px, py, qx, qy, cool, bgMaxT4)
    requires RunsAlong(values, add, look, w, px, py, bgMaxT4, y)
    ensures values(w.x1) == if y == qy && w.x0 <= qx < w.x1 then add(values(w.x0), cool) else values(w.x0)
  {
    if y == qy {
      OneSampleRow(values, add, look, w, px, py, qx, qy, cool, bgMaxT4, w.x1);
    } else {
      EmptyRow(values, add, look, w, px, py, bgMaxT4, y, w.x1);
    }
  }

  /** Around the pixel the window adds up nothing, or the one sample if it reaches it. */
  lemma {:induction false} OneSampleFolded<T(!new)>(add: (T, Sample) -> T, zero: T, look: Look, w: Rect,
                                                    px: nat, py: nat, qx: nat, qy: nat, cool: Sample,
                                                    bgMaxT4: real, y: nat)
    requires w.x0 <= w.x1 && w.y0 <= y <= w.y1 && OnlyBackground(look, w, px, py, qx, qy, cool, bgMaxT4)
    ensures FoldedTo(add, zero, look, w, px, py, bgMaxT4, w.x0, y)
         == if w.x0 <= qx < w.x1 && w.y0 <= qy < y then add(zero, cool) else zero
    decreases y
  {
    if y > w.y0 {
      OneSampleFolded(add, zero, look, w, px, py, qx, qy, cool, bgMaxT4, y - 1);
      OneSampleRowFold(add, zero, look, w, px, py, qx, qy, cool, bgMaxT4, y - 1);
    }
  }

  lemma OneSampleRowFold<T(!new)>(add: (T, Sample) -> T, zero: T, look: Look, w: Rect, px: nat, py: nat,
                                  qx: nat, qy: nat, cool: Sample, bgMaxT4: real, y: nat)
    requires w.x0 <= w.x1 && w.y0 <= y < w.y1 && OnlyBackground(look, w, px, py, qx, qy, cool, bgMaxT4)
    ensures var t := FoldedTo(add, zero, look, w, px, py, bgMaxT4, w.x0, y);
      FoldedTo(add, zero, look, w, px, py, bgMaxT4, w.x0, y + 1)
      == if y == qy && w.x0 <= qx < w.x1 then add(t, cool) else t
  {
    RowFoldRuns(add, zero, look, w, px, py, bgMaxT4, y);
    OneSampleNextRow(RowFold(add, zero, look, w, px, py, bgMaxT4, y), add, look, w, px, py, qx, qy, cool, bgMaxT4, y);
  }

  /** Hot enough to pass every threshold over a background of at most `b`. */
  function Blaze(th: Thresholds, b: real, sd: real): Sample {
    Sample(1.0 + b + Abs(th.t4Abs) + Abs(th.dt4Threshold) + Abs(th.dt4T11Threshold)
           + Abs(th.t4T11Abs) + 3.0 * Abs(sd), 0.0)
  }

  lemma BlazeAlone(th: Thresholds, b: real, sd: real, sqrt: real -> real)
    requires b >= 0.0
    ensures var p := Blaze(th, b, sd); var v := Judge(p, NOTHING, th, sqrt);
      v.Some? && v.value.t4 == p.t4 && v.value.frp == EstimateFrp(p.t4, 0.0)
  {
  }

  lemma OneSample(b: real, one: Totals, sqrt: real -> real)
    requires one == AddSample(NOTHING, Sample(b, b))
    ensures Summarise(one, sqrt) == Background(b, sqrt(0.0), 0.0, sqrt(0.0), 1)
  {
    assert one.sumT4 == b && one.sumT4Sq == Square(b) && one.sumDt == 0.0 && one.sumDtSq == Square(0.0);
    assert one.sumT4 / 1.0 == b && one.sumDt / 1.0 == 0.0;
  }

  lemma BlazeAndOne(th: Thresholds, b: real, one: Totals, sqrt: real -> real)
    requires b >= 0.0 && Summarise(one, sqrt) == Background(b, sqrt(0.0), 0.0, sqrt(0.0), 1)
    ensures var p := Blaze(th, b, sqrt(0.0)); var v := Judge(p, one, th, sqrt);
      v.Some? && v.value.t4 == p.t4 && v.value.frp == EstimateFrp(p.t4, b)
  {
  }

  lemma FrpDiffers(t4: real, b: real)
    requires t4 > b > 0.0
    ensures EstimateFrp(t4, 0.0) != EstimateFrp(t4, b)
  {
    assert t4 - 0.0 == t4;
    StrictlyLargerSquare(t4, t4 - b);
  }

  // ----- Exactly when a tile agrees with every frame ---------------------------------------

  /** The frame around pixel (`px`, `py`) sees `big`, the tile around (`cx`, `cy`) sees `small`,
      and both see `p` there. */
  ghost predicate SeesMore(t: OverlapTile, s: Scene, tile: Scene, th: Thresholds, cx: nat, cy: nat, p: Sample,
                           big: Totals, small: Totals)
    requires Shows(s, t, tile) && cx < t.width && cy < t.height
  {
    && s.At(t.x + cx, t.y + cy) == tile.At(cx, cy) == p
    && TotalsOf(Window(s, t.x + cx, t.y + cy, th.bgRadius), th.bgMaxT4) == big
    && TotalsOf(Window(tile, cx, cy, th.bgRadius), th.bgMaxT4) == small
  }

  lemma SpotScene(g: Grid, px: nat, py: nat, hot: Sample, qx: nat, qy: nat, cool: Sample) returns (s: Scene)
    requires px < g.w && py < g.h
    ensures FrameOf(g, s) && s.At(px, py) == hot
    ensures forall x: nat, y: nat :: x < g.w && y < g.h ==> LookAt(s)(x, y) == SpotAt(px, py, hot, qx, qy, cool, x, y)
  {
    var look := Spots(px, py, hot, qx, qy, cool);
    s := Painted(g.w, g.h, look);
    forall x: nat, y: nat | x < g.w && y < g.h
      ensures s.At(x, y) == SpotAt(px, py, hot, qx, qy, cool, x, y)
      ensures LookAt(s)(x, y) == SpotAt(px, py, hot, qx, qy, cool, x, y)
    {
      PaintedAt(g.w, g.h, look, x, y);
    }
  }

  lemma SpotIsOnlyBackground(s: Scene, w: Rect, px: nat, py: nat, hot: Sample, qx: nat, qy: nat, cool: Sample,
                             bgMaxT4: real)
    requires s.Valid() && w.x1 <= s.width && w.y1 <= s.height && (qx != px || qy != py) && IsBackground(cool, bgMaxT4)
    requires forall x: nat, y: nat :: x < s.width && y < s.height ==>
      LookAt(s)(x, y) == SpotAt(px, py, hot, qx, qy, cool, x, y)
    ensures OnlyBackground(LookAt(s), w, px, py, qx, qy, cool, bgMaxT4)
  {
  }

  /** The frame's window around the pixel reaches (`qx`, `qy`), the tile's does not. */
  ghost predicate Misses(g: Grid, t: OverlapTile, r: nat, cx: nat, cy: nat, qx: nat, qy: nat)
    requires WellCut(g, t) && cx < t.width && cy < t.height
  {
    var f, w := WindowRect(g.w, g.h, t.x + cx, t.y + cy, r), TileRect(t, cx, cy, r);
    && f.x0 <= qx < f.x1 && f.y0 <= qy < f.y1
    && !(w.x0 <= qx < w.x1 && w.y0 <= qy < w.y1)
  }

  lemma CutTileMisses(g: Grid, t: OverlapTile, r: nat) returns (cx: nat, cy: nat, qx: nat, qy: nat)
    requires WellCut(g, t) && !BorderSuffices(g, t, r)
    ensures IsInner(t, cx, cy) && Misses(g, t, r, cx, cy, qx, qy)
  {
    cx, cy := CutTileLosesWindow(g, t, r);
    qx, qy := LostPosition(WindowRect(g.w, g.h, t.x + cx, t.y + cy, r), TileRect(t, cx, cy, r), t.x + cx, t.y + cy);
  }

  lemma FrameSeesSpot(s: Scene, px: nat, py: nat, r: nat, hot: Sample, qx: nat, qy: nat, cool: Sample,
                      bgMaxT4: real, one: Totals)
    requires s.Valid() && px < s.width && py < s.height && (qx != px || qy != py)
    requires forall x: nat, y: nat :: x < s.width && y < s.height ==>
      LookAt(s)(x, y) == SpotAt(px, py, hot, qx, qy, cool, x, y)
    requires IsBackground(cool, bgMaxT4) && one == AddSample(NOTHING, cool)
    requires var f := WindowRect(s.width, s.height, px, py, r); f.x0 <= qx < f.x1 && f.y0 <= qy < f.y1
    ensures TotalsOf(Window(s, px, py, r), bgMaxT4) == one
  {
    var f := WindowRect(s.width, s.height, px, py, r);
    SpotIsOnlyBackground(s, f, px, py, hot, qx, qy, cool, bgMaxT4);
    OneSampleFolded(AddSample, NOTHING, LookAt(s), f, px, py, qx, qy, cool, bgMaxT4, f.y1);
  }

  lemma TileSeesNothing(s: Scene, t: OverlapTile, tile: Scene, cx: nat, cy: nat, r: nat, hot: Sample,
                        qx: nat, qy: nat, cool: Sample, bgMaxT4: real, one: Totals)
    requires Shows(s, t, tile) && cx < t.width && cy < t.height && (qx != t.x + cx || qy != t.y + cy)
    requires forall x: nat, y: nat :: x < s.width && y < s.height ==>
      LookAt(s)(x, y) == SpotAt(t.x + cx, t.y + cy, hot, qx, qy, cool, x, y)
    requires IsBackground(cool, bgMaxT4) && one == AddSample(NOTHING, cool)
    requires var w := TileRect(t, cx, cy, r); !(w.x0 <= qx < w.x1 && w.y0 <= qy < w.y1)
    ensures TotalsOf(Window(tile, cx, cy, r), bgMaxT4) == NOTHING
  {
    var w := TileRect(t, cx, cy, r);
    SpotIsOnlyBackground(s, w, t.x + cx, t.y + cy, hot, qx, qy, cool, bgMaxT4);
    OneSampleFolded(AddSample, NOTHING, LookAt(s), w, t.x + cx, t.y + cy, qx, qy, cool, bgMaxT4, w.y1);
    TileWindow(s, t, tile, cx, cy, r);
  }

  /** A frame in which the tile misses the only background sample of one of its inner pixels. */
  lemma CutTileSeesLess(g: Grid, t: OverlapTile, th: Thresholds, hot: Sample, cool: Sample, one: Totals)
      returns (s: Scene, cx: nat, cy: nat)
    requires WellCut(g, t) && !BorderSuffices(g, t, th.bgRadius)
    requires IsBackground(cool, th.bgMaxT4) && one == AddSample(NOTHING, cool)
    ensures FrameOf(g, s) && IsInner(t, cx, cy) && Shows(s, t, TileScene(s, t))
    ensures SeesMore(t, s, TileScene(s, t), th, cx, cy, hot, one, NOTHING)
  {
    var qx: nat, qy: nat;
    cx, cy, qx, qy := CutTileMisses(g, t, th.bgRadius);
    s := SpotScene(g, t.x + cx, t.y + cy, hot, qx, qy, cool);
    TileSceneShows(s, t);
    SpotSeenLess(s, t, TileScene(s, t), th, cx, cy, hot, qx, qy, cool, one);
  }

  lemma SpotSeenLess(s: Scene, t: OverlapTile, tile: Scene, th: Thresholds, cx: nat, cy: nat, hot: Sample,
                     qx: nat, qy: nat, cool: Sample, one: Totals)
    requires Shows(s, t, tile) && cx < t.width && cy < t.height && (qx != t.x + cx || qy != t.y + cy)
    requires s.At(t.x + cx, t.y + cy) == hot && IsBackground(cool, th.bgMaxT4) && one == AddSample(NOTHING, cool)
    requires forall x: nat, y: nat :: x < s.width && y < s.height ==>
      LookAt(s)(x, y) == SpotAt(t.x + cx, t.y + cy, hot, qx, qy, cool, x, y)
    requires var f := WindowRect(s.width, s.height, t.x + cx, t.y + cy, th.bgRadius);
      f.x0 <= qx < f.x1 && f.y0 <= qy < f.y1
    requires var w := TileRect(t, cx, cy, th.bgRadius); !(w.x0 <= qx < w.x1 && w.y0 <= qy < w.y1)
    ensures SeesMore(t, s, tile, th, cx, cy, hot, one, NOTHING)
  {
    TilePixel(s, t, tile, cx, cy);
    FrameSeesSpot(s, t.x + cx, t.y + cy, th.bgRadius, hot, qx, qy, cool, th.bgMaxT4, one);
    TileSeesNothing(s, t, tile, cx, cy, th.bgRadius, hot, qx, qy, cool, th.bgMaxT4, one);
  }

  /** And otherwise some frame tells them apart, whatever the thresholds, as long as anything can
      be background: both report the pixel, but not with the same fields. */
  lemma CutTileChangesVerdict(g: Grid, t: OverlapTile, th: Thresholds, sqrt: real -> real)
      returns (s: Scene, cx: nat, cy: nat, rd: Reading, rd': Reading)
    requires WellCut(g, t) && !BorderSuffices(g, t, th.bgRadius) && th.bgMaxT4 > 0.0
    ensures FrameOf(g, s) && IsInner(t, cx, cy) && TileInScene(s, t) && rd != rd'
    ensures Verdict(s, th.bgRadius, FireTest(th, sqrt), t.x + cx, t.y + cy) == Some(rd)
    ensures Verdict(TileScene(s, t), th.bgRadius, FireTest(th, sqrt), cx, cy) == Some(rd')
  {
    var b := th.bgMaxT4;
    var hot, one := Blaze(th, b, sqrt(0.0)), AddSample(NOTHING, Sample(b, b));
    OneSample(b, one, sqrt);
    BlazeAndOne(th, b, one, sqrt);
    BlazeAlone(th, b, sqrt(0.0), sqrt);
    FrpDiffers(hot.t4, b);
    s, cx, cy := CutTileSeesLess(g, t, th, hot, Sample(b, b), one);
    VerdictIs(s, th, sqrt, t.x + cx, t.y + cy);
    VerdictIs(TileScene(s, t), th, sqrt, cx, cy);
    rd, rd' := Judge(hot, one, th, sqrt).value, Judge(hot, NOTHING, th, sqrt).value;
  }

  /** Under these thresholds the tile agrees with every frame. */
  ghost predicate TileIsTransparent(g: Grid, t: OverlapTile, th: Thresholds, sqrt: real -> real)
    requires WellCut(g, t)
  {
    forall s: Scene, cx: nat, cy: nat ::
      FrameOf(g, s) && IsInner(t, cx, cy) ==> SameVerdict(t, s, th.bgRadius, FireTest(th, sqrt), cx, cy)
  }

  /** Enough border for the thresholds, or nothing that could count as background. */
  predicate BorderUnneeded(g: Grid, t: OverlapTile, th: Thresholds) {
    BorderSuffices(g, t, th.bgRadius) || th.bgMaxT4 <= 0.0
  }

  lemma UnneededBorderIsTransparent(g: Grid, t: OverlapTile, th: Thresholds, sqrt: real -> real)
    requires WellCut(g, t) && BorderUnneeded(g, t, th)
    ensures TileIsTransparent(g, t, th, sqrt)
  {
    forall s: Scene, cx: nat, cy: nat | FrameOf(g, s) && IsInner(t, cx, cy)
      ensures SameVerdict(t, s, th.bgRadius, FireTest(th, sqrt), cx, cy)
    {
      if BorderSuffices(g, t, th.bgRadius) {
        TilingPreservesVerdict(g, t, s, th.bgRadius, FireTest(th, sqrt), cx, cy);
      } else {
        NoBackgroundSameVerdict(g, t, s, th, sqrt, cx, cy);
      }
    }
  }

  lemma DifferentReadings(t: OverlapTile, s: Scene, r: nat, d: Detector, cx: nat, cy: nat, rd: Reading, rd': Reading)
    requires TileInScene(s, t) && cx < t.width && cy < t.height && rd != rd'
    requires Verdict(s, r, d, t.x + cx, t.y + cy) == Some(rd) && Verdict(TileScene(s, t), r, d, cx, cy) == Some(rd')
    ensures !SameVerdict(t, s, r, d, cx, cy)
  {
  }

  lemma CutTileIsNotTransparent(g: Grid, t: OverlapTile, th: Thresholds, sqrt: real -> real)
    requires WellCut(g, t) && !BorderUnneeded(g, t, th)
    ensures !TileIsTransparent(g, t, th, sqrt)
  {
    var s, cx, cy, rd, rd' := CutTileChangesVerdict(g, t, th, sqrt);
    DifferentReadings(t, s, th.bgRadius, FireTest(th, sqrt), cx, cy, rd, rd');
  }

  /** The exact condition, for every choice of thresholds: enough overlap, or a tile from which
      nothing was cut off, or no background at all. */
  lemma TransparentExactlyWhenBorderSuffices(g: Grid, t: OverlapTile, th: Thresholds, sqrt: real -> real)
    requires WellCut(g, t)
    ensures TileIsTransparent(g, t, th, sqrt) <==> BorderUnneeded(g, t, th)
  {
    if BorderUnneeded(g, t, th) {
      UnneededBorderIsTransparent(g, t, th, sqrt);
    } else {
      CutTileIsNotTransparent(g, t, th, sqrt);
    }
  }

  // ----- The wildfire application ----------------------------------------------------------

  /** The application's thresholds: the daytime ones with a higher absolute threshold. */
  const SHIPPED := Thresholds(330.0, 10.0, 6.0, 10.0, 8, 5, 325.0)

  /** A cold strip with one warm sample at column 35, and a fire at column 31. */
  function StripAt(x: nat, y: nat): Sample {
    if y != 0 then DARK
    else if x == 31 then Sample(340.0, 300.0)
    else if x == 35 then Sample(325.0, 325.0)
    else if 26 <= x < 35 then Sample(1.0, 1.0)
    else DARK
  }

  /** The sums over the strip from column 26 up to column `x`, without the fire. */
  function StripTotals(x: nat): Totals {
    var n := if x <= 31 then x - 26 else if x <= 35 then x - 27 else 8;
    if x < 26 then NOTHING
    else if x <= 35 then Totals(n as real, n as real, 0.0, 0.0, n)
    else Totals(333.0, 105633.0, 0.0, 0.0, 9)
  }

  lemma StripStep(x: nat)
    requires x >= 26
    ensures StripTotals(x + 1)
         == if x == 31 || !IsBackground(StripAt(x, 0), 325.0) then StripTotals(x)
            else AddSample(StripTotals(x), StripAt(x, 0))
  {
  }

  /** `sums` is the running value along the strip. */
  ghost predicate SumsStrip<T(!new)>(add: (T, Sample) -> T, zero: T, sums: nat -> T) {
    && sums(26) == zero
    && forall x: nat :: x >= 26 ==>
        sums(x + 1) == if x == 31 || !IsBackground(StripAt(x, 0), 325.0) then sums(x) else add(sums(x), StripAt(x, 0))
  }

  lemma {:induction false} StripRow<T(!new)>(values: nat -> T, sums: nat -> T, add: (T, Sample) -> T, zero: T,
                                             look: Look, w: Rect, x: nat)
    requires w.x0 == 26 <= x <= w.x1 && SumsStrip(add, zero, sums) && values(26) == zero
    requires forall x: nat :: x < w.x1 ==> look(x, 0) == StripAt(x, 0)
    requires RunsAlong(values, add, look, w, 31, 0, 325.0, 0)
    ensures values(x) == sums(x)
    decreases x
  {
    if x > 26 {
      StripRow(values, sums, add, zero, look, w, x - 1);
      assert values(x - 1 + 1) == sums(x - 1 + 1);
    }
  }

  lemma {:induction false} StripWindow<T(!new)>(add: (T, Sample) -> T, zero: T, sums: nat -> T, look: Look, w: Rect,
                                                y: nat)
    requires w.x0 == 26 <= w.x1 && w.y0 == 0 < y <= w.y1 && SumsStrip(add, zero, sums)
    requires forall x: nat, y: nat :: x < w.x1 && y < w.y1 ==> look(x, y) == StripAt(x, y)
    ensures FoldedTo(add, zero, look, w, 31, 0, 325.0, 26, y) == sums(w.x1)
    decreases y
  {
    var values := RowFold(add, zero, look, w, 31, 0, 325.0, y - 1);
    RowFoldRuns(add, zero, look, w, 31, 0, 325.0, y - 1);
    if y == 1 {
      StripRow(values, sums, add, zero, look, w, w.x1);
    } else {
      StripWindow(add, zero, sums, look, w, y - 1);
      EmptyRow(values, add, look, w, 31, 0, 325.0, y - 1, w.x1);
    }
  }

  lemma StripTotalsSum()
    ensures SumsStrip(AddSample, NOTHING, StripTotals)
  {
    forall x: nat | x >= 26 ensures StripTotals(x + 1)
      == if x == 31 || !IsBackground(StripAt(x, 0), 325.0) then StripTotals(x)
         else AddSample(StripTotals(x), StripAt(x, 0))
    {
      StripStep(x);
    }
  }

  lemma TileSeesFire(sqrt: real -> real)
    requires IsRoot(sqrt)
    ensures Judge(Sample(340.0, 300.0), StripTotals(35), SHIPPED, sqrt).Some?
  {
    assert Summarise(StripTotals(35), sqrt) == Background(1.0, 0.0, 0.0, 0.0, 8);
  }

  lemma FrameSeesNone(sqrt: real -> real)
    requires IsRoot(sqrt)
    ensures Judge(Sample(340.0, 300.0), StripTotals(36), SHIPPED, sqrt).None?
  {
    assert Summarise(StripTotals(36), sqrt) == Background(37.0, sqrt(10368.0), 0.0, 0.0, 9);
    RootAbove(sqrt(10368.0), 101.0);
  }

  lemma RootAbove(r: real, low: real)
    requires r >= 0.0 && 0.0 <= low && Square(low) < Square(r)
    ensures r > low
  {
    if r <= low { LargerSquare(low, r); }
  }

  lemma StripVerdicts(g: Grid, t: OverlapTile, s: Scene, sqrt: real -> real)
    requires WellCut(g, t) && FrameOf(g, s) && t.x == 0 && t.y == 0 && t.width == 35 && t.height > 0 && g.w > 35
    requires s.At(31, 0) == Sample(340.0, 300.0) && IsRoot(sqrt)
    requires forall x: nat, y: nat :: x < g.w && y < g.h ==> LookAt(s)(x, y) == StripAt(x, y)
    ensures Verdict(TileScene(s, t), SHIPPED.bgRadius, FireTest(SHIPPED, sqrt), 31, 0).Some?
    ensures Verdict(s, SHIPPED.bgRadius, FireTest(SHIPPED, sqrt), 31, 0).None?
  {
    TileSceneShows(s, t);
    TilePixel(s, t, TileScene(s, t), 31, 0);
    StripFrameWindow(s);
    StripTileWindow(s, t, TileScene(s, t));
    TileSeesFire(sqrt);
    FrameSeesNone(sqrt);
    VerdictIs(TileScene(s, t), SHIPPED, sqrt, 31, 0);
    VerdictIs(s, SHIPPED, sqrt, 31, 0);
  }

  lemma StripFrameWindow(s: Scene)
    requires s.Valid() && s.width > 35 && s.height > 0
    requires forall x: nat, y: nat :: x < s.width && y < s.height ==> LookAt(s)(x, y) == StripAt(x, y)
    ensures TotalsOf(Window(s, 31, 0, 5), 325.0) == StripTotals(36)
  {
    var f := WindowRect(s.width, s.height, 31, 0, 5);
    StripTotalsSum();
    StripWindow(AddSample, NOTHING, StripTotals, LookAt(s), f, f.y1);
    assert StripTotals(37) == StripTotals(36);
  }

  lemma StripTileWindow(s: Scene, t: OverlapTile, tile: Scene)
    requires Shows(s, t, tile) && t.x == 0 && t.y == 0 && t.width == 35 && t.height > 0
    requires forall x: nat, y: nat :: x < s.width && y < s.height ==> LookAt(s)(x, y) == StripAt(x, y)
    ensures TotalsOf(Window(tile, 31, 0, 5), 325.0) == StripTotals(35)
  {
    var v := TileRect(t, 31, 0, 5);
    StripTotalsSum();
    StripWindow(AddSample, NOTHING, StripTotals, LookAt(s), v, v.y1);
    TileWindow(s, t, tile, 31, 0, 5);
  }

  lemma StripScene(w: nat, h: nat) returns (s: Scene)
    requires w > 31 && h > 0
    ensures s.Valid() && s.width == w && s.height == h && s.At(31, 0) == Sample(340.0, 300.0)
    ensures forall x: nat, y: nat :: x < w && y < h ==> LookAt(s)(x, y) == StripAt(x, y)
  {
    s := Painted(w, h, StripAt);
    forall x: nat, y: nat | x < w && y < h ensures s.At(x, y) == StripAt(x, y) && LookAt(s)(x, y) == StripAt(x, y) {
      PaintedAt(w, h, StripAt, x, y);
    }
  }

  /** The first tile of a frame starts at its corner. */
  lemma FirstTile(g: Grid) returns (t: OverlapTile)
    requires g.Valid() && g.w > 0 && g.h > 0
    ensures 0 < |Layout(g)| && t == Layout(g)[0] && WellCut(g, t)
    ensures t.frameX == 0 && t.frameY == 0 && t.innerW == Min(g.ts, g.w) && t.innerH == Min(g.ts, g.h)
  {
    TileOfPixel(g.w, g.ts, 0);
    TileOfPixel(g.h, g.ts, 0);
    LayoutAt(g, 0, 0);
    TilesAreWellCut(g, 0);
    t := TileAt(g, 0, 0);
  }

  /** The application's 32-pixel tiles with overlap 3 against its windows of radius 5, at its own
      thresholds: in every frame wider than 35 pixels the first tile can report a fire that the
      frame does not have. */
  lemma ShippedOverlapIsTooSmall(g: Grid, sqrt: real -> real) returns (t: OverlapTile, s: Scene)
    requires g.ts == 32 && g.ov == 3 && g.w > 35 && g.h > 0 && IsRoot(sqrt)
    ensures 0 < |Layout(g)| && t == Layout(g)[0] && WellCut(g, t) && FrameOf(g, s) && IsInner(t, 31, 0)
    ensures Verdict(TileScene(s, t), SHIPPED.bgRadius, FireTest(SHIPPED, sqrt), 31, 0).Some?
    ensures Verdict(s, SHIPPED.bgRadius, FireTest(SHIPPED, sqrt), 31, 0).None?
  {
    t := FirstTile(g);
    s := StripScene(g.w, g.h);
    StripVerdicts(g, t, s, sqrt);
  }
}
