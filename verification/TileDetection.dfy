/** Fire detection on received tiles: what the mappers report, in frame coordinates, compared
    with the detector run on the whole frame. */
module TileDetection {
  import opened Words
  import opened RowMajor
  import opened Bytes
  import Lists
  import opened Tiling
  import opened Windows
  import opened Thermal
  import opened TileWire

  /** A reported fire pixel. */
  datatype Hit = Hit(x: nat, y: nat, reading: Reading)

  // ----- Detector output -------------------------------------------------------------------

  /** The verdict at every position. */
  type Verdicts = (nat, nat) -> Option<Reading>

  function VerdictAt(s: Scene, r: nat, d: Detector, x: nat, y: nat): Option<Reading>
    requires s.Valid()
  {
    if x < s.width && y < s.height then Verdict(s, r, d, x, y) else None
  }

  function VerdictsOf(s: Scene, r: nat, d: Detector): Verdicts
    requires s.Valid()
  {
    (x: nat, y: nat) => VerdictAt(s, r, d, x, y)
  }

  /** What the raw detector yields at pixel (`x`, `y`); coordinates are cut to 16 bits. */
  function RawHit(v: Verdicts, x: nat, y: nat): Option<Hit> {
    match v(x, y)
    case None => None
    case Some(rd) => Some(Hit(x % 0x1_0000, y % 0x1_0000, rd))
  }

  /** What the mapper yields there: hits of the inner region, at their frame position. */
  function TileHit(h: TileHeader, v: Verdicts, x: nat, y: nat): Option<Hit>
    requires h.innerW <= h.width && h.innerH <= h.height
  {
    match RawHit(v, x, y)
    case None => None
    case Some(hit) =>
      match ToFrameCoords(h, hit.x, hit.y)
      case None => None
      case Some((fx, fy)) => Some(Hit(fx, fy, hit.reading))
  }

  /** The values that `f` yields at 0, 1, .., n - 1, in order. */
  function Collected<T>(f: nat -> Option<T>, n: nat): seq<T> {
    if n == 0 then []
    else
      match f(n - 1)
      case None => Collected(f, n - 1)
      case Some(x) => Collected(f, n - 1) + [x]
  }

  lemma {:induction false} CollectedHas<T>(f: nat -> Option<T>, n: nat, k: nat)
    requires k < n && f(k).Some?
    ensures f(k).value in Collected(f, n)
    decreases n
  {
    if k < n - 1 { CollectedHas(f, n - 1, k); }
  }

  lemma {:induction false} CollectedFrom<T>(f: nat -> Option<T>, n: nat, x: T) returns (k: nat)
    requires x in Collected(f, n)
    ensures k < n && f(k) == Some(x)
    decreases n
  {
    if f(n - 1) == Some(x) {
      k := n - 1;
    } else {
      k := CollectedFrom(f, n - 1, x);
    }
  }

  function RawCell(width: nat, v: Verdicts, k: nat): Option<Hit>
    requires width > 0
  {
    RawHit(v, ColOf(k, width), RowOf(k, width))
  }

  function RawCells(width: nat, v: Verdicts): nat -> Option<Hit>
    requires width > 0
  {
    (k: nat) => RawCell(width, v, k)
  }

  function TileCell(h: TileHeader, v: Verdicts, k: nat): Option<Hit>
    requires h.innerW <= h.width && h.innerH <= h.height && h.width > 0
  {
    TileHit(h, v, ColOf(k, h.width), RowOf(k, h.width))
  }

  function TileCells(h: TileHeader, v: Verdicts): nat -> Option<Hit>
    requires h.innerW <= h.width && h.innerH <= h.height && h.width > 0
  {
    (k: nat) => TileCell(h, v, k)
  }

  /** The raw detector on a scene of `height` rows, row by row. */
  function DetectRaw(width: nat, height: nat, v: Verdicts): seq<Hit>
    requires width > 0
  {
    Collected(RawCells(width, v), Area(height, width))
  }

  /** The mapper's detector on a tile. */
  function DetectFire(h: TileHeader, v: Verdicts): seq<Hit>
    requires h.innerW <= h.width && h.innerH <= h.height && h.width > 0
  {
    Collected(TileCells(h, v), Area(h.height, h.width))
  }

  /** The frame's own verdict, as a reported pixel. */
  ghost predicate IsFrameHit(s: Scene, r: nat, d: Detector, hit: Hit)
    requires s.Valid()
  {
    VerdictsOf(s, r, d)(hit.x, hit.y) == Some(hit.reading)
  }

  /** Pixel (`x`, `y`) yields this hit. */
  ghost predicate Yields(width: nat, height: nat, v: Verdicts, x: nat, y: nat, hit: Hit) {
    x < width && y < height && RawHit(v, x, y) == Some(hit)
  }

  /** The raw detector reports exactly what its pixels yield, whatever the size of the scene. */
  lemma RawHitIsVerdict(width: nat, height: nat, v: Verdicts, hit: Hit)
    requires width > 0
    ensures hit in DetectRaw(width, height, v) <==> exists x: nat, y: nat :: Yields(width, height, v, x, y, hit)
  {
    var f, n := RawCells(width, v), Area(height, width);
    if x: nat, y: nat :| Yields(width, height, v, x, y, hit) {
      CellInRange(y, x, height, width);
      CellAt(y, x, width);
      CollectedHas(f, n, Area(y, width) + x);
    }
    if hit in DetectRaw(width, height, v) {
      var k := CollectedFrom(f, n, hit);
      RowInRange(k, height, width);
      assert Yields(width, height, v, ColOf(k, width), RowOf(k, width), hit);
    }
  }

  /** In a scene whose positions fit 16 bits a hit tells where it was found. */
  lemma RawHitAnywhere(width: nat, height: nat, v: Verdicts, hit: Hit)
    requires 0 < width < 0x1_0000 && height < 0x1_0000
    ensures hit in DetectRaw(width, height, v) <==>
            hit.x < width && hit.y < height && v(hit.x, hit.y) == Some(hit.reading)
  {
    RawHitIsVerdict(width, height, v, hit);
    if hit.x < width && hit.y < height && v(hit.x, hit.y) == Some(hit.reading) {
      assert Yields(width, height, v, hit.x, hit.y, hit);
    }
  }

  // ----- One tile --------------------------------------------------------------------------

  /** The header of a well-cut tile, as its receiver holds it. */
  ghost predicate Received(g: Grid, t: OverlapTile, h: TileHeader) {
    && WellCut(g, t) && FrameFits(g) && Describes(h, t)
    && h.innerW <= h.width && h.innerH <= h.height && h.width > 0
  }

  /** The tile has the frame's verdict on its inner pixels. */
  ghost predicate AgreesInside(t: OverlapTile, v: Verdicts, f: Verdicts) {
    forall cx: nat, cy: nat :: IsInner(t, cx, cy) ==> v(cx, cy) == f(t.x + cx, t.y + cy)
  }

  lemma PositionKnown(g: Grid, t: OverlapTile, h: TileHeader, cx: nat, cy: nat)
    requires Received(g, t, h) && OffsetKnown(g, t) && cx < t.width && cy < t.height
    ensures ToFrameCoords(h, cx % 0x1_0000, cy % 0x1_0000) == TruePosition(t, cx, cy)
  {
    CoordsInvertExactly(g, t, h);
    assert ToFrameCoords(h, cx, cy) == TruePosition(t, cx, cy);
  }

  /** With a known offset a tile pixel yields its verdict at its place in the frame. */
  lemma TileHitAt(g: Grid, t: OverlapTile, h: TileHeader, v: Verdicts, cx: nat, cy: nat)
    requires Received(g, t, h) && OffsetKnown(g, t) && cx < t.width && cy < t.height
    ensures TileHit(h, v, cx, cy) ==
            if IsInner(t, cx, cy) && v(cx, cy).Some? then Some(Hit(t.x + cx, t.y + cy, v(cx, cy).value)) else None
  {
    PositionKnown(g, t, h, cx, cy);
  }

  lemma ReportedAt(h: TileHeader, v: Verdicts, hit: Hit) returns (cx: nat, cy: nat)
    requires h.innerW <= h.width && h.innerH <= h.height && h.width > 0 && hit in DetectFire(h, v)
    ensures cx < h.width && cy < h.height && TileHit(h, v, cx, cy) == Some(hit) && v(cx, cy) == Some(hit.reading)
  {
    var k := CollectedFrom(TileCells(h, v), Area(h.height, h.width), hit);
    RowInRange(k, h.height, h.width);
    cx, cy := ColOf(k, h.width), RowOf(k, h.width);
  }

  lemma ReportsAt(h: TileHeader, v: Verdicts, cx: nat, cy: nat)
    requires h.innerW <= h.width && h.innerH <= h.height && cx < h.width && cy < h.height
    requires TileHit(h, v, cx, cy).Some?
    ensures TileHit(h, v, cx, cy).value in DetectFire(h, v)
  {
    var k := Area(cy, h.width) + cx;
    CellInRange(cy, cx, h.height, h.width);
    CellAt(cy, cx, h.width);
    CollectedHas(TileCells(h, v), Area(h.height, h.width), k);
  }

  /** With a known offset the mapper reports a hit exactly if the tile's pixel at that place of the
      inner region yields it. */
  lemma ReportsInnerVerdicts(g: Grid, t: OverlapTile, h: TileHeader, v: Verdicts, hit: Hit)
    requires Received(g, t, h) && OffsetKnown(g, t)
    ensures hit in DetectFire(h, v) <==>
            InnerContains(t, hit.x, hit.y) && v(hit.x - t.x, hit.y - t.y) == Some(hit.reading)
  {
    if hit in DetectFire(h, v) {
      var cx, cy := ReportedAt(h, v, hit);
      TileHitAt(g, t, h, v, cx, cy);
    } else if InnerContains(t, hit.x, hit.y) {
      var cx: nat, cy: nat := hit.x - t.x, hit.y - t.y;
      TileHitAt(g, t, h, v, cx, cy);
      if v(cx, cy) == Some(hit.reading) { ReportsAt(h, v, cx, cy); }
    }
  }

  lemma VerdictInside(s: Scene, r: nat, d: Detector, x: nat, y: nat)
    requires s.Valid() && x < s.width && y < s.height
    ensures VerdictsOf(s, r, d)(x, y) == Verdict(s, r, d, x, y)
  {
  }

  lemma VerdictsAgreeInside(g: Grid, t: OverlapTile, s: Scene, tile: Scene, r: nat, d: Detector)
    requires WellCut(g, t) && FrameOf(g, s) && tile.Valid() && tile.width == t.width && tile.height == t.height
    requires forall cx: nat, cy: nat :: IsInner(t, cx, cy) ==>
      Verdict(tile, r, d, cx, cy) == Verdict(s, r, d, t.x + cx, t.y + cy)
    ensures AgreesInside(t, VerdictsOf(tile, r, d), VerdictsOf(s, r, d))
  {
    var v, f := VerdictsOf(tile, r, d), VerdictsOf(s, r, d);
    forall cx: nat, cy: nat | IsInner(t, cx, cy) ensures v(cx, cy) == f(t.x + cx, t.y + cy) {
      VerdictInside(tile, r, d, cx, cy);
      VerdictInside(s, r, d, t.x + cx, t.y + cy);
    }
  }

  /** With enough border the tile has the frame's verdicts inside, for any detector. */
  lemma BorderAgreesInside(g: Grid, t: OverlapTile, s: Scene, tile: Scene, r: nat, d: Detector)
    requires WellCut(g, t) && FrameOf(g, s) && Shows(s, t, tile) && BorderSuffices(g, t, r)
    ensures AgreesInside(t, VerdictsOf(tile, r, d), VerdictsOf(s, r, d))
  {
    forall cx: nat, cy: nat | IsInner(t, cx, cy)
      ensures Verdict(tile, r, d, cx, cy) == Verdict(s, r, d, t.x + cx, t.y + cy)
    {
      BorderKeepsWindow(g, t, r, cx, cy);
      SameWindowSameVerdict(s, t, tile, r, d, cx, cy);
    }
    VerdictsAgreeInside(g, t, s, tile, r, d);
  }

  lemma TileAgreesInside(g: Grid, t: OverlapTile, s: Scene, r: nat, d: Detector)
    requires WellCut(g, t) && FrameOf(g, s) && BorderSuffices(g, t, r)
    ensures AgreesInside(t, VerdictsOf(TileScene(s, t), r, d), VerdictsOf(s, r, d))
  {
    TileSceneShows(s, t);
    BorderAgreesInside(g, t, s, TileScene(s, t), r, d);
  }

  /** So it has without any background. */
  lemma NoBackgroundAgreesInside(g: Grid, t: OverlapTile, s: Scene, tile: Scene, th: Thresholds, sqrt: real -> real)
    requires WellCut(g, t) && FrameOf(g, s) && Shows(s, t, tile) && th.bgMaxT4 <= 0.0
    ensures var d := FireTest(th, sqrt);
      AgreesInside(t, VerdictsOf(tile, th.bgRadius, d), VerdictsOf(s, th.bgRadius, d))
  {
    forall cx: nat, cy: nat | IsInner(t, cx, cy)
      ensures Verdict(tile, th.bgRadius, FireTest(th, sqrt), cx, cy)
           == Verdict(s, th.bgRadius, FireTest(th, sqrt), t.x + cx, t.y + cy)
    {
      NoBackgroundShown(s, t, tile, th, sqrt, cx, cy);
    }
    VerdictsAgreeInside(g, t, s, tile, th.bgRadius, FireTest(th, sqrt));
  }

  /** What the mapper should report: the frame's hits of the tile's inner region. */
  ghost predicate ReportsInner(t: OverlapTile, h: TileHeader, s: Scene, v: Verdicts, r: nat, d: Detector, hit: Hit)
    requires s.Valid() && h.innerW <= h.width && h.innerH <= h.height && h.width > 0
  {
    hit in DetectFire(h, v) <==> InnerContains(t, hit.x, hit.y) && IsFrameHit(s, r, d, hit)
  }

  lemma AgreementReports(g: Grid, t: OverlapTile, h: TileHeader, s: Scene, v: Verdicts, r: nat, d: Detector, hit: Hit)
    requires Received(g, t, h) && OffsetKnown(g, t) && s.Valid() && AgreesInside(t, v, VerdictsOf(s, r, d))
    ensures ReportsInner(t, h, s, v, r, d, hit)
  {
    ReportsInnerVerdicts(g, t, h, v, hit);
    if InnerContains(t, hit.x, hit.y) {
      var cx: nat, cy: nat := hit.x - t.x, hit.y - t.y;
      assert IsInner(t, cx, cy);
      assert v(cx, cy) == VerdictsOf(s, r, d)(t.x + cx, t.y + cy);
    }
  }

  /** A tile reports exactly the frame's hits of its inner region, for any detector. */
  lemma TileReportsInnerRegion(g: Grid, t: OverlapTile, h: TileHeader, s: Scene, r: nat, d: Detector, hit: Hit)
    requires Received(g, t, h) && OffsetKnown(g, t) && BorderSuffices(g, t, r) && FrameOf(g, s)
    ensures ReportsInner(t, h, s, VerdictsOf(TileScene(s, t), r, d), r, d, hit)
  {
    TileAgreesInside(g, t, s, r, d);
    AgreementReports(g, t, h, s, VerdictsOf(TileScene(s, t), r, d), r, d, hit);
  }

  // ----- Exactly when a tile reports what it should ----------------------------------------

  /** At these thresholds the mapper reports the right hits, with the right fields, for every frame. */
  ghost predicate MapperIsFaithful(g: Grid, t: OverlapTile, h: TileHeader, th: Thresholds, sqrt: real -> real)
    requires Received(g, t, h)
  {
    forall s: Scene, hit: Hit :: FrameOf(g, s) ==>
      ReportsInner(t, h, s, VerdictsOf(TileScene(s, t), th.bgRadius, FireTest(th, sqrt)),
                   th.bgRadius, FireTest(th, sqrt), hit)
  }

  /** A frame with a single hot pixel, at the corner of the inner region. */
  lemma CornerFire(g: Grid, t: OverlapTile, th: Thresholds, sqrt: real -> real) returns (s: Scene, rd: Reading)
    requires WellCut(g, t)
    ensures FrameOf(g, s) && Verdict(s, th.bgRadius, FireTest(th, sqrt), t.frameX, t.frameY) == Some(rd)
    ensures forall x: nat, y: nat :: x < g.w && y < g.h && (x != t.frameX || y != t.frameY) ==> s.At(x, y).t4 != rd.t4
  {
    var hot := Blaze(th, 0.0, 0.0);
    s := SpotScene(g, t.frameX, t.frameY, hot, t.frameX, t.frameY, DARK);
    var window := Window(s, t.frameX, t.frameY, th.bgRadius);
    DarkWindow(s, t.frameX, t.frameY, th);
    BlazeAlone(th, 0.0, 0.0, sqrt);
    VerdictIs(s, th, sqrt, t.frameX, t.frameY);
    rd := Judge(hot, NOTHING, th, sqrt).value;
    forall x: nat, y: nat | x < g.w && y < g.h && (x != t.frameX || y != t.frameY) ensures s.At(x, y).t4 != rd.t4 {
      assert LookAt(s)(x, y) == DARK;
    }
  }

  lemma DarkWindow(s: Scene, px: nat, py: nat, th: Thresholds)
    requires s.Valid() && px < s.width && py < s.height
    requires forall x: nat, y: nat :: x < s.width && y < s.height && (x != px || y != py) ==> LookAt(s)(x, y) == DARK
    ensures TotalsOf(Window(s, px, py, th.bgRadius), th.bgMaxT4) == NOTHING
  {
    var w := WindowRect(s.width, s.height, px, py, th.bgRadius);
    DarkFolded(AddSample, NOTHING, LookAt(s), w, px, py, th.bgMaxT4, w.y1);
  }

  lemma {:induction false} DarkFolded<T(!new)>(add: (T, Sample) -> T, zero: T, look: Look, w: Rect, px: nat, py: nat,
                                               bgMaxT4: real, y: nat)
    requires w.x0 <= w.x1 && w.y0 <= y <= w.y1
    requires forall x: nat, y: nat :: x < w.x1 && y < w.y1 && (x != px || y != py) ==> look(x, y) == DARK
    ensures FoldedTo(add, zero, look, w, px, py, bgMaxT4, w.x0, y) == zero
    decreases y
  {
    if y > w.y0 {
      DarkFolded(add, zero, look, w, px, py, bgMaxT4, y - 1);
      DarkRowFold(add, zero, look, w, px, py, bgMaxT4, y - 1);
    }
  }

  lemma DarkRowFold<T(!new)>(add: (T, Sample) -> T, zero: T, look: Look, w: Rect, px: nat, py: nat, bgMaxT4: real,
                             y: nat)
    requires w.x0 <= w.x1 && w.y0 <= y < w.y1
    requires forall x: nat :: x < w.x1 && (x != px || y != py) ==> look(x, y) == DARK
    ensures FoldedTo(add, zero, look, w, px, py, bgMaxT4, w.x0, y + 1)
         == FoldedTo(add, zero, look, w, px, py, bgMaxT4, w.x0, y)
  {
    RowFoldRuns(add, zero, look, w, px, py, bgMaxT4, y);
    EmptyRow(RowFold(add, zero, look, w, px, py, bgMaxT4, y), add, look, w, px, py, bgMaxT4, y, w.x1);
  }

  /** A reading carries the temperature of its pixel. */
  lemma ReadingOfPixel(s: Scene, th: Thresholds, sqrt: real -> real, x: nat, y: nat)
    requires s.Valid() && x < s.width && y < s.height
    requires Verdict(s, th.bgRadius, FireTest(th, sqrt), x, y).Some?
    ensures Verdict(s, th.bgRadius, FireTest(th, sqrt), x, y).value.t4 == s.At(x, y).t4
  {
    VerdictIs(s, th, sqrt, x, y);
  }

  /** With a wrong offset the corner of the inner region is not mapped back to its place. */
  lemma CornerMisplaced(g: Grid, t: OverlapTile, h: TileHeader, v: Verdicts, rd: Reading)
    requires Received(g, t, h) && !OffsetKnown(g, t)
    ensures TileHit(h, v, t.innerX, t.innerY) != Some(Hit(t.frameX, t.frameY, rd))
  {
    OffsetExactX(g, t);
    OffsetExactY(g, t);
  }

  /** The one pixel with this temperature is reported elsewhere or not at all. */
  lemma FireMisplaced(g: Grid, t: OverlapTile, h: TileHeader, v: Verdicts, rd: Reading)
    requires Received(g, t, h) && !OffsetKnown(g, t)
    requires forall x: nat, y: nat :: x < t.width && y < t.height && (x != t.innerX || y != t.innerY) ==>
      v(x, y).None? || v(x, y).value.t4 != rd.t4
    ensures Hit(t.frameX, t.frameY, rd) !in DetectFire(h, v)
  {
    var hit := Hit(t.frameX, t.frameY, rd);
    CornerMisplaced(g, t, h, v, rd);
    if hit in DetectFire(h, v) {
      var cx, cy := ReportedAt(h, v, hit);
    }
  }

  /** A receiver with the wrong offset puts the fire in the wrong place. */
  lemma WrongOffsetMisreports(g: Grid, t: OverlapTile, h: TileHeader, th: Thresholds, sqrt: real -> real)
    requires Received(g, t, h) && !OffsetKnown(g, t)
    ensures !MapperIsFaithful(g, t, h, th, sqrt)
  {
    var s, rd := CornerFire(g, t, th, sqrt);
    TileSceneShows(s, t);
    CornerFireMisplaced(g, t, h, th, sqrt, s, TileScene(s, t), rd);
    OneMisreport(g, t, h, th, sqrt, s, Hit(t.frameX, t.frameY, rd));
  }

  lemma CornerFireMisplaced(g: Grid, t: OverlapTile, h: TileHeader, th: Thresholds, sqrt: real -> real,
                            s: Scene, tile: Scene, rd: Reading)
    requires Received(g, t, h) && !OffsetKnown(g, t) && FrameOf(g, s) && Shows(s, t, tile)
    requires Verdict(s, th.bgRadius, FireTest(th, sqrt), t.frameX, t.frameY) == Some(rd)
    requires forall x: nat, y: nat :: x < g.w && y < g.h && (x != t.frameX || y != t.frameY) ==> s.At(x, y).t4 != rd.t4
    ensures !ReportsInner(t, h, s, VerdictsOf(tile, th.bgRadius, FireTest(th, sqrt)), th.bgRadius, FireTest(th, sqrt),
                          Hit(t.frameX, t.frameY, rd))
  {
    var d := FireTest(th, sqrt);
    var v := VerdictsOf(tile, th.bgRadius, d);
    forall x: nat, y: nat | x < t.width && y < t.height && (x != t.innerX || y != t.innerY)
      ensures v(x, y).None? || v(x, y).value.t4 != rd.t4
    {
      TilePixel(s, t, tile, x, y);
      VerdictInside(tile, th.bgRadius, d, x, y);
      if v(x, y).Some? { ReadingOfPixel(tile, th, sqrt, x, y); }
    }
    FireMisplaced(g, t, h, v, rd);
    VerdictInside(s, th.bgRadius, d, t.frameX, t.frameY);
  }

  /** A pixel of the inner region whose verdict is not the frame's is misreported. */
  lemma WrongVerdictMisreports(g: Grid, t: OverlapTile, h: TileHeader, s: Scene, v: Verdicts, r: nat, d: Detector,
                               cx: nat, cy: nat, rd: Reading)
    requires Received(g, t, h) && OffsetKnown(g, t) && s.Valid() && IsInner(t, cx, cy)
    requires v(cx, cy) != Some(rd) && IsFrameHit(s, r, d, Hit(t.x + cx, t.y + cy, rd))
    ensures !ReportsInner(t, h, s, v, r, d, Hit(t.x + cx, t.y + cy, rd))
  {
    ReportsInnerVerdicts(g, t, h, v, Hit(t.x + cx, t.y + cy, rd));
  }

  /** A tile that was cut too close reports the wrong fields. */
  lemma CutTileMisreports(g: Grid, t: OverlapTile, h: TileHeader, th: Thresholds, sqrt: real -> real)
    requires Received(g, t, h) && OffsetKnown(g, t) && !BorderUnneeded(g, t, th)
    ensures !MapperIsFaithful(g, t, h, th, sqrt)
  {
    var s, cx, cy, rd, rd' := CutTileChangesVerdict(g, t, th, sqrt);
    DisagreementIsUnfaithful(g, t, h, th, sqrt, s, TileScene(s, t), cx, cy, rd);
  }

  lemma DisagreementIsUnfaithful(g: Grid, t: OverlapTile, h: TileHeader, th: Thresholds, sqrt: real -> real, s: Scene,
                                 tile: Scene, cx: nat, cy: nat, rd: Reading)
    requires Received(g, t, h) && OffsetKnown(g, t) && FrameOf(g, s) && IsInner(t, cx, cy)
    requires tile == TileScene(s, t)
    requires Verdict(s, th.bgRadius, FireTest(th, sqrt), t.x + cx, t.y + cy) == Some(rd)
    requires Verdict(tile, th.bgRadius, FireTest(th, sqrt), cx, cy) != Some(rd)
    ensures !MapperIsFaithful(g, t, h, th, sqrt)
  {
    DisagreementMisreports(g, t, h, s, tile, th.bgRadius, FireTest(th, sqrt), cx, cy, rd);
    OneMisreport(g, t, h, th, sqrt, s, Hit(t.x + cx, t.y + cy, rd));
  }

  lemma DisagreementMisreports(g: Grid, t: OverlapTile, h: TileHeader, s: Scene, tile: Scene, r: nat, d: Detector,
                               cx: nat, cy: nat, rd: Reading)
    requires Received(g, t, h) && OffsetKnown(g, t) && FrameOf(g, s) && IsInner(t, cx, cy)
    requires tile.Valid() && tile.width == t.width && tile.height == t.height
    requires Verdict(s, r, d, t.x + cx, t.y + cy) == Some(rd) && Verdict(tile, r, d, cx, cy) != Some(rd)
    ensures !ReportsInner(t, h, s, VerdictsOf(tile, r, d), r, d, Hit(t.x + cx, t.y + cy, rd))
  {
    VerdictInside(tile, r, d, cx, cy);
    VerdictInside(s, r, d, t.x + cx, t.y + cy);
    WrongVerdictMisreports(g, t, h, s, VerdictsOf(tile, r, d), r, d, cx, cy, rd);
  }

  lemma OneMisreport(g: Grid, t: OverlapTile, h: TileHeader, th: Thresholds, sqrt: real -> real, s: Scene, hit: Hit)
    requires Received(g, t, h) && FrameOf(g, s)
    requires !ReportsInner(t, h, s, VerdictsOf(TileScene(s, t), th.bgRadius, FireTest(th, sqrt)),
                           th.bgRadius, FireTest(th, sqrt), hit)
    ensures !MapperIsFaithful(g, t, h, th, sqrt)
  {
  }

  /** The exact condition at the detector: the mapper reports what it should, for every frame, if
      and only if its receiver knows the offset and the border suffices for its thresholds. */
  lemma MapperFaithfulExactly(g: Grid, t: OverlapTile, h: TileHeader, th: Thresholds, sqrt: real -> real)
    requires Received(g, t, h)
    ensures MapperIsFaithful(g, t, h, th, sqrt) <==> OffsetKnown(g, t) && BorderUnneeded(g, t, th)
  {
    if !OffsetKnown(g, t) {
      WrongOffsetMisreports(g, t, h, th, sqrt);
    } else if !BorderUnneeded(g, t, th) {
      CutTileMisreports(g, t, h, th, sqrt);
    } else {
      var r, d := th.bgRadius, FireTest(th, sqrt);
      forall s: Scene, hit: Hit | FrameOf(g, s)
        ensures ReportsInner(t, h, s, VerdictsOf(TileScene(s, t), r, d), r, d, hit)
      {
        TileSceneShows(s, t);
        BorderUnneededReports(g, t, h, s, TileScene(s, t), th, sqrt, hit);
      }
    }
  }

  lemma BorderUnneededReports(g: Grid, t: OverlapTile, h: TileHeader, s: Scene, tile: Scene, th: Thresholds,
                              sqrt: real -> real, hit: Hit)
    requires Received(g, t, h) && OffsetKnown(g, t) && FrameOf(g, s) && Shows(s, t, tile) && BorderUnneeded(g, t, th)
    ensures var d := FireTest(th, sqrt); ReportsInner(t, h, s, VerdictsOf(tile, th.bgRadius, d), th.bgRadius, d, hit)
  {
    var r, d := th.bgRadius, FireTest(th, sqrt);
    if BorderSuffices(g, t, r) {
      BorderAgreesInside(g, t, s, tile, r, d);
    } else {
      NoBackgroundAgreesInside(g, t, s, tile, th, sqrt);
    }
    AgreementReports(g, t, h, s, VerdictsOf(tile, r, d), r, d, hit);
  }

  // ----- The whole frame -------------------------------------------------------------------

  /** Tiling preserves detection, tile by tile and without any mapping back: what the raw detector
      finds on an inner pixel of a tile is what it finds there on the frame, and each pixel of the
      frame is an inner pixel of one tile. */
  lemma RawTilingPreservesDetection(g: Grid, k: nat, t: OverlapTile, s: Scene, r: nat, d: Detector,
                                    cx: nat, cy: nat, rd: Reading)
    requires g.Valid() && FrameFits(g) && FrameOf(g, s) && k < |Layout(g)| && t == Layout(g)[k] && WellCut(g, t)
    requires BorderSuffices(g, t, r)
    ensures var v, f := VerdictsOf(TileScene(s, t), r, d), VerdictsOf(s, r, d);
      IsInner(t, cx, cy) && Hit(cx, cy, rd) in DetectRaw(t.width, t.height, v) <==>
      Hit(t.x + cx, t.y + cy, rd) in DetectRaw(g.w, g.h, f) && k == TileIndexOf(g, t.x + cx, t.y + cy)
  {
    TileAgreesInside(g, t, s, r, d);
    InnerAtIndex(g, k, t, cx, cy);
    RawHitsAgree(g, t, VerdictsOf(TileScene(s, t), r, d), VerdictsOf(s, r, d), cx, cy, rd,
                 k == TileIndexOf(g, t.x + cx, t.y + cy));
  }

  lemma RawHitsAgree(g: Grid, t: OverlapTile, v: Verdicts, f: Verdicts, cx: nat, cy: nat, rd: Reading, here: bool)
    requires FrameFits(g) && WellCut(g, t) && AgreesInside(t, v, f)
    requires IsInner(t, cx, cy) <==> t.x + cx < g.w && t.y + cy < g.h && here
    ensures IsInner(t, cx, cy) && Hit(cx, cy, rd) in DetectRaw(t.width, t.height, v) <==>
      Hit(t.x + cx, t.y + cy, rd) in DetectRaw(g.w, g.h, f) && here
  {
    RawHitAnywhere(t.width, t.height, v, Hit(cx, cy, rd));
    RawHitAnywhere(g.w, g.h, f, Hit(t.x + cx, t.y + cy, rd));
  }

  /** A tile pixel is inner exactly if its place in the frame belongs to the tile. */
  lemma InnerAtIndex(g: Grid, k: nat, t: OverlapTile, cx: nat, cy: nat)
    requires g.Valid() && k < |Layout(g)| && t == Layout(g)[k] && WellCut(g, t)
    ensures IsInner(t, cx, cy) <==> t.x + cx < g.w && t.y + cy < g.h && k == TileIndexOf(g, t.x + cx, t.y + cy)
  {
    if t.x + cx < g.w && t.y + cy < g.h { InnerRegionsPartition(g, t.x + cx, t.y + cy); }
  }

  /** Tiling preserves detection: when every tile has enough border and a known offset, a hit of
      the frame is reported by the tile responsible for its pixel and by no other, and nothing
      else is reported. */
  lemma TilingPreservesDetection(g: Grid, k: nat, h: TileHeader, s: Scene, r: nat, d: Detector, hit: Hit)
    requires g.Valid() && FrameOf(g, s) && k < |Layout(g)| && Received(g, Layout(g)[k], h)
    requires OffsetKnown(g, Layout(g)[k]) && BorderSuffices(g, Layout(g)[k], r)
    ensures hit in DetectFire(h, VerdictsOf(TileScene(s, Layout(g)[k]), r, d)) <==>
            hit in DetectRaw(g.w, g.h, VerdictsOf(s, r, d)) && k == TileIndexOf(g, hit.x, hit.y)
  {
    TileReportsInnerRegion(g, Layout(g)[k], h, s, r, d, hit);
    RawHitAnywhere(g.w, g.h, VerdictsOf(s, r, d), hit);
    if hit.x < g.w && hit.y < g.h {
      InnerRegionsPartition(g, hit.x, hit.y);
    }
  }

  // ----- Counting hits ---------------------------------------------------------------------

  /** Different positions yield different values. */
  ghost predicate Separates<T>(f: nat -> Option<T>, n: nat) {
    forall j: nat, k: nat :: j < k < n && f(j).Some? ==> f(j) != f(k)
  }

  lemma {:induction false} CollectedOnce<T>(f: nat -> Option<T>, n: nat, x: T)
    requires Separates(f, n)
    ensures multiset(Collected(f, n))[x] == if x in Collected(f, n) then 1 else 0
    decreases n
  {
    if n > 0 {
      CollectedOnce(f, n - 1, x);
      if f(n - 1) == Some(x) && x in Collected(f, n - 1) {
        var k := CollectedFrom(f, n - 1, x);
      }
    }
  }

  lemma SameCell(j: nat, k: nat, width: nat)
    requires width > 0 && ColOf(j, width) == ColOf(k, width) && RowOf(j, width) == RowOf(k, width)
    ensures j == k
  {
    CellAddress(j, width);
    CellAddress(k, width);
  }

  lemma RawHitsOnce(width: nat, height: nat, v: Verdicts, hit: Hit)
    requires 0 < width < 0x1_0000 && height < 0x1_0000
    ensures multiset(DetectRaw(width, height, v))[hit] == if hit in DetectRaw(width, height, v) then 1 else 0
  {
    var f, n := RawCells(width, v), Area(height, width);
    forall j: nat, k: nat | j < k < n && f(j).Some? ensures f(j) != f(k) {
      RowInRange(j, height, width);
      RowInRange(k, height, width);
      if f(j) == f(k) { SameCell(j, k, width); }
    }
    CollectedOnce(f, n, hit);
  }

  lemma TileHitsOnce(g: Grid, t: OverlapTile, h: TileHeader, v: Verdicts, hit: Hit)
    requires Received(g, t, h) && OffsetKnown(g, t)
    ensures multiset(DetectFire(h, v))[hit] == if hit in DetectFire(h, v) then 1 else 0
  {
    var f, n := TileCells(h, v), Area(h.height, h.width);
    forall j: nat, k: nat | j < k < n && f(j).Some? ensures f(j) != f(k) {
      RowInRange(j, h.height, h.width);
      RowInRange(k, h.height, h.width);
      TileHitAt(g, t, h, v, ColOf(j, h.width), RowOf(j, h.width));
      TileHitAt(g, t, h, v, ColOf(k, h.width), RowOf(k, h.width));
      if f(j) == f(k) { SameCell(j, k, h.width); }
    }
    CollectedOnce(f, n, hit);
  }

  /** Every tile of the layout, received with a known offset and enough border. */
  ghost predicate AllTilesReceived(g: Grid, headers: seq<TileHeader>, r: nat) {
    && g.Valid() && |headers| == |Layout(g)|
    && forall k :: 0 <= k < |headers| ==>
        && Received(g, Layout(g)[k], headers[k])
        && OffsetKnown(g, Layout(g)[k]) && BorderSuffices(g, Layout(g)[k], r)
  }

  /** What the mapper reports for tile `k`. */
  ghost function OutputOf(g: Grid, k: nat, h: TileHeader, s: Scene, r: nat, d: Detector): seq<Hit>
    requires g.Valid() && FrameOf(g, s) && k < |Layout(g)| && Received(g, Layout(g)[k], h)
  {
    DetectFire(h, VerdictsOf(TileScene(s, Layout(g)[k]), r, d))
  }

  /** What the mappers report, tile by tile. */
  ghost function TileOutputs(g: Grid, headers: seq<TileHeader>, s: Scene, r: nat, d: Detector): (outputs: seq<seq<Hit>>)
    requires AllTilesReceived(g, headers, r) && FrameOf(g, s)
    ensures |outputs| == |headers|
    ensures forall k :: 0 <= k < |headers| ==> outputs[k] == OutputOf(g, k, headers[k], s, r, d)
  {
    seq(|headers|, k requires 0 <= k < |headers| => OutputOf(g, k, headers[k], s, r, d))
  }

  /** A value that only one of the lists holds, and once, stands once in all of them together. */
  lemma {:induction false} FlattenOnce(outputs: seq<seq<Hit>>, hit: Hit, found: bool, at: nat)
    requires forall k :: 0 <= k < |outputs| ==> multiset(outputs[k])[hit] == if found && k == at then 1 else 0
    ensures multiset(Lists.Flatten(outputs))[hit] == if found && at < |outputs| then 1 else 0
    decreases |outputs|
  {
    if outputs != [] {
      var n := |outputs| - 1;
      FlattenOnce(outputs[..n], hit, found, at);
      CountsAdd(Lists.Flatten(outputs[..n]), outputs[n], hit);
    }
  }

  lemma CountsAdd(a: seq<Hit>, b: seq<Hit>, hit: Hit)
    ensures multiset(a + b)[hit] == multiset(a)[hit] + multiset(b)[hit]
  {
  }

  lemma TileReportsOnce(g: Grid, k: nat, h: TileHeader, s: Scene, r: nat, d: Detector, hit: Hit)
    requires g.Valid() && FrameOf(g, s) && k < |Layout(g)| && Received(g, Layout(g)[k], h) && g.w > 0
    requires OffsetKnown(g, Layout(g)[k]) && BorderSuffices(g, Layout(g)[k], r)
    ensures multiset(OutputOf(g, k, h, s, r, d))[hit]
         == if hit in DetectRaw(g.w, g.h, VerdictsOf(s, r, d)) && k == TileIndexOf(g, hit.x, hit.y) then 1 else 0
  {
    TileHitsOnce(g, Layout(g)[k], h, VerdictsOf(TileScene(s, Layout(g)[k]), r, d), hit);
    TilingPreservesDetection(g, k, h, s, r, d, hit);
  }

  /** Tiling preserves detection, hit for hit: all tiles together report a rearrangement of what the
      raw detector finds on the frame. */
  lemma TilesReportTheFrame(g: Grid, headers: seq<TileHeader>, s: Scene, r: nat, d: Detector)
    requires AllTilesReceived(g, headers, r) && FrameOf(g, s) && FrameFits(g) && g.w > 0
    ensures multiset(Lists.Flatten(TileOutputs(g, headers, s, r, d)))
         == multiset(DetectRaw(g.w, g.h, VerdictsOf(s, r, d)))
  {
    var outputs, frame := TileOutputs(g, headers, s, r, d), DetectRaw(g.w, g.h, VerdictsOf(s, r, d));
    forall hit: Hit ensures multiset(Lists.Flatten(outputs))[hit] == multiset(frame)[hit] {
      var at := TileIndexOf(g, hit.x, hit.y);
      forall k | 0 <= k < |outputs| ensures multiset(outputs[k])[hit] == if hit in frame && k == at then 1 else 0 {
        TileReportsOnce(g, k, headers[k], s, r, d, hit);
      }
      FlattenOnce(outputs, hit, hit in frame, at);
      FrameHitsOnce(g, VerdictsOf(s, r, d), hit);
    }
  }

  lemma FrameHitsOnce(g: Grid, v: Verdicts, hit: Hit)
    requires g.Valid() && FrameFits(g) && g.w > 0
    ensures var frame := DetectRaw(g.w, g.h, v);
      && multiset(frame)[hit] == (if hit in frame then 1 else 0)
      && (hit in frame ==> TileIndexOf(g, hit.x, hit.y) < |Layout(g)|)
  {
    RawHitsOnce(g.w, g.h, v, hit);
    RawHitAnywhere(g.w, g.h, v, hit);
    if hit.x < g.w && hit.y < g.h { InnerRegionsPartition(g, hit.x, hit.y); }
  }

  // ----- Over the wire ---------------------------------------------------------------------

  /** Sample values from their bit patterns. */
  function Decode(bits: seq<u32>, value: u32 -> real): (temps: seq<real>)
    ensures |temps| == |bits| && forall i :: 0 <= i < |bits| ==> temps[i] == value(bits[i])
  {
    seq(|bits|, i requires 0 <= i < |bits| => value(bits[i]))
  }

  /** The scene a parsed message shows. */
  function MessageScene(m: TileMessage, value: u32 -> real): Scene {
    Scene(Decode(m.mwir, value), Decode(m.lwir, value), m.header.width, m.header.height)
  }

  lemma DecodeExtracted(band: seq<u32>, fw: nat, t: Tile, value: u32 -> real)
    requires Fits(t, fw, |band|)
    ensures Decode(Extracted(band, fw, t), value) == Extracted(Decode(band, value), fw, t)
  {
  }

  /** From frame to bytes to reported pixels: the mapper that parses what the collector wrote
      reports exactly the frame's hits of the tile's inner region. */
  lemma WrittenTileReportsInnerRegion(g: Grid, t: DualBandTile, value: u32 -> real, r: nat, d: Detector,
                                      rest: Bytes, hit: Hit)
    requires t.Valid() && g.w == t.frameWidth && WellCut(g, t.geo) && FrameFits(g)
    requires |t.mwir| == |t.lwir| == Area(g.h, g.w)
    requires OffsetKnown(g, t.geo) && BorderSuffices(g, t.geo, r)
    ensures FromBytes(Encoded(t) + rest).Parsed?
    ensures var m := FromBytes(Encoded(t) + rest).msg;
            var s := Scene(Decode(t.mwir, value), Decode(t.lwir, value), g.w, g.h);
            && MessageScene(m, value).Valid() && Received(g, t.geo, m.header) && s.Valid()
            && ReportsInner(t.geo, m.header, s, VerdictsOf(MessageScene(m, value), r, d), r, d, hit)
  {
    HeaderDescribes(g, t);
    TileRoundTrip(t, rest);
    var m := FromBytes(Encoded(t) + rest).msg;
    var s := Scene(Decode(t.mwir, value), Decode(t.lwir, value), g.w, g.h);
    DecodeExtracted(t.mwir, g.w, Region(t.geo), value);
    DecodeExtracted(t.lwir, g.w, Region(t.geo), value);
    assert MessageScene(m, value) == TileScene(s, t.geo);
    TileReportsInnerRegion(g, t.geo, m.header, s, r, d, hit);
  }
}
