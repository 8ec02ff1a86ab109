/** Cutting an image into tiles, with and without an overlap border, and putting it together again.
    `Layout` is the tile sequence given by row and column number; the nested loops, the iterator
    and the partition of the frame are all proved against it. */
module Tiling {
  import opened Words
  import opened RowMajor

  // ----- Layout ----------------------------------------------------------------------------

  /** Number of tiles of size `d` needed to cover `n` pixels. */
  function CeilDiv(n: nat, d: nat): (q: nat)
    requires d > 0
  {
    RowOf(n + d - 1, d)
  }

  lemma CeilDivIsRoundedUp(n: nat, d: nat)
    requires d > 0
    ensures CeilDiv(n, d) == (n + d - 1) / d
  {
    RowColAreDivMod(n + d - 1, d);
  }

  method TilesAlong(n: nat, d: nat) returns (q: nat)
    requires d > 0
    ensures q == CeilDiv(n, d)
  {
    CeilDivIsRoundedUp(n, d);
    q := (n + d - 1) / d;
  }

  /** Tile `k` of an axis starts inside it. */
  lemma StartsInside(n: nat, d: nat, k: nat)
    requires d > 0 && k < CeilDiv(n, d)
    ensures Area(k, d) < n
  {
    CellAddress(n + d - 1, d);
    AreaStep(k, CeilDiv(n, d), d);
  }

  /** Every pixel of an axis is in one of its tiles. */
  lemma TileOfPixel(n: nat, d: nat, p: nat)
    requires d > 0 && p < n
    ensures RowOf(p, d) < CeilDiv(n, d)
  {
    CellAddress(p, d);
    CellAddress(n + d - 1, d);
    if RowOf(p, d) >= CeilDiv(n, d) { AreaMonotone(CeilDiv(n, d), RowOf(p, d), d); }
  }

  /** Frame dimensions, tile size and overlap. */
  datatype Grid = Grid(w: nat, h: nat, ts: nat, ov: nat) {
    ghost predicate Valid() { ts > 0 }

    function Cols(): nat requires Valid() { CeilDiv(w, ts) }
    function Rows(): nat requires Valid() { CeilDiv(h, ts) }
    function Count(): nat requires Valid() { Area(Rows(), Cols()) }
  }

  /** A tile region with an overlap border, as positions in the frame. */
  datatype OverlapTile = OverlapTile(x: nat, y: nat, width: nat, height: nat,
                                     innerX: nat, innerY: nat, innerW: nat, innerH: nat,
                                     frameX: nat, frameY: nat)

  /** The extent of a tile along one axis: inner part `[o, o + n)`, expanded part `[lo, hi)`. */
  datatype Span = Span(lo: nat, hi: nat, o: nat, n: nat)

  /** The span of the tile whose inner part starts at `o`. */
  function SpanFrom(size: nat, ts: nat, ov: nat, o: nat): (s: Span)
    requires ts > 0 && o < size
    ensures s.lo <= s.o == o && s.o + s.n <= s.hi <= size && 1 <= s.n <= ts
  {
    var n := Min(ts, size - o);
    Span(SaturatingSub(o, ov), Min(o + n + ov, size), o, n)
  }

  function SpanAt(size: nat, ts: nat, ov: nat, k: nat): Span
    requires ts > 0 && k < CeilDiv(size, ts)
  {
    StartsInside(size, ts, k);
    SpanFrom(size, ts, ov, Area(k, ts))
  }

  function ToTile(a: Span, b: Span): OverlapTile
    requires a.lo <= a.o && a.lo <= a.hi && b.lo <= b.o && b.lo <= b.hi
  {
    OverlapTile(a.lo, b.lo, a.hi - a.lo, b.hi - b.lo, a.o - a.lo, b.o - b.lo, a.n, b.n, a.o, b.o)
  }

  function TileAt(g: Grid, col: nat, row: nat): OverlapTile
    requires g.Valid() && col < g.Cols() && row < g.Rows()
  {
    StartsInside(g.w, g.ts, col);
    StartsInside(g.h, g.ts, row);
    ToTile(SpanAt(g.w, g.ts, g.ov, col), SpanAt(g.h, g.ts, g.ov, row))
  }

  /** Tile `k`, counting row by row. */
  function NthTile(g: Grid, k: nat): OverlapTile
    requires g.Valid() && k < g.Count()
  {
    NonemptyArea(k, g.Rows(), g.Cols());
    RowInRange(k, g.Rows(), g.Cols());
    TileAt(g, ColOf(k, g.Cols()), RowOf(k, g.Cols()))
  }

  /** All tiles, row by row. */
  function Layout(g: Grid): (tiles: seq<OverlapTile>)
    requires g.Valid()
    ensures |tiles| == g.Count()
    ensures forall k :: 0 <= k < |tiles| ==> tiles[k] == NthTile(g, k)
  {
    seq(g.Count(), k requires 0 <= k < g.Count() => NthTile(g, k))
  }

  lemma LayoutAt(g: Grid, col: nat, row: nat)
    requires g.Valid() && col < g.Cols() && row < g.Rows()
    ensures var k := Area(row, g.Cols()) + col; k < g.Count() && Layout(g)[k] == TileAt(g, col, row)
  {
    CellInRange(row, col, g.Rows(), g.Cols());
    NthTileAt(g, col, row, Area(row, g.Cols()) + col);
  }

  lemma NthTileAt(g: Grid, col: nat, row: nat, k: nat)
    requires g.Valid() && col < g.Cols() && row < g.Rows() && k == Area(row, g.Cols()) + col < g.Count()
    ensures NthTile(g, k) == TileAt(g, col, row)
  {
    CellAt(row, col, g.Cols());
  }

  /** `s` holds the first `n` elements of `all` and is otherwise as it was in `was`. */
  ghost predicate FilledTo<T>(s: seq<T>, all: seq<T>, was: seq<T>, n: nat) {
    n <= |all| && n <= |s| == |was| && s[..n] == all[..n] && s[n..] == was[n..]
  }

  lemma FillNext<T>(s: seq<T>, all: seq<T>, was: seq<T>, n: nat)
    requires FilledTo(s, all, was, n) && n < |s| && n < |all|
    ensures FilledTo(s[n := all[n]], all, was, n + 1)
  {
    var s' := s[n := all[n]];
    assert all[..n + 1] == all[..n] + [all[n]];
    assert s'[..n + 1] == s[..n] + [all[n]];
    assert was[n..][1..] == was[n + 1..] && s[n..][1..] == s[n + 1..];
  }

  lemma FillRun<T>(s: seq<T>, all: seq<T>, was: seq<T>, n: nat, run: seq<T>)
    requires FilledTo(s, all, was, n) && n + |run| <= |s| && n + |run| <= |all| && all[n..n + |run|] == run
    ensures FilledTo(s[..n] + run + s[n + |run|..], all, was, n + |run|)
  {
    var m := |run|;
    var s' := s[..n] + run + s[n + m..];
    assert s'[..n + m] == all[..n] + all[n..n + m] == all[..n + m];
    assert was[n..][m..] == was[n + m..] && s[n..][m..] == s[n + m..] == s'[n + m..];
  }

  /** The geometry computed for the tile in column `col` and row `row`. */
  method TileGeometry(w: nat, h: nat, ts: nat, ov: nat, col: nat, row: nat) returns (tile: OverlapTile)
    requires ts > 0 && col < CeilDiv(w, ts) && row < CeilDiv(h, ts)
    ensures tile == TileAt(Grid(w, h, ts, ov), col, row)
  {
    var origX := col * ts;
    var origY := row * ts;
    AreaIsProduct(col, ts);
    AreaIsProduct(row, ts);
    StartsInside(w, ts, col);
    StartsInside(h, ts, row);
    var innerW := Min(ts, w - origX);
    var innerH := Min(ts, h - origY);
    var x0 := SaturatingSub(origX, ov);
    var y0 := SaturatingSub(origY, ov);
    var x1 := Min(origX + innerW + ov, w);
    var y1 := Min(origY + innerH + ov, h);
    tile := OverlapTile(x0, y0, x1 - x0, y1 - y0, origX - x0, origY - y0, innerW, innerH, origX, origY);
  }

  /** The nested loops: rows, then columns, stopping when the output is full. */
  method ComputeTilesWithOverlap(w: nat, h: nat, ts: nat, ov: nat, tiles: array<OverlapTile>) returns (count: nat)
    requires ts > 0
    modifies tiles
    ensures count == Min(Grid(w, h, ts, ov).Count(), tiles.Length)
    ensures FilledTo(tiles[..], Layout(Grid(w, h, ts, ov)), old(tiles[..]), count)
  {
    ghost var g := Grid(w, h, ts, ov);
    var cols := TilesAlong(w, ts);
    var rows := TilesAlong(h, ts);
    ghost var all := Layout(g);
    count := 0;
    for row := 0 to rows
      invariant count == Area(row, cols) && FilledTo(tiles[..], all, old(tiles[..]), count)
    {
      AreaMonotone(row + 1, rows, cols);
      for col := 0 to cols
        invariant count == Area(row, cols) + col && FilledTo(tiles[..], all, old(tiles[..]), count)
      {
        if count >= tiles.Length {
          CellInRange(row, col, rows, cols);
          return;
        }
        LayoutAt(g, col, row);
        var geo := TileGeometry(w, h, ts, ov, col, row);
        ghost var before := tiles[..];
        tiles[count] := geo;
        assert tiles[..] == before[count := all[count]];
        FillNext(before, all, old(tiles[..]), count);
        count := count + 1;
      }
    }
  }

  /** Where the tiles stand: the one in column `col` and row `row` of `cols` comes `row * cols + col`
      tiles after the first, and its inner region begins `col` tiles from the left and `row` tiles from
      the top. */
  lemma TilePlaces(g: Grid, cols: nat, col: nat, row: nat)
    requires g.Valid() && cols == (g.w + g.ts - 1) / g.ts && col < cols && row < (g.h + g.ts - 1) / g.ts
    ensures 0 <= row * cols + col < |Layout(g)|
    ensures var t := Layout(g)[row * cols + col]; t.frameX == col * g.ts && t.frameY == row * g.ts
  {
    CeilDivIsRoundedUp(g.w, g.ts);
    CeilDivIsRoundedUp(g.h, g.ts);
    AreaIsProduct(row, cols);
    AreaIsProduct(col, g.ts);
    AreaIsProduct(row, g.ts);
    LayoutAt(g, col, row);
  }

  /** The lazy iterator: one tile per call, geometry from the running index by div and mod. */
  class TileIter {
    const frameWidth: nat
    const frameHeight: nat
    const tileSize: nat
    const overlap: nat
    const cols: nat
    const total: nat
    var index: nat

    ghost function Shape(): Grid { Grid(frameWidth, frameHeight, tileSize, overlap) }

    ghost predicate Valid()
      reads this
    {
      && Shape().Valid() && cols == Shape().Cols() && total == Shape().Count() && index <= total
    }

    constructor (w: nat, h: nat, ts: nat, ov: nat)
      requires ts > 0
      ensures Valid() && Shape() == Grid(w, h, ts, ov) && index == 0
    {
      frameWidth, frameHeight, tileSize, overlap := w, h, ts, ov;
      var cols', rows := (w + ts - 1) / ts, (h + ts - 1) / ts;
      CeilDivIsRoundedUp(w, ts);
      CeilDivIsRoundedUp(h, ts);
      AreaIsProduct(rows, cols');
      cols := cols';
      total := rows * cols';
      index := 0;
    }

    method Next() returns (tile: Option<OverlapTile>)
      requires Valid()
      modifies `index
      ensures Valid()
      ensures old(index) < |Layout(Shape())| ==> tile == Some(Layout(Shape())[old(index)]) && index == old(index) + 1
      ensures old(index) >= |Layout(Shape())| ==> tile == None && index == old(index)
    {
      if index >= total {
        return None;
      }
      NonemptyArea(index, Shape().Rows(), cols);
      RowInRange(index, Shape().Rows(), cols);
      RowColAreDivMod(index, cols);
      CellAddress(index, cols);
      var col := index % cols;
      var row := index / cols;
      LayoutAt(Shape(), col, row);
      index := index + 1;
      var geo := TileGeometry(frameWidth, frameHeight, tileSize, overlap, col, row);
      return Some(geo);
    }
  }

  // ----- The inner regions partition the frame ---------------------------------------------

  predicate InnerContains(t: OverlapTile, px: nat, py: nat) {
    t.frameX <= px < t.frameX + t.innerW && t.frameY <= py < t.frameY + t.innerH
  }

  /** The tile that is responsible for a pixel. */
  function TileIndexOf(g: Grid, px: nat, py: nat): nat
    requires g.Valid()
  {
    Area(RowOf(py, g.ts), g.Cols()) + RowOf(px, g.ts)
  }

  lemma SpanHolds(size: nat, ts: nat, ov: nat, k: nat, p: nat)
    requires ts > 0 && k < CeilDiv(size, ts) && p < size
    ensures var s := SpanAt(size, ts, ov, k); s.o <= p < s.o + s.n <==> RowOf(p, ts) == k
  {
    StartsInside(size, ts, k);
    RowRun(p, ts, k, 0, ts);
  }

  lemma NthTileHolds(g: Grid, k: nat, px: nat, py: nat)
    requires g.Valid() && k < g.Count() && px < g.w && py < g.h
    ensures RowOf(px, g.ts) < g.Cols()
    ensures InnerContains(NthTile(g, k), px, py) <==> k == TileIndexOf(g, px, py)
  {
    var rows, cols := g.Rows(), g.Cols();
    NonemptyArea(k, rows, cols);
    RowInRange(k, rows, cols);
    TileOfPixel(g.w, g.ts, px);
    SpanHolds(g.w, g.ts, g.ov, ColOf(k, cols), px);
    SpanHolds(g.h, g.ts, g.ov, RowOf(k, cols), py);
    CellAddress(k, cols);
    CellAt(RowOf(py, g.ts), RowOf(px, g.ts), cols);
  }

  /** Every pixel lies in the inner region of exactly one tile. */
  lemma InnerRegionsPartition(g: Grid, px: nat, py: nat)
    requires g.Valid() && px < g.w && py < g.h
    ensures TileIndexOf(g, px, py) < |Layout(g)|
    ensures forall k :: 0 <= k < |Layout(g)| ==> (InnerContains(Layout(g)[k], px, py) <==> k == TileIndexOf(g, px, py))
  {
    TileOfPixel(g.w, g.ts, px);
    TileOfPixel(g.h, g.ts, py);
    CellInRange(RowOf(py, g.ts), RowOf(px, g.ts), g.Rows(), g.Cols());
    forall k | 0 <= k < |Layout(g)| ensures InnerContains(Layout(g)[k], px, py) <==> k == TileIndexOf(g, px, py) {
      NthTileHolds(g, k, px, py);
    }
  }

  /** What overlap and clamping make of an inner region: the expanded tile reaches `ov` pixels
      further on every side, or to the edge of the frame, and holds the inner region at
      (`innerX`, `innerY`). */
  ghost predicate WellCut(g: Grid, t: OverlapTile) {
    && t.frameX == t.x + t.innerX && t.frameY == t.y + t.innerY
    && 1 <= t.innerW <= g.ts && 1 <= t.innerH <= g.ts
    && t.frameX + t.innerW <= g.w && t.frameY + t.innerH <= g.h
    && t.x == SaturatingSub(t.frameX, g.ov) && t.x + t.width == Min(t.frameX + t.innerW + g.ov, g.w)
    && t.y == SaturatingSub(t.frameY, g.ov) && t.y + t.height == Min(t.frameY + t.innerH + g.ov, g.h)
  }

  /** Every tile of the layout is cut that way; in particular it stays inside the frame. */
  lemma TilesAreWellCut(g: Grid, k: nat)
    requires g.Valid() && k < |Layout(g)|
    ensures WellCut(g, Layout(g)[k])
  {
    NonemptyArea(k, g.Rows(), g.Cols());
    RowInRange(k, g.Rows(), g.Cols());
  }

  // ----- Plain tiles, extraction and reassembly --------------------------------------------

  datatype Tile = Tile(col: u16, row: u16, x: nat, y: nat, width: nat, height: nat)

  /** The frame region a tile covers, as a plain tile. */
  function Region(t: OverlapTile): Tile {
    Tile(0, 0, t.x, t.y, t.width, t.height)
  }

  function PlainTileAt(g: Grid, col: nat, row: nat): Tile
    requires g.Valid() && col < g.Cols() && row < g.Rows()
  {
    StartsInside(g.w, g.ts, col);
    StartsInside(g.h, g.ts, row);
    var x, y := Area(col, g.ts), Area(row, g.ts);
    Tile(col % 0x1_0000, row % 0x1_0000, x, y, Min(g.ts, g.w - x), Min(g.ts, g.h - y))
  }

  function NthPlainTile(g: Grid, k: nat): Tile
    requires g.Valid() && k < g.Count()
  {
    NonemptyArea(k, g.Rows(), g.Cols());
    RowInRange(k, g.Rows(), g.Cols());
    PlainTileAt(g, ColOf(k, g.Cols()), RowOf(k, g.Cols()))
  }

  function PlainLayout(g: Grid): (tiles: seq<Tile>)
    requires g.Valid()
    ensures |tiles| == g.Count()
    ensures forall k :: 0 <= k < |tiles| ==> tiles[k] == NthPlainTile(g, k)
  {
    seq(g.Count(), k requires 0 <= k < g.Count() => NthPlainTile(g, k))
  }

  lemma PlainLayoutAt(g: Grid, col: nat, row: nat)
    requires g.Valid() && col < g.Cols() && row < g.Rows()
    ensures var k := Area(row, g.Cols()) + col; k < g.Count() && PlainLayout(g)[k] == PlainTileAt(g, col, row)
  {
    CellInRange(row, col, g.Rows(), g.Cols());
    CellAt(row, col, g.Cols());
  }

  /** The plain tiles stand in the same order and at the same places, and carry their column and row. */
  lemma PlainTilePlaces(g: Grid, cols: nat, col: nat, row: nat)
    requires g.Valid() && cols == (g.w + g.ts - 1) / g.ts && col < cols && row < (g.h + g.ts - 1) / g.ts
    ensures 0 <= row * cols + col < |PlainLayout(g)|
    ensures var t := PlainLayout(g)[row * cols + col];
      && t.x == col * g.ts && t.y == row * g.ts && t.col == col % 0x1_0000 && t.row == row % 0x1_0000
      && t.x + t.width == Min(t.x + g.ts, g.w) && t.y + t.height == Min(t.y + g.ts, g.h)
  {
    CeilDivIsRoundedUp(g.w, g.ts);
    CeilDivIsRoundedUp(g.h, g.ts);
    AreaIsProduct(row, cols);
    AreaIsProduct(col, g.ts);
    AreaIsProduct(row, g.ts);
    PlainLayoutAt(g, col, row);
  }

  method PlainGeometry(w: nat, h: nat, ts: nat, col: nat, row: nat) returns (tile: Tile)
    requires ts > 0 && col < CeilDiv(w, ts) && row < CeilDiv(h, ts)
    ensures tile == PlainTileAt(Grid(w, h, ts, 0), col, row)
  {
    var x := col * ts;
    var y := row * ts;
    AreaIsProduct(col, ts);
    AreaIsProduct(row, ts);
    StartsInside(w, ts, col);
    StartsInside(h, ts, row);
    tile := Tile(col % 0x1_0000, row % 0x1_0000, x, y, Min(ts, w - x), Min(ts, h - y));
  }

  method ComputeTiles(w: nat, h: nat, ts: nat, tiles: array<Tile>) returns (count: nat)
    requires ts > 0
    modifies tiles
    ensures count == Min(Grid(w, h, ts, 0).Count(), tiles.Length)
    ensures FilledTo(tiles[..], PlainLayout(Grid(w, h, ts, 0)), old(tiles[..]), count)
  {
    ghost var g := Grid(w, h, ts, 0);
    var cols := TilesAlong(w, ts);
    var rows := TilesAlong(h, ts);
    ghost var all := PlainLayout(g);
    count := 0;
    for row := 0 to rows
      invariant count == Area(row, cols) && FilledTo(tiles[..], all, old(tiles[..]), count)
    {
      AreaMonotone(row + 1, rows, cols);
      for col := 0 to cols
        invariant count == Area(row, cols) + col && FilledTo(tiles[..], all, old(tiles[..]), count)
      {
        if count >= tiles.Length {
          CellInRange(row, col, rows, cols);
          return;
        }
        PlainLayoutAt(g, col, row);
        var geo := PlainGeometry(w, h, ts, col, row);
        ghost var before := tiles[..];
        tiles[count] := geo;
        assert tiles[..] == before[count := all[count]];
        FillNext(before, all, old(tiles[..]), count);
        count := count + 1;
      }
    }
  }

  /** A number of tiles computed without listing them. */
  function TileCount(w: nat, h: nat, ts: nat): (n: nat)
    requires ts > 0
    ensures n == |PlainLayout(Grid(w, h, ts, 0))|
  {
    CeilDivIsRoundedUp(w, ts);
    CeilDivIsRoundedUp(h, ts);
    AreaIsProduct(CeilDiv(h, ts), CeilDiv(w, ts));
    (h + ts - 1) / ts * ((w + ts - 1) / ts)
  }

  /** The tile is inside an image of `size` pixels in rows of `iw`. */
  predicate Fits(t: Tile, iw: nat, size: nat) {
    iw > 0 && t.x + t.width <= iw && Area(t.y + t.height, iw) <= size
  }

  predicate InTile(t: Tile, px: nat, py: nat) {
    t.x <= px < t.x + t.width && t.y <= py < t.y + t.height
  }

  /** Position in the image of sample `k` of the tile. */
  function SourceIndex(t: Tile, iw: nat, size: nat, k: nat): (i: nat)
    requires Fits(t, iw, size) && k < Area(t.height, t.width)
    ensures i < size
  {
    NonemptyArea(k, t.height, t.width);
    RowInRange(k, t.height, t.width);
    AreaStep(t.y + RowOf(k, t.width), t.y + t.height, iw);
    Area(t.y + RowOf(k, t.width), iw) + t.x + ColOf(k, t.width)
  }

  /** The tile's samples, row by row. */
  function Extracted<T>(image: seq<T>, iw: nat, t: Tile): (data: seq<T>)
    requires Fits(t, iw, |image|)
    ensures |data| == Area(t.height, t.width)
    ensures forall k :: 0 <= k < |data| ==> data[k] == image[SourceIndex(t, iw, |image|, k)]
  {
    seq(Area(t.height, t.width), k requires 0 <= k < Area(t.height, t.width) => image[SourceIndex(t, iw, |image|, k)])
  }

  /** Position in the tile of the image pixel in column `px` and row `py`. */
  function TargetIndex(t: Tile, px: nat, py: nat): (k: nat)
    requires InTile(t, px, py)
    ensures k < Area(t.height, t.width)
  {
    CellInRange(py - t.y, px - t.x, t.height, t.width);
    Area(py - t.y, t.width) + (px - t.x)
  }

  /** Pixel `i` once the first `rows` rows of the tile have been written over the image. */
  function InsertedPixel<T>(image: seq<T>, iw: nat, t: Tile, data: seq<T>, rows: nat, i: nat): T
    requires iw > 0 && i < |image| && |data| >= Area(t.height, t.width)
  {
    var px, py := ColOf(i, iw), RowOf(i, iw);
    if InTile(t, px, py) && py < t.y + rows then data[TargetIndex(t, px, py)] else image[i]
  }

  function Inserted<T>(image: seq<T>, iw: nat, t: Tile, data: seq<T>, rows: nat): (out: seq<T>)
    requires iw > 0 && |data| >= Area(t.height, t.width)
    ensures |out| == |image|
    ensures forall i :: 0 <= i < |image| ==> out[i] == InsertedPixel(image, iw, t, data, rows, i)
  {
    seq(|image|, i requires 0 <= i < |image| => InsertedPixel(image, iw, t, data, rows, i))
  }

  /** Row `ty` of a tile is inside the tile and inside the image. */
  lemma TileRow(t: Tile, iw: nat, size: nat, ty: nat)
    requires Fits(t, iw, size) && ty < t.height
    ensures Area(t.y + ty, iw) + t.x + t.width <= size
    ensures Area(ty, t.width) + t.width <= Area(t.height, t.width)
  {
    AreaStep(t.y + ty, t.y + t.height, iw);
    AreaStep(ty, t.height, t.width);
  }

  /** Where sample `tx` of row `ty` comes from. */
  lemma SourceAt(t: Tile, iw: nat, size: nat, ty: nat, tx: nat)
    requires Fits(t, iw, size) && ty < t.height && tx < t.width
    ensures Area(ty, t.width) + tx < Area(t.height, t.width)
    ensures SourceIndex(t, iw, size, Area(ty, t.width) + tx) == Area(t.y + ty, iw) + t.x + tx
  {
    CellInRange(ty, tx, t.height, t.width);
    CellAt(ty, tx, t.width);
    SourceOfCell(t, iw, size, Area(ty, t.width) + tx, ty, tx);
  }

  lemma SourceOfCell(t: Tile, iw: nat, size: nat, k: nat, ty: nat, tx: nat)
    requires Fits(t, iw, size) && k < Area(t.height, t.width) && t.width > 0
    requires RowOf(k, t.width) == ty && ColOf(k, t.width) == tx
    ensures SourceIndex(t, iw, size, k) == Area(t.y + ty, iw) + t.x + tx
  {
  }

  method ExtractTile<T>(image: seq<T>, iw: nat, t: Tile, output: array<T>)
    requires Fits(t, iw, |image|) && Area(t.height, t.width) <= output.Length
    modifies output
    ensures FilledTo(output[..], Extracted(image, iw, t), old(output[..]), Area(t.height, t.width))
  {
    ghost var data := Extracted(image, iw, t);
    for ty := 0 to t.height
      invariant FilledTo(output[..], data, old(output[..]), Area(ty, t.width))
    {
      ExtractRow(image, iw, t, ty, output, data, old(output[..]));
    }
  }

  /** One turn of the extraction loop: row `ty` of the tile. */
  method ExtractRow<T>(image: seq<T>, iw: nat, t: Tile, ty: nat, output: array<T>,
                       ghost data: seq<T>, ghost was: seq<T>)
    requires Fits(t, iw, |image|) && ty < t.height && Area(t.height, t.width) <= output.Length
    requires data == Extracted(image, iw, t) && FilledTo(output[..], data, was, Area(ty, t.width))
    modifies output
    ensures FilledTo(output[..], data, was, Area(ty + 1, t.width))
  {
    var src := (t.y + ty) * iw + t.x;
    var dst := ty * t.width;
    AreaIsProduct(t.y + ty, iw);
    AreaIsProduct(ty, t.width);
    ExtractedRow(image, iw, t, ty);
    FillRun(output[..], data, was, dst, image[src..src + t.width]);
    CopyAll(image[src..src + t.width], output, dst);
  }

  lemma ExtractedRow<T>(image: seq<T>, iw: nat, t: Tile, ty: nat)
    requires Fits(t, iw, |image|) && ty < t.height
    ensures var dst, src := Area(ty, t.width), Area(t.y + ty, iw) + t.x;
            && dst + t.width <= Area(t.height, t.width) && src + t.width <= |image|
            && Extracted(image, iw, t)[dst..dst + t.width] == image[src..src + t.width]
  {
    var dst, src, data := Area(ty, t.width), Area(t.y + ty, iw) + t.x, Extracted(image, iw, t);
    TileRow(t, iw, |image|, ty);
    var row, run := data[dst..dst + t.width], image[src..src + t.width];
    forall i | 0 <= i < t.width ensures row[i] == run[i] {
      ExtractedAt(image, iw, t, ty, i);
    }
  }

  lemma ExtractedAt<T>(image: seq<T>, iw: nat, t: Tile, ty: nat, i: nat)
    requires Fits(t, iw, |image|) && ty < t.height && i < t.width
    ensures Area(ty, t.width) + i < |Extracted(image, iw, t)| && Area(t.y + ty, iw) + t.x + i < |image|
    ensures Extracted(image, iw, t)[Area(ty, t.width) + i] == image[Area(t.y + ty, iw) + t.x + i]
  {
    TileRow(t, iw, |image|, ty);
    SourceAt(t, iw, |image|, ty, i);
  }

  /** `dst[at..at + src.len()].copy_from_slice(src)`. */
  method CopyAll<T>(src: seq<T>, dst: array<T>, at: nat)
    requires at + |src| <= dst.Length
    modifies dst
    ensures dst[..] == old(dst[..])[..at] + src + old(dst[..])[at + |src|..]
  {
    forall i | 0 <= i < |src| {
      dst[at + i] := src[i];
    }
    forall k | 0 <= k < dst.Length
      ensures dst[k] == (old(dst[..])[..at] + src + old(dst[..])[at + |src|..])[k]
    {
      if at <= k < at + |src| {
        assert dst[at + (k - at)] == src[k - at];
      }
    }
  }

  lemma InsertedRow<T>(image: seq<T>, iw: nat, t: Tile, data: seq<T>, ty: nat, i: nat)
    requires Fits(t, iw, |image|) && |data| >= Area(t.height, t.width) && ty < t.height && i < |image|
    ensures var dst := Area(t.y + ty, iw) + t.x;
            InsertedPixel(image, iw, t, data, ty + 1, i)
            == if dst <= i < dst + t.width then TileRow(t, iw, |image|, ty); data[Area(ty, t.width) + (i - dst)]
               else InsertedPixel(image, iw, t, data, ty, i)
  {
    RowRun(i, iw, t.y + ty, t.x, t.width);
    CellAddress(i, iw);
  }

  method InsertTile<T>(data: seq<T>, t: Tile, image: array<T>, iw: nat)
    requires Fits(t, iw, image.Length) && Area(t.height, t.width) <= |data|
    modifies image
    ensures image[..] == Inserted(old(image[..]), iw, t, data, t.height)
  {
    ghost var before := image[..];
    for ty := 0 to t.height
      invariant image[..] == Inserted(before, iw, t, data, ty)
    {
      var src := ty * t.width;
      var dst := (t.y + ty) * iw + t.x;
      AreaIsProduct(t.y + ty, iw);
      AreaIsProduct(ty, t.width);
      TileRow(t, iw, image.Length, ty);
      CopyAll(data[src..src + t.width], image, dst);
      forall i | 0 <= i < image.Length ensures image[i] == Inserted(before, iw, t, data, ty + 1)[i] {
        InsertedRow(before, iw, t, data, ty, i);
      }
    }
  }

  /** Extracts every tile from `source` and inserts it into `canvas`, in order. */
  ghost function Reassembled<T>(source: seq<T>, iw: nat, tiles: seq<Tile>, canvas: seq<T>): (out: seq<T>)
    requires |canvas| == |source| && forall k :: 0 <= k < |tiles| ==> Fits(tiles[k], iw, |source|)
    ensures |out| == |source|
  {
    if tiles == [] then canvas
    else
      var n := |tiles| - 1;
      var t, before := tiles[n], Reassembled(source, iw, tiles[..n], canvas);
      Inserted(before, iw, t, Extracted(source, iw, t), t.height)
  }

  /** Extracting and inserting a tile restores its own pixels and touches no other. */
  lemma ExtractInsertPixel<T>(source: seq<T>, canvas: seq<T>, iw: nat, t: Tile, i: nat)
    requires |canvas| == |source| && Fits(t, iw, |source|) && i < |source|
    ensures InsertedPixel(canvas, iw, t, Extracted(source, iw, t), t.height, i)
            == if InTile(t, ColOf(i, iw), RowOf(i, iw)) then source[i] else canvas[i]
  {
    var px, py := ColOf(i, iw), RowOf(i, iw);
    if InTile(t, px, py) {
      var k := TargetIndex(t, px, py);
      CellAt(py - t.y, px - t.x, t.width);
      CellAddress(i, iw);
      assert SourceIndex(t, iw, |source|, k) == i;
    }
  }

  ghost predicate Covered(tiles: seq<Tile>, px: nat, py: nat) {
    exists k :: 0 <= k < |tiles| && InTile(tiles[k], px, py)
  }

  lemma {:induction false} ReassembledPixel<T>(source: seq<T>, iw: nat, tiles: seq<Tile>, canvas: seq<T>, i: nat)
    requires |canvas| == |source| && iw > 0 && i < |source|
    requires forall k :: 0 <= k < |tiles| ==> Fits(tiles[k], iw, |source|)
    ensures Reassembled(source, iw, tiles, canvas)[i]
            == if Covered(tiles, ColOf(i, iw), RowOf(i, iw)) then source[i] else canvas[i]
    decreases |tiles|
  {
    if tiles != [] {
      var px, py, n := ColOf(i, iw), RowOf(i, iw), |tiles| - 1;
      var front := tiles[..n];
      ReassembledPixel(source, iw, front, canvas, i);
      ExtractInsertPixel(source, Reassembled(source, iw, front, canvas), iw, tiles[n], i);
      CoveredByOneMore(tiles, px, py);
    }
  }

  lemma CoveredByOneMore(tiles: seq<Tile>, px: nat, py: nat)
    requires tiles != []
    ensures var n := |tiles| - 1; Covered(tiles, px, py) <==> Covered(tiles[..n], px, py) || InTile(tiles[n], px, py)
  {
    var n := |tiles| - 1;
    if Covered(tiles[..n], px, py) {
      var k :| 0 <= k < n && InTile(tiles[..n][k], px, py);
      assert InTile(tiles[k], px, py);
    }
    if Covered(tiles, px, py) {
      var k :| 0 <= k < |tiles| && InTile(tiles[k], px, py);
      assert k < n ==> InTile(tiles[..n][k], px, py);
    }
  }

  lemma PlainTileFits(g: Grid, k: nat)
    requires g.Valid() && k < g.Count()
    ensures g.w > 0 && Fits(PlainLayout(g)[k], g.w, Area(g.h, g.w))
  {
    var t := PlainLayout(g)[k];
    NonemptyArea(k, g.Rows(), g.Cols());
    RowInRange(k, g.Rows(), g.Cols());
    StartsInside(g.w, g.ts, ColOf(k, g.Cols()));
    StartsInside(g.h, g.ts, RowOf(k, g.Cols()));
    AreaMonotone(t.y + t.height, g.h, g.w);
  }

  /** Each pixel is in exactly one plain tile. */
  lemma PlainTilesPartition(g: Grid, px: nat, py: nat)
    requires g.Valid() && px < g.w && py < g.h
    ensures TileIndexOf(g, px, py) < g.Count()
    ensures forall k :: 0 <= k < g.Count() ==> (InTile(PlainLayout(g)[k], px, py) <==> k == TileIndexOf(g, px, py))
  {
    InnerRegionsPartition(g, px, py);
    forall k | 0 <= k < g.Count()
      ensures InTile(PlainLayout(g)[k], px, py) <==> InnerContains(Layout(g)[k], px, py)
    {
      NonemptyArea(k, g.Rows(), g.Cols());
      RowInRange(k, g.Rows(), g.Cols());
    }
  }

  /** Reassembly: extracting every tile and inserting it into any image of the same size
      reproduces the source. */
  lemma ReassemblyRestoresImage<T>(source: seq<T>, canvas: seq<T>, g: Grid)
    requires g.Valid() && |source| == |canvas| == Area(g.h, g.w)
    ensures forall k :: 0 <= k < g.Count() ==> Fits(PlainLayout(g)[k], g.w, |source|)
    ensures Reassembled(source, g.w, PlainLayout(g), canvas) == source
  {
    var tiles := PlainLayout(g);
    forall k | 0 <= k < |tiles| ensures Fits(tiles[k], g.w, |source|) {
      PlainTileFits(g, k);
    }
    var out := Reassembled(source, g.w, tiles, canvas);
    forall i | 0 <= i < |source| ensures out[i] == source[i] {
      NonemptyArea(i, g.h, g.w);
      ReassembledPixel(source, g.w, tiles, canvas, i);
      LayoutCovers(g, i);
    }
  }

  lemma LayoutCovers(g: Grid, i: nat)
    requires g.Valid() && g.w > 0 && i < Area(g.h, g.w)
    ensures Covered(PlainLayout(g), ColOf(i, g.w), RowOf(i, g.w))
  {
    RowInRange(i, g.h, g.w);
    var px, py := ColOf(i, g.w), RowOf(i, g.w);
    PlainTilesPartition(g, px, py);
    assert InTile(PlainLayout(g)[TileIndexOf(g, px, py)], px, py);
  }
}
