/** Row-major numbering of the cells of a grid, in additive form.

    `Area`, `RowOf` and `ColOf` are the product, quotient and remainder that address arithmetic
    uses (`AreaIsProduct`, `RowColAreDivMod`), defined row by row so that proofs about pixel
    addresses stay linear. */
module RowMajor {

  /** Number of cells in `rows` rows of `width` cells. */
  function Area(rows: nat, width: nat): nat {
    if rows == 0 then 0 else Area(rows - 1, width) + width
  }

  /** Row of cell `k`. */
  function RowOf(k: nat, width: nat): nat
    requires width > 0
  {
    if k < width then 0 else RowOf(k - width, width) + 1
  }

  /** Column of cell `k`. */
  function ColOf(k: nat, width: nat): (c: nat)
    requires width > 0
    ensures c < width
  {
    if k < width then k else ColOf(k - width, width)
  }

  lemma {:induction false} AreaIsProduct(rows: nat, width: nat)
    ensures Area(rows, width) == rows * width
  {
    if rows > 0 {
      AreaIsProduct(rows - 1, width);
      assert rows * width == (rows - 1) * width + width;
    }
  }

  lemma {:induction false} AreaMonotone(a: nat, b: nat, width: nat)
    requires a <= b
    ensures Area(a, width) <= Area(b, width)
    decreases b - a
  {
    if a < b { AreaMonotone(a, b - 1, width); }
  }

  /** Rows strictly before `b` end before it starts. */
  lemma AreaStep(a: nat, b: nat, width: nat)
    requires a < b
    ensures Area(a, width) + width <= Area(b, width)
  {
    AreaMonotone(a + 1, b, width);
  }

  /** A cell is in its row and column. */
  lemma {:induction false} CellAddress(k: nat, width: nat)
    requires width > 0
    ensures k == Area(RowOf(k, width), width) + ColOf(k, width)
  {
    if k >= width { CellAddress(k - width, width); }
  }

  /** The cell at a row and column is the only one there. */
  lemma {:induction false} CellAt(row: nat, col: nat, width: nat)
    requires col < width
    ensures RowOf(Area(row, width) + col, width) == row && ColOf(Area(row, width) + col, width) == col
  {
    if row > 0 { CellAt(row - 1, col, width); }
  }

  /** A cell of a grid of `rows` rows lies in one of them. */
  lemma RowInRange(k: nat, rows: nat, width: nat)
    requires width > 0 && k < Area(rows, width)
    ensures RowOf(k, width) < rows
  {
    CellAddress(k, width);
    if RowOf(k, width) >= rows { AreaMonotone(rows, RowOf(k, width), width); }
  }

  /** And conversely. */
  lemma CellInRange(row: nat, col: nat, rows: nat, width: nat)
    requires row < rows && col < width
    ensures Area(row, width) + col < Area(rows, width)
  {
    AreaStep(row, rows, width);
  }

  lemma {:induction false} NonemptyArea(k: nat, rows: nat, width: nat)
    requires k < Area(rows, width)
    ensures rows > 0 && width > 0
  {
    if width == 0 && rows > 0 {
      NonemptyArea(k, rows - 1, width);
    }
  }

  /** Which cells a run inside one row covers. */
  lemma RowRun(k: nat, width: nat, row: nat, x: nat, n: nat)
    requires x + n <= width && width > 0
    ensures Area(row, width) + x <= k < Area(row, width) + x + n <==>
      RowOf(k, width) == row && x <= ColOf(k, width) < x + n
  {
    if Area(row, width) + x <= k < Area(row, width) + x + n {
      CellAt(row, k - Area(row, width), width);
    }
    CellAddress(k, width);
  }

  lemma RowColAreDivMod(k: nat, width: nat)
    requires width > 0
    ensures RowOf(k, width) == k / width && ColOf(k, width) == k % width
  {
    CellAddress(k, width);
    AreaIsProduct(RowOf(k, width), width);
    QuotientUnique(k / width, k % width, RowOf(k, width), ColOf(k, width), width);
  }

  lemma QuotientUnique(a: int, b: int, q: int, r: int, m: int)
    requires a * m + b == q * m + r && 0 <= b < m && 0 <= r < m
    ensures a == q && b == r
  {
    assert (a - q) * m == r - b && (q - a) * m == b - r;
    if a > q { MulAtLeast(a - q, m); }
    if q > a { MulAtLeast(q - a, m); }
  }

  lemma MulAtLeast(k: int, m: int)
    requires k >= 1 && m >= 0
    ensures k * m >= m
  {
    assert k * m == m + (k - 1) * m;
  }
}
