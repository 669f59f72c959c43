/** The mosaic geometry: row count, canvas size, glyph positions and the stamp list. */
module Layout {
  import opened Types
  import opened Arith
  import opened Glyphs

  /** Vertical correction applied to the row count of the downsampled image. */
  const AdjustedRatio: real := 0.5
  /** How much taller than wide a character cell is drawn. */
  const CharAspectRatio: real := 1.3

  /** Rows of the downsampled image: the height-to-width ratio times the column count times one half, truncated. */
  function NewHeight(imgWidth: int, imgHeight: int, columns: int): (rows: int)
    requires imgWidth > 0 && imgHeight >= 0 && columns >= 0
    ensures rows >= 0
  {
    var ratio := imgHeight as real / imgWidth as real;
    assert ratio * columns as real >= 0.0;
    (ratio * columns as real * AdjustedRatio).Floor
  }

  /** The row count is floor(columns * H / (2 * W)): the largest r with 2 * W * r <= columns * H. */
  lemma NewHeightQuotient(imgWidth: int, imgHeight: int, columns: int)
    requires imgWidth > 0 && imgHeight >= 0 && columns >= 0
    ensures NewHeight(imgWidth, imgHeight, columns) == columns * imgHeight / (2 * imgWidth)
    ensures var rows := NewHeight(imgWidth, imgHeight, columns);
            2 * imgWidth * rows <= columns * imgHeight < 2 * imgWidth * (rows + 1)
  {
    var ratio := imgHeight as real / imgWidth as real;
    assert ratio * imgWidth as real == imgHeight as real;
    assert ratio * columns as real * AdjustedRatio == (columns * imgHeight) as real / (2 * imgWidth) as real;
    FloorOfQuotient(columns * imgHeight, 2 * imgWidth);
  }

  /** A 4:3 source at the default 120 columns gives 45 rows, whatever its resolution. */
  lemma FourByThreeRows(k: int)
    requires k > 0
    ensures NewHeight(4 * k, 3 * k, 120) == 45
  {
    NewHeightQuotient(4 * k, 3 * k, 120);
    assert 120 * (3 * k) == 45 * (2 * (4 * k));
    DivModUnique(120 * (3 * k), 2 * (4 * k), 45, 0);
  }

  /** Character rows the canvas is sized for: rows * 1.3, truncated. */
  function CharRows(rows: int): (n: int)
    requires rows >= 0
    ensures n >= 0
    ensures n == 13 * rows / 10
    ensures 10 * n <= 13 * rows < 10 * n + 10
  {
    assert rows as real * CharAspectRatio == (13 * rows) as real / 10.0;
    FloorOfQuotient(13 * rows, 10);
    (rows as real * CharAspectRatio).Floor
  }

  /** Canvas width: one glyph advance per column. */
  function CanvasWidth(columns: int, m: Metrics): int
  {
    columns * m.fw
  }

  /** Canvas height: truncated rows * 1.3 lines of one glyph height each. */
  function CanvasHeight(rows: int, m: Metrics): int
    requires rows >= 0
  {
    CharRows(rows) * m.fh
  }

  /** Where the glyph of column x, row y is drawn: x advances across, y * 1.3 lines down. */
  function StampPos(x: int, y: int, m: Metrics): Pos
  {
    Pos(x * m.fw, (y * m.fh) as real * CharAspectRatio)
  }

  /**
   * A cell in the grid's columns and rows is stamped inside the canvas: its glyph
   * box fits horizontally, and its top edge lies above the bottom of the canvas.
   */
  lemma StampInsideCanvas(x: int, y: int, columns: int, rows: int, m: Metrics)
    requires 0 <= x < columns && 0 <= y < rows && m.fw > 0 && m.fh > 0
    ensures 0 <= StampPos(x, y, m).x && StampPos(x, y, m).x + m.fw <= CanvasWidth(columns, m)
    ensures 0.0 <= StampPos(x, y, m).y < CanvasHeight(rows, m) as real
  {
    MulNonNegative(x, m.fw);
    MulNonNegative(columns - x - 1, m.fw);
    assert (columns - x - 1) * m.fw == columns * m.fw - x * m.fw - m.fw;
    var c := CharRows(rows);
    assert 13 * y < 10 * c;
    var a, b := y * m.fh, c * m.fh;
    MulNonNegative(y, m.fh);
    MulNonNegative(10 * c - 13 * y - 1, m.fh);
    assert (10 * c - 13 * y) * m.fh == 10 * b - 13 * a;
    assert 13 * a < 10 * b;
    assert StampPos(x, y, m).y == (13 * a) as real / 10.0;
  }

  /**
   * The glyph box of the last row, one glyph height tall, ends inside the canvas
   * exactly when rows * 13 leaves a remainder of at most 3 modulo 10; for 45 rows
   * (remainder 5) it overhangs the bottom edge.
   */
  lemma LastRowFits(rows: int, m: Metrics)
    requires rows >= 1 && m.fh > 0
    ensures StampPos(0, rows - 1, m).y + m.fh as real <= CanvasHeight(rows, m) as real
            <==> (13 * rows) % 10 <= 3
  {
    var c := CharRows(rows);
    ScaledRowFits((rows - 1) * m.fh, m.fh, c * m.fh);
    LastRowGap(rows, c, m.fh);
    assert (13 * rows) % 10 == 13 * rows - 10 * c;
  }

  /** A row whose top is at a * 1.3 and whose height is f ends by b, in integers. */
  lemma ScaledRowFits(a: int, f: int, b: int)
    ensures (a as real) * CharAspectRatio + f as real <= b as real <==> 13 * a + 10 * f <= 10 * b
  {
  }

  /** The last row's overhang is (13 * rows - 3 - 10 * c) glyph heights, over 10. */
  lemma LastRowGap(rows: int, c: int, fh: int)
    requires fh > 0
    ensures 13 * ((rows - 1) * fh) + 10 * fh <= 10 * (c * fh) <==> 13 * rows - 10 * c <= 3
  {
    var d := 13 * rows - 3 - 10 * c;
    assert d * fh == 13 * ((rows - 1) * fh) + 10 * fh - 10 * (c * fh) by {
      assert (rows - 1) * fh == rows * fh - fh;
      assert d * fh == 13 * (rows * fh) - 3 * fh - 10 * (c * fh);
    }
    SignOfProduct(d, fh);
  }

  /** The stamps for one row y, left to right. */
  function RowStamps(row: seq<Cell>, y: int, m: Metrics): (stamps: seq<Stamp>)
    ensures |stamps| == |row|
    ensures forall x :: 0 <= x < |row| ==>
              stamps[x] == Stamp(StampPos(x, y, m), row[x].glyph, row[x].color)
  {
    seq(|row|, x requires 0 <= x < |row| => Stamp(StampPos(x, y, m), row[x].glyph, row[x].color))
  }

  /** Stamps of the first x + 1 cells of a row: those of the first x, then cell x's. */
  lemma RowStampsStep(row: seq<Cell>, y: int, m: Metrics, x: int)
    requires 0 <= x < |row|
    ensures RowStamps(row, y, m)[..x + 1] ==
              RowStamps(row, y, m)[..x] + [Stamp(StampPos(x, y, m), row[x].glyph, row[x].color)]
  {
    var rs := RowStamps(row, y, m);
    assert rs[..x + 1] == rs[..x] + [rs[x]];
  }

  /**
   * The stamps for a grid whose first row is row y0, row by row: one stamp per
   * cell, in row-major order, each with its cell's glyph and colour.
   */
  function GridStamps(grid: seq<seq<Cell>>, y0: int, m: Metrics): seq<Stamp>
  {
    if grid == [] then []
    else RowStamps(grid[0], y0, m) + GridStamps(grid[1..], y0 + 1, m)
  }

  /**
   * One stamp per grid cell: stamp k carries the glyph and colour of the k-th
   * cell of the rows joined together.
   */
  lemma {:induction false} GridStampsCells(grid: seq<seq<Cell>>, y0: int, m: Metrics)
    ensures |GridStamps(grid, y0, m)| == |Flatten(grid)|
    ensures forall k :: 0 <= k < |GridStamps(grid, y0, m)| ==>
              GridStamps(grid, y0, m)[k].glyph == Flatten(grid)[k].glyph &&
              GridStamps(grid, y0, m)[k].fill == Flatten(grid)[k].color
    decreases |grid|
  {
    if grid != [] {
      GridStampsCells(grid[1..], y0 + 1, m);
    }
  }

  /** Stamping two grids one after the other: the second grid's rows continue the row count. */
  lemma {:induction false} GridStampsAppend(a: seq<seq<Cell>>, b: seq<seq<Cell>>, y0: int, m: Metrics)
    ensures GridStamps(a + b, y0, m) == GridStamps(a, y0, m) + GridStamps(b, y0 + |a|, m)
    decreases |a|
  {
    if a == [] {
      assert a + b == b;
    } else {
      assert (a + b)[1..] == a[1..] + b;
      GridStampsAppend(a[1..], b, y0 + 1, m);
    }
  }

  /** The stamps of the first y + 1 rows: those of the first y, then row y's. */
  lemma GridStampsSnoc(grid: seq<seq<Cell>>, y: int, m: Metrics)
    requires 0 <= y < |grid|
    ensures GridStamps(grid[..y + 1], 0, m) == GridStamps(grid[..y], 0, m) + RowStamps(grid[y], y, m)
  {
    assert grid[..y + 1] == grid[..y] + [grid[y]];
    GridStampsAppend(grid[..y], [grid[y]], 0, m);
  }

  /** In a grid of rows of w cells, stamp RowStart(r, w) + c is cell (c, y0 + r). */
  lemma {:induction false} GridStampAtRowStart(grid: seq<seq<Cell>>, w: nat, y0: int, m: Metrics, r: nat, c: int)
    requires forall i :: 0 <= i < |grid| ==> |grid[i]| == w
    requires r < |grid| && 0 <= c < w
    ensures RowStart(r, w) + c < |GridStamps(grid, y0, m)|
    ensures GridStamps(grid, y0, m)[RowStart(r, w) + c] ==
              Stamp(StampPos(c, y0 + r, m), grid[r][c].glyph, grid[r][c].color)
    decreases r
  {
    if r > 0 {
      GridStampAtRowStart(grid[1..], w, y0 + 1, m, r - 1, c);
    }
  }

  /** In a grid of rows of w cells, stamp r * w + c is the cell in column c of row y0 + r. */
  lemma GridStampAt(grid: seq<seq<Cell>>, w: nat, y0: int, m: Metrics, r: int, c: int)
    requires forall i :: 0 <= i < |grid| ==> |grid[i]| == w
    requires 0 <= r < |grid| && 0 <= c < w
    ensures 0 <= r * w + c < |GridStamps(grid, y0, m)|
    ensures GridStamps(grid, y0, m)[r * w + c] ==
              Stamp(StampPos(c, y0 + r, m), grid[r][c].glyph, grid[r][c].color)
  {
    RowStartIsProduct(r, w);
    GridStampAtRowStart(grid, w, y0, m, r, c);
  }
}
