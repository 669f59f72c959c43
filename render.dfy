/** The whole conversion of one opened image, as a value: the specification the converter meets. */
module Render {
  import opened Types
  import opened Glyphs
  import opened Layout

  /** The grid of (glyph, colour) cells: samples quantised, paired with colours, cut into rows. */
  function Grid(columns: int, palette: seq<string>, sample: Resampled): seq<seq<Cell>>
    requires columns > 0 && |palette| >= 1
  {
    Chunk(Zip(MapGlyphs(sample.luma, palette), sample.colors), columns)
  }

  /** The grid, read row by row, is exactly the glyph/colour pairing of the two sample buffers. */
  lemma GridFlatten(columns: int, palette: seq<string>, sample: Resampled)
    requires columns > 0 && |palette| >= 1
    ensures Flatten(Grid(columns, palette, sample)) == Zip(MapGlyphs(sample.luma, palette), sample.colors)
    ensures |Flatten(Grid(columns, palette, sample))| == Min(|sample.luma|, |sample.colors|)
  {
    ChunkFlatten(Zip(MapGlyphs(sample.luma, palette), sample.colors), columns);
  }

  /**
   * The mosaic for an opened picture: a white canvas sized from the column count,
   * the computed row count and the font metrics, stamped with the grid's cells.
   */
  function Mosaic(columns: int, palette: seq<string>, pic: Picture, sample: Resampled, m: Metrics): Canvas
    requires columns > 0 && |palette| >= 1 && pic.width > 0 && pic.height >= 0
  {
    var rows := NewHeight(pic.width, pic.height, columns);
    Canvas(CanvasWidth(columns, m), CanvasHeight(rows, m), White,
           GridStamps(Grid(columns, palette, sample), 0, m))
  }

  /**
   * The mosaic is white, width * fw across and floor(rows * 1.3) * fh down, and
   * holds one stamp per paired sample.
   */
  lemma MosaicSize(columns: int, palette: seq<string>, pic: Picture, sample: Resampled, m: Metrics)
    requires columns > 0 && |palette| >= 1 && pic.width > 0 && pic.height >= 0
    ensures Mosaic(columns, palette, pic, sample, m).width == columns * m.fw
    ensures Mosaic(columns, palette, pic, sample, m).height ==
              (13 * NewHeight(pic.width, pic.height, columns) / 10) * m.fh
    ensures Mosaic(columns, palette, pic, sample, m).background == White
    ensures |Mosaic(columns, palette, pic, sample, m).stamps| == Min(|sample.luma|, |sample.colors|)
  {
    GridFlatten(columns, palette, sample);
    GridStampsCells(Grid(columns, palette, sample), 0, m);
  }

  /** Stamp k of the mosaic draws sample k's glyph in sample k's colour. */
  lemma MosaicStamps(columns: int, palette: seq<string>, pic: Picture, sample: Resampled, m: Metrics)
    requires columns > 0 && |palette| >= 1 && pic.width > 0 && pic.height >= 0
    ensures |Mosaic(columns, palette, pic, sample, m).stamps| == Min(|sample.luma|, |sample.colors|)
    ensures forall k :: 0 <= k < |Mosaic(columns, palette, pic, sample, m).stamps| ==>
              Mosaic(columns, palette, pic, sample, m).stamps[k].glyph == palette[GlyphIndex(sample.luma[k], |palette|)] &&
              Mosaic(columns, palette, pic, sample, m).stamps[k].fill == sample.colors[k]
  {
    GridFlatten(columns, palette, sample);
    GridStampsCells(Grid(columns, palette, sample), 0, m);
  }

  /**
   * When the resampled buffers hold exactly columns * rows samples, the grid has
   * that many rows of that many cells, and the stamp for column c of row r is the
   * (r * columns + c)-th one: it sits at (c * fw, r * fh * 1.3) inside the canvas
   * and draws sample r * columns + c's glyph in that sample's colour.
   */
  lemma MosaicCell(columns: int, palette: seq<string>, pic: Picture, sample: Resampled, m: Metrics, r: int, c: int)
    requires columns > 0 && |palette| >= 1 && pic.width > 0 && pic.height >= 0
    requires m.fw > 0 && m.fh > 0
    requires |sample.luma| == |sample.colors| == columns * NewHeight(pic.width, pic.height, columns)
    requires 0 <= r < NewHeight(pic.width, pic.height, columns) && 0 <= c < columns
    ensures |Grid(columns, palette, sample)| == NewHeight(pic.width, pic.height, columns)
    ensures forall y :: 0 <= y < |Grid(columns, palette, sample)| ==> |Grid(columns, palette, sample)[y]| == columns
    ensures 0 <= r * columns + c < |sample.luma| && r * columns + c < |Mosaic(columns, palette, pic, sample, m).stamps|
    ensures Mosaic(columns, palette, pic, sample, m).stamps[r * columns + c] ==
              Stamp(StampPos(c, r, m),
                    palette[GlyphIndex(sample.luma[r * columns + c], |palette|)],
                    sample.colors[r * columns + c])
    ensures 0 <= StampPos(c, r, m).x && StampPos(c, r, m).x + m.fw <= Mosaic(columns, palette, pic, sample, m).width
    ensures 0.0 <= StampPos(c, r, m).y < Mosaic(columns, palette, pic, sample, m).height as real
  {
    var rows := NewHeight(pic.width, pic.height, columns);
    var cells := Zip(MapGlyphs(sample.luma, palette), sample.colors);
    ChunkRectangular(cells, columns, rows);
    ChunkCell(cells, columns, rows, r, c);
    GridStampAt(Grid(columns, palette, sample), columns, 0, m, r, c);
    StampInsideCanvas(c, r, columns, rows, m);
  }
}
