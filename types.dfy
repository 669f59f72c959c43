/** Value types shared by the converter model. */
module Types {

  datatype Option<T> = None | Some(value: T)

  function Min(a: int, b: int): int { if a <= b then a else b }

  /** A greyscale sample as produced by an 8-bit "L" image. */
  type Luma = v: int | 0 <= v <= 255

  /** One 8-bit colour channel. */
  type Byte = b: int | 0 <= b <= 255

  datatype RGB = RGB(r: Byte, g: Byte, b: Byte)

  const White: RGB := RGB(255, 255, 255)

  /** A glyph (a one- or few-character string) paired with the colour it is drawn in. */
  datatype Cell = Cell(glyph: string, color: RGB)

  /** A pixel position on the output canvas; rows are placed at fractional heights. */
  datatype Pos = Pos(x: int, y: real)

  /** One call of the text-drawing primitive: a glyph drawn at a position with a fill colour. */
  datatype Stamp = Stamp(pos: Pos, glyph: string, fill: RGB)

  /** The output image: its size, its background and the ordered list of glyph stamps. */
  datatype Canvas = Canvas(width: int, height: int, background: RGB, stamps: seq<Stamp>)

  /** The dimensions of an opened source image or video frame. */
  datatype Picture = Picture(width: int, height: int)

  /** What resampling the source to (columns, rows) yields: a greyscale and a colour buffer. */
  datatype Resampled = Resampled(luma: seq<Luma>, colors: seq<RGB>)

  /** Glyph advance width and height of a loaded font face. */
  datatype Metrics = Metrics(fw: int, fh: int)

  /**
   * What the file system and the font rasteriser report when a font is requested:
   * whether the requested path exists, whether the chosen face opens, and the
   * metrics of the face that ends up loaded.
   */
  datatype FontEnv = FontEnv(onDisk: bool, opens: bool, metrics: Metrics)
}
