/** The converter object: configuration fixed at construction, per-image state set step by step. */
module Converter {
  import opened Types
  import opened Glyphs
  import opened Layout
  import opened Render

  /** Character columns used when the caller does not choose. */
  const DefaultWidth: int := 120
  /** Font loaded when no usable font path is requested, or when the requested one fails. */
  const DefaultFontName: string := "DejaVuSansMono.ttf"

  /** The font path tried first: the requested one when it is given and exists, else the default. */
  function ChooseFontPath(font: Option<string>, onDisk: bool): (path: string)
    ensures path == DefaultFontName || (font.Some? && path == font.value)
    ensures font.Some? && font.value != "" && onDisk ==> path == font.value
    ensures font.None? || font.value == "" || !onDisk ==> path == DefaultFontName
  {
    if font.Some? && font.value != "" && onDisk then font.value else DefaultFontName
  }

  class ImageToAsciiConverter {
    /** Configuration: column count and palette, set at construction and never reassigned. */
    const width: int
    const charset: seq<string>

    /** The opened source picture. */
    var img: Option<Picture>
    /** Rows of the downsampled image. */
    var newHeight: int
    /** The downsampled greyscale and colour images. */
    var grey: seq<Luma>
    var original: seq<RGB>

    /** Their samples, the glyph per sample, the (glyph, colour) pairs and the grid of rows. */
    var pixels: seq<Luma>
    var pixelsColors: seq<RGB>
    var newPixels: seq<string>
    var coloredSymbols: seq<Cell>
    var asciiImage: seq<seq<Cell>>

    /** The loaded font face: its path and metrics. */
    var fontPath: string
    var fontWidth: int
    var fontHeight: int

    /** The output canvas's size and the output itself. */
    var asciiImageWidth: int
    var asciiImageHeight: int
    var asciiImageResult: Option<Canvas>

    ghost predicate Valid()
    {
      width > 0 && |charset| >= 1
    }

    /** A converter for the given column count and palette (the default ramp when none or an empty one is given). */
    constructor (width: int := DefaultWidth, charset: Option<seq<string>> := None)
      requires width > 0
      ensures Valid()
      ensures this.width == width && this.charset == ChooseCharset(charset)
      ensures img.None? && asciiImage == [] && asciiImageResult.None?
    {
      this.width := width;
      this.charset := ChooseCharset(charset);
      img := None;
      newHeight := 0;
      grey, original := [], [];
      pixels, pixelsColors, newPixels, coloredSymbols := [], [], [], [];
      asciiImage := [];
      fontPath := DefaultFontName;
      fontWidth, fontHeight := 0, 0;
      asciiImageWidth, asciiImageHeight := 0, 0;
      asciiImageResult := None;
    }

    /** Records the opened picture; a missing file (None) leaves the previous one in place. */
    method OpenImage(outcome: Option<Picture>) returns (ok: bool)
      modifies this`img
      ensures ok == outcome.Some?
      ensures img == if ok then outcome else old(img)
    {
      if outcome.None? {
        return false;
      }
      img := outcome;
      return true;
    }

    /**
     * Computes the row count and keeps the picture resampled to width x newHeight,
     * in colour and in greyscale; the greyscale one replaces the opened picture.
     * The resampler refuses a zero row count, so the caller ensures at least one row,
     * and it delivers width * newHeight samples in each buffer.
     */
    method ResizeImage(sample: Resampled)
      requires Valid() && img.Some? && img.value.width > 0 && img.value.height >= 0
      requires NewHeight(img.value.width, img.value.height, width) >= 1
      requires |sample.luma| == |sample.colors| == width * NewHeight(img.value.width, img.value.height, width)
      modifies this`img, this`newHeight, this`grey, this`original
      ensures newHeight == NewHeight(old(img).value.width, old(img).value.height, width)
      ensures newHeight >= 1
      ensures grey == sample.luma && original == sample.colors
      ensures |grey| == |original| == width * newHeight
      ensures img == Some(Picture(width, newHeight))
    {
      var aspectRatio := img.value.height as real / img.value.width as real;
      newHeight := (aspectRatio * width as real * AdjustedRatio).Floor;
      original := sample.colors;
      img := Some(Picture(width, newHeight));
      grey := sample.luma;
    }

    /** Quantises every sample to a glyph, pairs glyphs with colours and cuts the pairs into rows of width. */
    method AsciiConversion()
      requires Valid()
      modifies this`pixels, this`pixelsColors, this`newPixels, this`coloredSymbols, this`asciiImage
      ensures pixels == grey && pixelsColors == original
      ensures newPixels == MapGlyphs(pixels, charset)
      ensures coloredSymbols == Zip(newPixels, pixelsColors)
      ensures asciiImage == Chunk(coloredSymbols, width)
    {
      var symbols := Zip(MapGlyphs(grey, charset), original);
      var rows: seq<seq<Cell>> := [];
      var i := 0;
      while i < |symbols|
        invariant 0 <= i
        invariant rows + Chunk(symbols[Min(i, |symbols|)..], width) == Chunk(symbols, width)
        modifies {}
      {
        var next := Min(i + width, |symbols|);
        var row := symbols[i..next];
        ChunkStep(rows, symbols, width, i);
        rows := rows + [row];
        i := i + width;
      }
      pixels := grey;
      pixelsColors := original;
      newPixels := MapGlyphs(pixels, charset);
      coloredSymbols := Zip(newPixels, pixelsColors);
      asciiImage := rows;
    }

    /**
     * Loads the requested font when it is given and exists, the default otherwise;
     * if the chosen face does not open, falls back to the default. The metrics are
     * those of the face finally loaded.
     */
    method LoadFont(font: Option<string>, env: FontEnv)
      requires env.opens || ChooseFontPath(font, env.onDisk) != DefaultFontName
      modifies this`fontPath, this`fontWidth, this`fontHeight
      ensures fontPath == if env.opens then ChooseFontPath(font, env.onDisk) else DefaultFontName
      ensures fontWidth == env.metrics.fw && fontHeight == env.metrics.fh
      ensures unchanged(this`img, this`newHeight, this`grey, this`original, this`pixels, this`pixelsColors, this`newPixels, this`coloredSymbols, this`asciiImage)
    {
      var path := ChooseFontPath(font, env.onDisk);
      if env.opens {
        fontPath := path;
      } else {
        fontPath := DefaultFontName;
      }
      fontWidth, fontHeight := env.metrics.fw, env.metrics.fh;
    }

    /** Sizes the canvas: width glyph advances across, truncated newHeight * 1.3 glyph heights down. */
    method GetAsciiImageDimensions()
      requires newHeight >= 0
      modifies this`asciiImageWidth, this`asciiImageHeight
      ensures asciiImageWidth == width * fontWidth
      ensures asciiImageHeight == CharRows(newHeight) * fontHeight
      ensures unchanged(this`img, this`newHeight, this`grey, this`original, this`pixels, this`pixelsColors, this`newPixels, this`coloredSymbols, this`asciiImage, this`fontPath, this`fontWidth, this`fontHeight)
    {
      asciiImageWidth := width * fontWidth;
      asciiImageHeight := (newHeight as real * CharAspectRatio).Floor * fontHeight;
      assert asciiImageHeight == CharRows(newHeight) * fontHeight;
    }

    /**
     * Creates a white canvas of the computed size and stamps every cell of the grid,
     * row by row and left to right, at its position in its colour. The grid is only read.
     */
    method CreateAsciiImage() returns (canvas: Canvas)
      modifies this`asciiImageResult
      ensures canvas == Canvas(asciiImageWidth, asciiImageHeight, White,
                               GridStamps(asciiImage, 0, Metrics(fontWidth, fontHeight)))
      ensures asciiImageResult == Some(canvas)
      ensures unchanged(this`img, this`newHeight, this`grey, this`original, this`pixels, this`pixelsColors, this`newPixels, this`coloredSymbols, this`asciiImage, this`fontPath, this`fontWidth, this`fontHeight, this`asciiImageWidth, this`asciiImageHeight)
    {
      var m := Metrics(fontWidth, fontHeight);
      var grid := asciiImage;
      var drawn: seq<Stamp> := [];
      var y := 0;
      while y < |grid|
        invariant 0 <= y <= |grid|
        invariant drawn == GridStamps(grid[..y], 0, m)
      {
        var row := grid[y];
        ghost var before := drawn;
        var x := 0;
        while x < |row|
          invariant 0 <= x <= |row|
          invariant drawn == before + RowStamps(row, y, m)[..x]
        {
          var cell := row[x];
          RowStampsStep(row, y, m, x);
          drawn := drawn + [Stamp(StampPos(x, y, m), cell.glyph, cell.color)];
          x := x + 1;
        }
        GridStampsSnoc(grid, y, m);
        y := y + 1;
      }
      assert grid[..y] == grid;
      canvas := Canvas(asciiImageWidth, asciiImageHeight, White, drawn);
      asciiImageResult := Some(canvas);
    }

    /**
     * Converts one picture: nothing happens and no image is produced when opening
     * failed; otherwise resize, quantise, load the font, size the canvas and draw.
     * The result depends only on the inputs and the constant configuration, so
     * converting the same input twice gives the same image. When the picture opened,
     * the caller supplies one that resamples to at least one row and a font setup
     * under which some face loads, since the source raises otherwise.
     */
    method Convert(source: Option<Picture>, sample: Resampled, font: Option<string>, env: FontEnv)
      returns (result: Option<Canvas>)
      requires Valid()
      requires source.Some? ==> source.value.width > 0 && source.value.height >= 0
      requires source.Some? ==> NewHeight(source.value.width, source.value.height, width) >= 1
      requires source.Some? ==>
                 |sample.luma| == |sample.colors| == width * NewHeight(source.value.width, source.value.height, width)
      requires source.Some? ==> env.opens || ChooseFontPath(font, env.onDisk) != DefaultFontName
      modifies this
      ensures Valid()
      ensures source.Some? ==> result == Some(Mosaic(width, charset, source.value, sample, env.metrics))
      ensures source.None? ==> result.None? && unchanged(this)
      ensures source.Some? ==> newHeight == NewHeight(source.value.width, source.value.height, width)
      ensures source.Some? ==> img == Some(Picture(width, newHeight))
      ensures source.Some? ==> grey == pixels == sample.luma && original == pixelsColors == sample.colors
      ensures source.Some? ==> newPixels == MapGlyphs(sample.luma, charset)
      ensures source.Some? ==> coloredSymbols == Zip(newPixels, sample.colors)
      ensures source.Some? ==> asciiImage == Grid(width, charset, sample) && asciiImageResult == result
      ensures source.Some? ==> |asciiImage| == newHeight && forall y :: 0 <= y < |asciiImage| ==> |asciiImage[y]| == width
      ensures source.Some? ==>
                fontPath == (if env.opens then ChooseFontPath(font, env.onDisk) else DefaultFontName) &&
                fontWidth == env.metrics.fw && fontHeight == env.metrics.fh
      ensures source.Some? ==>
                asciiImageWidth == CanvasWidth(width, env.metrics) && asciiImageHeight == CanvasHeight(newHeight, env.metrics)
    {
      var ok := OpenImage(source);
      if !ok {
        return None;
      }
      ResizeImage(sample);
      AsciiConversion();
      LoadFont(font, env);
      GetAsciiImageDimensions();
      ChunkRectangular(coloredSymbols, width, newHeight);
      var canvas := CreateAsciiImage();
      return Some(canvas);
    }
  }
}
