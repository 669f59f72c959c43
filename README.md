# Image-to-ASCII converter: a verified model

This project models `ImageToAsciiConverter` from `image_to_ascii.py`. The converter turns a picture into a coloured character mosaic in five steps:

1. It computes a row count from the picture's aspect ratio, the configured column count and a correction factor of 0.5.
2. It maps each greyscale sample (0..255) of the downsampled picture to a glyph of an ordered palette. The darkest glyph comes first, and the default palette is a 21-symbol ramp.
3. It pairs each glyph with the colour sample at the same position.
4. It cuts the pairs into rows of `width` cells.
5. It sizes a white canvas from the font's glyph advance and height, then stamps every cell's glyph in its colour. Cell (x, y) goes at `(x * fw, y * fh * 1.3)`.

Files and modules:

- `types.dfy` (`Types`): the value types. These are samples, colours, cells, positions, stamps, the canvas, picture dimensions, the resampled buffers, font metrics, and what the file system and rasteriser report about a font.
- `arith.dfy` (`Arith`): integer and rational facts used by the proofs.
- `glyphs.dfy` (`Glyphs`): palette choice, luminance quantisation, glyph/colour pairing and row chunking.
- `layout.dfy` (`Layout`): the row count, canvas size, stamp positions and the stamp list of a grid.
- `render.dfy` (`Render`): the whole conversion of one opened picture, written as a value. This is what the converter object is proved to produce.
- `converter.dfy` (`Converter`): the class `ImageToAsciiConverter`. Its fields are the ones the source sets step by step. Its methods are `OpenImage`, `ResizeImage`, `AsciiConversion` (the row-building loop), `LoadFont`, `GetAsciiImageDimensions`, `CreateAsciiImage` (the nested stamping loop) and `Convert`.

The source computes with floating point. The model uses exact rationals (Dafny `real`) for the same formulas: `256 / N`, `height / width * columns * 0.5`, `rows * 1.3` and `y * fh * 1.3`. It uses `.Floor` for Python's `int()`, which equals truncation because every operand is non-negative. The contracts then state the integer form of each result:

- `GlyphIndex(v, N) == v * N / 256`
- `NewHeight == columns * H / (2 * W)`
- `CharRows(rows) == 13 * rows / 10`

The configuration (`width`, `charset`) is set by the constructor and never reassigned, so the model declares it `const`. The result of `Convert` is a function of its inputs (`Render.Mosaic`). So converting the same picture twice with the same font gives the same canvas.

Behaviours of the code worth knowing:

- A palette of one glyph is accepted. Only an absent or empty charset is replaced by the default.
- The canvas is not always tall enough for the last row's glyph box. `Layout.LastRowFits` shows that the box fits exactly when `13 * rows mod 10 <= 3`. A 4:3 picture at the default 120 columns gives 45 rows, and then the last row overhangs the bottom edge by 0.2 of a glyph height.

## Model

| member | source | states |
|---|---|---|
| `Glyphs.ChooseCharset` | image_to_ascii.py:20-27 | A non-empty charset is used as given. An absent or empty one becomes the 21-symbol default ramp, which runs from "@" to " ". Either way the palette has at least one glyph, so `256 / N` is defined. |
| `Glyphs.ScaleFactor` | image_to_ascii.py:27 | The bucket width is positive, and N buckets of it cover exactly 256 luminance values. |
| `Glyphs.GlyphIndex` | image_to_ascii.py:55 | The sample is divided by the bucket width, truncated and clamped to N-1. The result always lies in [0, N-1], so it indexes the palette. |
| `Glyphs.GlyphIndexQuotient` | image_to_ascii.py:55 | The truncated quotient of sample and bucket width is already below N, so the clamp never binds. The index equals `floor(v * N / 256)`. |
| `Glyphs.GlyphIndexMonotone` | image_to_ascii.py:55 | A darker sample never gets a later palette index than a brighter one, so the palette's darkest-to-lightest order is kept. |
| `Glyphs.GlyphIndexExtremes` | image_to_ascii.py:55 | Luminance 0 selects index 0. Luminance 255 selects index N-1 if and only if N <= 256. |
| `Glyphs.UniformGlyphs` | image_to_ascii.py:55 | An all-black image gets the first glyph in every cell. For a palette of at most 256 glyphs, an all-white image gets the last. |
| `Glyphs.MapGlyphs` | image_to_ascii.py:55 | There is one glyph per sample. Glyph i is the palette entry at sample i's index. |
| `Glyphs.Zip` | image_to_ascii.py:57 | The pair list is as long as the shorter input. Pair i holds glyph i and colour i. |
| `Glyphs.Chunk` | image_to_ascii.py:60-63 | The reference definition of the row loop: the pair list cut into consecutive rows of `width`, the last possibly shorter. Its properties are the `Chunk…` lemmas below. |
| `Glyphs.ChunkFlatten` | image_to_ascii.py:60-63 | Joining the rows back together gives exactly the pair list. |
| `Glyphs.ChunkRowSizes` | image_to_ascii.py:60-63 | Every row is non-empty and holds at most `width` cells. Every row except the last holds exactly `width`. |
| `Glyphs.ChunkCount` | image_to_ascii.py:61 | A list of L pairs gives ceil(L / width) rows. |
| `Glyphs.ChunkStep` | image_to_ascii.py:60-63 | One pass of the row loop keeps its invariant: the rows built so far, then the chunks from the new offset, are the whole chunking. |
| `Glyphs.ChunkFrom` | image_to_ascii.py:61-62 | One loop step: the chunks from offset i are the slice `[i, min(i + width, L))` followed by the chunks after it. |
| `Glyphs.ChunkRectangular` | image_to_ascii.py:60-63 | When L = width * h, there are exactly h rows of exactly `width` cells each. |
| `Glyphs.ChunkCell` | image_to_ascii.py:60-63 | When L = width * h, the cell in row r and column c is pair `r * width + c`. |
| `Layout.NewHeight` | image_to_ascii.py:45-46 | The row count is the source's formula over exact rationals. It is never negative. |
| `Layout.NewHeightQuotient` | image_to_ascii.py:45-46 | The row count equals `floor(width * H / (2 * W))`: it is the largest r with `2 * W * r <= width * H`. |
| `Layout.FourByThreeRows` | image_to_ascii.py:45-46 | Any 4:3 picture at 120 columns gives 45 rows. |
| `Layout.CharRows` | image_to_ascii.py:83 | The canvas's line count `int(rows * 1.3)` equals `floor(13 * rows / 10)`. |
| `Layout.CanvasWidth` | image_to_ascii.py:81 | The canvas width: one glyph advance per column, `width * fw`. |
| `Layout.CanvasHeight` | image_to_ascii.py:83 | The canvas height: `int(rows * 1.3)` lines of one glyph height, given by `CharRows`. |
| `Layout.StampPos` | image_to_ascii.py:97 | Where cell (x, y) is drawn: `(x * fw, y * fh * 1.3)`, over exact rationals. |
| `Layout.StampInsideCanvas` | image_to_ascii.py:81-97 | Take a cell in the grid's columns and rows, with positive metrics. Its stamp's glyph advance fits within the canvas width `width * fw`. Its top edge lies inside the canvas height `floor(rows * 1.3) * fh`. |
| `Layout.LastRowFits` | image_to_ascii.py:83-97 | The last row's glyph box, one glyph height tall, ends inside the canvas if and only if `13 * rows mod 10 <= 3`. |
| `Layout.RowStamps` | image_to_ascii.py:95-101 | A row gives one stamp per cell, left to right. Cell x of row y is drawn at `(x * fw, y * fh * 1.3)` with that cell's glyph and colour. |
| `Layout.GridStamps` | image_to_ascii.py:94-101 | The reference definition of the nested drawing loops: each row's stamps in turn, rows numbered from the first. Its properties are the `GridStamps…` lemmas below. |
| `Layout.GridStampsCells` | image_to_ascii.py:94-101 | There is exactly one stamp per grid cell, in row-major order. Stamp k carries the glyph and colour of the k-th cell of the joined rows. |
| `Layout.GridStampsAppend` | image_to_ascii.py:94-101 | Stamping two grids in turn gives the first grid's stamps, then the second's. The second grid's rows are numbered on from the first's. |
| `Layout.GridStampsSnoc` | image_to_ascii.py:94-101 | One step of the outer loop: the stamps of the first y + 1 rows are those of the first y rows followed by row y's stamps. |
| `Layout.GridStampAt` | image_to_ascii.py:94-101 | In a grid whose rows all hold w cells, stamp `r * w + c` is placed at the position of column c, row r, with that cell's glyph and colour. |
| `Render.Grid` | image_to_ascii.py:50-63 | The grid the converter builds from the resampled buffers: glyphs by `MapGlyphs`, paired by `Zip`, cut by `Chunk`. |
| `Render.Mosaic` | image_to_ascii.py:106-113 | The whole conversion of an opened picture, as a value: a white canvas of `CanvasWidth` by `CanvasHeight` of the row count, holding `GridStamps` of `Grid`. `Convert` is proved to return it. |
| `Render.GridFlatten` | image_to_ascii.py:50-63 | The converter's grid, read row by row, is exactly the glyph/colour pairing of the two sample buffers. |
| `Render.MosaicSize` | image_to_ascii.py:79-104 | The canvas is white and sized `width * fw` by `floor(13 * rows / 10) * fh`. It has one stamp per paired sample, as many as the shorter sample buffer. |
| `Render.MosaicStamps` | image_to_ascii.py:55-101 | Stamp k draws sample k's glyph, the palette entry at `GlyphIndex` of sample k, in sample k's colour. |
| `Render.MosaicCell` | image_to_ascii.py:45-101 | Suppose both buffers hold `width * rows` samples. Then the grid has `rows` rows of `width` cells. The stamp of column c, row r is stamp `r * width + c`: it draws that sample's glyph in that sample's colour at `(c * fw, r * fh * 1.3)`, inside the canvas. |
| `Converter.ChooseFontPath` | image_to_ascii.py:68 | The requested font path is used when it is given, non-empty and on disk. Otherwise the default font is used. |
| `Converter.ImageToAsciiConverter.constructor` | image_to_ascii.py:7-27 | Fixes the column count (default 120) and the palette chosen by `ChooseCharset`. No picture is open yet and no output exists. |
| `Converter.ImageToAsciiConverter.OpenImage` | image_to_ascii.py:30-41 | Succeeds exactly when the picture opened, and then records it. On failure the previous picture is left in place. |
| `Converter.ImageToAsciiConverter.ResizeImage` | image_to_ascii.py:43-48 | Sets the row count to `NewHeight` of the opened picture, which is at least 1. Keeps the greyscale and colour buffers, each holding `width * newHeight` samples. Replaces the opened picture by the resampled one, `width` by `newHeight`. |
| `Converter.ImageToAsciiConverter.AsciiConversion` | image_to_ascii.py:50-63 | Sets the glyph list to `MapGlyphs`, the pairs to `Zip`, and the grid to the rows built by the append loop, which equal `Chunk` of the pairs. |
| `Converter.ImageToAsciiConverter.LoadFont` | image_to_ascii.py:67-77 | Loads the face at `ChooseFontPath`, or the default face if a requested face fails to open. Records the loaded face's glyph advance and height. Changes no other field. |
| `Converter.ImageToAsciiConverter.GetAsciiImageDimensions` | image_to_ascii.py:79-84 | The canvas is `width * fw` wide and `floor(13 * rows / 10) * fh` tall. No other field changes. |
| `Converter.ImageToAsciiConverter.CreateAsciiImage` | image_to_ascii.py:86-104 | The nested loops produce a white canvas of the computed size. It holds exactly the stamps `GridStamps` gives for the grid, in row-major order. No other field changes. |
| `Converter.ImageToAsciiConverter.Convert` | image_to_ascii.py:106-113 | When opening fails, there is no result and no field changes. Otherwise the result is `Mosaic` of the configuration, the picture, the resampled buffers and the loaded font's metrics. Every field is stated: the row count, the resampled picture, the buffers, glyphs and pairs, the grid (`newHeight` rows of `width` cells), the font path and metrics, and the canvas size. |

## Left out

- `realtime_ascii_video.py`: the camera capture and display loop is I/O and window handling only. Its latest-frame-wins queues are not in this code either.
- Image decoding: opening a path or converting a camera frame from BGR to RGB is a library call. It is modelled only by its outcome, an opened picture's dimensions or `None` for a missing file. Other decoding errors, which escape `open_image` as exceptions, are not modelled.
- Resampling and greyscale conversion: the library's resize filter and its luma weights are not modelled. The resampled greyscale and colour buffers are inputs (`Resampled`).
- Font handling: the existence check, opening a TrueType face at size 11 and measuring `getbbox("A")` are inputs (`FontEnv`). The default face is assumed to open when it is the fallback.
- Rasterisation: drawing glyph pixels and filling the white background are library calls. The canvas records the ordered list of draw calls instead.
- Floating point: all ratios are exact rationals. IEEE rounding of `256 / N` or of the aspect ratio could move a sample that sits exactly on a bucket boundary, or a row count that sits exactly on an integer, by one. The model does not capture that.
- Diagnostics and the demonstration block (`print` calls, the `__main__` section) have no behaviour to model.
- `Converter.ImageToAsciiConverter.constructor`: it requires `width > 0`. The source accepts any width and only fails later, in the resize call.
- `Converter.ImageToAsciiConverter.AsciiConversion`: it builds the rows in a local list and stores all the fields after the loop. The source stores the samples, glyphs and pairs first and appends each row to the grid field in place. Nothing reads those fields during the loop, so the final state agrees.
- `Converter.ImageToAsciiConverter.LoadFont`: it requires that some face loads: when the face tried first is already the default and fails to open, the source raises `OSError` from its retry, and that outcome is not modelled.
- `Converter.ImageToAsciiConverter.CreateAsciiImage`: it accumulates the stamps in a local canvas value and stores it at the end. The source draws into the stored image object in place. Nothing else observes the image meanwhile, so the results agree.
- `Converter.ImageToAsciiConverter.Convert`: a picture of width 0 is excluded by its precondition, because the source would divide by zero there. A picture whose row count is 0 (very wide and short) is excluded too, because the source's resize call raises on a zero height. Those two raising outcomes are not modelled. When the picture opened, the font case `LoadFont` excludes is excluded as well, since the source then raises from its font retry; when opening fails, no font is loaded and any font setup is accepted.
- `Converter.ImageToAsciiConverter.ResizeImage`: it requires a row count of at least 1 and buffers of `width * newHeight` samples, which is what the resampler delivers. The resampled picture is recorded only by its dimensions.
