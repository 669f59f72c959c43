/** The glyph mapper: luminance quantisation, glyph/colour pairing and row chunking. */
module Glyphs {
  import opened Types
  import opened Arith

  /** The built-in 21-symbol ramp, darkest-looking glyph first. */
  const DefaultCharset: seq<string> :=
    ["@", "#", "8", "&", "W", "M", "B", "Q", "H", "D",
     "X", "Y", "O", "C", "I", "*", "!", ";", ":", ".", " "]

  /** The palette a converter uses: a supplied charset unless it is absent or empty. */
  function ChooseCharset(charset: Option<seq<string>>): (p: seq<string>)
    ensures |p| >= 1
    ensures charset.Some? && charset.value != [] ==> p == charset.value
    ensures charset.None? || charset.value == [] ==> p == DefaultCharset && |p| == 21
    ensures charset.None? ==> p[0] == "@" && p[|p| - 1] == " "
  {
    if charset.Some? && charset.value != [] then charset.value else DefaultCharset
  }

  /** The width of one luminance bucket, 256 / N, as an exact rational. */
  function ScaleFactor(n: int): (s: real)
    requires n >= 1
    ensures s > 0.0 && s * n as real == 256.0
  {
    256.0 / n as real
  }

  /**
   * The palette index of a luminance sample over a palette of n glyphs: the sample
   * divided by the bucket width, truncated, and clamped to the last index.
   */
  function GlyphIndex(v: Luma, n: int): (k: int)
    requires n >= 1
    ensures 0 <= k < n
  {
    assert v as real / ScaleFactor(n) >= 0.0;
    Min((v as real / ScaleFactor(n)).Floor, n - 1)
  }

  /**
   * The clamp never binds: the truncated quotient is already below n, and the
   * index is exactly floor(v * n / 256).
   */
  lemma GlyphIndexQuotient(v: Luma, n: int)
    requires n >= 1
    ensures (v as real / ScaleFactor(n)).Floor < n
    ensures GlyphIndex(v, n) == v * n / 256
  {
    assert v as real / ScaleFactor(n) == (v * n) as real / 256.0 by {
      assert ScaleFactor(n) * n as real == 256.0;
    }
    FloorOfQuotient(v * n, 256);
    assert v * n <= 255 * n < 256 * n;
  }

  /** Darker samples never get a later (lighter) glyph than brighter ones. */
  lemma GlyphIndexMonotone(v1: Luma, v2: Luma, n: int)
    requires n >= 1 && v1 <= v2
    ensures GlyphIndex(v1, n) <= GlyphIndex(v2, n)
  {
    GlyphIndexQuotient(v1, n);
    GlyphIndexQuotient(v2, n);
    assert v1 * n <= v2 * n;
  }

  /**
   * Black selects the first glyph; white selects the last one exactly when the
   * palette has at most 256 glyphs.
   */
  lemma GlyphIndexExtremes(n: int)
    requires n >= 1
    ensures GlyphIndex(0, n) == 0
    ensures GlyphIndex(255, n) == n - 1 <==> n <= 256
  {
    GlyphIndexQuotient(0, n);
    GlyphIndexQuotient(255, n);
    assert 255 * n == 256 * (n - 1) + (256 - n);
  }

  /** The glyph list: each sample replaced by the palette entry at its index. */
  function MapGlyphs(pixels: seq<Luma>, palette: seq<string>): (g: seq<string>)
    requires |palette| >= 1
    ensures |g| == |pixels|
    ensures forall i :: 0 <= i < |pixels| ==> g[i] == palette[GlyphIndex(pixels[i], |palette|)]
  {
    seq(|pixels|, i requires 0 <= i < |pixels| => palette[GlyphIndex(pixels[i], |palette|)])
  }

  /** Glyphs paired with colours position by position, stopping at the shorter list. */
  function Zip(glyphs: seq<string>, colors: seq<RGB>): (z: seq<Cell>)
    ensures |z| == Min(|glyphs|, |colors|)
    ensures forall i :: 0 <= i < |z| ==> z[i] == Cell(glyphs[i], colors[i])
  {
    seq(Min(|glyphs|, |colors|), i requires 0 <= i < Min(|glyphs|, |colors|) => Cell(glyphs[i], colors[i]))
  }

  /** All rows of a grid, concatenated in order. */
  function Flatten<T>(rows: seq<seq<T>>): seq<T>
  {
    if rows == [] then [] else rows[0] + Flatten(rows[1..])
  }

  /** The list cut into consecutive rows of w elements, the last one possibly shorter. */
  function Chunk<T>(s: seq<T>, w: int): seq<seq<T>>
    requires w > 0
    decreases |s|
  {
    if s == [] then []
    else
      var k := Min(w, |s|);
      [s[..k]] + Chunk(s[k..], w)
  }

  /** The rows concatenate back to the list: chunking loses, duplicates and reorders nothing. */
  lemma {:induction false} ChunkFlatten<T>(s: seq<T>, w: int)
    requires w > 0
    ensures Flatten(Chunk(s, w)) == s
    decreases |s|
  {
    if s != [] {
      var k := Min(w, |s|);
      ChunkFlatten(s[k..], w);
      assert s == s[..k] + s[k..];
    }
  }

  /** Every row is non-empty and at most w long, and exactly w long unless it is the last. */
  lemma {:induction false} ChunkRowSizes<T>(s: seq<T>, w: int)
    requires w > 0
    ensures forall i :: 0 <= i < |Chunk(s, w)| ==> 0 < |Chunk(s, w)[i]| <= w
    ensures forall i :: 0 <= i < |Chunk(s, w)| - 1 ==> |Chunk(s, w)[i]| == w
    decreases |s|
  {
    if s != [] {
      ChunkRowSizes(s[Min(w, |s|)..], w);
    }
  }

  /** Chunking a list of length L into rows of w gives ceil(L / w) rows. */
  lemma {:induction false} ChunkCount<T>(s: seq<T>, w: int)
    requires w > 0
    ensures |Chunk(s, w)| == (|s| + w - 1) / w
    decreases |s|
  {
    if s == [] {
      DivModUnique(w - 1, w, 0, w - 1);
    } else if |s| <= w {
      DivModUnique(|s| + w - 1, w, 1, |s| - 1);
    } else {
      ChunkCount(s[w..], w);
      DivModShift(|s| + w - 1, w);
    }
  }

  /** A list of at least w elements chunks into its first w elements followed by the chunks of the rest. */
  lemma ChunkFirstRow<T>(s: seq<T>, w: int)
    requires 0 < w <= |s|
    ensures Chunk(s, w) == [s[..w]] + Chunk(s[w..], w)
  {
  }

  /** Chunking from position i on: the slice of up to w elements at i, then the chunks after it. */
  lemma ChunkFrom<T>(s: seq<T>, w: int, i: int)
    requires w > 0 && 0 <= i < |s|
    ensures Chunk(s[i..], w) == [s[i..Min(i + w, |s|)]] + Chunk(s[Min(i + w, |s|)..], w)
  {
    var k := Min(w, |s| - i);
    assert s[i..][..k] == s[i..i + k];
    assert s[i..][k..] == s[i + k..];
  }

  /**
   * One pass of a row-building loop: when the rows built so far followed by the chunks
   * from position i make up the whole chunking, appending the slice at i keeps that so
   * for the position w further on.
   */
  lemma ChunkStep<T>(rows: seq<seq<T>>, s: seq<T>, w: int, i: int)
    requires w > 0 && 0 <= i < |s|
    requires rows + Chunk(s[i..], w) == Chunk(s, w)
    ensures (rows + [s[i..Min(i + w, |s|)]]) + Chunk(s[Min(i + w, |s|)..], w) == Chunk(s, w)
  {
    ChunkFrom(s, w, i);
  }

  /** Row r of the chunked list is the slice of w elements that starts at RowStart(r, w). */
  lemma {:induction false} ChunkRow<T>(s: seq<T>, w: nat, r: nat)
    requires w > 0 && RowStart(r, w) + w <= |s|
    ensures r < |Chunk(s, w)| && Chunk(s, w)[r] == s[RowStart(r, w) .. RowStart(r, w) + w]
    decreases r
  {
    ChunkFirstRow(s, w);
    if r > 0 {
      ChunkRow(s[w..], w, r - 1);
    }
  }

  /** Cell (r, c) of a list of h full rows of w is element r * w + c. */
  lemma ChunkCell<T>(s: seq<T>, w: int, h: nat, r: int, c: int)
    requires w > 0 && |s| == w * h && 0 <= r < h && 0 <= c < w
    ensures 0 <= r * w + c < |s| && r < |Chunk(s, w)| && |Chunk(s, w)[r]| == w
    ensures Chunk(s, w)[r][c] == s[r * w + c]
  {
    CellIndexBound(r, c, w, h);
    CellIndexBound(r, w - 1, w, h);
    RowStartIsProduct(r, w);
    ChunkRow(s, w, r);
  }

  /** When the list holds exactly h full rows of w, chunking gives h rows of exactly w. */
  lemma ChunkRectangular<T>(s: seq<T>, w: int, h: nat)
    requires w > 0 && |s| == w * h
    ensures |Chunk(s, w)| == h
    ensures forall r :: 0 <= r < h ==> |Chunk(s, w)[r]| == w
  {
    ChunkCount(s, w);
    assert |s| + w - 1 == h * w + (w - 1);
    DivModUnique(|s| + w - 1, w, h, w - 1);
    forall r | 0 <= r < h
      ensures |Chunk(s, w)[r]| == w
    {
      ChunkCell(s, w, h, r, 0);
    }
  }

  /**
   * A uniformly black image maps every sample to the first glyph; with at most 256
   * glyphs, a uniformly white one maps every sample to the last.
   */
  lemma UniformGlyphs(pixels: seq<Luma>, palette: seq<string>)
    requires |palette| >= 1
    ensures (forall i :: 0 <= i < |pixels| ==> pixels[i] == 0) ==>
              (forall i :: 0 <= i < |pixels| ==> MapGlyphs(pixels, palette)[i] == palette[0])
    ensures |palette| <= 256 && (forall i :: 0 <= i < |pixels| ==> pixels[i] == 255) ==>
              (forall i :: 0 <= i < |pixels| ==> MapGlyphs(pixels, palette)[i] == palette[|palette| - 1])
  {
    GlyphIndexExtremes(|palette|);
  }
}
