/** Integer and rational facts the geometry and chunking proofs rest on. */
module Arith {

  /** Exact division of integers, rounded down, agrees with integer division. */
  lemma FloorOfQuotient(m: int, d: int)
    requires d > 0
    ensures (m as real / d as real).Floor == m / d
  {
    var q, r := m / d, m % d;
    assert m == q * d + r;
    assert m as real == q as real * d as real + r as real;
    assert m as real / d as real == q as real + r as real / d as real;
    assert 0.0 <= r as real / d as real < 1.0;
  }

  /** Quotient and remainder are determined by any decomposition a == q * w + r with 0 <= r < w. */
  lemma DivModUnique(a: int, w: int, q: int, r: int)
    requires w > 0 && 0 <= r < w && a == q * w + r
    ensures a / w == q && a % w == r
  {
    var q', r' := a / w, a % w;
    var d := q' - q;
    assert d * w == r - r' by {
      assert q' * w + r' == q * w + r;
      assert d * w == q' * w - q * w;
    }
  }

  /** Dropping one full row lowers the row index by one and keeps the column. */
  lemma DivModShift(k: int, w: int)
    requires w > 0 && k >= w
    ensures (k - w) / w == k / w - 1 && (k - w) % w == k % w
  {
    DivModUnique(k, w, (k - w) / w + 1, (k - w) % w);
  }

  /** Cell (r, c) of h rows of w has a row-major index inside 0 .. w * h - 1. */
  lemma CellIndexBound(r: int, c: int, w: int, h: int)
    requires 0 <= r < h && 0 <= c < w
    ensures 0 <= r * w + c < w * h
  {
    MulNonNegative(h - r - 1, w);
    MulNonNegative(r, w);
    assert (h - r - 1) * w == h * w - r * w - w;
  }

  lemma MulNonNegative(a: int, b: int)
    requires a >= 0 && b >= 0
    ensures a * b >= 0
  {
  }

  /** A product with a positive factor has the sign of the other factor. */
  lemma SignOfProduct(a: int, b: int)
    requires b > 0
    ensures a * b <= 0 <==> a <= 0
  {
    if a > 0 {
      MulNonNegative(a - 1, b);
    } else {
      MulNonNegative(-a, b);
    }
  }

  /** Where row r starts when every earlier row holds w elements: w added up r times. */
  function RowStart(r: nat, w: nat): nat
  {
    if r == 0 then 0 else RowStart(r - 1, w) + w
  }

  lemma {:induction false} RowStartIsProduct(r: nat, w: nat)
    ensures RowStart(r, w) == r * w
  {
    if r > 0 {
      RowStartIsProduct(r - 1, w);
      assert r * w == (r - 1) * w + w;
    }
  }
}
