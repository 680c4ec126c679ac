/** Facts about multiplication and division that the modules share. */
module Arith {
  lemma {:induction false} RowOrder(v: nat, w: nat, hDim: nat)
    requires v <= w
    ensures v * hDim <= w * hDim
  {
  }

  /** Different coordinates of a table laid out row by row are different cells. */
  lemma {:induction false} RowsDiffer(v: nat, h: nat, w: nat, g: nat, hDim: nat)
    requires h < hDim && g < hDim && v * hDim + h == w * hDim + g
    ensures v == w && h == g
  {
    assert (v + 1) * hDim == v * hDim + hDim && (w + 1) * hDim == w * hDim + hDim;
    if v < w {
      RowOrder(v + 1, w, hDim);
    } else if w < v {
      RowOrder(w + 1, v, hDim);
    }
  }

  lemma {:induction false} Multiple(d: int, n: nat)
    ensures d >= 1 ==> d * n >= n
    ensures d <= -1 ==> d * n <= 0 - n
    ensures d <= 0 ==> d * n <= 0
  {
    if d >= 1 {
      assert d * n == (d - 1) * n + n;
    } else if d <= -1 {
      assert d * n == (d + 1) * n - n;
    }
  }

  lemma {:induction false} QuotientUnique(x: int, q: int, rem: int, n: nat)
    requires n > 0 && 0 <= rem < n && x == q * n + rem
    ensures x / n == q && x % n == rem
  {
    var d := q - x / n;
    assert d * n == x % n - rem;
    Multiple(d, n);
  }
}
