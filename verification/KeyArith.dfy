/**
 Arithmetic on key buffers (common/key.h): increment, decrement and the last key of a prefix,
 each tied to the number the key spells.
 */
module KeyArith {
  import opened Keys

  function Pow2(e: nat): (r: nat)
    ensures r > 0
  {
    if e == 0 then 1 else 2 * Pow2(e - 1)
  }

  lemma {:induction false} Pow2Sum(d: nat, e: nat)
    ensures Pow2(d + e) == Pow2(d) * Pow2(e)
    decreases e
  {
    if e > 0 {
      Pow2Sum(d, e - 1);
      assert Pow2(d + e) == 2 * Pow2(d + (e - 1));
    }
  }

  lemma {:induction false} Pow2Grows(d: nat, e: nat)
    requires d <= e
    ensures Pow2(d) <= Pow2(e)
  {
    if d < e {
      Pow2Grows(d, e - 1);
    }
  }

  lemma {:induction false} CountIsPow2(n: nat)
    ensures Count(256, n) == Pow2(8 * n)
    decreases n
  {
    if n > 0 {
      CountIsPow2(n - 1);
      assert Pow2(8) == 256 by { assert Pow2(4) == 16; }
      Pow2Sum(8 * (n - 1), 8);
    }
  }

  lemma {:induction false} Carry(b: nat, v: nat, d: nat, c: nat)
    requires d < b
    ensures v * b + d + 1 == c * b <==> d == b - 1 && v + 1 == c
    ensures d == b - 1 ==> v * b + d + 1 == (v + 1) * b
  {
    if d == b - 1 {
      DigitOrder(b, v + 1, 0, c, 0);
    } else {
      DigitOrder(b, v, d + 1, c, 0);
    }
  }

  ghost function Succ(b: nat, k: Key): Key
    requires b > 0
  {
    if |k| == 0 then [] else
      var m := |k| - 1;
      if k[m] != b - 1 then k[..m] + [k[m] + 1] else Succ(b, k[..m]) + [0]
  }

  lemma {:induction false} SuccLast(b: nat, k: Key)
    requires b > 0 && |k| > 0 && k[|k| - 1] < b - 1
    ensures Val(b, Succ(b, k)) == Val(b, k) + 1 != Count(b, |k|)
  {
    var m := |k| - 1;
    ValSnoc(b, k[..m], k[m] + 1);
    Carry(b, Val(b, k[..m]), k[m], Count(b, m));
  }

  lemma {:induction false} SuccCarry(b: nat, k: Key)
    requires b > 0 && |k| > 0 && k[|k| - 1] == b - 1
    requires var m := |k| - 1;
             Val(b, Succ(b, k[..m])) == if Val(b, k[..m]) + 1 == Count(b, m) then 0 else Val(b, k[..m]) + 1
    ensures Val(b, Succ(b, k)) == if Val(b, k) + 1 == Count(b, |k|) then 0 else Val(b, k) + 1
  {
    var m := |k| - 1;
    ValSnoc(b, Succ(b, k[..m]), 0);
    Carry(b, Val(b, k[..m]), k[m], Count(b, m));
  }

  lemma {:induction false} SuccVal(b: nat, k: Key)
    requires b > 0 && IsKey(b, |k|, k)
    ensures IsKey(b, |k|, Succ(b, k))
    ensures Val(b, Succ(b, k)) == if Val(b, k) + 1 == Count(b, |k|) then 0 else Val(b, k) + 1
    decreases |k|
  {
    if |k| > 0 {
      var m := |k| - 1;
      SuccVal(b, k[..m]);
      if k[m] != b - 1 {
        SuccLast(b, k);
      } else {
        SuccCarry(b, k);
      }
    }
  }

  /** filter_key_inc: increments in place, wrapping from all-ones to zero. */
  method KeyInc(b: nat, key: Key) returns (r: Key)
    requires b > 0 && IsKey(b, |key|, key)
    ensures IsKey(b, |key|, r)
    ensures Val(b, r) == if Val(b, key) + 1 == Count(b, |key|) then 0 else Val(b, key) + 1
  {
    r := IncDigits(b, key);
    SuccVal(b, key);
  }

  /** Its loop, from the last digit to the first that does not carry. */
  method IncDigits(b: nat, key: Key) returns (r: Key)
    requires b > 0 && IsKey(b, |key|, key)
    ensures r == Succ(b, key)
  {
    r := key;
    var i := |key|;
    assert key[..i] == key;
    while i > 0
      invariant 0 <= i <= |key| == |r| && r[..i] == key[..i]
      invariant Succ(b, key) == Succ(b, key[..i]) + r[i..]
    {
      i := i - 1;
      var digit := r[i];
      assert key[..i + 1][..i] == key[..i] && r[..i + 1][i] == key[..i + 1][i];
      r := r[i := if digit == b - 1 then 0 else digit + 1];
      if digit != b - 1 {
        assert Succ(b, key) == r;
        return;
      }
    }
    assert Succ(b, key) == r;
  }

  lemma {:induction false} Borrow(b: nat, v: nat)
    requires b > 0 && v > 0
    ensures v * b > 0 && (v - 1) * b + (b - 1) == v * b - 1
  {
    Carry(b, v - 1, b - 1, v);
    DigitOrder(b, 0, 0, v, 0);
  }

  ghost function Pred(b: nat, k: Key): Key
    requires b > 0
  {
    if |k| == 0 then [] else
      var m := |k| - 1;
      if k[m] != 0 then k[..m] + [k[m] - 1] else Pred(b, k[..m]) + [b - 1]
  }

  /** Taking one from a number whose last digit is zero borrows from the digits before it. */
  lemma {:induction false} BorrowDigit(b: nat, v: nat, p: nat, c: nat)
    requires b > 0 && c > 0 && p == if v == 0 then c - 1 else v - 1
    ensures v * b == 0 <==> v == 0
    ensures p * b + (b - 1) == if v == 0 then c * b - 1 else v * b - 1
  {
    if v > 0 {
      Borrow(b, v);
    } else {
      Borrow(b, c);
    }
  }

  lemma {:induction false} PredLast(b: nat, k: Key)
    requires b > 0 && |k| > 0 && k[|k| - 1] != 0
    ensures Val(b, k) > 0 && Val(b, Pred(b, k)) == Val(b, k) - 1
  {
    var m := |k| - 1;
    var v := Val(b, k[..m]);
    assert v * b >= 0;
    ValSnoc(b, k[..m], k[m] - 1);
  }

  lemma {:induction false} PredBorrow(b: nat, k: Key)
    requires b > 0 && |k| > 0 && k[|k| - 1] == 0
    requires var m := |k| - 1;
             Val(b, Pred(b, k[..m])) == if Val(b, k[..m]) == 0 then Count(b, m) - 1 else Val(b, k[..m]) - 1
    ensures Val(b, Pred(b, k)) == if Val(b, k) == 0 then Count(b, |k|) - 1 else Val(b, k) - 1
  {
    var m := |k| - 1;
    ValSnoc(b, Pred(b, k[..m]), b - 1);
    BorrowDigit(b, Val(b, k[..m]), Val(b, Pred(b, k[..m])), Count(b, m));
  }

  lemma {:induction false} PredVal(b: nat, k: Key)
    requires b > 0 && IsKey(b, |k|, k)
    ensures IsKey(b, |k|, Pred(b, k))
    ensures Val(b, Pred(b, k)) == if Val(b, k) == 0 then Count(b, |k|) - 1 else Val(b, k) - 1
    decreases |k|
  {
    if |k| > 0 {
      var m := |k| - 1;
      PredVal(b, k[..m]);
      if k[m] != 0 {
        PredLast(b, k);
      } else {
        PredBorrow(b, k);
      }
    }
  }

  /** filter_key_dec. */
  method KeyDec(b: nat, key: Key) returns (r: Key)
    requires b > 0 && IsKey(b, |key|, key)
    ensures IsKey(b, |key|, r)
    ensures Val(b, r) == if Val(b, key) == 0 then Count(b, |key|) - 1 else Val(b, key) - 1
  {
    r := DecDigits(b, key);
    PredVal(b, key);
  }

  /** Its loop, from the last digit to the first that does not borrow. */
  method DecDigits(b: nat, key: Key) returns (r: Key)
    requires b > 0 && IsKey(b, |key|, key)
    ensures r == Pred(b, key)
  {
    r := key;
    var i := |key|;
    assert key[..i] == key;
    while i > 0
      invariant 0 <= i <= |key| == |r| && r[..i] == key[..i]
      invariant Pred(b, key) == Pred(b, key[..i]) + r[i..]
    {
      i := i - 1;
      var digit := r[i];
      assert key[..i + 1][..i] == key[..i] && r[..i + 1][i] == key[..i + 1][i];
      r := r[i := if digit == 0 then b - 1 else digit - 1];
      if digit != 0 {
        assert Pred(b, key) == r;
        return;
      }
    }
    assert Pred(b, key) == r;
  }

  lemma {:induction false} PadLow(b: nat, w: Key, n: nat, v: nat)
    requires b > 0 && |w| <= n && v == Val(b, w)
    ensures Val(b, Pad(w, n, 0)) == v * Count(b, n - |w|)
    decreases n
  {
    var lo := Pad(w, n, 0);
    if n == |w| {
      assert lo == w;
    } else {
      PadLow(b, w, n - 1, v);
      assert lo[..n - 1] == Pad(w, n - 1, 0);
      MulAssoc(v, Count(b, n - 1 - |w|), b);
    }
  }

  lemma {:induction false} PadHigh(b: nat, w: Key, n: nat, v: nat)
    requires b > 0 && |w| <= n && v == Val(b, w) + 1
    ensures Val(b, Pad(w, n, b - 1)) == v * Count(b, n - |w|) - 1
    decreases n
  {
    var hi := Pad(w, n, b - 1);
    if n == |w| {
      assert hi == w;
    } else {
      PadHigh(b, w, n - 1, v);
      assert hi[..n - 1] == Pad(w, n - 1, b - 1);
      LastDigitHigh(v, Count(b, n - 1 - |w|), b);
    }
  }

  lemma {:induction false} LastDigitHigh(v: nat, c: nat, b: nat)
    ensures (v * c - 1) * b + (b - 1) == v * (c * b) - 1
  {
    MulAssoc(v, c, b);
    assert (v * c - 1) * b == v * c * b - b;
  }

  lemma {:induction false} PadVal(b: nat, w: Key, n: nat)
    requires b > 0 && |w| <= n
    ensures Val(b, Pad(w, n, 0)) == Val(b, w) * Count(b, n - |w|)
    ensures Val(b, Pad(w, n, b - 1)) == (Val(b, w) + 1) * Count(b, n - |w|) - 1
  {
    PadLow(b, w, n, Val(b, w));
    PadHigh(b, w, n, Val(b, w) + 1);
  }

  /** The first and the last of all keys. */
  lemma {:induction false} PadAll(b: nat, n: nat)
    requires b > 0
    ensures Val(b, Pad([], n, 0)) == 0 && Val(b, Pad([], n, b - 1)) == Count(b, n) - 1
  {
    PadVal(b, [], n);
  }

  lemma MulAssoc(x: int, y: int, z: int)
    ensures x * y * z == x * (y * z)
  {
  }

  /** Number of keys of `n` bytes that share a prefix of `p` bits. */
  ghost function Size(n: nat, p: nat): nat
    requires p <= 8 * n
  {
    Pow2(8 * n - p)
  }

  /** `x | (2^r - 1)`: the low `r` bits set. */
  function OrLow(x: nat, r: nat): nat {
    if r == 0 then x else 2 * OrLow(x / 2, r - 1) + 1
  }

  lemma {:induction false} OrLowBits(x: nat, r: nat) returns (a: nat)
    ensures x <= OrLow(x, r) < x + Pow2(r)
    ensures OrLow(x, r) + 1 == a * Pow2(r)
    decreases r
  {
    if r == 0 {
      a := x + 1;
    } else {
      a := OrLowBits(x / 2, r - 1);
      Doubled(x, OrLow(x / 2, r - 1), Pow2(r - 1), a);
    }
  }

  lemma {:induction false} Doubled(x: nat, y: nat, s: nat, a: nat)
    requires x / 2 <= y < x / 2 + s && y + 1 == a * s
    ensures x <= 2 * y + 1 < x + 2 * s && 2 * y + 2 == a * (2 * s)
  {
  }

  lemma {:induction false} OrLowByte(x: nat, r: nat)
    requires x < 256 && r < 8
    ensures OrLow(x, r) < 256
  {
    assert Pow2(8) == 256 by { assert Pow2(4) == 16; }
    OrLowHalf(x, r, 8);
  }

  lemma {:induction false} OrLowHalf(x: nat, r: nat, e: nat)
    requires x < Pow2(e) && r <= e
    ensures OrLow(x, r) < Pow2(e)
    decreases r
  {
    if r > 0 {
      OrLowHalf(x / 2, r - 1, e - 1);
    }
  }

  /** The head of a prefix, its last byte completed with ones, ends an aligned block. */
  lemma {:induction false} HeadBlock(v: Key, x: nat, y: nat, s: nat, t: nat, a: nat, m: nat)
    requires x <= y < x + s && y + 1 == a * s && 256 == t * s && m == Val(256, v) * t + a
    ensures Val(256, v + [x]) <= Val(256, v + [y]) < Val(256, v + [x]) + s
    ensures Val(256, v + [y]) + 1 == m * s
  {
    ValSnoc(256, v, x);
    ValSnoc(256, v, y);
    HeadArith(Val(256, v), y, s, t, a);
  }

  lemma {:induction false} HeadArith(v: nat, y: nat, s: nat, t: nat, a: nat)
    requires y + 1 == a * s && 256 == t * s
    ensures v * 256 + y + 1 == (v * t + a) * s
  {
    MulAssoc(v, t, s);
    assert (v * t + a) * s == v * t * s + a * s;
  }

  /** The prefix bits of `from` followed by ones. */
  ghost function LastOf(from: Key, p: nat): Key
    requires 0 < p <= 8 * |from|
  {
    var q := (p + 7) / 8;
    Pad(from[..q - 1] + [OrLow(from[q - 1], 8 * q - p)], |from|, 255)
  }

  /** The same for any prefix; the empty one leaves only ones. */
  ghost function LastUnder(from: Key, p: nat): Key
    requires p <= 8 * |from|
  {
    if p == 0 then Pad([], |from|, 255) else LastOf(from, p)
  }

  lemma {:induction false} ByteSplit(r: nat)
    requires r < 8
    ensures 256 == Pow2(8 - r) * Pow2(r)
  {
    Pow2Sum(8 - r, r);
    assert Pow2(8) == 256 by { assert Pow2(4) == 16; }
  }

  lemma {:induction false} SizeSplit(n: nat, p: nat)
    requires 0 < p <= 8 * n
    ensures var q := (p + 7) / 8; q <= n && 8 * q - p < 8 && Size(n, p) == Pow2(8 * q - p) * Count(256, n - q)
  {
    var q := (p + 7) / 8;
    CountIsPow2(n - q);
    Pow2Sum(8 * q - p, 8 * (n - q));
  }

  lemma {:induction false} NotBelow(b: nat, k: Key, q: nat, v: nat, lo: nat)
    requires b > 0 && q <= |k| && IsKey(b, |k|, k) && v == Val(b, k[..q]) && lo == v * Count(b, |k| - q)
    ensures lo <= Val(b, k)
  {
    PadLow(b, k[..q], |k|, v);
    PadBounds(b, k, q);
  }

  lemma {:induction false} NotAbove(b: nat, k: Key, q: nat, v: nat, hi: int)
    requires b > 0 && q <= |k| && IsKey(b, |k|, k) && v == Val(b, k[..q]) + 1 && hi == v * Count(b, |k| - q) - 1
    ensures Val(b, k) <= hi
  {
    PadHigh(b, k[..q], |k|, v);
    PadBounds(b, k, q);
  }

  lemma {:induction false} PadKey(b: nat, w: Key, n: nat)
    requires b > 0 && |w| <= n && IsKey(b, |w|, w)
    ensures IsKey(b, n, Pad(w, n, b - 1))
  {
  }

  /** Completing a block of heads with the largest digit gives a block of keys. */
  lemma {:induction false} PadBlock(b: nat, from: Key, w: Key, s: nat, m: nat, size: nat)
    requires b > 0 && |w| <= |from| && IsKey(b, |w|, w) && IsKey(b, |from|, from) && size == s * Count(b, |from| - |w|)
    requires Val(b, from[..|w|]) <= Val(b, w) < Val(b, from[..|w|]) + s && Val(b, w) + 1 == m * s
    ensures var to := Pad(w, |from|, b - 1);
            && IsKey(b, |from|, to) && Val(b, from) <= Val(b, to) < Val(b, from) + size
            && Val(b, to) + 1 == m * size
  {
    var q, c, v := |w|, Count(b, |from| - |w|), Val(b, from[..|w|]);
    PadKey(b, w, |from|);
    NotBelow(b, from, q, v, v * c);
    NotAbove(b, from, q, v + 1, (v + 1) * c - 1);
    PadHigh(b, w, |from|, Val(b, w) + 1);
    BlockArith(v, Val(b, w), s, c, m, Val(b, from), size, Val(b, Pad(w, |from|, b - 1)));
  }

  lemma {:induction false} HeadedBlock(from: Key, q: nat, r: nat, y: nat) returns (m: nat)
    requires IsKey(256, |from|, from) && 0 < q <= |from| && r < 8 && y == OrLow(from[q - 1], r)
    ensures var w := from[..q - 1] + [y];
            && IsKey(256, q, w) && Val(256, from[..q]) <= Val(256, w) < Val(256, from[..q]) + Pow2(r)
            && Val(256, w) + 1 == m * Pow2(r)
  {
    var v, x := from[..q - 1], from[q - 1];
    var a := OrLowBits(x, r);
    OrLowByte(x, r);
    ByteSplit(r);
    m := Val(256, v) * Pow2(8 - r) + a;
    HeadBlock(v, x, y, Pow2(r), Pow2(8 - r), a, m);
    assert from[..q] == v + [x];
  }

  /** `LastOf` is the last key of the aligned block of the prefix that contains `from`. */
  lemma {:induction false} LastOfBlock(from: Key, p: nat) returns (m: nat)
    requires 0 < p <= 8 * |from| && IsKey(256, |from|, from)
    ensures IsKey(256, |from|, LastOf(from, p))
    ensures Val(256, from) <= Val(256, LastOf(from, p)) < Val(256, from) + Size(|from|, p)
    ensures Val(256, LastOf(from, p)) + 1 == m * Size(|from|, p)
  {
    var q := (p + 7) / 8;
    var y := OrLow(from[q - 1], 8 * q - p);
    SizeSplit(|from|, p);
    m := HeadedBlock(from, q, 8 * q - p, y);
    PadBlock(256, from, from[..q - 1] + [y], Pow2(8 * q - p), m, Size(|from|, p));
  }

  /** So is `LastUnder`, the empty prefix included: its block is all keys. */
  lemma {:induction false} LastUnderBlock(from: Key, p: nat) returns (m: nat)
    requires p <= 8 * |from| && IsKey(256, |from|, from)
    ensures IsKey(256, |from|, LastUnder(from, p))
    ensures Val(256, from) <= Val(256, LastUnder(from, p)) < Val(256, from) + Size(|from|, p)
    ensures Val(256, LastUnder(from, p)) + 1 == m * Size(|from|, p)
  {
    if p == 0 {
      m := 1;
      CountIsPow2(|from|);
      PadBlock(256, from, [], 1, 1, Size(|from|, 0));
    } else {
      m := LastOfBlock(from, p);
    }
  }

  lemma {:induction false} BlockArith(w: nat, w': nat, s: nat, c: nat, m: nat, x: nat, size: nat, y: nat)
    requires w <= w' < w + s && w' + 1 == m * s && w * c <= x <= (w + 1) * c - 1
    requires size == s * c && y == (w' + 1) * c - 1
    ensures x <= y < x + size && y + 1 == m * size
  {
    Grows(w + 1, w' + 1, c);
    Grows(w' + 1, w + s, c);
    assert (w + s) * c == w * c + s * c;
    MulAssoc(m, s, c);
  }

  lemma {:induction false} Grows(x: nat, y: nat, c: nat)
    requires x <= y
    ensures x * c <= y * c
  {
  }

  /** filter_key_apply_prefix: the last key under a prefix. */
  method ApplyPrefix(from: Key, prefix: nat) returns (to: Key)
    requires IsKey(256, |from|, from) && prefix <= 8 * |from|
    ensures to == LastUnder(from, prefix)
  {
    to := from;
    if prefix % 8 != 0 {
      to := to[prefix / 8 := OrLow(to[prefix / 8], 8 - prefix % 8)];
    }
    var idx := (prefix + 7) / 8;
    ghost var q := idx;
    ghost var head := to[..q];
    assert prefix > 0 ==> head == from[..q - 1] + [OrLow(from[q - 1], 8 * q - prefix)];
    while idx < |from|
      invariant q <= idx <= |to| == |from| && to[..q] == head
      invariant forall i | q <= i < idx :: to[i] == 255
    {
      to := to[idx := 255];
      idx := idx + 1;
    }
    assert to == head + to[q..] == LastUnder(from, prefix);
  }
}
