/**
 Big-endian keys of common/key.h: fixed-length digit strings, read as numbers in base `b`
 (256 for the byte tries, 65536 for the wide ones).
 */
module Keys {
  type Key = seq<nat>

  ghost predicate IsKey(b: nat, n: nat, k: Key) {
    |k| == n && forall i | 0 <= i < n :: k[i] < b
  }

  /** The number a key spells, most significant digit first. */
  ghost function Val(b: nat, k: Key): nat {
    if |k| == 0 then 0 else Val(b, k[..|k| - 1]) * b + k[|k| - 1]
  }

  /** `k` completed to `n` digits with the digit `d`. */
  function Pad(k: Key, n: nat, d: nat): (r: Key)
    requires |k| <= n
    ensures |r| == n && r[..|k|] == k
  {
    k + seq(n - |k|, i => d)
  }

  lemma {:induction false} ValStep(b: nat, k: Key, h: nat)
    requires h < |k|
    ensures Val(b, k[..h + 1]) == Val(b, k[..h]) * b + k[h]
  {
    assert k[..h + 1][..h] == k[..h];
  }

  lemma {:induction false} ValSnoc(b: nat, k: Key, d: nat)
    ensures Val(b, k + [d]) == Val(b, k) * b + d
  {
    assert (k + [d])[..|k|] == k;
  }

  /** Comparing one more digit: the order is lexicographic. */
  lemma {:induction false} DigitOrder(b: nat, x: nat, d: nat, y: nat, e: nat)
    requires d < b && e < b
    ensures x * b + d < y * b + e <==> x < y || (x == y && d < e)
    ensures x * b + d == y * b + e <==> x == y && d == e
  {
    if x < y {
      assert (x + 1) * b <= y * b;
    } else if y < x {
      assert (y + 1) * b <= x * b;
    }
  }

  /** Order of full keys implies order of their prefixes. */
  lemma {:induction false} PrefixOrder(b: nat, x: Key, y: Key, h: nat)
    requires h <= |x| == |y| && IsKey(b, |x|, x) && IsKey(b, |y|, y)
    ensures Val(b, x[..h]) < Val(b, y[..h]) ==> Val(b, x) < Val(b, y)
    ensures Val(b, x) <= Val(b, y) ==> Val(b, x[..h]) <= Val(b, y[..h])
    decreases |x|
  {
    if h == |x| {
      assert x[..h] == x && y[..h] == y;
    } else {
      var m := |x| - 1;
      assert x[..m][..h] == x[..h] && y[..m][..h] == y[..h];
      PrefixOrder(b, x[..m], y[..m], h);
      DigitOrder(b, Val(b, x[..m]), x[m], Val(b, y[..m]), y[m]);
      DigitOrder(b, Val(b, y[..m]), y[m], Val(b, x[..m]), x[m]);
    }
  }

  lemma {:induction false} ValInjective(b: nat, x: Key, y: Key)
    requires |x| == |y| && IsKey(b, |x|, x) && IsKey(b, |y|, y)
    ensures Val(b, x) == Val(b, y) <==> x == y
    decreases |x|
  {
    if |x| > 0 {
      var m := |x| - 1;
      ValInjective(b, x[..m], y[..m]);
      DigitOrder(b, Val(b, x[..m]), x[m], Val(b, y[..m]), y[m]);
      assert x == x[..m] + [x[m]] && y == y[..m] + [y[m]];
    }
  }

  lemma {:induction false} OneMoreDigit(b: nat, x: Key, y: Key, m: nat)
    requires |x| == |y| == m + 1 && IsKey(b, m + 1, x) && IsKey(b, m + 1, y)
    requires Val(b, x[..m]) <= Val(b, y[..m]) && x[m] <= y[m]
    ensures Val(b, x) <= Val(b, y)
  {
    DigitOrder(b, Val(b, y[..m]), y[m], Val(b, x[..m]), x[m]);
  }

  /** Padding a prefix with the least (greatest) digit gives the least (greatest) key below it. */
  lemma {:induction false} PadBounds(b: nat, k: Key, h: nat)
    requires h <= |k| && IsKey(b, |k|, k) && b > 0
    ensures Val(b, Pad(k[..h], |k|, 0)) <= Val(b, k) <= Val(b, Pad(k[..h], |k|, b - 1))
    decreases |k|
  {
    var lo, hi := Pad(k[..h], |k|, 0), Pad(k[..h], |k|, b - 1);
    if h == |k| {
      assert lo == k && hi == k;
    } else {
      var m := |k| - 1;
      PadBounds(b, k[..m], h);
      assert k[..m][..h] == k[..h];
      assert lo[..m] == Pad(k[..m][..h], m, 0) && hi[..m] == Pad(k[..m][..h], m, b - 1);
      OneMoreDigit(b, lo, k, m);
      OneMoreDigit(b, k, hi, m);
    }
  }

  /** One key is a zero-padded prefix of the other exactly when they agree in value with it. */
  lemma {:induction false} PadZeroEqual(b: nat, k: Key, h: nat)
    requires h <= |k| && IsKey(b, |k|, k) && b > 0
    ensures Val(b, k) <= Val(b, Pad(k[..h], |k|, 0)) ==> forall i | h <= i < |k| :: k[i] == 0
  {
    var lo := Pad(k[..h], |k|, 0);
    PadBounds(b, k, h);
    ValInjective(b, k, lo);
  }

  /** `b` to the power `n`: the number of keys of `n` digits. */
  ghost function Count(b: nat, n: nat): (c: nat)
    ensures b > 0 ==> c > 0
  {
    if n == 0 then 1 else Count(b, n - 1) * b
  }

  lemma {:induction false} ValBound(b: nat, k: Key)
    requires IsKey(b, |k|, k)
    ensures Val(b, k) < Count(b, |k|)
    decreases |k|
  {
    if |k| > 0 {
      var m := |k| - 1;
      ValBound(b, k[..m]);
      DigitOrder(b, Val(b, k[..m]), k[m], Count(b, m), 0);
    }
  }

  /** The key of `n` digits that spells a number. */
  ghost function KeyOf(b: nat, n: nat, x: nat): (k: Key)
    requires b > 0 && x < Count(b, n)
    ensures IsKey(b, n, k) && Val(b, k) == x
  {
    if n == 0 then [] else
      assert x == x / b * b + x % b;
      DigitOrder(b, x / b, x % b, Count(b, n - 1), 0);
      ValSnoc(b, KeyOf(b, n - 1, x / b), x % b);
      KeyOf(b, n - 1, x / b) + [x % b]
  }

  /** Three-way comparison, digit by digit from the front (filter_key_cmp, lpm_wide_key_cmp). */
  method Cmp(ghost b: nat, l: Key, r: Key) returns (c: int)
    requires |l| == |r| && IsKey(b, |l|, l) && IsKey(b, |r|, r)
    ensures c == -1 || c == 0 || c == 1
    ensures c < 0 <==> Val(b, l) < Val(b, r)
    ensures c > 0 <==> Val(b, l) > Val(b, r)
  {
    var i := 0;
    while i < |l|
      invariant 0 <= i <= |l| && l[..i] == r[..i]
    {
      if l[i] != r[i] {
        ValStep(b, l, i);
        ValStep(b, r, i);
        PrefixOrder(b, l, r, i + 1);
        PrefixOrder(b, r, l, i + 1);
        return if l[i] < r[i] then -1 else 1;
      }
      assert l[..i + 1] == l[..i] + [l[i]] && r[..i + 1] == r[..i] + [r[i]];
      i := i + 1;
    }
    assert l == l[..i] && r == r[..i];
    return 0;
  }
}
