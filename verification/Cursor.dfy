/**
 The range cursor of lpm_insert and lpm_wide_insert: which keys of `[from..to]` lie before a digit
 prefix, and how that set moves as the loop descends, steps to the next digit and climbs back.
 */
module Cursor {
  import opened Keys

  ghost predicate InRange(b: nat, from: Key, to: Key, k: Key) {
    Val(b, from) <= Val(b, k) <= Val(b, to)
  }

  /** `k` is in the range and strictly before every key that starts with `w`. */
  ghost predicate Below(b: nat, from: Key, to: Key, w: Key, k: Key)
    requires |w| <= |k|
  {
    InRange(b, from, to, k) && Val(b, k[..|w|]) < Val(b, w)
  }

  /** `k` is in the range and not after the keys that start with `w`. */
  ghost predicate Upto(b: nat, from: Key, to: Key, w: Key, k: Key)
    requires |w| <= |k|
  {
    InRange(b, from, to, k) && Val(b, k[..|w|]) <= Val(b, w)
  }

  lemma {:induction false} BelowZero(b: nat, from: Key, to: Key, w: Key, k: Key)
    requires |w| < |k| && IsKey(b, |k|, k) && b > 0
    ensures Below(b, from, to, w + [0], k) <==> Below(b, from, to, w, k)
  {
    ValStep(b, k, |w|);
    ValSnoc(b, w, 0);
    DigitOrder(b, Val(b, k[..|w|]), k[|w|], Val(b, w), 0);
  }

  lemma {:induction false} BelowFrom(b: nat, from: Key, to: Key, h: nat, k: Key)
    requires |from| == |k| && h <= |k| && IsKey(b, |k|, from) && IsKey(b, |k|, k)
    ensures !Below(b, from, to, from[..h], k)
  {
    PrefixOrder(b, from, k, h);
  }

  lemma {:induction false} NextDigit(b: nat, from: Key, to: Key, w: Key, d: nat, k: Key)
    requires |w| < |k| && IsKey(b, |k|, k) && d + 1 < b
    ensures Upto(b, from, to, w + [d], k) <==> Below(b, from, to, w + [d + 1], k)
  {
    ValStep(b, k, |w|);
    ValSnoc(b, w, d);
    ValSnoc(b, w, d + 1);
    DigitOrder(b, Val(b, k[..|w|]), k[|w|], Val(b, w), d + 1);
  }

  lemma {:induction false} ClimbFull(b: nat, from: Key, to: Key, w: Key, k: Key)
    requires |w| < |k| && IsKey(b, |k|, k) && b > 0
    ensures Upto(b, from, to, w + [b - 1], k) <==> Upto(b, from, to, w, k)
  {
    ValStep(b, k, |w|);
    ValSnoc(b, w, b - 1);
    DigitOrder(b, Val(b, w), b - 1, Val(b, k[..|w|]), k[|w|]);
  }

  lemma {:induction false} UptoEnd(b: nat, from: Key, to: Key, h: nat, k: Key)
    requires |to| == |k| && h <= |k| && IsKey(b, |k|, to) && IsKey(b, |k|, k)
    ensures Upto(b, from, to, to[..h], k) <==> InRange(b, from, to, k)
  {
    PrefixOrder(b, k, to, h);
  }

  /** A whole block that starts at or after `from` and ends at or before `to` is in the range. */
  lemma {:induction false} BlockInRange(b: nat, from: Key, to: Key, w: Key, k: Key)
    requires |w| <= |k| && IsKey(b, |k|, k) && b > 0 && k[..|w|] == w
    requires Val(b, from) <= Val(b, Pad(w, |k|, 0)) && Val(b, Pad(w, |k|, b - 1)) <= Val(b, to)
    ensures InRange(b, from, to, k)
  {
    PadBounds(b, k, |w|);
  }

  /** The digit at `w` is the last one of the range: the page or the upper bound ends here. */
  ghost predicate LastDigit(b: nat, to: Key, w: Key, d: nat)
    requires |w| < |to|
  {
    d == b - 1 || (w == to[..|w|] && d == to[|w|])
  }

  /** The upper-bound test after a step: it fails exactly on the bound's own path. */
  lemma {:induction false} StepBound(b: nat, to: Key, w: Key, d: nat, e: nat)
    requires b >= 2 && |w| < |to| && IsKey(b, |to|, to) && IsKey(b, |w|, w) && d < b && e < b
    requires Val(b, w + [d]) <= Val(b, to[..|w| + 1])
    ensures Val(b, w + [e]) < Val(b, to[..|w| + 1]) ==> Val(b, Pad(w + [e], |to|, b - 1)) <= Val(b, to)
    ensures Val(b, w + [e]) > Val(b, to[..|w| + 1]) ==> Val(b, Pad(w + [e], |to|, b - 1)) > Val(b, to)
    ensures w == to[..|w|] ==> d <= to[|w|]
    ensures w != to[..|w|] ==> Val(b, w + [e]) < Val(b, to[..|w| + 1])
    ensures w == to[..|w|] ==> (Val(b, w + [e]) < Val(b, to[..|w| + 1]) <==> e < to[|w|])
    ensures w == to[..|w|] ==> (Val(b, w + [e]) > Val(b, to[..|w| + 1]) <==> e > to[|w|])
  {
    var m := |w|;
    var pad := Pad(w + [e], |to|, b - 1);
    assert pad[..m + 1] == w + [e];
    assert IsKey(b, |to|, pad);
    PrefixOrder(b, pad, to, m + 1);
    PrefixOrder(b, to, pad, m + 1);
    ValStep(b, to, m);
    ValSnoc(b, w, d);
    ValSnoc(b, w, e);
    DigitOrder(b, Val(b, to[..m]), to[m], Val(b, w), d);
    DigitOrder(b, Val(b, to[..m]), to[m], Val(b, w), e);
    DigitOrder(b, Val(b, w), e, Val(b, to[..m]), to[m]);
    ValInjective(b, w, to[..m]);
  }

  /** The bound test of lpm_check_range_lo: does the block of `key[..hop]` start before `from`? */
  method StartsBefore(b: nat, key: Key, from: Key, hop: nat) returns (r: bool)
    requires hop < |from| && |key| == |from| && b > 0 && IsKey(b, |from|, from) && IsKey(b, |key|, key)
    ensures r <==> Val(b, Pad(key[..hop + 1], |from|, 0)) < Val(b, from)
  {
    var c := Cmp(b, Pad(key[..hop + 1], |from|, 0), from);
    return c < 0;
  }

  /** The bound test of lpm_check_range_hi: does the block of `key[..hop]` end after `to`? */
  method EndsAfter(b: nat, key: Key, to: Key, hop: nat) returns (r: bool)
    requires hop < |to| && |key| == |to| && b > 0 && IsKey(b, |to|, to) && IsKey(b, |key|, key)
    ensures r <==> Val(b, Pad(key[..hop + 1], |to|, b - 1)) > Val(b, to)
  {
    var c := Cmp(b, Pad(key[..hop + 1], |to|, b - 1), to);
    return c > 0;
  }

  /** Increment of an unsigned machine digit: it wraps around at `b`. */
  function Inc(b: nat, x: nat): nat
    requires x < b
  {
    if x + 1 == b then 0 else x + 1
  }

  /** The wrapped 8-bit comparison ends the page exactly at the last digit of the range. */
  lemma {:induction false} ByteStep(b: nat, to: Key, w: Key, d: nat, over: bool)
    requires b >= 2 && |w| < |to| && IsKey(b, |to|, to) && IsKey(b, |w|, w) && d < b
    requires Val(b, w + [d]) <= Val(b, to[..|w| + 1])
    requires over <==> Val(b, Pad(w + [Inc(b, d)], |to|, b - 1)) > Val(b, to)
    ensures Inc(b, d) == Inc(b, if over then to[|w|] else b - 1) <==> LastDigit(b, to, w, d)
    ensures !LastDigit(b, to, w, d) ==>
              Inc(b, d) == d + 1 < b && Val(b, w + [d + 1]) <= Val(b, to[..|w| + 1])
  {
    StepBound(b, to, w, d, Inc(b, d));
  }

  lemma {:induction false} NextDigits(b: nat, from: Key, to: Key, w: Key, d: nat)
    requires |w| < |to| && d + 1 < b
    ensures forall k | IsKey(b, |to|, k) :: Upto(b, from, to, w + [d], k) <==> Below(b, from, to, w + [d + 1], k)
  {
    forall k | IsKey(b, |to|, k)
      ensures Upto(b, from, to, w + [d], k) <==> Below(b, from, to, w + [d + 1], k)
    {
      NextDigit(b, from, to, w, d, k);
    }
  }

  /** One step of the do-while in lpm_insert: advance a digit, with its 8-bit wrap-around written out. */
  method StepByte(b: nat, to: Key, key: Key, hop: nat) returns (key': Key, last: bool)
    requires b >= 2 && hop < |to| && |key| == |to|
    requires IsKey(b, |to|, to) && IsKey(b, |key|, key) && Val(b, key[..hop + 1]) <= Val(b, to[..hop + 1])
    ensures IsKey(b, |to|, key') && key'[..hop] == key[..hop]
    ensures last <==> LastDigit(b, to, key[..hop], key[hop])
    ensures !last ==> key'[hop] == key[hop] + 1 && Val(b, key'[..hop + 1]) <= Val(b, to[..hop + 1])
  {
    ghost var w := key[..hop];
    assert key[..hop + 1] == w + [key[hop]];
    key' := key[hop := Inc(b, key[hop])];
    assert key'[..hop + 1] == w + [key'[hop]];
    var over := EndsAfter(b, key', to, hop);
    var upper := if over then to[hop] else b - 1;
    ByteStep(b, to, w, key[hop], over);
    last := key'[hop] == Inc(b, upper);
  }

  /** The same step in lpm_wide_insert, which widens the digit instead of letting it wrap. */
  method StepWord(b: nat, to: Key, key: Key, hop: nat) returns (key': Key, last: bool)
    requires b >= 2 && hop < |to| && |key| == |to|
    requires IsKey(b, |to|, to) && IsKey(b, |key|, key) && Val(b, key[..hop + 1]) <= Val(b, to[..hop + 1])
    ensures IsKey(b, |to|, key') && key'[..hop] == key[..hop]
    ensures last <==> LastDigit(b, to, key[..hop], key[hop])
    ensures !last ==> key'[hop] == key[hop] + 1 && Val(b, key'[..hop + 1]) <= Val(b, to[..hop + 1])
  {
    ghost var w := key[..hop];
    assert key[..hop + 1] == w + [key[hop]];
    var next := key[hop] + 1;
    var upper := b - 1;
    key' := key;
    if next <= b - 1 {
      key' := key[hop := next];
      assert key'[..hop + 1] == w + [next];
      var over := EndsAfter(b, key', to, hop);
      StepBound(b, to, w, key[hop], next);
      if over {
        upper := to[hop];
      }
    }
    last := next > upper;
  }

  /** `w` and `w'` have the same keys of the range at or before them. */
  ghost predicate SameUpto(b: nat, from: Key, to: Key, w: Key, w': Key)
    requires |w| <= |to| && |w'| <= |to|
  {
    forall k | IsKey(b, |to|, k) :: Upto(b, from, to, w, k) <==> Upto(b, from, to, w', k)
  }

  /** What the climb leaves: either the next digit to visit or the end of the range. */
  ghost predicate Climbed(b: nat, from: Key, to: Key, w: Key, w': Key, done: bool)
    requires |w| <= |to| && |w'| <= |to|
  {
    forall k | IsKey(b, |to|, k) ::
      Upto(b, from, to, w, k) <==> if done then InRange(b, from, to, k) else Below(b, from, to, w', k)
  }

  /** The do-while climb of lpm_insert (lpm_wide_insert): from a visited block to the next one. */
  method Climb(wide: bool, b: nat, ghost from: Key, to: Key, key: Key, hop: nat) returns (key': Key, hop': nat, done: bool)
    requires b >= 2 && hop < |to| && |key| == |to| && |from| == |to|
    requires IsKey(b, |to|, to) && IsKey(b, |key|, key) && Val(b, key[..hop + 1]) <= Val(b, to[..hop + 1])
    ensures IsKey(b, |to|, key') && hop' <= hop && key'[..hop'] == key[..hop']
    ensures Climbed(b, from, to, key[..hop + 1], key'[..hop' + 1], done)
    ensures !done ==> key'[hop'] == key[hop'] + 1 && Val(b, key'[..hop' + 1]) <= Val(b, to[..hop' + 1])
  {
    key', hop' := key, hop;
    while true
      invariant 0 <= hop' <= hop && IsKey(b, |to|, key') && key'[..hop' + 1] == key[..hop' + 1]
      invariant Val(b, key[..hop' + 1]) <= Val(b, to[..hop' + 1])
      invariant SameUpto(b, from, to, key[..hop + 1], key[..hop' + 1])
      decreases hop'
    {
      ghost var at := key';
      assert at[hop'] == at[..hop' + 1][hop'] && at[..hop'] == at[..hop' + 1][..hop'];
      assert key[hop'] == key[..hop' + 1][hop'] && key[..hop'] == key[..hop' + 1][..hop'];
      var last;
      if wide {
        key', last := StepWord(b, to, key', hop');
      } else {
        key', last := StepByte(b, to, key', hop');
      }
      ClimbStep(b, from, to, key, hop, hop', key'[..hop' + 1], last);
      if !last || hop' == 0 {
        done := last;
        return;
      }
      hop' := hop' - 1;
    }
  }

  lemma {:induction false} ClimbStep(b: nat, from: Key, to: Key, key: Key, hop: nat, h: nat, w': Key, last: bool)
    requires b >= 2 && h <= hop < |to| && |key| == |to| && |w'| == h + 1 && w'[..h] == key[..h]
    requires IsKey(b, |to|, to) && IsKey(b, |key|, key) && Val(b, key[..h + 1]) <= Val(b, to[..h + 1])
    requires SameUpto(b, from, to, key[..hop + 1], key[..h + 1])
    requires last <==> LastDigit(b, to, key[..h], key[h])
    requires !last ==> w'[h] == key[h] + 1 < b
    ensures last && h > 0 ==> SameUpto(b, from, to, key[..hop + 1], key[..h]) && Val(b, key[..h]) <= Val(b, to[..h])
    ensures last && h == 0 ==> Climbed(b, from, to, key[..hop + 1], w', true)
    ensures !last ==> Climbed(b, from, to, key[..hop + 1], w', false)
  {
    var w, d := key[..h], key[h];
    assert key[..h + 1] == w + [d];
    if last {
      LastDigitClimb(b, from, to, w, d);
    } else {
      assert w' == w + [d + 1];
      NextDigits(b, from, to, w, d);
    }
  }

  lemma {:induction false} LastDigitClimb(b: nat, from: Key, to: Key, w: Key, d: nat)
    requires b >= 2 && |w| < |to| && IsKey(b, |to|, to) && IsKey(b, |w|, w) && d < b && LastDigit(b, to, w, d)
    requires Val(b, w + [d]) <= Val(b, to[..|w| + 1])
    ensures forall k | IsKey(b, |to|, k) :: Upto(b, from, to, w + [d], k) <==> Upto(b, from, to, w, k)
    ensures Val(b, w) <= Val(b, to[..|w|])
  {
    ValSnoc(b, w, d);
    ValStep(b, to, |w|);
    DigitOrder(b, Val(b, to[..|w|]), to[|w|], Val(b, w), d);
    forall k | IsKey(b, |to|, k)
      ensures Upto(b, from, to, w + [d], k) <==> Upto(b, from, to, w, k)
    {
      if d == b - 1 {
        ClimbFull(b, from, to, w, k);
      } else {
        assert to[..|w| + 1] == w + [d];
        UptoEnd(b, from, to, |w| + 1, k);
        UptoEnd(b, from, to, |w|, k);
      }
    }
  }
}
