/**
 The range-to-value trie of common/lpm.h and its 16-bit-digit twin of common/lpm_wide.h.
 */
module RangeTrie {
  import opened Keys
  import opened Trie
  import opened Cursor
  import opened Compaction

  /** Every key of the range before `w` holds `raw`, all others still hold what `t0` held. */
  ghost predicate PaintedBelow(t0: Pool, t: Pool, from: Key, to: Key, raw: nat, w: Key)
    requires t0.Wf() && t.Wf() && t0.b == t.b && t0.n == t.n && |w| <= t.n
  {
    forall k {:trigger t.Raw(k)} | IsKey(t.b, t.n, k) :: t.Raw(k) == if Below(t.b, from, to, w, k) then raw else t0.Raw(k)
  }

  ghost predicate PaintedUpto(t0: Pool, t: Pool, from: Key, to: Key, raw: nat, w: Key)
    requires t0.Wf() && t.Wf() && t0.b == t.b && t0.n == t.n && |w| <= t.n
  {
    forall k {:trigger t.Raw(k)} | IsKey(t.b, t.n, k) :: t.Raw(k) == if Upto(t.b, from, to, w, k) then raw else t0.Raw(k)
  }

  ghost predicate Painted(t0: Pool, t: Pool, from: Key, to: Key, raw: nat)
    requires t0.Wf() && t.Wf() && t0.b == t.b && t0.n == t.n
  {
    forall k {:trigger t.Raw(k)} | IsKey(t.b, t.n, k) :: t.Raw(k) == if InRange(t.b, from, to, k) then raw else t0.Raw(k)
  }

  /** When the trie is first entered at a deeper level, it is along `from` or `from` ends in zeros. */
  ghost predicate FirstDescent(from: Key, key: Key, hop: nat, maxHop: nat)
    requires hop <= maxHop < |from| == |key|
  {
    (hop == maxHop && key[..hop + 1] == from[..hop + 1]) || forall j | maxHop < j < |from| :: from[j] == 0
  }

  lemma {:induction false} DescendKeys(b: nat, from: Key, to: Key, key: Key, hop: nat, maxHop: nat, x: nat)
    requires b > 0 && hop <= maxHop < |from| && hop + 1 < |from| && |to| == |key| == |from|
    requires IsKey(b, |from|, from) && IsKey(b, |from|, to) && IsKey(b, |from|, key) && Val(b, from) <= Val(b, to)
    requires FirstDescent(from, key, hop, maxHop)
    requires hop < maxHop ==> Val(b, from[..hop + 1]) < Val(b, key[..hop + 1])
    requires Val(b, from[..hop + 1]) <= Val(b, key[..hop + 1]) <= Val(b, to[..hop + 1])
    requires x == if hop == maxHop then from[hop + 1] else 0
    ensures var w := key[..hop + 1];
            && (forall k | IsKey(b, |from|, k) :: Below(b, from, to, w, k) <==> Below(b, from, to, w + [x], k))
            && Val(b, from[..hop + 2]) <= Val(b, w + [x]) <= Val(b, to[..hop + 2])
            && Val(b, Pad(w, |from|, 0)) <= Val(b, Pad(w + [x], |from|, 0))
  {
    var w := key[..hop + 1];
    var full := Pad(w + [x], |from|, 0);
    assert full[..hop + 1] == w;
    PadBounds(b, full, hop + 1);
    ValStep(b, from, hop + 1);
    ValStep(b, to, hop + 1);
    ValSnoc(b, w, x);
    if hop == maxHop && w == from[..hop + 1] {
      assert from[..hop + 2] == w + [x];
      PrefixOrder(b, from, to, hop + 2);
    } else {
      assert x == 0;
      DigitOrder(b, Val(b, w), 0, Val(b, from[..hop + 1]), from[hop + 1]);
      DigitOrder(b, Val(b, to[..hop + 1]), to[hop + 1], Val(b, w), 0);
    }
    forall k | IsKey(b, |from|, k)
      ensures Below(b, from, to, w, k) <==> Below(b, from, to, w + [x], k)
    {
      if x == 0 {
        BelowZero(b, from, to, w, k);
      } else {
        assert from[..hop + 2] == w + [x];
        BelowFrom(b, from, to, hop + 1, k);
        BelowFrom(b, from, to, hop + 2, k);
      }
    }
  }

  /** Storing the value over a block of the range: the block joins the painted keys. */
  lemma {:induction false} StoreBlock(t0: Pool, t: Pool, from: Key, to: Key, raw: nat, w: Key, d: nat)
    requires t0.Wf() && t.Wf() && t0.b == t.b > 0 && t0.n == t.n && |w| < t.n && IsKey(t.b, |w|, w) && d < t.b
    requires PaintedBelow(t0, t, from, to, raw, w + [d])
    requires t.Walk(w) >= 0 && t.Set(t.Walk(w), d, Leaf(raw)).Wf()
    requires Val(t.b, from) <= Val(t.b, Pad(w + [d], t.n, 0)) && Val(t.b, Pad(w + [d], t.n, t.b - 1)) <= Val(t.b, to)
    ensures PaintedUpto(t0, t.Set(t.Walk(w), d, Leaf(raw)), from, to, raw, w + [d])
  {
    var t' := t.Set(t.Walk(w), d, Leaf(raw));
    forall k | IsKey(t.b, t.n, k)
      ensures t'.Raw(k) == if Upto(t.b, from, to, w + [d], k) then raw else t0.Raw(k)
    {
      WriteLeaf(t, w, d, raw, k);
      ValInjective(t.b, k[..|w| + 1], w + [d]);
      if k[..|w| + 1] == w + [d] {
        BlockInRange(t.b, from, to, w + [d], k);
      }
    }
  }

  lemma {:induction false} SplitPaint(t0: Pool, t: Pool, from: Key, to: Key, raw: nat, w: Key, p: nat, d: nat)
    requires t0.Wf() && t.Wf() && t0.b == t.b && t0.n == t.n && |w| <= t.n
    requires p < |t.pages| && d < t.b && t.pages[p][d].Leaf? && |t.path[p]| + 1 < t.n
    requires PaintedBelow(t0, t, from, to, raw, w) && t.Split(p, d).Wf()
    ensures PaintedBelow(t0, t.Split(p, d), from, to, raw, w)
  {
    forall k | IsKey(t.b, t.n, k)
      ensures t.Split(p, d).Raw(k) == t.Raw(k)
    {
      SplitFind(t, p, d, 0, k, 0);
    }
  }

  lemma {:induction false} PadOrder(b: nat, n: nat, w: Key, to: Key)
    requires |w| <= n && b > 0 && IsKey(b, |w|, w) && IsKey(b, n, to) && Val(b, w) <= Val(b, to[..|w|])
    ensures Val(b, Pad(w, n, 0)) <= Val(b, to)
  {
    var lo := Pad(w, n, 0);
    PrefixOrder(b, lo, to, |w|);
    ValInjective(b, w, to[..|w|]);
    PadBounds(b, to, |w|);
  }

  /** The first key below the slot the cursor stands on. */
  ghost function Pos(b: nat, n: nat, key: Key, hop: nat): nat
    requires hop < n == |key|
  {
    Val(b, Pad(key[..hop + 1], n, 0))
  }

  /** The cursor has moved forward, or down at the same place, and not past `limit`. */
  ghost predicate Ahead(b: nat, n: nat, limit: nat, key: Key, hop: nat, key': Key, hop': nat)
    requires hop < n == |key| && hop' < n == |key'|
  {
    && Pos(b, n, key, hop) <= Pos(b, n, key', hop') <= limit
    && (Pos(b, n, key, hop) == Pos(b, n, key', hop') ==> hop < hop')
  }

  /** A position of the insert loop: the keys of the range before `key[..hop + 1]` are painted. */
  ghost predicate At(t0: Pool, t: Pool, from: Key, to: Key, raw: nat, key: Key, stack: seq<nat>, hop: nat, maxHop: nat) {
    && t0.Wf() && t.Wf() && t0.b == t.b >= 2 && t0.n == t.n
    && hop <= maxHop < t.n && |stack| == t.n
    && IsKey(t.b, t.n, from) && IsKey(t.b, t.n, to) && IsKey(t.b, t.n, key) && Val(t.b, from) <= Val(t.b, to)
    && OnPath(t, key, stack, hop)
    && FirstDescent(from, key, hop, maxHop)
    && (hop < maxHop ==> Val(t.b, from[..hop + 1]) < Val(t.b, key[..hop + 1]))
    && Val(t.b, from[..hop + 1]) <= Val(t.b, key[..hop + 1]) <= Val(t.b, to[..hop + 1])
    && PaintedBelow(t0, t, from, to, raw, key[..hop + 1])
  }

  lemma {:induction false} StartAt(t: Pool, from: Key, to: Key, raw: nat, key: Key, stack: seq<nat>)
    requires t.Wf() && t.b >= 2 && t.n >= 1 && |stack| == t.n && stack[0] == 0
    requires IsKey(t.b, t.n, from) && IsKey(t.b, t.n, to) && IsKey(t.b, t.n, key) && Val(t.b, from) <= Val(t.b, to)
    requires key[0] == from[0]
    ensures At(t, t, from, to, raw, key, stack, 0, 0)
  {
    assert key[..1] == from[..1];
    PrefixOrder(t.b, from, to, 1);
    forall k | IsKey(t.b, t.n, k)
      ensures !Below(t.b, from, to, key[..1], k)
    {
      BelowFrom(t.b, from, to, 1, k);
    }
  }

  /** After a whole block is overwritten the trie is painted up to it, and `from` needs no deeper start. */
  lemma {:induction false} AfterStore(t0: Pool, t: Pool, from: Key, to: Key, raw: nat, key: Key, stack: seq<nat>, hop: nat, maxHop: nat)
    requires At(t0, t, from, to, raw, key, stack, hop, maxHop)
    requires hop < t.n - 1 ==>
               && Val(t.b, from) <= Val(t.b, Pad(key[..hop + 1], t.n, 0))
               && Val(t.b, Pad(key[..hop + 1], t.n, t.b - 1)) <= Val(t.b, to)
    ensures stack[hop] < |t.pages|
    ensures var t' := t.Set(stack[hop], key[hop], Leaf(raw));
            t'.Wf() && OnPath(t', key, stack, hop) && PaintedUpto(t0, t', from, to, raw, key[..hop + 1])
    ensures forall j | maxHop < j < t.n :: from[j] == 0
  {
    var w, d := key[..hop], key[hop];
    assert t.Walk(w) == stack[hop];
    assert key[..hop + 1] == w + [d];
    SetWf(t, stack[hop], d, raw);
    if hop == t.n - 1 {
      assert from[..hop + 1] == from && to[..hop + 1] == to;
      assert Pad(w + [d], t.n, 0) == w + [d] == Pad(w + [d], t.n, t.b - 1);
    } else if hop == maxHop && key[..hop + 1] == from[..hop + 1] {
      PadZeroEqual(t.b, from, hop + 1);
    }
    StoreBlock(t0, t, from, to, raw, w, d);
    StorePath(t, key, stack, hop, raw);
  }

  lemma {:induction false} StorePath(t: Pool, key: Key, stack: seq<nat>, hop: nat, raw: nat)
    requires t.Wf() && IsKey(t.b, t.n, key) && |stack| == t.n && hop < t.n && OnPath(t, key, stack, hop)
    requires stack[hop] < |t.pages| && t.Set(stack[hop], key[hop], Leaf(raw)).Wf()
    ensures OnPath(t.Set(stack[hop], key[hop], Leaf(raw)), key, stack, hop)
  {
    assert t.Walk(key[..hop]) == stack[hop];
    forall j | 0 <= j <= hop
      ensures t.Set(stack[hop], key[hop], Leaf(raw)).Walk(key[..j]) == stack[j]
    {
      WalkFrame(t, stack[hop], key[hop], raw, key[..j]);
    }
  }

  lemma {:induction false} AfterClimb(t0: Pool, t: Pool, from: Key, to: Key, raw: nat, key: Key, stack: seq<nat>, hop: nat, maxHop: nat,
                   key': Key, hop': nat, done: bool)
    requires t0.Wf() && t.Wf() && t0.b == t.b >= 2 && t0.n == t.n && hop <= maxHop < t.n && |stack| == t.n
    requires IsKey(t.b, t.n, from) && IsKey(t.b, t.n, to) && IsKey(t.b, t.n, key) && Val(t.b, from) <= Val(t.b, to)
    requires OnPath(t, key, stack, hop) && PaintedUpto(t0, t, from, to, raw, key[..hop + 1])
    requires Val(t.b, from[..hop + 1]) <= Val(t.b, key[..hop + 1])
    requires forall j | maxHop < j < t.n :: from[j] == 0
    requires IsKey(t.b, t.n, key') && hop' <= hop && key'[..hop'] == key[..hop']
    requires Climbed(t.b, from, to, key[..hop + 1], key'[..hop' + 1], done)
    requires !done ==> key'[hop'] == key[hop'] + 1 && Val(t.b, key'[..hop' + 1]) <= Val(t.b, to[..hop' + 1])
    ensures done ==> Painted(t0, t, from, to, raw)
    ensures !done ==> At(t0, t, from, to, raw, key', stack, hop', maxHop)
  {
    if !done {
      assert forall j | 0 <= j <= hop' :: key'[..j] == key'[..hop'][..j] == key[..j];
      ValStep(t.b, key, hop');
      ValStep(t.b, key', hop');
      assert from[..hop + 1][..hop' + 1] == from[..hop' + 1] && key[..hop + 1][..hop' + 1] == key[..hop' + 1];
      PrefixOrder(t.b, from[..hop + 1], key[..hop + 1], hop' + 1);
    }
  }

  lemma {:induction false} ClimbAhead(b: nat, n: nat, key: Key, hop: nat, key': Key, hop': nat)
    requires b > 0 && hop' <= hop < n && IsKey(b, n, key) && IsKey(b, n, key')
    requires key'[..hop'] == key[..hop'] && key'[hop'] == key[hop'] + 1
    ensures Pos(b, n, key, hop) < Pos(b, n, key', hop') <= Count(b, n)
  {
    ValStep(b, key, hop');
    ValStep(b, key', hop');
    var lo, lo' := Pad(key[..hop + 1], n, 0), Pad(key'[..hop' + 1], n, 0);
    assert lo[..hop' + 1] == key[..hop' + 1] && lo'[..hop' + 1] == key'[..hop' + 1];
    PrefixOrder(b, lo, lo', hop' + 1);
    ValBound(b, lo');
  }

  lemma {:induction false} StoreAhead(b: nat, n: nat, to: Key, key: Key, hop: nat, key': Key, hop': nat)
    requires b > 0 && hop' <= hop < n && IsKey(b, n, key) && IsKey(b, n, key') && IsKey(b, n, to)
    requires key'[..hop'] == key[..hop'] && key'[hop'] == key[hop'] + 1
    requires Val(b, key'[..hop' + 1]) <= Val(b, to[..hop' + 1])
    ensures Ahead(b, n, Val(b, to), key, hop, key', hop')
  {
    ClimbAhead(b, n, key, hop, key', hop');
    PadOrder(b, n, key'[..hop' + 1], to);
  }

  /** Going down one level, splitting the slot first if it held a value, paints nothing. */
  lemma {:induction false} AfterSplit(t0: Pool, t: Pool, from: Key, to: Key, raw: nat, key: Key, stack: seq<nat>, hop: nat, maxHop: nat)
    requires At(t0, t, from, to, raw, key, stack, hop, maxHop) && hop + 1 < t.n
    requires stack[hop] < |t.pages| && t.pages[stack[hop]][key[hop]].Leaf?
    ensures At(t0, t.Split(stack[hop], key[hop]), from, to, raw, key, stack, hop, maxHop)
  {
    var p, d := stack[hop], key[hop];
    assert t.Walk(key[..hop]) == p;
    SplitWf(t, p, d);
    SplitPaint(t0, t, from, to, raw, key[..hop + 1], p, d);
    forall j | 0 <= j <= hop
      ensures t.Split(p, d).Walk(key[..j]) == stack[j]
    {
      SplitWalk(t, p, d, key[..j]);
    }
  }

  lemma {:induction false} AfterDescend(t0: Pool, t: Pool, from: Key, to: Key, raw: nat, key: Key, stack: seq<nat>, hop: nat, maxHop: nat)
    requires At(t0, t, from, to, raw, key, stack, hop, maxHop)
    requires stack[hop] < |t.pages| && t.pages[stack[hop]][key[hop]].Node?
    ensures hop + 1 < t.n
    ensures var key' := key[hop + 1 := if hop == maxHop then from[hop + 1] else 0];
            && At(t0, t, from, to, raw, key', stack[hop + 1 := t.pages[stack[hop]][key[hop]].page],
                  hop + 1, if hop == maxHop then hop + 1 else maxHop)
            && Val(t.b, Pad(key[..hop + 1], t.n, 0)) <= Val(t.b, Pad(key'[..hop + 2], t.n, 0))
  {
    DescendPath(t, key, stack, hop, 0);
    var x := if hop == maxHop then from[hop + 1] else 0;
    var key' := key[hop + 1 := x];
    var w, w' := key[..hop + 1], key'[..hop + 2];
    DescendPath(t, key, stack, hop, x);
    DescendKeys(t.b, from, to, key, hop, maxHop, x);
    assert w' == w + [x];
    assert PaintedBelow(t0, t, from, to, raw, w');
    if hop == maxHop {
      if w == from[..hop + 1] {
        assert from[..hop + 2] == w';
      }
    } else {
      ValStep(t.b, from, hop + 1);
      ValSnoc(t.b, w, x);
      DigitOrder(t.b, Val(t.b, from[..hop + 1]), from[hop + 1], Val(t.b, w), 0);
    }
  }

  lemma {:induction false} DownAhead(b: nat, n: nat, key: Key, hop: nat)
    requires b > 0 && hop + 1 < n && IsKey(b, n, key)
    ensures Pos(b, n, key, hop) == Pos(b, n, key[hop + 1 := 0], hop + 1) <= Count(b, n)
  {
    var key' := key[hop + 1 := 0];
    assert Pad(key[..hop + 1], n, 0) == Pad(key'[..hop + 2], n, 0);
    ValBound(b, Pad(key[..hop + 1], n, 0));
  }

  /** A trie of pages; `b` is 256 for lpm and 65536 for lpm_wide, `n` the digits of a key. */
  class Lpm {
    const wide: bool
    const b: nat
    const n: nat
    /** Pages are taken from the memory context in chunks. */
    const chunk: nat
    var pages: seq<Page>
    ghost var path: seq<Key>
    /** Chunks the memory context can still provide. */
    var chunksLeft: nat

    ghost function T(): Pool
      reads this
    {
      Pool(b, n, pages, path)
    }

    ghost predicate Valid()
      reads this
    {
      b >= 2 && n >= 1 && chunk >= 1 && T().Wf() && T().Good()
    }

    /** What a lookup of `k` answers. */
    ghost function Value(k: Key): nat
      requires Valid() && IsKey(b, n, k)
      reads this
    {
      ValueGet(T().Raw(k))
    }

    /** lpm_new_page on a value slot. */
    method NewPage(p: nat, d: nat) returns (ok: bool)
      requires Valid() && p < |pages| && d < b && pages[p][d].Leaf? && |path[p]| + 1 < n
      modifies this`pages, this`path, this`chunksLeft
      ensures ok ==> T() == old(T().Split(p, d))
      ensures T().Good()
      ensures !ok ==> T() == old(T()) && chunksLeft == 0
      ensures chunksLeft == old(chunksLeft) - if ok && old(|pages|) % chunk == 0 then 1 else 0
    {
      SplitGood(T(), p, d);
      if |pages| % chunk == 0 {
        if chunksLeft == 0 {
          return false;
        }
        chunksLeft := chunksLeft - 1;
      }
      var word := pages[p][d];
      pages := pages[p := pages[p][d := Node(|pages|)]] + [seq(b, i => word)];
      path := path + [path[p] + [d]];
      return true;
    }

    /** Whether the value slot at the cursor has to be split: its block sticks out of the range. */
    method Partial(from: Key, to: Key, key: Key, hop: nat) returns (r: bool)
      requires b >= 2 && hop < n && IsKey(b, n, from) && IsKey(b, n, to) && IsKey(b, n, key)
      ensures r <==> hop < n - 1 && (Val(b, Pad(key[..hop + 1], n, 0)) < Val(b, from) ||
                                     Val(b, Pad(key[..hop + 1], n, b - 1)) > Val(b, to))
    {
      r := false;
      if hop < n - 1 {
        r := StartsBefore(b, key, from, hop);
        if !r {
          r := EndsAfter(b, key, to, hop);
        }
      }
    }

    /** Overwrite the slot at the cursor and move to the next block of the range. */
    method Store(ghost t0: Pool, from: Key, to: Key, value: nat, key: Key, stack: seq<nat>, hop: nat, ghost maxHop: nat)
      returns (key': Key, hop': nat, done: bool)
      requires At(t0, T(), from, to, ValueSet(value), key, stack, hop, maxHop) && T().Good()
      requires hop < n - 1 ==>
                 && Val(b, from) <= Val(b, Pad(key[..hop + 1], n, 0))
                 && Val(b, Pad(key[..hop + 1], n, b - 1)) <= Val(b, to)
      modifies this`pages
      ensures T().Wf() && T().Good()
      ensures done ==> Painted(t0, T(), from, to, ValueSet(value))
      ensures !done ==> At(t0, T(), from, to, ValueSet(value), key', stack, hop', maxHop)
      ensures !done ==> Ahead(b, n, Val(b, to), key, hop, key', hop')
    {
      ghost var raw := ValueSet(value);
      ValueRoundTrip(value);
      AfterStore(t0, T(), from, to, raw, key, stack, hop, maxHop);
      SetGood(T(), stack[hop], key[hop], raw);
      pages := pages[stack[hop] := pages[stack[hop]][key[hop] := Leaf(ValueSet(value))]];
      key', hop', done := Climb(wide, b, from, to, key, hop);
      AfterClimb(t0, T(), from, to, raw, key, stack, hop, maxHop, key', hop', done);
      if !done {
        StoreAhead(b, n, to, key, hop, key', hop');
      }
    }

    /** Go one level down below the cursor, splitting a value slot first. */
    method Descend(ghost t0: Pool, from: Key, ghost to: Key, ghost raw: nat, key: Key, stack: seq<nat>, hop: nat, maxHop: nat)
      returns (ok: bool, key': Key, stack': seq<nat>, maxHop': nat)
      requires Valid() && At(t0, T(), from, to, raw, key, stack, hop, maxHop)
      requires stack[hop] < |pages| && (pages[stack[hop]][key[hop]].Leaf? ==> hop < n - 1)
      modifies this`pages, this`path, this`chunksLeft
      ensures !ok ==> T() == old(T()) && key' == key && chunksLeft == 0
      ensures T().Good()
      ensures ok ==> hop + 1 < n && At(t0, T(), from, to, raw, key', stack', hop + 1, maxHop')
      ensures ok ==> Ahead(b, n, Val(b, to), key, hop, key', hop + 1)
    {
      key', stack', maxHop' := key, stack, maxHop;
      if pages[stack[hop]][key[hop]].Leaf? {
        AfterSplit(t0, T(), from, to, raw, key, stack, hop, maxHop);
        ok := NewPage(stack[hop], key[hop]);
        if !ok {
          return;
        }
      }
      AfterDescend(t0, T(), from, to, raw, key, stack, hop, maxHop);
      stack' := stack[hop + 1 := pages[stack[hop]][key[hop]].page];
      if hop + 1 > maxHop {
        key' := key[hop + 1 := from[hop + 1]];
        maxHop' := hop + 1;
      } else {
        key' := key[hop + 1 := 0];
      }
      PadOrder(b, n, key'[..hop + 2], to);
      ok := true;
    }

    /** One round of the insert loop. */
    method Step(ghost t0: Pool, from: Key, to: Key, value: nat, key: Key, stack: seq<nat>, hop: nat, maxHop: nat)
      returns (ok: bool, done: bool, key': Key, stack': seq<nat>, hop': nat, maxHop': nat)
      requires Valid() && At(t0, T(), from, to, ValueSet(value), key, stack, hop, maxHop)
      modifies this`pages, this`path, this`chunksLeft
      ensures Valid()
      ensures !ok ==> T() == old(T()) && chunksLeft == 0
      ensures ok && done ==> Painted(t0, T(), from, to, ValueSet(value))
      ensures ok && !done ==> At(t0, T(), from, to, ValueSet(value), key', stack', hop', maxHop')
      ensures ok && !done ==> Ahead(b, n, Val(b, to), key, hop, key', hop')
    {
      assert T().Walk(key[..hop]) == stack[hop];
      var partial := Partial(from, to, key, hop);
      if pages[stack[hop]][key[hop]].Leaf? && !partial {
        key', hop', done := Store(t0, from, to, value, key, stack, hop, maxHop);
        ok, stack', maxHop' := true, stack, maxHop;
      } else {
        ok, key', stack', maxHop' := Descend(t0, from, to, ValueSet(value), key, stack, hop, maxHop);
        hop', done := hop + 1, false;
      }
    }

    /**
     lpm_insert: maps `[from..to]` to `value`. When the memory context runs dry the range is left
     painted only before some digit prefix `stop`, and no key outside the range is touched.
     */
    method Insert(from: Key, to: Key, value: nat) returns (ok: bool, ghost stop: Key)
      requires Valid() && IsKey(b, n, from) && IsKey(b, n, to) && Val(b, from) <= Val(b, to)
      modifies this`pages, this`path, this`chunksLeft
      ensures Valid()
      ensures ok ==> Painted(old(T()), T(), from, to, ValueSet(value))
      ensures !ok ==> |stop| <= n && PaintedBelow(old(T()), T(), from, to, ValueSet(value), stop) && chunksLeft == 0
    {
      ghost var t0 := T();
      var key: Key := seq(n, i => 0)[0 := from[0]];
      var stack: seq<nat> := seq(n, i => 0);
      var hop: nat, maxHop: nat := 0, 0;
      StartAt(t0, from, to, ValueSet(value), key, stack);
      while true
        invariant At(t0, T(), from, to, ValueSet(value), key, stack, hop, maxHop) && T().Good()
        decreases Val(b, to) - Pos(b, n, key, hop), n - hop
      {
        var got, done, key', stack', hop', maxHop' := Step(t0, from, to, value, key, stack, hop, maxHop);
        if !got || done {
          return got, key[..hop + 1];
        }
        key, stack, hop, maxHop := key', stack', hop', maxHop';
      }
    }

    constructor (wide: bool, n: nat, chunks: nat)
      requires n >= 1 && chunks >= 1
      ensures Valid() && this.wide == wide && this.n == n && this.b == (if wide then 65536 else 256)
      ensures chunksLeft == chunks - 1
      ensures forall k | IsKey(b, n, k) :: Value(k) == VALUE_INVALID
    {
      this.wide := wide;
      this.b := if wide then 65536 else 256;
      this.n := n;
      this.chunk := if wide then 4 else 16;
      pages := [seq(if wide then 65536 else 256, i => Leaf(EMPTY_RAW))];
      path := [[]];
      chunksLeft := chunks - 1;
    }

    /** lpm_lookup. */
    method Lookup(k: Key) returns (v: nat)
      requires Valid() && IsKey(b, n, k)
      ensures v == Value(k)
    {
      var page, hop := 0, 0;
      while pages[page][k[hop]].Node?
        invariant 0 <= hop < n && 0 <= page < |pages| && T().path[page] == k[..hop]
        invariant T().Raw(k) == T().Find(page, k, hop)
        decreases n - hop
      {
        assert k[..hop + 1] == k[..hop] + [k[hop]];
        page := pages[page][k[hop]].page;
        hop := hop + 1;
      }
      return ValueGet(pages[page][k[hop]].raw);
    }

    method IsUniform(p: nat) returns (r: bool)
      requires Valid() && p < |pages|
      ensures r <==> Uniform(T(), p)
    {
      var first := pages[p][0];
      r := first.Leaf?;
      var idx := b - 1;
      while r && idx > 0
        invariant 0 <= idx < b
        invariant r ==> first.Leaf? && forall d | idx < d < b :: pages[p][d] == first
        invariant !r ==> !Uniform(T(), p)
      {
        r := first == pages[p][idx];
        idx := idx - 1;
      }
    }

    /** The end of a page in lpm_compact: its value moves into the parent's slot if it is uniform. */
    method Fold(key: Key, stack: seq<nat>, hop: nat)
      requires Valid() && IsKey(b, n, key) && |stack| == n && 0 < hop < n && OnPath(T(), key, stack, hop)
      modifies this`pages
      ensures T() == old(Folded(T(), key, stack, hop)) && T().Good()
    {
      assert T().Walk(key[..hop]) == stack[hop] && T().Walk(key[..hop - 1]) == stack[hop - 1];
      var uniform := IsUniform(stack[hop]);
      if uniform {
        SetGood(T(), stack[hop - 1], key[hop - 1], pages[stack[hop]][0].raw);
        pages := pages[stack[hop - 1] := pages[stack[hop - 1]][key[hop - 1] := pages[stack[hop]][0]]];
      }
    }

    /** Leave the finished slot: fold the pages that end here, stop at the next slot of the sweep. */
    method SweepClimb(ghost t0: Pool, key: Key, stack: seq<nat>, hop: nat) returns (key': Key, hop': nat, done: bool)
      requires Valid() && Swept(t0, T(), key, stack, hop)
      modifies this`pages
      ensures Valid()
      ensures done ==> t0.b == b && t0.n == n && t0.Wf() && SameLookups(t0, T()) && Canonical(T())
      ensures !done ==> Sweeping(t0, T(), key', stack, hop')
      ensures !done ==> Ahead(b, n, Count(b, n), key, hop, key', hop')
    {
      hop' := hop;
      while true
        invariant 0 <= hop' <= hop && Valid() && Swept(t0, T(), key, stack, hop')
        decreases hop'
      {
        var next := Inc(b, key[hop']);
        key' := key[hop' := next];
        if next != 0 {
          SweepNext(t0, T(), key, stack, hop');
          ClimbAhead(b, n, key, hop, key', hop');
          done := false;
          return;
        }
        if hop' == 0 {
          CleanDone(T(), key);
          done := true;
          return;
        }
        SweepUp(t0, T(), key, stack, hop');
        Fold(key, stack, hop');
        hop' := hop' - 1;
      }
    }

    /** One round of the sweep: go down into a child page, or finish with a value slot. */
    method SweepStep(ghost t0: Pool, key: Key, stack: seq<nat>, hop: nat)
      returns (key': Key, stack': seq<nat>, hop': nat, done: bool)
      requires Valid() && Sweeping(t0, T(), key, stack, hop)
      modifies this`pages
      ensures Valid()
      ensures done ==> t0.b == b && t0.n == n && t0.Wf() && SameLookups(t0, T()) && Canonical(T())
      ensures !done ==> Sweeping(t0, T(), key', stack', hop') && Ahead(b, n, Count(b, n), key, hop, key', hop')
    {
      assert T().Walk(key[..hop]) == stack[hop];
      if pages[stack[hop]][key[hop]].Node? {
        SweepDown(t0, T(), key, stack, hop);
        DownAhead(b, n, key, hop);
        stack' := stack[hop + 1 := pages[stack[hop]][key[hop]].page];
        hop' := hop + 1;
        key' := key[hop + 1 := 0];
        done := false;
      } else {
        SweepSlot(t0, T(), key, stack, hop);
        key', hop', done := SweepClimb(t0, key, stack, hop);
        stack' := stack;
      }
    }

    /** lpm_compact: folds every page whose slots all hold one value into its parent's slot. */
    method Compact()
      requires Valid()
      modifies this`pages
      ensures Valid() && Canonical(T())
      ensures SameLookups(old(T()), T())
    {
      ghost var t0 := T();
      var key: Key := seq(n, i => 0);
      var stack: seq<nat> := seq(n, i => 0);
      var hop: nat := 0;
      var done := false;
      SweepStart(T(), key, stack);
      while !done
        invariant Valid()
        invariant !done ==> Sweeping(t0, T(), key, stack, hop)
        invariant done ==> SameLookups(t0, T()) && Canonical(T())
        decreases !done, if done then 0 else Count(b, n) - Pos(b, n, key, hop), n - hop
      {
        key, stack, hop, done := SweepStep(t0, key, stack, hop);
      }
    }
  }

  /** lpm_init: the root page takes the first chunk; without one there is no trie. */
  method Init(wide: bool, n: nat, chunks: nat) returns (lpm: Lpm?)
    requires n >= 1
    ensures lpm == null <==> chunks == 0
    ensures lpm != null ==> lpm.Valid() && lpm.wide == wide && lpm.n == n && lpm.chunksLeft == chunks - 1
    ensures lpm != null ==> forall k | IsKey(lpm.b, lpm.n, k) :: lpm.Value(k) == VALUE_INVALID
  {
    if chunks == 0 {
      return null;
    }
    lpm := new Lpm(wide, n, chunks);
  }
}
