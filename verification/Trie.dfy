/**
 The page pool shared by common/lpm.h and common/lpm_wide.h: a list of pages of `b` slots, page 0
 the root, each slot a flagged value or the index of a child page. Keys have `n` digits.
 */
module Trie {
  import opened Keys

  const VALUE_INVALID: nat := 0xffff_ffff
  const EMPTY_RAW: nat := 0xffff_ffff_ffff_ffff

  /** LPM_VALUE_SET: the shift happens in 32 bits. */
  function ValueSet(v: nat): nat { 2 * v % 0x1_0000_0000 + 1 }

  /** LPM_VALUE_GET: the shift happens in 64 bits, the result is narrowed to 32. */
  function ValueGet(raw: nat): nat { raw / 2 % 0x1_0000_0000 }

  /** A word some value slot can hold: the empty marker or a flagged 31-bit value. */
  ghost predicate GoodRaw(raw: nat) {
    raw == EMPTY_RAW || (raw % 2 == 1 && raw < 0x1_0000_0000)
  }

  /** A stored value reads back unchanged exactly when it is below 2^31; an empty slot reads invalid. */
  lemma {:induction false} ValueRoundTrip(v: nat)
    ensures GoodRaw(ValueSet(v))
    ensures ValueGet(ValueSet(v)) == v <==> v < 0x8000_0000
    ensures ValueGet(ValueSet(v)) != VALUE_INVALID && ValueGet(EMPTY_RAW) == VALUE_INVALID
  {
  }

  lemma {:induction false} ValueGetInjective(x: nat, y: nat)
    requires GoodRaw(x) && GoodRaw(y)
    ensures ValueGet(x) == ValueGet(y) <==> x == y
  {
  }

  /** A slot: a raw 64-bit word with the value flag set, or a link to a child page. */
  datatype Slot = Leaf(raw: nat) | Node(page: nat)
  type Page = seq<Slot>

  /**
   A pool seen as a value. `path[p]` is the digit string that leads to page `p`; a page that
   compaction detached keeps its entry.
   */
  datatype Pool = Pool(b: nat, n: nat, pages: seq<Page>, path: seq<Key>) {

    /** The shape every operation keeps. */
    ghost predicate Wf() {
      && |path| == |pages| > 0
      && path[0] == []
      && (forall p | 0 <= p < |pages| :: |pages[p]| == b && |path[p]| < n)
      && (forall p, d | 0 <= p < |pages| && 0 <= d < b && pages[p][d].Node? ::
            pages[p][d].page < |pages| && path[pages[p][d].page] == path[p] + [d])
    }

    /** Every value slot holds a word that some store put there. */
    ghost predicate Good() {
      forall p, d | 0 <= p < |pages| && 0 <= d < |pages[p]| && pages[p][d].Leaf? :: GoodRaw(pages[p][d].raw)
    }

    /** The page reached from the root by the digits `w`, or -1 if the walk meets a value first. */
    ghost function Walk(w: Key): (p: int)
      requires Wf() && IsKey(b, |w|, w)
      ensures -1 <= p < |pages| && (p >= 0 ==> path[p] == w)
      decreases |w|
    {
      if |w| == 0 then 0 else
        var m := |w| - 1;
        var q := Walk(w[..m]);
        assert w == w[..m] + [w[m]];
        if q >= 0 && pages[q][w[m]].Node? then pages[q][w[m]].page else -1
    }

    /** The raw word the lookup loop stops at, from page `p` on digit `h` of `k`. */
    ghost function Find(p: nat, k: Key, h: nat): nat
      requires Wf() && IsKey(b, n, k) && p < |pages| && h < n && path[p] == k[..h]
      decreases n - h
    {
      match pages[p][k[h]]
      case Leaf(raw) => raw
      case Node(q) =>
        assert k[..h + 1] == k[..h] + [k[h]];
        Find(q, k, h + 1)
    }

    /** The raw word stored for the key `k`. */
    ghost function Raw(k: Key): nat
      requires Wf() && IsKey(b, n, k)
    {
      Find(0, k, 0)
    }

    ghost function Set(p: nat, d: nat, s: Slot): Pool
      requires p < |pages| && d < |pages[p]|
    {
      this.(pages := pages[p := pages[p][d := s]])
    }

    /** The pool after lpm_new_page split a value slot: a fresh page filled with the slot's word. */
    ghost function Split(p: nat, d: nat): Pool
      requires p < |pages| == |path| && d < |pages[p]| && pages[p][d].Leaf?
    {
      Pool(b, n, pages[p := pages[p][d := Node(|pages|)]] + [seq(b, i => pages[p][d])], path + [path[p] + [d]])
    }
  }

  /** The lookup of a key may be resumed from any page on its walk. */
  lemma {:induction false} FindVia(t: Pool, k: Key, h: nat)
    requires t.Wf() && IsKey(t.b, t.n, k) && h < t.n && t.Walk(k[..h]) >= 0
    ensures t.Raw(k) == t.Find(t.Walk(k[..h]), k, h)
    decreases h
  {
    if h > 0 {
      assert k[..h][..h - 1] == k[..h - 1];
      FindVia(t, k, h - 1);
    }
  }

  lemma {:induction false} FindGood(t: Pool, p: nat, k: Key, h: nat)
    requires t.Wf() && t.Good() && IsKey(t.b, t.n, k) && p < |t.pages| && h < t.n && t.path[p] == k[..h]
    ensures GoodRaw(t.Find(p, k, h))
    decreases t.n - h
  {
    if t.pages[p][k[h]].Node? {
      assert k[..h + 1] == k[..h] + [k[h]];
      FindGood(t, t.pages[p][k[h]].page, k, h + 1);
    }
  }

  lemma {:induction false} WalkFrame(t: Pool, p: nat, d: nat, raw: nat, w: Key)
    requires t.Wf() && IsKey(t.b, |w|, w) && p < |t.pages| && d < t.b
    requires t.Set(p, d, Leaf(raw)).Wf()
    requires |w| <= |t.path[p]| || w[..|t.path[p]| + 1] != t.path[p] + [d]
    ensures t.Set(p, d, Leaf(raw)).Walk(w) == t.Walk(w)
    decreases |w|
  {
    if |w| > 0 {
      var m, l := |w| - 1, |t.path[p]|;
      if m == l {
        assert w[..l + 1] == w == w[..m] + [w[m]];
      } else if l < m {
        assert w[..m][..l + 1] == w[..l + 1];
      }
      WalkFrame(t, p, d, raw, w[..m]);
    }
  }

  lemma {:induction false} FindFrame(t: Pool, p: nat, d: nat, raw: nat, q: nat, k: Key, h: nat)
    requires t.Wf() && IsKey(t.b, t.n, k) && p < |t.pages| && d < t.b
    requires t.Set(p, d, Leaf(raw)).Wf()
    requires q < |t.pages| && h < t.n && t.path[q] == k[..h]
    requires k[..|t.path[p]| + 1] != t.path[p] + [d]
    ensures t.Set(p, d, Leaf(raw)).Find(q, k, h) == t.Find(q, k, h)
    decreases t.n - h
  {
    assert k[..h + 1] == k[..h] + [k[h]];
    if !(q == p && k[h] == d) && t.pages[q][k[h]].Node? {
      FindFrame(t, p, d, raw, t.pages[q][k[h]].page, k, h + 1);
    }
  }

  lemma {:induction false} SetWf(t: Pool, p: nat, d: nat, raw: nat)
    requires t.Wf() && p < |t.pages| && d < t.b
    ensures t.Set(p, d, Leaf(raw)).Wf()
  {
  }

  lemma {:induction false} SetGood(t: Pool, p: nat, d: nat, raw: nat)
    requires t.Good() && p < |t.pages| && d < |t.pages[p]| && GoodRaw(raw)
    ensures t.Set(p, d, Leaf(raw)).Good()
  {
  }

  lemma {:induction false} SplitGood(t: Pool, p: nat, d: nat)
    requires t.Good() && p < |t.pages| == |t.path| && d < |t.pages[p]| && t.pages[p][d].Leaf?
    ensures t.Split(p, d).Good()
  {
  }

  /** Writing a value into a slot changes exactly the keys that begin with the slot's digits. */
  lemma {:induction false} WriteLeaf(t: Pool, w: Key, d: nat, raw: nat, k: Key)
    requires t.Wf() && IsKey(t.b, |w|, w) && d < t.b && IsKey(t.b, t.n, k) && t.Walk(w) >= 0
    requires t.Set(t.Walk(w), d, Leaf(raw)).Wf()
    ensures t.Set(t.Walk(w), d, Leaf(raw)).Raw(k) == if k[..|w| + 1] == w + [d] then raw else t.Raw(k)
  {
    var p := t.Walk(w);
    var t' := t.Set(p, d, Leaf(raw));
    if k[..|w| + 1] == w + [d] {
      assert k[..|w|] == k[..|w| + 1][..|w|] && k[|w|] == k[..|w| + 1][|w|];
      WalkFrame(t, p, d, raw, w);
      FindVia(t', k, |w|);
    } else {
      FindFrame(t, p, d, raw, 0, k, 0);
    }
  }

  lemma {:induction false} SplitWf(t: Pool, p: nat, d: nat)
    requires t.Wf() && p < |t.pages| && d < t.b && t.pages[p][d].Leaf? && |t.path[p]| + 1 < t.n
    ensures t.Split(p, d).Wf()
  {
  }

  /** Splitting a slot changes no lookup. */
  lemma {:induction false} SplitFind(t: Pool, p: nat, d: nat, q: nat, k: Key, h: nat)
    requires t.Wf() && p < |t.pages| && d < t.b && t.pages[p][d].Leaf? && t.Split(p, d).Wf()
    requires IsKey(t.b, t.n, k) && q < |t.pages| && h < t.n && t.path[q] == k[..h]
    ensures t.Split(p, d).Find(q, k, h) == t.Find(q, k, h)
    decreases t.n - h
  {
    assert k[..h + 1] == k[..h] + [k[h]];
    if t.pages[q][k[h]].Node? {
      SplitFind(t, p, d, t.pages[q][k[h]].page, k, h + 1);
    }
  }

  lemma {:induction false} SplitWalk(t: Pool, p: nat, d: nat, w: Key)
    requires t.Wf() && p < |t.pages| && d < t.b && t.pages[p][d].Leaf? && t.Split(p, d).Wf()
    requires IsKey(t.b, |w|, w) && t.Walk(w) >= 0
    ensures t.Split(p, d).Walk(w) == t.Walk(w)
    decreases |w|
  {
    if |w| > 0 {
      SplitWalk(t, p, d, w[..|w| - 1]);
    }
  }
}
