/**
 The ordered map of common/radix.h: 256-way pages, links on all levels but the last, values there.
 A link slot that is not set holds the invalid word, so the pool is a trie whose inner values are
 all invalid.
 */
module RadixTree {
  import opened Keys
  import opened Trie
  import opened Compaction

  const RADIX_INVALID: nat := 0xffff_ffff

  ghost predicate InnerEmpty(t: Pool)
    requires |t.path| == |t.pages|
  {
    forall p, d | 0 <= p < |t.pages| && 0 <= d < |t.pages[p]| && |t.path[p]| + 1 < t.n && t.pages[p][d].Leaf? ::
      t.pages[p][d].raw == RADIX_INVALID
  }

  lemma {:induction false} SplitRadix(t: Pool, w: Key, d: nat)
    requires t.Wf() && InnerEmpty(t) && IsKey(t.b, |w|, w) && t.Walk(w) >= 0 && d < t.b && |w| + 1 < t.n
    requires t.pages[t.Walk(w)][d].Leaf?
    ensures var t' := t.Split(t.Walk(w), d);
            && t'.Wf() && InnerEmpty(t') && SameLookups(t, t')
            && t'.Walk(w) == t.Walk(w) && t'.pages[t.Walk(w)][d].Node?
  {
    var p := t.Walk(w);
    SplitWf(t, p, d);
    SplitWalk(t, p, d, w);
    forall k | IsKey(t.b, t.n, k)
      ensures t.Split(p, d).Raw(k) == t.Raw(k)
    {
      SplitFind(t, p, d, 0, k, 0);
    }
  }

  lemma {:induction false} WriteRadix(t: Pool, key: Key, value: nat)
    requires t.Wf() && InnerEmpty(t) && t.n > 0 && IsKey(t.b, t.n, key) && t.Walk(key[..t.n - 1]) >= 0
    ensures var t' := t.Set(t.Walk(key[..t.n - 1]), key[t.n - 1], Leaf(value));
            && t'.Wf() && InnerEmpty(t')
            && forall k | IsKey(t.b, t.n, k) :: t'.Raw(k) == if k == key then value else t.Raw(k)
  {
    var w, d := key[..t.n - 1], key[t.n - 1];
    SetWf(t, t.Walk(w), d, value);
    assert key == w + [d];
    forall k | IsKey(t.b, t.n, k)
      ensures t.Set(t.Walk(w), d, Leaf(value)).Raw(k) == if k == key then value else t.Raw(k)
    {
      WriteLeaf(t, w, d, value, k);
      assert k[..|w| + 1] == k;
    }
  }

  /** A key and the value stored for it. */
  datatype Entry = Entry(key: Key, value: nat)

  ghost predicate Sorted(out: seq<Entry>) {
    forall i, j | 0 <= i < j < |out| :: Val(256, out[i].key) < Val(256, out[j].key)
  }

  ghost predicate Has(out: seq<Entry>, k: Key) {
    exists i | 0 <= i < |out| :: out[i].key == k
  }

  /** Every entry is a valid key of the map under `w`, with a next digit below `lim`. */
  ghost predicate Sound(t: Pool, w: Key, lim: nat, out: seq<Entry>)
    requires t.Wf() && t.b == 256 && |w| < t.n
  {
    forall i | 0 <= i < |out| ::
      && IsKey(256, t.n, out[i].key) && out[i].key[..|w|] == w && out[i].key[|w|] < lim
      && t.Raw(out[i].key) == out[i].value != RADIX_INVALID
  }

  ghost predicate Complete(t: Pool, w: Key, lim: nat, out: seq<Entry>)
    requires t.Wf() && t.b == 256 && |w| < t.n
  {
    forall k | IsKey(256, t.n, k) && k[..|w|] == w && k[|w|] < lim && t.Raw(k) != RADIX_INVALID :: Has(out, k)
  }

  ghost predicate Listing(t: Pool, w: Key, lim: nat, out: seq<Entry>)
    requires t.Wf() && t.b == 256 && |w| < t.n
  {
    Sorted(out) && Sound(t, w, lim, out) && Complete(t, w, lim, out)
  }

  /** Nothing is stored behind a slot that holds the invalid word. */
  lemma {:induction false} SkipSlot(t: Pool, w: Key, d: nat, out: seq<Entry>)
    requires t.Wf() && t.b == 256 && IsKey(256, |w|, w) && |w| < t.n && d < 256 && t.Walk(w) >= 0
    requires t.pages[t.Walk(w)][d] == Leaf(RADIX_INVALID)
    requires Listing(t, w, d, out)
    ensures Listing(t, w, d + 1, out)
  {
    forall k | IsKey(256, t.n, k) && k[..|w|] == w && k[|w|] < d + 1 && t.Raw(k) != RADIX_INVALID
      ensures Has(out, k)
    {
      if k[|w|] == d {
        assert k[..|w| + 1] == w + [d];
        RawAtSlot(t, w, d, k);
      }
    }
  }

  lemma {:induction false} HasAppend(out: seq<Entry>, more: seq<Entry>, k: Key)
    ensures Has(out + more, k) <==> Has(out, k) || Has(more, k)
  {
    if Has(out, k) {
      var i :| 0 <= i < |out| && out[i].key == k;
      assert (out + more)[i].key == k;
    }
    if Has(more, k) {
      var i :| 0 <= i < |more| && more[i].key == k;
      assert (out + more)[|out| + i].key == k;
    }
  }

  /** The keys under one digit follow those under the smaller digits. */
  lemma {:induction false} AppendSlot(t: Pool, w: Key, d: nat, out: seq<Entry>, more: seq<Entry>)
    requires t.Wf() && t.b == 256 && IsKey(256, |w|, w) && |w| < t.n && d < 256 && Listing(t, w, d, out)
    requires Sorted(more)
    requires forall i | 0 <= i < |more| ::
               && IsKey(256, t.n, more[i].key) && more[i].key[..|w| + 1] == w + [d]
               && t.Raw(more[i].key) == more[i].value != RADIX_INVALID
    requires forall k | IsKey(256, t.n, k) && k[..|w| + 1] == w + [d] && t.Raw(k) != RADIX_INVALID :: Has(more, k)
    ensures Listing(t, w, d + 1, out + more)
  {
    var all := out + more;
    forall i | 0 <= i < |more|
      ensures more[i].key[..|w|] == w && more[i].key[|w|] == d
    {
      assert more[i].key[..|w|] == more[i].key[..|w| + 1][..|w|] && more[i].key[|w|] == more[i].key[..|w| + 1][|w|];
    }
    forall i, j | 0 <= i < |out| && 0 <= j < |more|
      ensures Val(256, out[i].key) < Val(256, more[j].key)
    {
      var x, y := out[i].key, more[j].key;
      ValStep(256, x, |w|);
      ValStep(256, y, |w|);
      PrefixOrder(256, x, y, |w| + 1);
    }
    forall k | IsKey(256, t.n, k) && k[..|w|] == w && k[|w|] < d + 1 && t.Raw(k) != RADIX_INVALID
      ensures Has(all, k)
    {
      HasAppend(out, more, k);
      if k[|w|] == d {
        assert k[..|w| + 1] == w + [d];
      }
    }
  }

  class Radix {
    const n: nat
    var pages: seq<Page>
    ghost var path: seq<Key>
    /** Chunks of 16 pages the memory context can still provide. */
    var chunksLeft: nat

    ghost function T(): Pool
      reads this
    {
      Pool(256, n, pages, path)
    }

    ghost predicate Valid()
      reads this
    {
      n >= 1 && T().Wf() && InnerEmpty(T())
    }

    /** The value stored for `k`, or the invalid word. */
    ghost function Get(k: Key): nat
      requires Valid() && IsKey(256, n, k)
      reads this
    {
      T().Raw(k)
    }

    constructor (n: nat, chunks: nat)
      requires n >= 1 && chunks >= 1
      ensures Valid() && this.n == n && fresh(this)
      ensures forall k | IsKey(256, n, k) :: Get(k) == RADIX_INVALID
    {
      this.n := n;
      pages := [seq(256, i => Leaf(RADIX_INVALID))];
      path := [[]];
      chunksLeft := chunks - 1;
    }

    /** radix_new_page behind a link slot. */
    method NewPage(p: nat, d: nat) returns (ok: bool)
      requires Valid() && p < |pages| && d < 256 && pages[p][d].Leaf?
      modifies this
      ensures ok ==> T() == old(T().Split(p, d))
      ensures !ok ==> T() == old(T()) && chunksLeft == 0
      ensures chunksLeft == old(chunksLeft) - if ok && old(|pages|) % 16 == 0 then 1 else 0
    {
      if |pages| % 16 == 0 {
        if chunksLeft == 0 {
          return false;
        }
        chunksLeft := chunksLeft - 1;
      }
      var word := pages[p][d];
      pages := pages[p := pages[p][d := Node(|pages|)]] + [seq(256, i => word)];
      path := path + [path[p] + [d]];
      return true;
    }

    /** One level of radix_insert: follow the link of a digit, creating its page if needed. */
    method Follow(key: Key, iter: nat, page: nat) returns (ok: bool, page': nat)
      requires Valid() && IsKey(256, n, key) && iter < n - 1 && page == T().Walk(key[..iter])
      modifies this
      ensures Valid() && SameLookups(old(T()), T())
      ensures ok ==> page' == T().Walk(key[..iter + 1])
      ensures !ok ==> chunksLeft == 0
    {
      ghost var w := key[..iter];
      page' := page;
      if pages[page][key[iter]].Leaf? {
        SplitRadix(T(), w, key[iter]);
        ok := NewPage(page, key[iter]);
        if !ok {
          return;
        }
      }
      WalkChild(T(), w, key[iter]);
      assert key[..iter + 1] == w + [key[iter]];
      return true, pages[page][key[iter]].page;
    }

    /** radix_insert: stores a value; running out of pages changes no stored value. */
    method Insert(key: Key, value: nat) returns (ok: bool)
      requires Valid() && IsKey(256, n, key)
      modifies this
      ensures Valid()
      ensures ok ==> forall k | IsKey(256, n, k) :: Get(k) == if k == key then value else old(T()).Raw(k)
      ensures !ok ==> chunksLeft == 0 && forall k | IsKey(256, n, k) :: Get(k) == old(T()).Raw(k)
    {
      ghost var t0 := T();
      var page: nat, iter := 0, 0;
      while iter < n - 1
        invariant 0 <= iter <= n - 1 && Valid() && SameLookups(t0, T())
        invariant page == T().Walk(key[..iter])
      {
        ok, page := Follow(key, iter, page);
        if !ok {
          return;
        }
        iter := iter + 1;
      }
      WriteRadix(T(), key, value);
      pages := pages[page := pages[page][key[n - 1] := Leaf(value)]];
      return true;
    }

    /** radix_lookup. */
    method Lookup(key: Key) returns (value: nat)
      requires Valid() && IsKey(256, n, key)
      ensures value == Get(key)
    {
      var page, iter := 0, 0;
      while iter < n - 1
        invariant 0 <= iter <= n - 1 && 0 <= page < |pages| && T().path[page] == key[..iter]
        invariant T().Raw(key) == T().Find(page, key, iter)
      {
        if pages[page][key[iter]].Leaf? {
          return RADIX_INVALID;
        }
        assert key[..iter + 1] == key[..iter] + [key[iter]];
        page := pages[page][key[iter]].page;
        iter := iter + 1;
      }
      return pages[page][key[n - 1]].raw;
    }

    /** radix_walk_rec: the stored keys under `w`, in ascending order. */
    method WalkRec(w: Key, page: nat) returns (out: seq<Entry>)
      requires Valid() && |w| < n && IsKey(256, |w|, w) && page == T().Walk(w)
      ensures Listing(T(), w, 256, out)
      decreases n - |w|
    {
      out := [];
      var next := 0;
      while next < 256
        invariant 0 <= next <= 256 && Listing(T(), w, next, out)
      {
        WalkChild(T(), w, next);
        if pages[page][next].Node? {
          var sub := WalkRec(w + [next], pages[page][next].page);
          AppendSlot(T(), w, next, out, sub);
          out := out + sub;
        } else if pages[page][next].raw == RADIX_INVALID {
          SkipSlot(T(), w, next, out);
        } else {
          var entry := Entry(w + [next], pages[page][next].raw);
          LastSlot(T(), w, next, entry.value);
          AppendSlot(T(), w, next, out, [entry]);
          out := out + [entry];
        }
        next := next + 1;
      }
    }

    /** radix_walk: every stored key with its value, in ascending order. */
    method Walk() returns (out: seq<Entry>)
      requires Valid()
      ensures Sorted(out)
      ensures forall i | 0 <= i < |out| :: IsKey(256, n, out[i].key) && Get(out[i].key) == out[i].value != RADIX_INVALID
      ensures forall k | IsKey(256, n, k) && Get(k) != RADIX_INVALID :: Has(out, k)
    {
      out := WalkRec([], 0);
      assert forall k: Key :: k[..0] == [];
    }
  }

  /** A valid word is only found on the last level, where one key leads to it. */
  lemma {:induction false} LastSlot(t: Pool, w: Key, d: nat, raw: nat)
    requires t.Wf() && t.b == 256 && InnerEmpty(t) && IsKey(256, |w|, w) && t.Walk(w) >= 0 && d < 256
    requires t.pages[t.Walk(w)][d] == Leaf(raw) && raw != RADIX_INVALID
    ensures |w| + 1 == t.n && IsKey(256, t.n, w + [d]) && t.Raw(w + [d]) == raw
    ensures forall k | IsKey(256, t.n, k) && k[..|w| + 1] == w + [d] :: Has([Entry(w + [d], raw)], k)
  {
    var key := w + [d];
    assert key[..|w| + 1] == key;
    RawAtSlot(t, w, d, key);
    forall k | IsKey(256, t.n, k) && k[..|w| + 1] == w + [d]
      ensures Has([Entry(key, raw)], k)
    {
      assert k == k[..|w| + 1] == key;
      assert [Entry(key, raw)][0].key == k;
    }
  }
}
