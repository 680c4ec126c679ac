/**
 From prefixes to a lookup trie: common/range_collector.h gathers prefixes and sweeps them into a
 range index, common/range_index.h compiles the index into an LPM.
 */
module PrefixCompiler {
  import opened Keys
  import opened KeyArith
  import opened Trie
  import opened RadixTree
  import opened RangeTrie
  import opened Sweep
  import opened RangeIndexing
  import opened Collector

  /** The block of keys under the first `p` bits of `k`. */
  ghost function NetOf(k: Key, p: nat): Net
    requires 0 < p <= 8 * |k|
  {
    Net(Val(256, k), Val(256, LastOf(k, p)), p)
  }

  /** A key whose bits after the prefix are zero starts its prefix's block. */
  lemma {:induction false} AlignedNet(n: nat, k: Key, p: nat)
    requires IsKey(256, n, k) && 0 < p <= 8 * n && Multiple(Val(256, k), Pow2(8 * n - p))
    ensures IsNet(8 * n, NetOf(k, p))
  {
    var s := Size(n, p);
    var a: nat :| Times(Val(256, k), a, s);
    var m := LastOfBlock(k, p);
    Scaled(a, m, s);
    Scaled(m, a + 2, s);
    Scaled(a + 1, m, s);
    assert m == a + 1;
    KeyBound(n, LastOf(k, p));
  }

  /** The mask bit of a prefix of a stored start key is set. */
  ghost predicate Marked(t: Pool, masks: seq<seq<bool>>, k: Key, p: nat)
    requires t.Wf() && t.b == 256 && IsKey(256, t.n, k)
  {
    0 < p <= 8 * t.n && t.Raw(k) < |masks| && p <= |masks[t.Raw(k)]| && masks[t.Raw(k)][p - 1]
  }

  /** Masks belong to one start key each and mark only blocks that the key starts. */
  ghost predicate MasksOk(t: Pool, masks: seq<seq<bool>>)
    requires t.Wf() && t.b == 256
  {
    && |masks| < RADIX_INVALID
    && (forall i | 0 <= i < |masks| :: |masks[i]| == 8 * t.n)
    && (forall k {:trigger t.Raw(k)} | IsKey(256, t.n, k) :: t.Raw(k) == RADIX_INVALID || t.Raw(k) < |masks|)
    && (forall k, l {:trigger t.Raw(k), t.Raw(l)} | IsKey(256, t.n, k) && IsKey(256, t.n, l) && t.Raw(k) == t.Raw(l) < |masks| ::
          k == l)
    && (forall k, p {:trigger Marked(t, masks, k, p)} | IsKey(256, t.n, k) && Marked(t, masks, k, p) :: IsNet(8 * t.n, NetOf(k, p)))
  }

  lemma {:induction false} NewMask(t: Pool, t': Pool, masks: seq<seq<bool>>, key: Key)
    requires t.Wf() && t'.Wf() && t.b == t'.b == 256 && t.n == t'.n && MasksOk(t, masks) && |masks| + 1 < RADIX_INVALID
    requires IsKey(256, t.n, key) && t.Raw(key) == RADIX_INVALID
    requires forall k {:trigger t'.Raw(k)} | IsKey(256, t.n, k) :: t'.Raw(k) == if k == key then |masks| else t.Raw(k)
    ensures MasksOk(t', masks + [seq(8 * t.n, i => false)])
    ensures forall k, p | IsKey(256, t.n, k) :: Marked(t', masks + [seq(8 * t.n, i => false)], k, p) <==> Marked(t, masks, k, p)
  {
    var masks' := masks + [seq(8 * t.n, i => false)];
    forall k, p | IsKey(256, t.n, k)
      ensures Marked(t', masks', k, p) <==> Marked(t, masks, k, p)
    {
      assert t'.Raw(k) == if k == key then |masks| else t.Raw(k);
    }
  }

  /** A mask whose start key could not be stored is never looked at. */
  lemma {:induction false} LeakMask(t: Pool, t': Pool, masks: seq<seq<bool>>)
    requires t.Wf() && t'.Wf() && t.b == t'.b == 256 && t.n == t'.n && MasksOk(t, masks) && |masks| + 1 < RADIX_INVALID
    requires forall k {:trigger t'.Raw(k)} | IsKey(256, t.n, k) :: t'.Raw(k) == t.Raw(k)
    ensures MasksOk(t', masks + [seq(8 * t.n, i => false)])
    ensures forall k, p | IsKey(256, t.n, k) :: Marked(t', masks + [seq(8 * t.n, i => false)], k, p) <==> Marked(t, masks, k, p)
  {
    var masks' := masks + [seq(8 * t.n, i => false)];
    forall k, p | IsKey(256, t.n, k)
      ensures Marked(t', masks', k, p) <==> Marked(t, masks, k, p)
    {
      assert t'.Raw(k) == t.Raw(k);
    }
  }

  lemma {:induction false} SetMask(t: Pool, masks: seq<seq<bool>>, key: Key, p: nat)
    requires t.Wf() && t.b == 256 && MasksOk(t, masks) && IsKey(256, t.n, key) && t.Raw(key) < |masks| && 0 < p <= 8 * t.n
    requires IsNet(8 * t.n, NetOf(key, p))
    ensures var masks' := masks[t.Raw(key) := masks[t.Raw(key)][p - 1 := true]];
            && MasksOk(t, masks')
            && forall k, q | IsKey(256, t.n, k) :: Marked(t, masks', k, q) <==> Marked(t, masks, k, q) || (k == key && q == p)
  {
    var masks' := masks[t.Raw(key) := masks[t.Raw(key)][p - 1 := true]];
    forall k, q | IsKey(256, t.n, k)
      ensures Marked(t, masks', k, q) <==> Marked(t, masks, k, q) || (k == key && q == p)
    {
      assert t.Raw(k) == t.Raw(key) ==> k == key;
    }
  }

  // ---- the order in which collect visits the prefixes ----

  /** Entry `e` of the walked start keys has a prefix of `q` bits. */
  ghost predicate Bit(masks: seq<seq<bool>>, list: seq<Entry>, e: nat, q: nat) {
    && e < |list| && list[e].value < |masks|
    && 0 < q <= |masks[list[e].value]| && masks[list[e].value][q - 1]
  }

  /** All prefixes of the first `i` entries and those up to `p` bits of the next one. */
  ghost predicate Visited(i: nat, p: nat, e: nat, q: nat) {
    e < i || (e == i && q <= p)
  }

  ghost predicate WalkOk(n: nat, masks: seq<seq<bool>>, list: seq<Entry>) {
    && Sorted(list)
    && (forall e | 0 <= e < |list| :: IsKey(256, n, list[e].key) && list[e].value < |masks|)
    && (forall m | 0 <= m < |masks| :: |masks[m]| == 8 * n)
    && (forall e: nat, q: nat {:trigger Bit(masks, list, e, q)} | Bit(masks, list, e, q) :: IsNet(8 * n, NetOf(list[e].key, q)))
  }

  ghost predicate FromList(n: nat, masks: seq<seq<bool>>, list: seq<Entry>, i: nat, p: nat, y: Net)
    requires WalkOk(n, masks, list)
  {
    exists e: nat, q: nat {:trigger Bit(masks, list, e, q)} ::
      Bit(masks, list, e, q) && Visited(i, p, e, q) && y == NetOf(list[e].key, q)
  }

  /** `nets` are exactly the visited prefixes. */
  ghost predicate Enumerated(n: nat, masks: seq<seq<bool>>, list: seq<Entry>, i: nat, p: nat, nets: seq<Net>)
    requires WalkOk(n, masks, list)
  {
    && (forall j | 0 <= j < |nets| :: FromList(n, masks, list, i, p, nets[j]))
    && (forall e: nat, q: nat {:trigger Bit(masks, list, e, q)} | Bit(masks, list, e, q) && Visited(i, p, e, q) ::
          NetOf(list[e].key, q) in nets)
  }

  lemma {:induction false} NextIsLater(n: nat, masks: seq<seq<bool>>, list: seq<Entry>, i: nat, p: nat, nets: seq<Net>)
    requires WalkOk(n, masks, list) && Enumerated(n, masks, list, i, p, nets) && Bit(masks, list, i, p + 1)
    ensures forall j | 0 <= j < |nets| :: Before(nets[j], NetOf(list[i].key, p + 1))
  {
    forall j | 0 <= j < |nets|
      ensures Before(nets[j], NetOf(list[i].key, p + 1))
    {
      assert FromList(n, masks, list, i, p, nets[j]);
      var e: nat, q: nat :| Bit(masks, list, e, q) && Visited(i, p, e, q) && nets[j] == NetOf(list[e].key, q);
    }
  }

  lemma {:induction false} FromListGrows(n: nat, masks: seq<seq<bool>>, list: seq<Entry>, i: nat, p: nat, i': nat, p': nat, y: Net)
    requires WalkOk(n, masks, list) && FromList(n, masks, list, i, p, y) && (i < i' || (i == i' && p <= p'))
    ensures FromList(n, masks, list, i', p', y)
  {
    var e: nat, q: nat :| Bit(masks, list, e, q) && Visited(i, p, e, q) && y == NetOf(list[e].key, q);
    assert Visited(i', p', e, q);
  }

  lemma {:induction false} FromListNow(n: nat, masks: seq<seq<bool>>, list: seq<Entry>, i: nat, p: nat)
    requires WalkOk(n, masks, list) && Bit(masks, list, i, p)
    ensures FromList(n, masks, list, i, p, NetOf(list[i].key, p))
  {
    assert Visited(i, p, i, p);
  }

  lemma {:induction false} VisitedNow(i: nat, p: nat, e: nat, q: nat)
    requires Visited(i, p + 1, e, q)
    ensures Visited(i, p, e, q) || (e == i && q == p + 1)
  {
  }

  lemma {:induction false} Appended(nets: seq<Net>, x: Net, y: Net)
    ensures y in nets || y == x ==> y in nets + [x]
  {
    assert (nets + [x])[|nets|] == x;
  }

  /** Looking at one more mask bit visits its prefix if the bit is set. */
  lemma {:induction false} EnumeratedNext(n: nat, masks: seq<seq<bool>>, list: seq<Entry>, i: nat, p: nat, nets: seq<Net>)
    requires WalkOk(n, masks, list) && Enumerated(n, masks, list, i, p, nets) && Bit(masks, list, i, p + 1)
    ensures Enumerated(n, masks, list, i, p + 1, nets + [NetOf(list[i].key, p + 1)])
  {
    var nets' := nets + [NetOf(list[i].key, p + 1)];
    FromListNow(n, masks, list, i, p + 1);
    forall j | 0 <= j < |nets'|
      ensures FromList(n, masks, list, i, p + 1, nets'[j])
    {
      if j < |nets| {
        FromListGrows(n, masks, list, i, p, i, p + 1, nets[j]);
      }
    }
    forall e: nat, q: nat | Bit(masks, list, e, q) && Visited(i, p + 1, e, q)
      ensures NetOf(list[e].key, q) in nets'
    {
      VisitedNow(i, p, e, q);
      Appended(nets, NetOf(list[i].key, p + 1), NetOf(list[e].key, q));
    }
  }

  lemma {:induction false} EnumeratedSkip(n: nat, masks: seq<seq<bool>>, list: seq<Entry>, i: nat, p: nat, i': nat, p': nat,
                                          nets: seq<Net>)
    requires WalkOk(n, masks, list) && Enumerated(n, masks, list, i, p, nets) && (i < i' || (i == i' && p <= p'))
    requires forall e: nat, q: nat | Bit(masks, list, e, q) && Visited(i', p', e, q) :: Visited(i, p, e, q)
    ensures Enumerated(n, masks, list, i', p', nets)
  {
    forall j | 0 <= j < |nets|
      ensures FromList(n, masks, list, i', p', nets[j])
    {
      FromListGrows(n, masks, list, i, p, i', p', nets[j]);
    }
  }

  /** The sweep state after the visited prefixes, ready for the next one. */
  ghost predicate Going(n: nat, masks: seq<seq<bool>>, list: seq<Entry>, i: nat, p: nat, s: State)
    requires WalkOk(n, masks, list) && i <= |list|
  {
    && Kept(8 * n, s) && |s.tos| > 0 && s.pos <= s.tos[|s.tos| - 1]
    && (i < |list| ==> s.pos <= Val(256, list[i].key))
    && Enumerated(n, masks, list, i, p, s.nets)
  }

  lemma {:induction false} GoingSkip(n: nat, masks: seq<seq<bool>>, list: seq<Entry>, i: nat, p: nat, s: State)
    requires WalkOk(n, masks, list) && i < |list| && Going(n, masks, list, i, p, s) && !Bit(masks, list, i, p + 1)
    ensures Going(n, masks, list, i, p + 1, s)
  {
    EnumeratedSkip(n, masks, list, i, p, i, p + 1, s.nets);
  }

  lemma {:induction false} GoingNext(n: nat, masks: seq<seq<bool>>, list: seq<Entry>, i: nat, s: State)
    requires WalkOk(n, masks, list) && i < |list| && Going(n, masks, list, i, 8 * n, s)
    ensures Going(n, masks, list, i + 1, 0, s)
  {
    EnumeratedSkip(n, masks, list, i, 8 * n, i + 1, 0, s.nets);
  }

  /** Exactly the same added prefixes contain the keys `x` and `y`. */
  ghost predicate SameCover(t: Pool, masks: seq<seq<bool>>, x: Key, y: Key)
    requires t.Wf() && t.b == 256
  {
    forall k, p {:trigger Marked(t, masks, k, p)} | IsKey(256, t.n, k) && Marked(t, masks, k, p) ::
      Covers(NetOf(k, p), Val(256, x)) <==> Covers(NetOf(k, p), Val(256, y))
  }

  /** `list` is the walk of the start keys. */
  ghost predicate IsWalkOf(t: Pool, list: seq<Entry>)
    requires t.Wf() && t.b == 256
  {
    && (forall e | 0 <= e < |list| :: IsKey(256, t.n, list[e].key) && t.Raw(list[e].key) == list[e].value)
    && (forall k {:trigger t.Raw(k)} | IsKey(256, t.n, k) && t.Raw(k) != RADIX_INVALID :: RadixTree.Has(list, k))
  }

  /** The visited blocks stand for the added prefixes. */
  lemma {:induction false} NetsAreMarks(t: Pool, masks: seq<seq<bool>>, list: seq<Entry>, nets: seq<Net>, x: Key, y: Key)
    requires t.Wf() && t.b == 256 && MasksOk(t, masks) && WalkOk(t.n, masks, list) && IsWalkOf(t, list)
    requires Enumerated(t.n, masks, list, |list|, 0, nets)
    ensures (forall i | 0 <= i < |nets| :: Covers(nets[i], Val(256, x)) <==> Covers(nets[i], Val(256, y))) <==>
            SameCover(t, masks, x, y)
  {
    if SameCover(t, masks, x, y) {
      forall i | 0 <= i < |nets|
        ensures Covers(nets[i], Val(256, x)) <==> Covers(nets[i], Val(256, y))
      {
        assert FromList(t.n, masks, list, |list|, 0, nets[i]);
        var e: nat, q: nat :| Bit(masks, list, e, q) && Visited(|list|, 0, e, q) && nets[i] == NetOf(list[e].key, q);
        assert Marked(t, masks, list[e].key, q);
      }
    }
    if forall i | 0 <= i < |nets| :: Covers(nets[i], Val(256, x)) <==> Covers(nets[i], Val(256, y)) {
      forall k, p | IsKey(256, t.n, k) && Marked(t, masks, k, p)
        ensures Covers(NetOf(k, p), Val(256, x)) <==> Covers(NetOf(k, p), Val(256, y))
      {
        assert RadixTree.Has(list, k);
        var e :| 0 <= e < |list| && list[e].key == k;
        assert Bit(masks, list, e, p) && Visited(|list|, 0, e, p);
      }
    }
  }

  /** The ranges classify all keys by the added prefixes, with the labels 0 to count - 1. */
  ghost predicate Classifies(t: Pool, masks: seq<seq<bool>>, starts: seq<nat>, values: seq<nat>, count: nat)
    requires t.Wf() && t.b == 256 && |starts| == |values|
  {
    && Ascending(starts) && |starts| > 0 && starts[0] == 0
    && (forall i | 0 <= i < |starts| :: starts[i] < Count(256, t.n))
    && (forall i | 0 <= i < |values| :: values[i] < count)
    && (forall v: nat | v < count :: v in values)
    && (forall x, y | IsKey(256, t.n, x) && IsKey(256, t.n, y) ::
          LabelAt(starts, values, Val(256, x)) == LabelAt(starts, values, Val(256, y)) <==> SameCover(t, masks, x, y))
  }

  lemma {:induction false} SweepClassifies(t: Pool, masks: seq<seq<bool>>, list: seq<Entry>, s: State)
    requires t.Wf() && t.b == 256 && MasksOk(t, masks) && WalkOk(t.n, masks, list) && IsWalkOf(t, list)
    requires Enumerated(t.n, masks, list, |list|, 0, s.nets) && Kept(8 * t.n, s) && s.pos == Pow2(8 * t.n)
    ensures |s.starts| == |s.labels| && Classifies(t, masks, s.starts, s.labels, s.next)
  {
    SweptExact(8 * t.n, s);
    CountIsPow2(t.n);
    forall x, y | IsKey(256, t.n, x) && IsKey(256, t.n, y)
      ensures LabelAt(s.starts, s.labels, Val(256, x)) == LabelAt(s.starts, s.labels, Val(256, y)) <==> SameCover(t, masks, x, y)
    {
      KeyBound(t.n, x);
      KeyBound(t.n, y);
      NetsAreMarks(t, masks, list, s.nets, x, y);
    }
  }

  class RangeCollector {
    const n: nat
    const radix: Radix
    var masks: seq<seq<bool>>
    /** Masks the memory context still has room for. */
    var room: nat
    var count: nat

    ghost predicate Valid()
      reads this, radix
    {
      n >= 1 && radix.Valid() && radix.n == n && MasksOk(radix.T(), masks)
    }

    /** The prefix of `p` bits of `k` has been added. */
    ghost predicate Has(k: Key, p: nat)
      requires Valid() && IsKey(256, n, k)
      reads this, radix
    {
      Marked(radix.T(), masks, k, p)
    }

    /** One more start key cannot be had. */
    ghost predicate Exhausted()
      reads this, radix
    {
      room == 0 || |masks| + 1 == RADIX_INVALID || radix.chunksLeft == 0
    }

    constructor (n: nat, chunks: nat, room: nat)
      requires n >= 1 && chunks >= 1
      ensures Valid() && fresh(radix) && this.n == n
      ensures forall k, p | IsKey(256, n, k) :: !Has(k, p)
    {
      this.n := n;
      radix := new Radix(n, chunks);
      masks := [];
      this.room := room;
      count := 0;
    }

    /** range_collector_add_mask, and the new start key in the radix. */
    method AddMask(key: Key) returns (ok: bool, index: nat)
      requires Valid() && IsKey(256, n, key) && radix.Get(key) == RADIX_INVALID
      modifies this, radix
      ensures Valid() && (ok ==> radix.Get(key) == index < |masks| && room == old(room) - 1) && (!ok ==> Exhausted())
      ensures forall k, p | IsKey(256, n, k) :: Has(k, p) <==> old(Has(k, p))
    {
      index := |masks|;
      if room == 0 || |masks| + 1 == RADIX_INVALID {
        return false, index;
      }
      ghost var t0, masks0 := radix.T(), masks;
      room := room - 1;
      masks := masks + [seq(8 * n, i => false)];
      ok := radix.Insert(key, index);
      if ok {
        NewMask(t0, radix.T(), masks0, key);
      } else {
        LeakMask(t0, radix.T(), masks0);
      }
    }

    /** range_collector_set_mask. */
    method Mark(index: nat, ghost key: Key, prefix: nat)
      requires Valid() && IsKey(256, n, key) && 0 < prefix <= 8 * n && IsNet(8 * n, NetOf(key, prefix))
      requires radix.Get(key) == index < |masks|
      modifies this`masks
      ensures Valid()
      ensures forall k, p | IsKey(256, n, k) :: Has(k, p) <==> old(Has(k, p)) || (k == key && p == prefix)
    {
      SetMask(radix.T(), masks, key, prefix);
      masks := masks[index := masks[index][prefix - 1 := true]];
    }

    /** range_collector_add: a prefix with zero host bits; a failure adds nothing. */
    method Add(key: Key, prefix: nat) returns (ok: bool)
      requires Valid() && IsKey(256, n, key) && prefix <= 8 * n && Multiple(Val(256, key), Pow2(8 * n - prefix))
      modifies this, radix
      ensures Valid() && (!ok ==> Exhausted())
      ensures forall k, p | IsKey(256, n, k) ::
                Has(k, p) <==> old(Has(k, p)) || (ok && 0 < prefix && k == key && p == prefix)
    {
      if prefix == 0 {
        return true;
      }
      AlignedNet(n, key, prefix);
      var index := radix.Lookup(key);
      if index == RADIX_INVALID {
        ok, index := AddMask(key);
        if !ok {
          return;
        }
      }
      Mark(index, key, prefix);
      return true;
    }

    /** The walked start keys and their masks are what the sweep needs. */
    lemma {:induction false} WalkedOk(list: seq<Entry>)
      requires Valid() && Sorted(list)
      requires forall i | 0 <= i < |list| ::
                 IsKey(256, n, list[i].key) && radix.Get(list[i].key) == list[i].value != RADIX_INVALID
      ensures WalkOk(n, masks, list)
    {
      forall e: nat, q: nat | Bit(masks, list, e, q)
        ensures IsNet(8 * n, NetOf(list[e].key, q))
      {
        assert Marked(radix.T(), masks, list[e].key, q);
      }
    }

    /** The loop body of range_collector_iterate for a set mask bit. */
    method Visit(ctx: Ctx, list: seq<Entry>, i: nat, p: nat) returns (ok: bool)
      requires WalkOk(n, masks, list) && Bit(masks, list, i, p + 1)
      requires ctx.n == n && ctx.Valid() && Going(n, masks, list, i, p, ctx.s)
      modifies ctx, ctx.index, ctx.index.radix
      ensures ctx.index.Valid() && (!ok ==> ctx.index.Exhausted())
      ensures ok ==> ctx.Valid() && Going(n, masks, list, i, p + 1, ctx.s)
    {
      var key := list[i].key;
      ghost var nets := ctx.s.nets;
      EnumeratedNext(n, masks, list, i, p, nets);
      NextIsLater(n, masks, list, i, p, nets);
      var to := ApplyPrefix(key, p + 1);
      ghost var m := LastOfBlock(key, p + 1);
      ok := ctx.AddNetwork(key, to, NetOf(key, p + 1));
    }

    /** One round of the loop of range_collector_iterate. */
    method VisitBit(ctx: Ctx, list: seq<Entry>, i: nat, p: nat) returns (ok: bool)
      requires WalkOk(n, masks, list) && i < |list| && p < 8 * n
      requires ctx.n == n && ctx.Valid() && Going(n, masks, list, i, p, ctx.s)
      modifies ctx, ctx.index, ctx.index.radix
      ensures ctx.index.Valid() && (!ok ==> ctx.index.Exhausted())
      ensures ok ==> ctx.Valid() && Going(n, masks, list, i, p + 1, ctx.s)
    {
      if masks[list[i].value][p] {
        ok := Visit(ctx, list, i, p);
      } else {
        GoingSkip(n, masks, list, i, p, ctx.s);
        ok := true;
      }
    }

    /** range_collector_iterate: the prefixes of one start key, shortest first. */
    method Iterate(ctx: Ctx, list: seq<Entry>, i: nat) returns (ok: bool)
      requires WalkOk(n, masks, list) && i < |list|
      requires ctx.n == n && ctx.Valid() && Going(n, masks, list, i, 0, ctx.s)
      modifies ctx, ctx.index, ctx.index.radix
      ensures ctx.index.Valid() && (!ok ==> ctx.index.Exhausted())
      ensures ok ==> ctx.Valid() && Going(n, masks, list, i + 1, 0, ctx.s)
    {
      var p := 0;
      while p < 8 * n
        invariant 0 <= p <= 8 * n && ctx.Valid() && Going(n, masks, list, i, p, ctx.s)
      {
        ok := VisitBit(ctx, list, i, p);
        if !ok {
          return;
        }
        p := p + 1;
      }
      GoingNext(n, masks, list, i, ctx.s);
      return true;
    }

    /** All start keys in turn. */
    method IterateAll(ctx: Ctx, list: seq<Entry>) returns (ok: bool)
      requires WalkOk(n, masks, list) && ctx.n == n && ctx.Valid() && Going(n, masks, list, 0, 0, ctx.s)
      modifies ctx, ctx.index, ctx.index.radix
      ensures ctx.index.Valid() && (!ok ==> ctx.index.Exhausted())
      ensures ok ==> ctx.Valid() && Going(n, masks, list, |list|, 0, ctx.s)
    {
      var i := 0;
      while i < |list|
        invariant 0 <= i <= |list| && ctx.Valid() && Going(n, masks, list, i, 0, ctx.s)
      {
        ok := Iterate(ctx, list, i);
        if !ok {
          return;
        }
        i := i + 1;
      }
      ok := true;
    }

    /** One sweep over the walked start keys, from an empty index to the last emitted range. */
    method SweepAll(index: RangeIndex, list: seq<Entry>) returns (ok: bool, last: nat, ghost s: State)
      requires n >= 1 && WalkOk(n, masks, list)
      requires index.Valid() && index.radix.n == n && index.starts == [] == index.values
      modifies index, index.radix
      ensures index.Valid() && (!ok ==> index.Exhausted())
      ensures ok ==> Enumerated(n, masks, list, |list|, 0, s.nets) && Kept(8 * n, s) && s.pos == Pow2(8 * n)
      ensures ok ==> index.starts == s.starts && index.values == s.labels && last == s.next
    {
      var ctx := new Ctx(n, index);
      StartGoing(n, masks, list);
      ok := IterateAll(ctx, list);
      if ok {
        ok := ctx.Finish();
      }
      last, s := ctx.maxValue, ctx.s;
    }

    /** range_collector_collect: sweep the added prefixes into an empty index. */
    method Collect(index: RangeIndex) returns (ok: bool)
      requires Valid() && index.Valid() && index.radix.n == n && index.starts == [] == index.values && index.radix != radix
      modifies this`count, index, index.radix
      ensures Valid() && index.Valid() && (!ok ==> index.Exhausted())
      ensures ok ==> Classifies(radix.T(), masks, index.starts, index.values, count)
    {
      var list := radix.Walk();
      WalkedOk(list);
      ghost var t := radix.T();
      assert IsWalkOf(t, list);
      var last;
      ghost var s;
      ok, last, s := SweepAll(index, list);
      if ok {
        SweepClassifies(t, masks, list, s);
        count := last;
      }
    }
  }

  lemma {:induction false} StartGoing(n: nat, masks: seq<seq<bool>>, list: seq<Entry>)
    requires WalkOk(n, masks, list)
    ensures Going(n, masks, list, 0, 0, Start(8 * n))
  {
    StartOk(8 * n);
    forall e: nat, q: nat | Bit(masks, list, e, q)
      ensures !Visited(0, 0, e, q)
    {
    }
  }

  // ---- the compiled trie ----

  lemma {:induction false} LabelIsFloor(starts: seq<nat>, values: seq<nat>, x: nat)
    requires |starts| == |values|
    ensures Floor(starts, x) >= 0 ==> LabelAt(starts, values, x) == values[Floor(starts, x)]
    decreases |starts|
  {
    if |starts| > 0 && starts[|starts| - 1] > x {
      LabelIsFloor(starts[..|starts| - 1], values[..|starts| - 1], x);
    }
  }

  lemma {:induction false} StartsIncrease(entries: seq<Entry>, e: nat, i: nat)
    requires Sorted(entries) && e <= i < |entries|
    ensures e < i ==> Starts(entries)[e] < Starts(entries)[i]
  {
  }

  /** Walking the radix and searching the insertion order find the same range. */
  lemma {:induction false} FloorAgrees(n: nat, starts: seq<nat>, entries: seq<Entry>, x: nat)
    requires Ascending(starts) && |starts| > 0 && starts[0] == 0 && Sorted(entries)
    requires forall i | 0 <= i < |starts| :: starts[i] < Count(256, n)
    requires forall i | 0 <= i < |entries| :: LastAt(starts, Val(256, entries[i].key)) == entries[i].value
    requires forall k | IsKey(256, n, k) && LastAt(starts, Val(256, k)) >= 0 :: RadixTree.Has(entries, k)
    ensures var i := Floor(Starts(entries), x); i >= 0 && entries[i].value == Floor(starts, x)
  {
    var j := Floor(starts, x);
    var k := KeyOf(256, n, starts[j]);
    assert LastAt(starts, Val(256, k)) >= 0;
    var e :| 0 <= e < |entries| && entries[e].key == k;
    assert Starts(entries)[e] == starts[j];
    var i := Floor(Starts(entries), x);
    assert Starts(entries)[i] == Val(256, entries[i].key) == starts[entries[i].value];
    assert e <= i;
    StartsIncrease(entries, e, i);
  }

  /** `entries` is the ascending walk of an index with the given starts. */
  ghost predicate Walked(n: nat, starts: seq<nat>, entries: seq<Entry>) {
    && Sorted(entries)
    && (forall i | 0 <= i < |entries| ::
          IsKey(256, n, entries[i].key) && 0 <= LastAt(starts, Val(256, entries[i].key)) == entries[i].value)
    && (forall k | IsKey(256, n, k) && LastAt(starts, Val(256, k)) >= 0 :: RadixTree.Has(entries, k))
  }

  /** A compiled trie gives every key its label, for labels that fit 31 bits. */
  lemma {:induction false} CompiledExact(c: Pool, masks: seq<seq<bool>>, t0: Pool, t: Pool,
                                         starts: seq<nat>, values: seq<nat>, entries: seq<Entry>, count: nat)
    requires c.Wf() && t0.Wf() && t.Wf() && c.b == t0.b == t.b == 256 && c.n == t0.n == t.n && |starts| == |values|
    requires Classifies(c, masks, starts, values, count) && count <= 0x8000_0000
    requires Walked(t.n, starts, entries) && Compiled(t0, t, entries, values, |entries|)
    ensures forall k {:trigger t.Raw(k)} | IsKey(256, t.n, k) ::
              ValueGet(t.Raw(k)) == LabelAt(starts, values, Val(256, k)) < count
  {
    forall k | IsKey(256, t.n, k)
      ensures ValueGet(t.Raw(k)) == LabelAt(starts, values, Val(256, k)) < count
    {
      var x := Val(256, k);
      FloorAgrees(t.n, starts, entries, x);
      LabelIsFloor(starts, values, x);
      ValueRoundTrip(LabelAt(starts, values, x));
    }
  }

  /** Looking two keys up gives the same value exactly when the same prefixes contain them. */
  ghost predicate Exact(c: Pool, masks: seq<seq<bool>>, t: Pool, count: nat)
    requires c.Wf() && t.Wf() && c.b == t.b == 256 && c.n == t.n
  {
    && (forall x {:trigger t.Raw(x)} | IsKey(256, t.n, x) :: ValueGet(t.Raw(x)) < count)
    && (forall x, y {:trigger t.Raw(x), t.Raw(y)} | IsKey(256, t.n, x) && IsKey(256, t.n, y) ::
          ValueGet(t.Raw(x)) == ValueGet(t.Raw(y)) <==> SameCover(c, masks, x, y))
  }

  /** Collect the prefixes, then build the trie. Labels that need more than 31 bits are refused. */
  method Compile(c: RangeCollector, index: RangeIndex, lpm: Lpm) returns (ok: bool)
    requires c.Valid() && index.Valid() && index.radix.n == c.n && index.starts == [] == index.values && index.radix != c.radix
    requires lpm.Valid() && lpm.b == 256 && lpm.n == c.n
    modifies c`count, index, index.radix, lpm`pages, lpm`path, lpm`chunksLeft
    ensures c.Valid() && index.Valid() && lpm.Valid()
    ensures ok ==> Exact(c.radix.T(), c.masks, lpm.T(), c.count)
    ensures !ok ==> index.Exhausted() || c.count > 0x8000_0000 || lpm.chunksLeft == 0
  {
    ok := c.Collect(index);
    if !ok || c.count > 0x8000_0000 {
      return false;
    }
    ghost var cells, t0 := c.radix.T(), lpm.T();
    ghost var entries;
    ok, entries := index.BuildLpm(lpm);
    if ok {
      CompiledExact(cells, c.masks, t0, lpm.T(), index.starts, index.values, entries, c.count);
    }
  }
}
