/**
 What lpm_compact leaves behind, and why it is a normal form: tries with equal lookups unfold to the
 same tree.
 */
module Compaction {
  import opened Keys
  import opened Trie

  /** All slots of page `p` hold one and the same value. */
  ghost predicate Uniform(t: Pool, p: nat)
    requires t.Wf() && p < |t.pages| && t.b > 0
  {
    t.pages[p][0].Leaf? && forall d | 0 <= d < t.b :: t.pages[p][d] == t.pages[p][0]
  }

  /** The digits `w` do not lead to a page that could be folded into its parent's slot. */
  ghost predicate Clean(t: Pool, w: Key)
    requires t.Wf() && IsKey(t.b, |w|, w) && t.b > 0
  {
    t.Walk(w) >= 0 ==> !Uniform(t, t.Walk(w))
  }

  ghost predicate Canonical(t: Pool)
    requires t.Wf() && t.b > 0
  {
    forall w: Key | |w| >= 1 && IsKey(t.b, |w|, w) :: Clean(t, w)
  }

  ghost predicate SameLookups(t: Pool, t': Pool)
    requires t.Wf() && t'.Wf() && t.b == t'.b && t.n == t'.n
  {
    forall k {:trigger t.Raw(k)} {:trigger t'.Raw(k)} | IsKey(t.b, t.n, k) :: t.Raw(k) == t'.Raw(k)
  }

  /** The tree hanging below a page. */
  datatype Tree = Tip(raw: nat) | Fork(kids: seq<Tree>)

  ghost function Unfold(t: Pool, p: nat): Tree
    requires t.Wf() && p < |t.pages|
    decreases t.n - |t.path[p]|
  {
    Fork(seq(t.b, d requires 0 <= d < t.b =>
      match t.pages[p][d]
      case Leaf(raw) => Tip(raw)
      case Node(q) => assert t.path[q] == t.path[p] + [d]; Unfold(t, q)))
  }

  lemma {:induction false} SomeKey(t: Pool, w: Key) returns (k: Key)
    requires |w| <= t.n && IsKey(t.b, |w|, w) && t.b > 0
    ensures IsKey(t.b, t.n, k) && k[..|w|] == w
  {
    k := Pad(w, t.n, 0);
  }

  lemma {:induction false} WalkChild(t: Pool, w: Key, d: nat)
    requires t.Wf() && IsKey(t.b, |w|, w) && d < t.b && t.Walk(w) >= 0
    ensures IsKey(t.b, |w| + 1, w + [d])
    ensures t.Walk(w + [d]) == match t.pages[t.Walk(w)][d] case Leaf(_) => -1 case Node(q) => q
  {
    assert (w + [d])[..|w|] == w;
  }

  /** A slot that holds a value answers for every key that starts with its digits. */
  lemma {:induction false} RawAtSlot(t: Pool, w: Key, d: nat, k: Key)
    requires t.Wf() && IsKey(t.b, |w|, w) && d < t.b && t.Walk(w) >= 0 && t.pages[t.Walk(w)][d].Leaf?
    requires IsKey(t.b, t.n, k) && |w| < t.n && k[..|w| + 1] == w + [d]
    ensures t.Raw(k) == t.pages[t.Walk(w)][d].raw
  {
    assert k[..|w|] == k[..|w| + 1][..|w|] == w && k[|w|] == k[..|w| + 1][|w|] == d;
    FindVia(t, k, |w|);
  }

  /** Below a clean page of a canonical trie two keys differ. */
  lemma {:induction false} ConstantIsUniform(t: Pool, w: Key, raw: nat)
    requires t.Wf() && t.b > 0 && Canonical(t) && IsKey(t.b, |w|, w) && t.Walk(w) >= 0
    requires forall k | IsKey(t.b, t.n, k) && k[..|w|] == w :: t.Raw(k) == raw
    ensures Uniform(t, t.Walk(w))
    decreases t.n - |w|
  {
    var p := t.Walk(w);
    forall d | 0 <= d < t.b
      ensures t.pages[p][d] == Leaf(raw)
    {
      var v := w + [d];
      WalkChild(t, w, d);
      assert forall k: Key | |k| == t.n && k[..|w| + 1] == v :: k[..|w|] == k[..|w| + 1][..|w|] == w;
      match t.pages[p][d]
      case Leaf(r) =>
        var k := SomeKey(t, v);
        RawAtSlot(t, w, d, k);
      case Node(q) =>
        assert t.path[q] == v;
        assert Clean(t, v);
        ConstantIsUniform(t, v, raw);
        assert false;
    }
  }

  lemma {:induction false} SameTree(t: Pool, t': Pool, w: Key)
    requires t.Wf() && t'.Wf() && t.b == t'.b > 0 && t.n == t'.n && Canonical(t) && Canonical(t') && SameLookups(t, t')
    requires IsKey(t.b, |w|, w) && t.Walk(w) >= 0 && t'.Walk(w) >= 0
    ensures Unfold(t, t.Walk(w)) == Unfold(t', t'.Walk(w))
    decreases t.n - |w|
  {
    var p, p' := t.Walk(w), t'.Walk(w);
    var f, f' := Unfold(t, p), Unfold(t', p');
    forall d | 0 <= d < t.b
      ensures f.kids[d] == f'.kids[d]
    {
      SameSlot(t, t', w, d);
      if t.pages[p][d].Node? {
        WalkChild(t, w, d);
        WalkChild(t', w, d);
        SameTree(t, t', w + [d]);
      }
    }
    assert f.kids == f'.kids;
  }

  /** Matching slots of two canonical tries with equal lookups hold the same value or are both links. */
  lemma {:induction false} SameSlot(t: Pool, t': Pool, w: Key, d: nat)
    requires t.Wf() && t'.Wf() && t.b == t'.b > 0 && t.n == t'.n && Canonical(t) && Canonical(t') && SameLookups(t, t')
    requires IsKey(t.b, |w|, w) && t.Walk(w) >= 0 && t'.Walk(w) >= 0 && d < t.b
    ensures var s, s' := t.pages[t.Walk(w)][d], t'.pages[t'.Walk(w)][d];
            s.Leaf? == s'.Leaf? && (s.Leaf? ==> s == s')
  {
    var s, s' := t.pages[t.Walk(w)][d], t'.pages[t'.Walk(w)][d];
    if s.Leaf? && s'.Leaf? {
      var k := SomeKey(t, w + [d]);
      RawAtSlot(t, w, d, k);
      RawAtSlot(t', w, d, k);
    } else if s.Leaf? {
      LeafForcesLeaf(t, t', w, d);
    } else if s'.Leaf? {
      LeafForcesLeaf(t', t, w, d);
    }
  }

  lemma {:induction false} LeafForcesLeaf(t: Pool, t': Pool, w: Key, d: nat)
    requires t.Wf() && t'.Wf() && t.b == t'.b > 0 && t.n == t'.n && Canonical(t') && SameLookups(t, t')
    requires IsKey(t.b, |w|, w) && t.Walk(w) >= 0 && t'.Walk(w) >= 0 && d < t.b && t.pages[t.Walk(w)][d].Leaf?
    ensures t'.pages[t'.Walk(w)][d].Leaf?
  {
    if t'.pages[t'.Walk(w)][d].Node? {
      WalkChild(t', w, d);
      var raw := t.pages[t.Walk(w)][d].raw;
      forall k | IsKey(t.b, t.n, k) && k[..|w + [d]|] == w + [d]
        ensures t'.Raw(k) == raw
      {
        RawAtSlot(t, w, d, k);
      }
      assert Clean(t', w + [d]);
      ConstantIsUniform(t', w + [d], raw);
    }
  }

  /** Compacted tries with equal lookups are structurally equal. */
  lemma {:induction false} CanonicalIsUnique(t: Pool, t': Pool)
    requires t.Wf() && t'.Wf() && t.Good() && t'.Good() && t.b == t'.b > 0 && t.n == t'.n
    requires Canonical(t) && Canonical(t')
    requires forall k | IsKey(t.b, t.n, k) :: ValueGet(t.Raw(k)) == ValueGet(t'.Raw(k))
    ensures Unfold(t, 0) == Unfold(t', 0)
  {
    forall k | IsKey(t.b, t.n, k)
      ensures t.Raw(k) == t'.Raw(k)
    {
      FindGood(t, 0, k, 0);
      FindGood(t', 0, k, 0);
      ValueGetInjective(t.Raw(k), t'.Raw(k));
    }
    SameTree(t, t', []);
  }

  // ---- the sweep of lpm_compact ----

  /** The sweep standing on the slot `key[..hop + 1]` has already finished with the page at `w`. */
  ghost predicate Passed(b: nat, key: Key, hop: nat, w: Key)
    requires hop < |key|
  {
    if |w| <= hop + 1 then Val(b, w) < Val(b, key[..|w|]) else Val(b, w[..hop + 1]) < Val(b, key[..hop + 1])
  }

  /** As `Passed`, once the slot itself is finished with as well. */
  ghost predicate PassedSlot(b: nat, key: Key, hop: nat, w: Key)
    requires hop < |key|
  {
    if |w| <= hop then Val(b, w) < Val(b, key[..|w|]) else Val(b, w[..hop + 1]) <= Val(b, key[..hop + 1])
  }

  ghost predicate CleanBelow(t: Pool, key: Key, hop: nat)
    requires t.Wf() && t.b > 0 && hop < |key|
  {
    forall w: Key | |w| >= 1 && IsKey(t.b, |w|, w) && Passed(t.b, key, hop, w) :: Clean(t, w)
  }

  ghost predicate CleanUpto(t: Pool, key: Key, hop: nat)
    requires t.Wf() && t.b > 0 && hop < |key|
  {
    forall w: Key | |w| >= 1 && IsKey(t.b, |w|, w) && PassedSlot(t.b, key, hop, w) :: Clean(t, w)
  }

  lemma {:induction false} PassedDown(b: nat, key: Key, hop: nat, w: Key)
    requires b > 0 && hop + 1 < |key| && IsKey(b, |w|, w) && key[hop + 1] == 0
    ensures Passed(b, key, hop + 1, w) ==> Passed(b, key, hop, w)
  {
    if |w| >= hop + 2 {
      ValStep(b, key, hop + 1);
      ValStep(b, w, hop + 1);
      DigitOrder(b, Val(b, w[..hop + 1]), w[hop + 1], Val(b, key[..hop + 1]), 0);
      assert |w| == hop + 2 ==> w[..hop + 2] == w;
    }
  }

  lemma {:induction false} PassedNext(b: nat, key: Key, hop: nat, w: Key)
    requires b > 0 && hop < |key| && IsKey(b, |w|, w) && key[hop] + 1 < b
    ensures Passed(b, key[hop := key[hop] + 1], hop, w) ==> PassedSlot(b, key, hop, w)
  {
    var key' := key[hop := key[hop] + 1];
    if |w| >= hop + 1 {
      assert |w| == hop + 1 ==> w[..hop + 1] == w;
      assert key'[..hop] == key[..hop];
      ValStep(b, key, hop);
      ValStep(b, key', hop);
    } else {
      assert key'[..|w|] == key[..|w|];
    }
  }

  /** Climbing out of a finished page passes that page too. */
  lemma {:induction false} PassedUp(b: nat, key: Key, hop: nat, w: Key)
    requires b > 0 && 0 < hop < |key| && IsKey(b, |w|, w) && IsKey(b, |key|, key) && key[hop] == b - 1
    ensures PassedSlot(b, key, hop - 1, w) ==> w == key[..hop] || PassedSlot(b, key, hop, w)
  {
    if PassedSlot(b, key, hop - 1, w) {
      if |w| == hop {
        assert w[..hop] == w;
        ValInjective(b, w, key[..hop]);
      } else if |w| > hop {
        ValStep(b, w, hop);
        ValStep(b, key, hop);
        DigitOrder(b, Val(b, key[..hop]), b - 1, Val(b, w[..hop]), w[hop]);
      }
    }
  }

  /** At the last slot of the root everything has been passed. */
  lemma {:induction false} PassedAll(b: nat, key: Key, w: Key)
    requires b > 0 && |key| > 0 && |w| > 0 && IsKey(b, |w|, w) && key[0] == b - 1
    ensures PassedSlot(b, key, 0, w)
  {
    ValStep(b, w, 0);
    ValStep(b, key, 0);
  }

  lemma {:induction false} WalkPrefix(t: Pool, w: Key, h: nat)
    requires t.Wf() && IsKey(t.b, |w|, w) && h <= |w| && t.Walk(w) >= 0
    ensures t.Walk(w[..h]) >= 0
    decreases |w|
  {
    if h < |w| {
      assert w[..|w| - 1][..h] == w[..h];
      WalkPrefix(t, w[..|w| - 1], h);
    } else {
      assert w[..h] == w;
    }
  }

  /** No page lies below a slot that holds a value. */
  lemma {:induction false} NothingBelow(t: Pool, v: Key, d: nat, w: Key)
    requires t.Wf() && IsKey(t.b, |v|, v) && d < t.b && t.Walk(v) >= 0 && t.pages[t.Walk(v)][d].Leaf?
    requires IsKey(t.b, |w|, w) && |w| > |v| && w[..|v| + 1] == v + [d]
    ensures t.Walk(w) == -1
  {
    WalkChild(t, v, d);
    if t.Walk(w) >= 0 {
      WalkPrefix(t, w, |v| + 1);
    }
  }

  /** What the sweep finishes with along with a value slot lies below it. */
  lemma {:induction false} JustPassed(b: nat, key: Key, hop: nat, w: Key)
    requires b > 0 && hop < |key| && IsKey(b, |key|, key) && IsKey(b, |w|, w)
    requires PassedSlot(b, key, hop, w) && !Passed(b, key, hop, w)
    ensures |w| > hop && w[..hop + 1] == key[..hop + 1]
  {
    if |w| == hop + 1 {
      assert w[..hop + 1] == w;
    }
    ValInjective(b, w[..hop + 1], key[..hop + 1]);
  }

  lemma {:induction false} SlotPassed(t: Pool, key: Key, hop: nat)
    requires t.Wf() && t.b > 0 && hop < |key| && IsKey(t.b, |key|, key)
    requires t.Walk(key[..hop]) >= 0 && t.pages[t.Walk(key[..hop])][key[hop]].Leaf?
    requires CleanBelow(t, key, hop)
    ensures CleanUpto(t, key, hop)
  {
    assert key[..hop + 1] == key[..hop] + [key[hop]];
    forall w: Key | |w| >= 1 && IsKey(t.b, |w|, w) && PassedSlot(t.b, key, hop, w)
      ensures Clean(t, w)
    {
      if !Passed(t.b, key, hop, w) {
        JustPassed(t.b, key, hop, w);
        NothingBelow(t, key[..hop], key[hop], w);
      }
    }
  }

  /** Folding a uniform page into its parent's slot changes no lookup and dirties no other page. */
  lemma {:induction false} FoldKeeps(t: Pool, v: Key, d: nat)
    requires t.Wf() && t.b > 0 && IsKey(t.b, |v|, v) && d < t.b && t.Walk(v) >= 0 && t.Walk(v + [d]) >= 0
    requires Uniform(t, t.Walk(v + [d]))
    requires t.Set(t.Walk(v), d, t.pages[t.Walk(v + [d])][0]).Wf()
    ensures SameLookups(t, t.Set(t.Walk(v), d, t.pages[t.Walk(v + [d])][0]))
  {
    var q := t.Walk(v + [d]);
    var raw := t.pages[q][0].raw;
    forall k | IsKey(t.b, t.n, k)
      ensures t.Set(t.Walk(v), d, Leaf(raw)).Raw(k) == t.Raw(k)
    {
      WriteLeaf(t, v, d, raw, k);
      if k[..|v| + 1] == v + [d] {
        FindVia(t, k, |v| + 1);
        assert t.pages[q][k[|v| + 1]] == t.pages[q][0];
      }
    }
  }

  lemma {:induction false} FoldClean(t: Pool, v: Key, d: nat, raw: nat, w: Key)
    requires t.Wf() && t.b > 0 && IsKey(t.b, |v|, v) && d < t.b && t.Walk(v) >= 0
    requires t.Set(t.Walk(v), d, Leaf(raw)).Wf()
    requires IsKey(t.b, |w|, w) && w != v && (w == v + [d] || Clean(t, w))
    ensures Clean(t.Set(t.Walk(v), d, Leaf(raw)), w)
  {
    var p := t.Walk(v);
    var t' := t.Set(p, d, Leaf(raw));
    assert w == v + [d] ==> w[..|v| + 1] == w;
    if |w| > |v| && w[..|v| + 1] == v + [d] {
      WalkFrame(t, p, d, raw, v);
      NothingBelow(t', v, d, w);
    } else {
      WalkFrame(t, p, d, raw, w);
      assert t'.Walk(w) >= 0 ==> t'.pages[t'.Walk(w)] == t.pages[t.Walk(w)];
    }
  }

  /** The pages stacked along the current key are those its digits lead to. */
  ghost predicate OnPath(t: Pool, key: Key, stack: seq<nat>, hop: nat)
    requires t.Wf() && IsKey(t.b, t.n, key) && |stack| == t.n && hop < t.n
  {
    forall j | 0 <= j <= hop :: t.Walk(key[..j]) == stack[j]
  }

  lemma {:induction false} DescendPath(t: Pool, key: Key, stack: seq<nat>, hop: nat, x: nat)
    requires t.Wf() && IsKey(t.b, t.n, key) && |stack| == t.n && hop < t.n && OnPath(t, key, stack, hop) && x < t.b
    requires stack[hop] < |t.pages| && t.pages[stack[hop]][key[hop]].Node?
    ensures hop + 1 < t.n
    ensures OnPath(t, key[hop + 1 := x], stack[hop + 1 := t.pages[stack[hop]][key[hop]].page], hop + 1)
  {
    assert t.Walk(key[..hop]) == stack[hop];
    assert key[..hop + 1] == key[..hop] + [key[hop]];
    assert t.Walk(key[..hop + 1]) == t.pages[stack[hop]][key[hop]].page;
    var key' := key[hop + 1 := x];
    assert forall j | 0 <= j <= hop + 1 :: key'[..j] == key[..j];
  }

  /** The sweep stands on a slot it has not looked at (`Sweeping`) or is finished with (`Swept`). */
  ghost predicate Sweeping(t0: Pool, t: Pool, key: Key, stack: seq<nat>, hop: nat) {
    && t0.Wf() && t.Wf() && t0.b == t.b > 0 && t0.n == t.n
    && hop < t.n && IsKey(t.b, t.n, key) && |stack| == t.n
    && OnPath(t, key, stack, hop) && SameLookups(t0, t) && CleanBelow(t, key, hop)
  }

  ghost predicate Swept(t0: Pool, t: Pool, key: Key, stack: seq<nat>, hop: nat) {
    && t0.Wf() && t.Wf() && t0.b == t.b > 0 && t0.n == t.n
    && hop < t.n && IsKey(t.b, t.n, key) && |stack| == t.n
    && OnPath(t, key, stack, hop) && SameLookups(t0, t) && CleanUpto(t, key, hop)
  }

  lemma {:induction false} SweepStart(t: Pool, key: Key, stack: seq<nat>)
    requires t.Wf() && t.b > 0 && t.n > 0 && IsKey(t.b, t.n, key) && |stack| == t.n && key[0] == 0 && stack[0] == 0
    ensures Sweeping(t, t, key, stack, 0)
  {
    CleanStart(t, key);
  }

  lemma {:induction false} SweepDown(t0: Pool, t: Pool, key: Key, stack: seq<nat>, hop: nat)
    requires Sweeping(t0, t, key, stack, hop)
    requires stack[hop] < |t.pages| && t.pages[stack[hop]][key[hop]].Node?
    ensures hop + 1 < t.n
    ensures Sweeping(t0, t, key[hop + 1 := 0], stack[hop + 1 := t.pages[stack[hop]][key[hop]].page], hop + 1)
  {
    DescendPath(t, key, stack, hop, 0);
    CleanDown(t, key, hop);
  }

  lemma {:induction false} SweepSlot(t0: Pool, t: Pool, key: Key, stack: seq<nat>, hop: nat)
    requires Sweeping(t0, t, key, stack, hop)
    requires stack[hop] < |t.pages| && t.pages[stack[hop]][key[hop]].Leaf?
    ensures Swept(t0, t, key, stack, hop)
  {
    assert t.Walk(key[..hop]) == stack[hop];
    SlotPassed(t, key, hop);
  }

  lemma {:induction false} SweepNext(t0: Pool, t: Pool, key: Key, stack: seq<nat>, hop: nat)
    requires Swept(t0, t, key, stack, hop) && key[hop] + 1 < t.b
    ensures Sweeping(t0, t, key[hop := key[hop] + 1], stack, hop)
  {
    var key' := key[hop := key[hop] + 1];
    CleanNext(t, key, hop);
    assert forall j | 0 <= j <= hop :: key'[..j] == key[..j];
  }

  lemma {:induction false} SweepUp(t0: Pool, t: Pool, key: Key, stack: seq<nat>, hop: nat)
    requires Swept(t0, t, key, stack, hop) && hop > 0 && key[hop] == t.b - 1
    ensures Swept(t0, Folded(t, key, stack, hop), key, stack, hop - 1)
  {
    FoldStep(t, key, stack, hop);
  }

  /** The pool after the sweep leaves the finished page `stack[hop]`. */
  ghost function Folded(t: Pool, key: Key, stack: seq<nat>, hop: nat): Pool
    requires t.Wf() && t.b > 0 && IsKey(t.b, t.n, key) && |stack| == t.n && 0 < hop < t.n && OnPath(t, key, stack, hop)
  {
    assert t.Walk(key[..hop]) == stack[hop] && t.Walk(key[..hop - 1]) == stack[hop - 1];
    if Uniform(t, stack[hop]) then t.Set(stack[hop - 1], key[hop - 1], t.pages[stack[hop]][0]) else t
  }

  /** The last slot of a page below the root, its page and the slot it hangs from. */
  ghost predicate AtPageEnd(t: Pool, key: Key, stack: seq<nat>, hop: nat) {
    && t.Wf() && t.b > 0 && IsKey(t.b, t.n, key) && |stack| == t.n && 0 < hop < t.n && OnPath(t, key, stack, hop)
    && key[hop] == t.b - 1
  }

  lemma {:induction false} PageEndFacts(t: Pool, key: Key, stack: seq<nat>, hop: nat)
    requires AtPageEnd(t, key, stack, hop)
    ensures key[..hop] == key[..hop - 1] + [key[hop - 1]] && IsKey(t.b, hop - 1, key[..hop - 1])
    ensures t.Walk(key[..hop]) == stack[hop] && t.Walk(key[..hop - 1]) == stack[hop - 1]
    ensures stack[hop] < |t.pages| && stack[hop - 1] < |t.pages|
  {
  }

  lemma {:induction false} FoldShape(t: Pool, key: Key, stack: seq<nat>, hop: nat)
    requires AtPageEnd(t, key, stack, hop)
    ensures Folded(t, key, stack, hop).Wf() && SameLookups(t, Folded(t, key, stack, hop))
  {
    PageEndFacts(t, key, stack, hop);
    if Uniform(t, stack[hop]) {
      SetWf(t, stack[hop - 1], key[hop - 1], t.pages[stack[hop]][0].raw);
      FoldKeeps(t, key[..hop - 1], key[hop - 1]);
    }
  }

  lemma {:induction false} FoldPath(t: Pool, key: Key, stack: seq<nat>, hop: nat)
    requires AtPageEnd(t, key, stack, hop) && Folded(t, key, stack, hop).Wf()
    ensures OnPath(Folded(t, key, stack, hop), key, stack, hop - 1)
  {
    PageEndFacts(t, key, stack, hop);
    if Uniform(t, stack[hop]) {
      forall j | 0 <= j <= hop - 1
        ensures Folded(t, key, stack, hop).Walk(key[..j]) == stack[j]
      {
        WalkFrame(t, stack[hop - 1], key[hop - 1], t.pages[stack[hop]][0].raw, key[..j]);
      }
    }
  }

  lemma {:induction false} FoldStep(t: Pool, key: Key, stack: seq<nat>, hop: nat)
    requires AtPageEnd(t, key, stack, hop) && CleanUpto(t, key, hop)
    ensures Folded(t, key, stack, hop).Wf()
    ensures SameLookups(t, Folded(t, key, stack, hop))
    ensures CleanUpto(Folded(t, key, stack, hop), key, hop - 1)
    ensures OnPath(Folded(t, key, stack, hop), key, stack, hop - 1)
  {
    FoldShape(t, key, stack, hop);
    FoldPath(t, key, stack, hop);
    PageEndFacts(t, key, stack, hop);
    forall w: Key | |w| >= 1 && IsKey(t.b, |w|, w) && PassedSlot(t.b, key, hop - 1, w)
      ensures Clean(Folded(t, key, stack, hop), w)
    {
      PassedUp(t.b, key, hop, w);
      if Uniform(t, stack[hop]) {
        FoldClean(t, key[..hop - 1], key[hop - 1], t.pages[stack[hop]][0].raw, w);
      }
    }
  }

  lemma {:induction false} CleanNext(t: Pool, key: Key, hop: nat)
    requires t.Wf() && t.b > 0 && hop < |key| && CleanUpto(t, key, hop) && key[hop] + 1 < t.b
    ensures CleanBelow(t, key[hop := key[hop] + 1], hop)
  {
    forall w: Key | |w| >= 1 && IsKey(t.b, |w|, w) && Passed(t.b, key[hop := key[hop] + 1], hop, w)
      ensures Clean(t, w)
    {
      PassedNext(t.b, key, hop, w);
    }
  }

  lemma {:induction false} CleanDown(t: Pool, key: Key, hop: nat)
    requires t.Wf() && t.b > 0 && hop + 1 < |key| && CleanBelow(t, key, hop)
    ensures CleanBelow(t, key[hop + 1 := 0], hop + 1)
  {
    var key' := key[hop + 1 := 0];
    forall w: Key | |w| >= 1 && IsKey(t.b, |w|, w) && Passed(t.b, key', hop + 1, w)
      ensures Clean(t, w)
    {
      PassedDown(t.b, key', hop, w);
      assert forall j | 0 <= j <= hop + 1 :: key'[..j] == key[..j];
    }
  }

  lemma {:induction false} CleanDone(t: Pool, key: Key)
    requires t.Wf() && t.b > 0 && |key| > 0 && CleanUpto(t, key, 0) && key[0] == t.b - 1
    ensures Canonical(t)
  {
    forall w: Key | |w| >= 1 && IsKey(t.b, |w|, w)
      ensures Clean(t, w)
    {
      PassedAll(t.b, key, w);
    }
  }

  lemma {:induction false} CleanStart(t: Pool, key: Key)
    requires t.Wf() && t.b > 0 && |key| > 0 && key[0] == 0
    ensures CleanBelow(t, key, 0)
  {
    ValStep(t.b, key, 0);
    forall w: Key | |w| >= 1 && IsKey(t.b, |w|, w)
      ensures !Passed(t.b, key, 0, w)
    {
      assert |w| == 1 ==> w[..1] == w;
    }
  }
}
