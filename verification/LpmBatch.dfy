/** lpm_lookup_batch of common/lpm.h: many keys looked up together, one hop at a time. */
module LpmBatch {
  import opened Keys
  import opened Trie
  import opened RangeTrie

  const LANES: nat := 32

  /** The lookup of `k` has come to page `page` at digit `hop`. */
  ghost predicate Reached(t: Pool, k: Key, page: nat, hop: nat)
    requires t.Wf() && IsKey(t.b, t.n, k)
  {
    page < |t.pages| && hop < t.n && t.path[page] == k[..hop] && t.Raw(k) == t.Find(page, k, hop)
  }

  /** A lane is finished and holds its word, or is on its way. */
  ghost predicate LaneOk(t: Pool, k: Key, hop: nat, page: nat, value: nat, done: bool)
    requires t.Wf() && IsKey(t.b, t.n, k)
  {
    if done then value == t.Raw(k) else Reached(t, k, page, hop)
  }

  ghost function Open(done: seq<bool>): nat {
    if |done| == 0 then 0 else Open(done[..|done| - 1]) + if done[|done| - 1] then 0 else 1
  }

  lemma {:induction false} OpenUpdate(done: seq<bool>, i: nat)
    requires i < |done| && !done[i]
    ensures Open(done) > 0 && Open(done[i := true]) == Open(done) - 1
    decreases |done|
  {
    var n := |done| - 1;
    if i == n {
      assert done[i := true][..n] == done[..n];
    } else {
      assert done[i := true][..n] == done[..n][i := true];
      OpenUpdate(done[..n], i);
    }
  }

  lemma {:induction false} NoneOpen(done: seq<bool>, i: nat)
    requires Open(done) == 0 && i < |done|
    ensures done[i]
    decreases |done|
  {
    if i < |done| - 1 {
      NoneOpen(done[..|done| - 1], i);
    }
  }

  lemma {:induction false} AllOpen(n: nat)
    ensures Open(seq(n, i => false)) == n
  {
    if n > 0 {
      AllOpen(n - 1);
      assert seq(n, i => false)[..n - 1] == seq(n - 1, i => false);
    }
  }

  /** The lanes of one group, those before `lane` already past digit `hop`. */
  ghost predicate Lanes(t: Pool, keys: seq<Key>, hop: nat, lane: nat, pages: seq<nat>, values: seq<nat>, done: seq<bool>) {
    && t.Wf() && |pages| == |values| == |done| == |keys| && (forall i | 0 <= i < |keys| :: IsKey(t.b, t.n, keys[i]))
    && forall i {:trigger done[i]} | 0 <= i < |keys| ::
         (i < lane && hop + 1 == t.n ==> done[i]) && LaneOk(t, keys[i], if i < lane then hop + 1 else hop, pages[i], values[i], done[i])
  }

  /** One lane, one hop. */
  method LaneStep(l: Lpm, keys: seq<Key>, hop: nat, lane: nat, pages: seq<nat>, values: seq<nat>, done: seq<bool>)
    returns (pages': seq<nat>, values': seq<nat>, done': seq<bool>, finished: bool)
    requires l.Valid() && Lanes(l.T(), keys, hop, lane, pages, values, done) && lane < |keys| && hop < l.n
    ensures Lanes(l.T(), keys, hop, lane + 1, pages', values', done')
    ensures done' == (if finished then done[lane := true] else done) && (finished ==> !done[lane])
  {
    pages', values', done', finished := pages, values, done, false;
    if done[lane] {
      return;
    }
    ghost var k := keys[lane];
    assert LaneOk(l.T(), k, hop, pages[lane], values[lane], done[lane]);
    match l.pages[pages[lane]][keys[lane][hop]]
    case Leaf(raw) =>
      values', done', finished := values[lane := raw], done[lane := true], true;
    case Node(q) =>
      assert k[..hop + 1] == k[..hop] + [k[hop]];
      pages' := pages[lane := q];
  }

  /** One hop of every lane. */
  method Hop(l: Lpm, keys: seq<Key>, hop: nat, pages: seq<nat>, values: seq<nat>, done: seq<bool>, remaining: nat)
    returns (pages': seq<nat>, values': seq<nat>, done': seq<bool>, remaining': nat)
    requires l.Valid() && (forall i | 0 <= i < |keys| :: IsKey(l.b, l.n, keys[i])) && hop < l.n && remaining == Open(done)
    requires Lanes(l.T(), keys, hop, 0, pages, values, done)
    ensures remaining' == Open(done') && Lanes(l.T(), keys, hop, |keys|, pages', values', done')
  {
    pages', values', done', remaining' := pages, values, done, remaining;
    var lane := 0;
    while lane < |keys|
      invariant 0 <= lane <= |keys| && remaining' == Open(done') && Lanes(l.T(), keys, hop, lane, pages', values', done')
    {
      ghost var before := done';
      var finished;
      pages', values', done', finished := LaneStep(l, keys, hop, lane, pages', values', done');
      if finished {
        OpenUpdate(before, lane);
        remaining' := remaining' - 1;
      }
      lane := lane + 1;
    }
  }

  /** The lookups of one group of lanes. */
  method LookupGroup(l: Lpm, keys: seq<Key>) returns (results: seq<nat>)
    requires l.Valid() && forall i | 0 <= i < |keys| :: IsKey(l.b, l.n, keys[i])
    ensures |results| == |keys| && forall i | 0 <= i < |keys| :: results[i] == l.Value(keys[i])
  {
    var pages: seq<nat>, values: seq<nat>, done := seq(|keys|, i => 0), seq(|keys|, i => 0), seq(|keys|, i => false);
    var remaining, hop := |keys|, 0;
    AllOpen(|keys|);
    while hop < l.n && remaining > 0
      invariant 0 <= hop <= l.n && remaining == Open(done)
      invariant if hop < l.n then Lanes(l.T(), keys, hop, 0, pages, values, done)
                else Lanes(l.T(), keys, l.n - 1, |keys|, pages, values, done)
    {
      pages, values, done, remaining := Hop(l, keys, hop, pages, values, done, remaining);
      hop := hop + 1;
    }
    forall i | 0 <= i < |keys|
      ensures values[i] == l.T().Raw(keys[i])
    {
      if remaining == 0 {
        NoneOpen(done, i);
      }
      assert done[i];
    }
    results := seq(|keys|, i requires 0 <= i < |values| => ValueGet(values[i]));
  }

  /** lpm_lookup_batch: group by group, the same answers as one lookup per key. */
  method LookupBatch(l: Lpm, keys: seq<Key>) returns (results: seq<nat>)
    requires l.Valid() && forall i | 0 <= i < |keys| :: IsKey(l.b, l.n, keys[i])
    ensures |results| == |keys| && forall i | 0 <= i < |keys| :: results[i] == l.Value(keys[i])
  {
    results := [];
    while |results| < |keys|
      invariant |results| <= |keys| && forall i | 0 <= i < |results| :: results[i] == l.Value(keys[i])
      decreases |keys| - |results|
    {
      var at := |results|;
      var count := if |keys| - at < LANES then |keys| - at else LANES;
      var group := LookupGroup(l, keys[at..at + count]);
      results := results + group;
    }
  }
}
