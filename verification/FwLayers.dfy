/** What a chain of firewall-state layers means, and the plain map it stands for (lib/fwstate/fwtable.h). */
module FwLayers {
  import opened FwOps
  import opened FwMapRep
  import opened FwMaps

  /** What one layer stores for each key, expired or not. */
  type Content = Key -> Option<Cell>

  ghost function Alive(o: Option<Cell>, t: nat): Option<Cell> {
    if o.Some? && o.value.deadline > t then o else None
  }

  /** The cell seen at time `t`: the first live one from the newest layer down. */
  ghost function Visible(ls: seq<Content>, k: Key, t: nat): Option<Cell> {
    if |ls| == 0 then None
    else if Alive(ls[0](k), t).Some? then ls[0](k)
    else Visible(ls[1..], k, t)
  }

  /** An operation on the table, at the time it happens. */
  datatype Op = Insert(now: nat, ttl: nat, key: Key, value: Value, done: bool) | AddLayer(now: nat) | Unlink(now: nat)

  /** The active layer after a successful insert that stores `w`. */
  ghost predicate Stored(c: Content, c': Content, key: Key, w: Value, now: nat, d: nat) {
    && c'(key) == Some(Cell(w, d))
    && forall k, t: nat {:trigger Alive(c'(k), t)} | k != key && t >= now :: Alive(c'(k), t) == Alive(c(k), t)
  }

  ghost predicate SameContent(c: Content, c': Content) {
    forall k {:trigger c'(k)} :: c'(k) == c(k)
  }

  /** No cell of the layer is live at `now` or later. */
  ghost predicate Dead(c: Content, now: nat) {
    forall k {:trigger c(k)} :: Alive(c(k), now).None?
  }

  /** What each operation does to the layers. */
  ghost predicate Step(ls: seq<Content>, op: Op, ls': seq<Content>) {
    match op
    case Insert(now, ttl, key, value, done) =>
      if !done then
        |ls'| == |ls| && (|ls| > 0 ==> SameContent(ls[0], ls'[0]) && ls'[1..] == ls[1..])
      else
        && |ls| > 0 && |ls'| == |ls| && ls'[1..] == ls[1..]
        && Stored(ls[0], ls'[0], key, Joined(value, Visible(ls, key, now), now), now, now + ttl)
    case AddLayer(now) =>
      |ls'| == |ls| + 1 && ls'[1..] == ls && forall k :: ls'[0](k).None?
    case Unlink(now) =>
      || ls' == ls
      || (|ls| > 1 && ls' == ls[..|ls| - 1] && Dead(ls[|ls| - 1], now))
  }

  /** The same operation on a single map from keys to cells. */
  ghost function Plain(m: Content, op: Op): Content {
    if op.Insert? && op.done
    then (k: Key) => if k == op.key then Some(Cell(Joined(op.value, m(k), op.now), op.now + op.ttl)) else m(k)
    else m
  }

  /** From time `from` on, the layers and the plain map show the same cell for every key. */
  ghost predicate Agree(ls: seq<Content>, m: Content, from: nat) {
    forall k, t: nat {:trigger Visible(ls, k, t)} | t >= from :: Visible(ls, k, t) == Alive(m(k), t)
  }

  lemma {:induction false} VisibleIsAlive(ls: seq<Content>, k: Key, t: nat)
    ensures Visible(ls, k, t) == Alive(Visible(ls, k, t), t)
    decreases |ls|
  {
    if |ls| > 0 {
      VisibleIsAlive(ls[1..], k, t);
    }
  }

  /** Nothing that is gone comes back. */
  lemma {:induction false} GoneStaysGone(ls: seq<Content>, k: Key, t: nat, u: nat)
    requires t <= u && Visible(ls, k, t).None?
    ensures Visible(ls, k, u).None?
    decreases |ls|
  {
    if |ls| > 0 {
      GoneStaysGone(ls[1..], k, t, u);
    }
  }

  /** A dead oldest layer shows nothing. */
  lemma {:induction false} DeadTail(ls: seq<Content>, k: Key, t: nat)
    requires |ls| > 0 && Alive(ls[|ls| - 1](k), t).None?
    ensures Visible(ls[..|ls| - 1], k, t) == Visible(ls, k, t)
    decreases |ls|
  {
    if |ls| == 1 {
      assert ls[1..] == [] && ls[..0] == [];
    } else {
      DeadTail(ls[1..], k, t);
      assert ls[1..][..|ls| - 2] == ls[..|ls| - 1][1..];
    }
  }

  lemma {:induction false} UnlinkVisible(ls: seq<Content>, now: nat, k: Key, t: nat)
    requires |ls| > 1 && t >= now && Dead(ls[|ls| - 1], now)
    ensures Visible(ls[..|ls| - 1], k, t) == Visible(ls, k, t)
  {
    assert Alive(ls[|ls| - 1](k), now).None?;
    DeadTail(ls, k, t);
  }

  /**
   An operation changes what is visible only for the key it inserts, and there only as the merge of
   the new value with the one visible before, whichever layer that one was in.
   */
  lemma {:induction false} StepVisible(ls: seq<Content>, op: Op, ls': seq<Content>, k: Key, t: nat)
    requires Step(ls, op, ls') && t >= op.now
    ensures Visible(ls', k, t) ==
              if op.Insert? && op.done && k == op.key then
                if t < op.now + op.ttl then Some(Cell(Joined(op.value, Visible(ls, k, op.now), op.now), op.now + op.ttl))
                else Visible(ls[1..], k, t)
              else Visible(ls, k, t)
  {
    match op
    case Insert(now, ttl, key, value, done) =>
      if |ls| > 0 {
        assert Alive(ls'[0](k), t) == Alive(ls'[0](k), t);
      }
    case AddLayer(now) =>
    case Unlink(now) =>
      if ls' != ls {
        UnlinkVisible(ls, now, k, t);
      }
  }

  /** An insert is faithful when no older copy of its key outlives the new one. */
  ghost predicate Covers(ls: seq<Content>, op: Op) {
    op.Insert? && op.done && |ls| > 0 ==> Visible(ls[1..], op.key, op.now + op.ttl).None?
  }

  lemma {:induction false} StepAgrees(ls: seq<Content>, m: Content, from: nat, op: Op, ls': seq<Content>)
    requires Agree(ls, m, from) && from <= op.now && Step(ls, op, ls') && Covers(ls, op)
    ensures Agree(ls', Plain(m, op), op.now)
  {
    forall k, t: nat | t >= op.now
      ensures Visible(ls', k, t) == Alive(Plain(m, op)(k), t)
    {
      StepVisible(ls, op, ls', k, t);
      if op.Insert? && op.done && k == op.key {
        assert Visible(ls, k, op.now) == Alive(m(k), op.now);
        if t >= op.now + op.ttl {
          GoneStaysGone(ls[1..], k, op.now + op.ttl, t);
        }
      } else {
        assert Visible(ls, k, t) == Alive(m(k), t);
      }
    }
  }

  /** Exactly then: an older copy that outlives the new one shows up again once the new one expires. */
  lemma {:induction false} AgreesIffCovered(ls: seq<Content>, m: Content, from: nat, op: Op, ls': seq<Content>)
    requires Agree(ls, m, from) && from <= op.now && Step(ls, op, ls')
    ensures Agree(ls', Plain(m, op), op.now) <==> Covers(ls, op)
  {
    if Covers(ls, op) {
      StepAgrees(ls, m, from, op, ls');
    } else {
      var end := op.now + op.ttl;
      StepVisible(ls, op, ls', op.key, end);
      assert Alive(Plain(m, op)(op.key), end).None?;
      assert Visible(ls', op.key, end).Some?;
    }
  }

  /** A deadline at least as late as the visible one, as lookup reports it, is enough. */
  lemma {:induction false} LaterDeadlineCovers(ls: seq<Content>, m: Content, from: nat, op: Op)
    requires Agree(ls, m, from) && op.Insert? && from <= op.now
    requires var o := Visible(ls, op.key, op.now); o.Some? ==> o.value.deadline <= op.now + op.ttl
    ensures Covers(ls, op)
  {
    if |ls| > 0 {
      var end := op.now + op.ttl;
      assert Visible(ls, op.key, op.now) == Alive(m(op.key), op.now);
      assert Visible(ls, op.key, end) == Alive(m(op.key), end);
      if Alive(ls[0](op.key), end).Some? {
        assert Visible(ls, op.key, end) == ls[0](op.key);
      }
    }
  }

  /** Shortening the life of a key that still has a copy in an older layer brings that copy back. */
  lemma OlderCopyReturns(k: Key, v: Value, w: Value)
    ensures var top: Content := q => None;
            var deep: Content := q => if q == k then Some(Cell(v, 100)) else None;
            var put: Content := q => if q == k then Some(Cell(Merge(w, v), 20)) else None;
            && Step([top, deep], Insert(10, 10, k, w, true), [put, deep])
            && Visible([put, deep], k, 15) == Some(Cell(Merge(w, v), 20))
            && Visible([put, deep], k, 20) == Some(Cell(v, 100))
  {
    var top: Content := q => None;
    var deep: Content := q => if q == k then Some(Cell(v, 100)) else None;
    var put: Content := q => if q == k then Some(Cell(Merge(w, v), 20)) else None;
    assert [top, deep][1..] == [deep] && [put, deep][1..] == [deep];
    assert Visible([deep], k, 10) == Some(Cell(v, 100)) && Visible([deep], k, 20) == Some(Cell(v, 100));
  }

  // ---- whole runs ----

  /** A run of the table: layer chains joined by operations, at times that never go back. */
  ghost predicate Run(chains: seq<seq<Content>>, ops: seq<Op>) {
    && |chains| == |ops| + 1
    && (forall i | 0 <= i < |ops| :: Step(chains[i], ops[i], chains[i + 1]))
    && forall i | 0 < i < |ops| :: ops[i - 1].now <= ops[i].now
  }

  ghost function PlainRun(ops: seq<Op>): Content {
    if |ops| == 0 then k => None else Plain(PlainRun(ops[..|ops| - 1]), ops[|ops| - 1])
  }

  ghost function LastTime(ops: seq<Op>): nat {
    if |ops| == 0 then 0 else ops[|ops| - 1].now
  }

  lemma {:induction false} NothingVisible(ls: seq<Content>, k: Key, t: nat)
    requires forall i, q | 0 <= i < |ls| :: ls[i](q).None?
    ensures Visible(ls, k, t).None?
    decreases |ls|
  {
    if |ls| > 0 {
      NothingVisible(ls[1..], k, t);
    }
  }

  /**
   Over every run the layered table is one map: layers may be added and expired ones dropped at any
   point, and every lookup still sees the cell the plain map holds.
   */
  lemma {:induction false} LayersRefinePlainMap(chains: seq<seq<Content>>, ops: seq<Op>)
    requires Run(chains, ops) && forall i, k | 0 <= i < |chains[0]| :: chains[0][i](k).None?
    requires forall i | 0 <= i < |ops| :: Covers(chains[i], ops[i])
    ensures Agree(chains[|ops|], PlainRun(ops), LastTime(ops))
    decreases |ops|
  {
    if |ops| == 0 {
      forall k, t: nat
        ensures Visible(chains[0], k, t).None?
      {
        NothingVisible(chains[0], k, t);
      }
    } else {
      var n := |ops| - 1;
      assert chains[..n + 1][n] == chains[n] && chains[..n + 1][0] == chains[0];
      LayersRefinePlainMap(chains[..n + 1], ops[..n]);
      assert n > 0 ==> ops[..n][n - 1].now <= ops[n].now;
      assert Step(chains[n], ops[n], chains[n + 1]);
      StepAgrees(chains[n], PlainRun(ops[..n]), LastTime(ops[..n]), ops[n], chains[n + 1]);
    }
  }

  /** The deadline of an insert is not before that of the cell its lookup shows, so the caller can tell. */
  ghost predicate Later(ls: seq<Content>, op: Op) {
    op.Insert? && op.done ==> var o := Visible(ls, op.key, op.now); o.Some? ==> o.value.deadline <= op.now + op.ttl
  }

  /** Deadlines that never decrease are enough over every run: no condition on the older layers is left. */
  lemma {:induction false} LaterDeadlinesRefine(chains: seq<seq<Content>>, ops: seq<Op>)
    requires Run(chains, ops) && forall i, k | 0 <= i < |chains[0]| :: chains[0][i](k).None?
    requires forall i | 0 <= i < |ops| :: Later(chains[i], ops[i])
    ensures Agree(chains[|ops|], PlainRun(ops), LastTime(ops))
    ensures forall i | 0 <= i < |ops| :: Covers(chains[i], ops[i])
    decreases |ops|
  {
    if |ops| == 0 {
      LayersRefinePlainMap(chains, ops);
    } else {
      var n := |ops| - 1;
      var chains', ops' := chains[..n + 1], ops[..n];
      assert chains'[n] == chains[n] && chains'[0] == chains[0];
      LaterDeadlinesRefine(chains', ops');
      forall i | 0 <= i < |ops|
        ensures Covers(chains[i], ops[i])
      {
        if i < n {
          assert Covers(chains'[i], ops'[i]);
        } else if ops[n].Insert? && ops[n].done {
          assert Later(chains[n], ops[n]);
          assert n > 0 ==> ops[n - 1].now <= ops[n].now;
          LaterDeadlineCovers(chains[n], PlainRun(ops'), LastTime(ops'), ops[n]);
        }
      }
      LayersRefinePlainMap(chains, ops);
    }
  }

  // ---- what the visible value adds up to ----

  /** The values inserted for `k` since it was last not live. */
  ghost function Burst(ops: seq<Op>, k: Key): seq<Value> {
    if |ops| == 0 then [] else
      var op := ops[|ops| - 1];
      var before := ops[..|ops| - 1];
      if !op.Insert? || !op.done || op.key != k then Burst(before, k)
      else if Alive(PlainRun(before)(k), op.now).Some? then Burst(before, k) + [op.value]
      else [op.value]
  }

  ghost function Sum(vs: seq<Value>, f: Value -> nat): nat {
    if |vs| == 0 then 0 else Sum(vs[..|vs| - 1], f) + f(vs[|vs| - 1])
  }

  ghost function AllFlags(vs: seq<Value>): bv8 {
    if |vs| == 0 then 0 else vs[|vs| - 1].flags | AllFlags(vs[..|vs| - 1])
  }

  /**
   A state totals a burst: packet counters are sums modulo 2^64, flags accumulate, the creation time is
   the first value's and all the rest is the last value's.
   */
  ghost predicate Totals(vs: seq<Value>, w: Value) {
    && |vs| > 0 && w.createdAt == vs[0].createdAt && w.flags == AllFlags(vs)
    && w.packetsForward == Sum(vs, (v: Value) => v.packetsForward) % U64
    && w.packetsBackward == Sum(vs, (v: Value) => v.packetsBackward) % U64
    && w.updatedAt == vs[|vs| - 1].updatedAt && w.lastTtl == vs[|vs| - 1].lastTtl
    && w.external == vs[|vs| - 1].external
  }

  lemma {:induction false} AddMod(a: nat, b: nat)
    ensures (a + b % U64) % U64 == (a + b) % U64
  {
  }

  lemma {:induction false} BurstGrows(vs: seq<Value>, w: Value, v: Value)
    requires Totals(vs, w)
    ensures Totals(vs + [v], Merge(v, w))
  {
    assert (vs + [v])[..|vs|] == vs;
    AddMod(v.packetsForward, Sum(vs, (x: Value) => x.packetsForward));
    AddMod(v.packetsBackward, Sum(vs, (x: Value) => x.packetsBackward));
  }

  lemma {:induction false} BurstStarts(v: Value)
    requires v.packetsForward < U64 && v.packetsBackward < U64
    ensures Totals([v], v)
  {
    assert [v][..0] == [];
  }

  /** The counters of inserted values are 64-bit words. */
  ghost predicate CountersFit(ops: seq<Op>) {
    forall i | 0 <= i < |ops| && ops[i].Insert? :: ops[i].value.packetsForward < U64 && ops[i].value.packetsBackward < U64
  }

  /** The plain map's state of a connection totals its burst. */
  lemma {:induction false} StateTotalsBurst(ops: seq<Op>, k: Key)
    requires CountersFit(ops) && PlainRun(ops)(k).Some?
    ensures Totals(Burst(ops, k), PlainRun(ops)(k).value.value)
    decreases |ops|
  {
    var n := |ops| - 1;
    var op, before := ops[n], ops[..n];
    if !op.Insert? || !op.done || op.key != k {
      StateTotalsBurst(before, k);
    } else if Alive(PlainRun(before)(k), op.now).Some? {
      StateTotalsBurst(before, k);
      BurstGrows(Burst(before, k), PlainRun(before)(k).value.value, op.value);
    } else {
      BurstStarts(op.value);
    }
  }

  /** What a lookup sees, in whichever layer it lies, totals all that was inserted since the key was last not live. */
  lemma {:induction false} VisibleTotalsBurst(chains: seq<seq<Content>>, ops: seq<Op>, k: Key, t: nat)
    requires Run(chains, ops) && forall i, q | 0 <= i < |chains[0]| :: chains[0][i](q).None?
    requires CountersFit(ops) && forall i | 0 <= i < |ops| :: Later(chains[i], ops[i])
    requires t >= LastTime(ops) && Visible(chains[|ops|], k, t).Some?
    ensures Totals(Burst(ops, k), Visible(chains[|ops|], k, t).value.value)
  {
    LaterDeadlinesRefine(chains, ops);
    assert Visible(chains[|ops|], k, t) == Alive(PlainRun(ops)(k), t);
    StateTotalsBurst(ops, k);
  }
}
