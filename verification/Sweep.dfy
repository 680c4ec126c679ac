/**
 The sweep of common/range_collector.h over numbers: prefixes as aligned blocks, visited by ascending
 start and, for equal starts, widest first; a stack of enclosing blocks; labels handed out on emit.
 */
module Sweep {
  import opened KeyArith

  /** The keys `from..to` under a prefix of `len` bits. */
  datatype Net = Net(from: nat, to: nat, len: nat)

  ghost predicate Times(x: nat, a: nat, s: nat) {
    x == a * s
  }

  ghost predicate Multiple(x: nat, s: nat) {
    exists a: nat :: Times(x, a, s)
  }

  ghost predicate IsNet(bits: nat, x: Net) {
    && 0 < x.len <= bits
    && x.to + 1 == x.from + Pow2(bits - x.len) && x.to < Pow2(bits)
    && Multiple(x.from, Pow2(bits - x.len))
  }

  ghost predicate Covers(x: Net, k: nat) {
    x.from <= k <= x.to
  }

  /** Walk order: by start, a shorter prefix before a longer one. */
  ghost predicate Before(x: Net, y: Net) {
    x.from < y.from || (x.from == y.from && x.len < y.len)
  }

  lemma {:induction false} Scaled(a: nat, c: nat, s: nat)
    requires s > 0
    ensures a * s < c * s <==> a < c
    ensures (a + 1) * s == a * s + s
  {
    if a < c {
      assert (a + 1) * s <= c * s;
    } else {
      assert c * s <= a * s;
    }
  }

  /** Two aligned intervals, the second with the finer unit: if they meet, the second is inside. */
  lemma {:induction false} Nested(a: nat, u: nat, c: nat, s: nat)
    requires s > 0 && a * (u * s) < (c + 1) * s && c * s < (a + 1) * (u * s)
    ensures a * (u * s) <= c * s && (c + 1) * s <= (a + 1) * (u * s)
  {
    var lo, hi := a * u, (a + 1) * u;
    assert a * (u * s) == lo * s by { MulAssoc(a, u, s); }
    assert (a + 1) * (u * s) == hi * s by { MulAssoc(a + 1, u, s); }
    Scaled(lo, c + 1, s);
    Scaled(c, hi, s);
    Scaled(c, lo, s);
    Scaled(hi, c + 1, s);
  }

  /** Prefix blocks are laminar: if they meet, the longer prefix lies inside the shorter one. */
  lemma {:induction false} Laminar(bits: nat, x: Net, y: Net)
    requires IsNet(bits, x) && IsNet(bits, y) && x.len <= y.len && x.from <= y.to && y.from <= x.to
    ensures x.from <= y.from && y.to <= x.to
    ensures x.len < y.len ==> y.to - y.from < x.to - x.from
    ensures x.len == y.len ==> x == y
  {
    var s, u := Pow2(bits - y.len), Pow2(y.len - x.len);
    Pow2Sum(y.len - x.len, bits - y.len);
    assert y.len - x.len + (bits - y.len) == bits - x.len;
    var a: nat :| Times(x.from, a, u * s);
    var c: nat :| Times(y.from, c, s);
    Scaled(a, a, u * s);
    Scaled(c, c, s);
    Nested(a, u, c, s);
    if x.len < y.len {
      assert u == 2 * Pow2(y.len - x.len - 1);
      Scaled(1, u, s);
    }
  }

  datatype Label = Unset | Set(v: nat)

  /**
   The sweep's state: prefixes visited so far, the stack (end, label and prefix length of each item,
   bottom first), the next key to emit from, the next label, and what has been emitted.
   */
  datatype State = State(nets: seq<Net>, tos: seq<nat>, vals: seq<Label>, lens: seq<nat>,
                         pos: nat, next: nat, starts: seq<nat>, labels: seq<nat>)

  /** The visited prefixes that cover a key. */
  ghost function Covering(nets: seq<Net>, k: nat): set<nat> {
    set i | 0 <= i < |nets| && Covers(nets[i], k)
  }

  /** The visited prefixes that reach at least to `t`. */
  ghost function Reaching(nets: seq<Net>, t: nat): set<nat> {
    set i | 0 <= i < |nets| && nets[i].to >= t
  }

  /** The label of the last emitted range that starts at or before `k`. */
  ghost function LabelAt(starts: seq<nat>, labels: seq<nat>, k: nat): nat
    requires |starts| == |labels|
  {
    if |starts| == 0 then 0 else
      var m := |starts| - 1;
      if starts[m] <= k then labels[m] else LabelAt(starts[..m], labels[..m], k)
  }

  ghost predicate StackOk(bits: nat, s: State) {
    && |s.tos| == |s.vals| == |s.lens| > 0
    && s.tos[0] == Pow2(bits) - 1
    && (forall i, j | 0 <= i < j < |s.tos| :: s.tos[j] < s.tos[i])
    && s.pos <= s.tos[|s.tos| - 1] + 1
  }

  /** Each item stands for a visited prefix with its end, except a bottom that stands for all keys. */
  ghost predicate ItemNet(s: State, j: nat, i: nat)
    requires j < |s.tos| == |s.lens| && i < |s.nets|
  {
    s.nets[i].to == s.tos[j] && s.nets[i].len == s.lens[j]
  }

  ghost predicate HasNet(s: State, j: nat)
    requires j < |s.tos| == |s.lens|
  {
    exists i | 0 <= i < |s.nets| :: ItemNet(s, j, i)
  }

  ghost predicate ItemsOk(bits: nat, s: State)
    requires |s.tos| == |s.lens| > 0
  {
    && (forall j | 0 <= j < |s.tos| && !(j == 0 && s.lens[0] == 0) :: HasNet(s, j))
    && (forall i, j | 0 <= i < j < |s.lens| :: s.lens[i] < s.lens[j])
    && (forall j | 0 <= j < |s.lens| :: s.lens[j] <= bits)
  }

  ghost predicate NetsOk(bits: nat, s: State) {
    && (forall i | 0 <= i < |s.nets| :: IsNet(bits, s.nets[i]) && s.nets[i].from <= s.pos)
    && (forall i | 0 <= i < |s.nets| && s.nets[i].to >= s.pos :: s.nets[i].to in s.tos)
  }

  ghost predicate EmittedOk(s: State) {
    && |s.starts| == |s.labels|
    && (forall i | 0 <= i < |s.starts| :: s.starts[i] < s.pos)
    && (forall i, j | 0 <= i < j < |s.starts| :: s.starts[i] < s.starts[j])
    && (s.pos > 0 ==> |s.starts| > 0 && s.starts[0] == 0)
  }

  /** Equal labels mean equal covering prefixes, and the labels in use are exactly those below `next`. */
  ghost predicate LabelsOk(s: State)
    requires |s.starts| == |s.labels|
  {
    && (forall k: nat, l: nat | k < s.pos && l < s.pos ::
          LabelAt(s.starts, s.labels, k) == LabelAt(s.starts, s.labels, l) <==>
          Covering(s.nets, k) == Covering(s.nets, l))
    && (forall k: nat | k < s.pos :: LabelAt(s.starts, s.labels, k) < s.next)
    && (forall i | 0 <= i < |s.labels| :: s.labels[i] < s.next)
    && (forall v: nat | v < s.next :: v in s.labels)
  }

  /** A labelled item owns the emitted keys covered by exactly the prefixes that reach its end. */
  ghost predicate ItemLabelOk(s: State, j: nat)
    requires |s.starts| == |s.labels| && j < |s.tos| == |s.vals|
  {
    match s.vals[j]
    case Unset => forall k: nat | k < s.pos :: Covering(s.nets, k) != Reaching(s.nets, s.tos[j])
    case Set(v) => v < s.next && forall k: nat | k < s.pos ::
      LabelAt(s.starts, s.labels, k) == v <==> Covering(s.nets, k) == Reaching(s.nets, s.tos[j])
  }

  ghost predicate ItemLabelsOk(s: State)
    requires |s.starts| == |s.labels| && |s.tos| == |s.vals|
  {
    && (forall j | 0 <= j < |s.tos| :: ItemLabelOk(s, j))
    && (forall i, j | 0 <= i < j < |s.vals| && s.vals[i].Set? && s.vals[j].Set? :: s.vals[i] != s.vals[j])
  }

  ghost predicate Inv(bits: nat, s: State) {
    StackOk(bits, s) && ItemsOk(bits, s) && NetsOk(bits, s) && EmittedOk(s) && LabelsOk(s) && ItemLabelsOk(s)
  }

  /**
   `Inv` as one fact, for callers that only pass it on: compared with `true` it is proved as a whole and not
   clause by clause.
   */
  ghost predicate Kept(bits: nat, s: State) {
    Inv(bits, s) == true
  }

  // ---- emit ----

  /** Emit the range from `pos` to `t` under the label of the top item. */
  ghost function Emit(s: State, t: nat): State
    requires |s.tos| == |s.vals| > 0
  {
    var top := |s.vals| - 1;
    var v := if s.vals[top].Unset? then s.next else s.vals[top].v;
    s.(vals := s.vals[top := Set(v)], next := if s.vals[top].Unset? then s.next + 1 else s.next,
       starts := s.starts + [s.pos], labels := s.labels + [v], pos := t + 1)
  }

  lemma {:induction false} LabelAppend(starts: seq<nat>, labels: seq<nat>, p: nat, v: nat, k: nat)
    requires |starts| == |labels|
    ensures LabelAt(starts + [p], labels + [v], k) == if p <= k then v else LabelAt(starts, labels, k)
  {
    assert (starts + [p])[..|starts|] == starts && (labels + [v])[..|labels|] == labels;
  }

  /** From `pos` to the end of the top item, exactly the prefixes reaching that end cover a key. */
  lemma {:induction false} CoveringTop(bits: nat, s: State, k: nat)
    requires StackOk(bits, s) && NetsOk(bits, s) && s.pos <= k <= s.tos[|s.tos| - 1]
    ensures Covering(s.nets, k) == Reaching(s.nets, s.tos[|s.tos| - 1])
  {
    var top := |s.tos| - 1;
    forall i | 0 <= i < |s.nets|
      ensures Covers(s.nets[i], k) <==> s.nets[i].to >= s.tos[top]
    {
      if Covers(s.nets[i], k) {
        var j :| 0 <= j < |s.tos| && s.tos[j] == s.nets[i].to;
      }
    }
  }

  /** The prefixes reaching two different items differ. */
  lemma {:induction false} ReachingDiffer(bits: nat, s: State, j: nat)
    requires StackOk(bits, s) && ItemsOk(bits, s) && j < |s.tos| - 1
    ensures Reaching(s.nets, s.tos[j]) != Reaching(s.nets, s.tos[|s.tos| - 1])
  {
    var top := |s.tos| - 1;
    assert HasNet(s, top);
    var i :| 0 <= i < |s.nets| && ItemNet(s, top, i);
    assert i in Reaching(s.nets, s.tos[top]) && i !in Reaching(s.nets, s.tos[j]);
  }

  ghost function TopLabel(s: State): nat
    requires |s.vals| > 0
  {
    var top := |s.vals| - 1;
    if s.vals[top].Unset? then s.next else s.vals[top].v
  }

  ghost function TopReach(s: State): set<nat>
    requires |s.tos| > 0
  {
    Reaching(s.nets, s.tos[|s.tos| - 1])
  }

  /** After an emit, the old keys keep their labels and the new ones have the top item's. */
  lemma {:induction false} EmitFacts(bits: nat, s: State, t: nat, k: nat)
    requires Inv(bits, s) && s.pos <= t <= s.tos[|s.tos| - 1] && k <= t
    ensures var s' := Emit(s, t);
            && LabelAt(s'.starts, s'.labels, k) == (if k < s.pos then LabelAt(s.starts, s.labels, k) else TopLabel(s))
            && (k >= s.pos ==> Covering(s.nets, k) == TopReach(s))
            && (LabelAt(s'.starts, s'.labels, k) == TopLabel(s) <==> Covering(s.nets, k) == TopReach(s))
            && LabelAt(s'.starts, s'.labels, k) < s'.next
  {
    LabelAppend(s.starts, s.labels, s.pos, TopLabel(s), k);
    assert ItemLabelOk(s, |s.tos| - 1);
    if k >= s.pos {
      CoveringTop(bits, s, k);
    }
  }

  lemma {:induction false} EmitLabels(bits: nat, s: State, t: nat)
    requires Inv(bits, s) && s.pos <= t <= s.tos[|s.tos| - 1]
    ensures LabelsOk(Emit(s, t))
  {
    var s' := Emit(s, t);
    forall k: nat, l: nat | k < s'.pos && l < s'.pos
      ensures LabelAt(s'.starts, s'.labels, k) == LabelAt(s'.starts, s'.labels, l) <==>
              Covering(s.nets, k) == Covering(s.nets, l)
    {
      EmitFacts(bits, s, t, k);
      EmitFacts(bits, s, t, l);
    }
    forall k: nat | k < s'.pos
      ensures LabelAt(s'.starts, s'.labels, k) < s'.next
    {
      EmitFacts(bits, s, t, k);
    }
    assert ItemLabelOk(s, |s.tos| - 1);
    forall v: nat | v < s'.next
      ensures v in s'.labels
    {
      assert v == s.next ==> s'.labels[|s.labels|] == v;
      assert v in s.labels ==> v in s'.labels;
    }
  }

  lemma {:induction false} EmitItem(bits: nat, s: State, t: nat, j: nat)
    requires Inv(bits, s) && s.pos <= t <= s.tos[|s.tos| - 1] && j < |s.tos|
    ensures ItemLabelOk(Emit(s, t), j)
  {
    var s' := Emit(s, t);
    assert ItemLabelOk(s, j);
    if j < |s.tos| - 1 {
      ReachingDiffer(bits, s, j);
    }
    forall k: nat | k < s'.pos
      ensures match s'.vals[j]
              case Unset => Covering(s.nets, k) != Reaching(s.nets, s.tos[j])
              case Set(v) => LabelAt(s'.starts, s'.labels, k) == v <==> Covering(s.nets, k) == Reaching(s.nets, s.tos[j])
    {
      EmitFacts(bits, s, t, k);
    }
  }

  lemma {:induction false} EmitItems(bits: nat, s: State, t: nat)
    requires Inv(bits, s) && s.pos <= t <= s.tos[|s.tos| - 1]
    ensures ItemLabelsOk(Emit(s, t))
  {
    var s' := Emit(s, t);
    forall j | 0 <= j < |s'.tos|
      ensures ItemLabelOk(s', j)
    {
      EmitItem(bits, s, t, j);
    }
    forall i, j | 0 <= i < j < |s'.vals| && s'.vals[i].Set? && s'.vals[j].Set?
      ensures s'.vals[i] != s'.vals[j]
    {
      assert ItemLabelOk(s, i) && ItemLabelOk(s, j);
    }
  }

  lemma {:induction false} EmitStack(bits: nat, s: State, t: nat)
    requires Inv(bits, s) && s.pos <= t <= s.tos[|s.tos| - 1]
    ensures ItemsOk(bits, Emit(s, t))
  {
    var s' := Emit(s, t);
    forall j | 0 <= j < |s.tos| && !(j == 0 && s.lens[0] == 0)
      ensures HasNet(s', j)
    {
      assert HasNet(s, j);
      var i :| 0 <= i < |s.nets| && ItemNet(s, j, i);
      assert ItemNet(s', j, i);
    }
  }

  lemma {:induction false} EmitKeeps(bits: nat, s: State, t: nat)
    requires Inv(bits, s) && s.pos <= t <= s.tos[|s.tos| - 1]
    ensures Inv(bits, Emit(s, t))
  {
    EmitLabels(bits, s, t);
    EmitItems(bits, s, t);
    EmitStack(bits, s, t);
  }

  // ---- pop and push ----

  ghost function Pop(s: State): State
    requires |s.tos| == |s.vals| == |s.lens| > 0
  {
    var top := |s.tos| - 1;
    s.(tos := s.tos[..top], vals := s.vals[..top], lens := s.lens[..top])
  }

  lemma {:induction false} PopKeeps(bits: nat, s: State)
    requires Inv(bits, s) && |s.tos| > 1 && s.pos == s.tos[|s.tos| - 1] + 1
    ensures Inv(bits, Pop(s))
  {
    var s' := Pop(s);
    var top := |s.tos| - 1;
    assert s.tos[top] < s.tos[top - 1];
    forall j | 0 <= j < |s'.tos| && !(j == 0 && s.lens[0] == 0)
      ensures HasNet(s', j)
    {
      assert HasNet(s, j);
      var i :| 0 <= i < |s.nets| && ItemNet(s, j, i);
      assert ItemNet(s', j, i);
    }
    forall i | 0 <= i < |s.nets| && s.nets[i].to >= s.pos
      ensures s.nets[i].to in s'.tos
    {
      var j :| 0 <= j < |s.tos| && s.tos[j] == s.nets[i].to;
      assert s'.tos[j] == s.nets[i].to;
    }
    forall j | 0 <= j < |s'.tos|
      ensures ItemLabelOk(s', j)
    {
      assert ItemLabelOk(s, j);
    }
  }

  /** Push the block of a prefix that starts at `pos`; a block with the top's end replaces it. */
  ghost function Push(s: State, x: Net): State
    requires |s.tos| == |s.vals| == |s.lens| > 0
  {
    var top := |s.tos| - 1;
    if x.to == s.tos[top] then
      s.(nets := s.nets + [x], vals := s.vals[top := Unset], lens := s.lens[top := x.len])
    else
      s.(nets := s.nets + [x], tos := s.tos + [x.to], vals := s.vals + [Unset], lens := s.lens + [x.len])
  }

  ghost predicate CanPush(bits: nat, s: State, x: Net) {
    IsNet(bits, x) && x.from == s.pos && forall i | 0 <= i < |s.nets| :: Before(s.nets[i], x)
  }

  /** The new block lies inside the top item and is smaller than the prefix it stands for. */
  lemma {:induction false} PushInside(bits: nat, s: State, x: Net)
    requires Inv(bits, s) && CanPush(bits, s, x) && s.pos <= s.tos[|s.tos| - 1]
    ensures x.to <= s.tos[|s.tos| - 1] && s.lens[|s.lens| - 1] < x.len
  {
    var top := |s.tos| - 1;
    if !(top == 0 && s.lens[0] == 0) {
      assert HasNet(s, top);
      var i :| 0 <= i < |s.nets| && ItemNet(s, top, i);
      var y := s.nets[i];
      assert Before(y, x);
      if x.len <= y.len {
        Laminar(bits, x, y);
      } else {
        Laminar(bits, y, x);
      }
    }
  }

  lemma {:induction false} CoveringAppend(nets: seq<Net>, x: Net, k: nat)
    ensures Covering(nets + [x], k) == Covering(nets, k) + (if Covers(x, k) then {|nets|} else {})
    ensures Reaching(nets + [x], k) == Reaching(nets, k) + (if x.to >= k then {|nets|} else {})
  {
  }

  lemma {:induction false} PushItem(bits: nat, s: State, x: Net, j: nat)
    requires Inv(bits, s) && CanPush(bits, s, x) && x.to <= s.tos[|s.tos| - 1] && j < |Push(s, x).tos|
    ensures ItemLabelOk(Push(s, x), j)
  {
    var s' := Push(s, x);
    CoveringAppend(s.nets, x, s'.tos[j]);
    if s'.tos[j] == x.to {
      assert |s.nets| in Reaching(s'.nets, s'.tos[j]);
    } else {
      assert ItemLabelOk(s, j);
    }
    forall k: nat | k < s.pos
      ensures Covering(s'.nets, k) == Covering(s.nets, k) && |s.nets| !in Covering(s'.nets, k)
    {
      CoveringAppend(s.nets, x, k);
    }
  }

  lemma {:induction false} PushItems(bits: nat, s: State, x: Net)
    requires Inv(bits, s) && CanPush(bits, s, x) && x.to <= s.tos[|s.tos| - 1] && s.lens[|s.lens| - 1] < x.len
    ensures ItemsOk(bits, Push(s, x))
  {
    var s' := Push(s, x);
    forall j | 0 <= j < |s'.tos| && !(j == 0 && s'.lens[0] == 0)
      ensures HasNet(s', j)
    {
      if s'.tos[j] == x.to {
        assert ItemNet(s', j, |s.nets|);
      } else {
        assert HasNet(s, j);
        var i :| 0 <= i < |s.nets| && ItemNet(s, j, i);
        assert ItemNet(s', j, i);
      }
    }
  }

  lemma {:induction false} PushKeeps(bits: nat, s: State, x: Net)
    requires Inv(bits, s) && CanPush(bits, s, x) && s.pos <= s.tos[|s.tos| - 1]
    ensures Inv(bits, Push(s, x))
  {
    var s' := Push(s, x);
    PushInside(bits, s, x);
    PushItems(bits, s, x);
    forall j | 0 <= j < |s'.tos|
      ensures ItemLabelOk(s', j)
    {
      PushItem(bits, s, x, j);
    }
    forall k: nat | k < s.pos
      ensures Covering(s'.nets, k) == Covering(s.nets, k)
    {
      CoveringAppend(s.nets, x, k);
    }
    forall i | 0 <= i < |s'.nets| && s'.nets[i].to >= s'.pos
      ensures s'.nets[i].to in s'.tos
    {
      if i < |s.nets| {
        assert s.nets[i].to in s.tos;
        assert forall e | e in s.tos :: e in s'.tos;
      } else {
        assert s'.tos[|s'.tos| - 1] == x.to;
      }
    }
  }

  /** The stack never outgrows its array: one item per prefix length plus the bottom. */
  lemma {:induction false} StackBound(bits: nat, s: State)
    requires Inv(bits, s)
    ensures |s.tos| <= bits + 1
  {
    var j := 0;
    while j < |s.lens| - 1
      invariant 0 <= j < |s.lens| && s.lens[j] >= j
    {
      j := j + 1;
    }
  }

  ghost function Start(bits: nat): State {
    State([], [Pow2(bits) - 1], [Unset], [0], 0, 0, [], [])
  }

  lemma {:induction false} StartOk(bits: nat)
    ensures Inv(bits, Start(bits))
  {
    assert ItemLabelOk(Start(bits), 0);
  }

  /** Once every key is emitted, labels classify keys by the prefixes that cover them, and none is left out. */
  lemma {:induction false} SweptExact(bits: nat, s: State)
    requires Inv(bits, s) && s.pos == Pow2(bits)
    ensures forall k: nat, l: nat | k < Pow2(bits) && l < Pow2(bits) ::
              LabelAt(s.starts, s.labels, k) == LabelAt(s.starts, s.labels, l) <==>
              forall i | 0 <= i < |s.nets| :: Covers(s.nets[i], k) <==> Covers(s.nets[i], l)
    ensures forall v: nat :: v < s.next <==> v in s.labels
  {
    forall k: nat, l: nat | k < Pow2(bits) && l < Pow2(bits)
      ensures Covering(s.nets, k) == Covering(s.nets, l) <==>
              forall i | 0 <= i < |s.nets| :: Covers(s.nets[i], k) <==> Covers(s.nets[i], l)
    {
      if Covering(s.nets, k) == Covering(s.nets, l) {
        assert forall i | 0 <= i < |s.nets| ::
            (Covers(s.nets[i], k) <==> i in Covering(s.nets, k)) && (Covers(s.nets[i], l) <==> i in Covering(s.nets, l));
      }
    }
  }
}
