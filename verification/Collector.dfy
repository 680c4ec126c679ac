/**
 The prefix collector of common/range_collector.h: prefixes gathered per start key, then swept once
 into labelled ranges.
 */
module Collector {
  import opened Keys
  import opened KeyArith
  import opened Sweep
  import opened RangeIndexing

  /** A stack item: the label of its own keys, once they have one, and its last key. */
  datatype Item = Item(value: Label, to: Key)

  /** The concrete fields of the context hold the sweep state `s`. */
  ghost predicate Holds(n: nat, stack: seq<Item>, maxValue: nat, pos: Key, s: State) {
    && |stack| == |s.tos| == |s.vals|
    && (forall j | 0 <= j < |stack| ::
          IsKey(256, n, stack[j].to) && Val(256, stack[j].to) == s.tos[j] && stack[j].value == s.vals[j])
    && maxValue == s.next
    && IsKey(256, n, pos) && Val(256, pos) == (if s.pos == Pow2(8 * n) then 0 else s.pos)
    && |s.starts| == |s.labels|
  }

  lemma {:induction false} EmitHolds(n: nat, stack: seq<Item>, maxValue: nat, pos: Key, s: State, to: Key, v: nat, pos': Key)
    requires Holds(n, stack, maxValue, pos, s) && |stack| > 0 && IsKey(256, n, to) && IsKey(256, n, pos')
    requires v == match stack[|stack| - 1].value case Unset => maxValue case Set(l) => l
    requires Val(256, pos') == if Val(256, to) + 1 == Count(256, n) then 0 else Val(256, to) + 1
    ensures var top := |stack| - 1;
            Holds(n, stack[top := stack[top].(value := Set(v))],
                  if stack[top].value.Unset? then maxValue + 1 else maxValue, pos', Emit(s, Val(256, to)))
    ensures Emit(s, Val(256, to)).labels == s.labels + [v] && Emit(s, Val(256, to)).starts == s.starts + [s.pos]
  {
    CountIsPow2(n);
  }

  lemma {:induction false} PopHolds(n: nat, stack: seq<Item>, maxValue: nat, pos: Key, s: State)
    requires Holds(n, stack, maxValue, pos, s) && |stack| > 0 && |s.lens| == |s.tos|
    ensures Holds(n, stack[..|stack| - 1], maxValue, pos, Pop(s))
    ensures Pop(s).labels == s.labels && Pop(s).starts == s.starts && |Pop(s).tos| == |s.tos| - 1
  {
  }

  lemma {:induction false} StartHolds(n: nat)
    ensures Holds(n, [Item(Unset, Pad([], n, 255))], 0, Pad([], n, 0), Start(8 * n))
  {
    PadAll(256, n);
    CountIsPow2(n);
  }

  /** Sweep context (struct range_collector_ctx). */
  class Ctx {
    const n: nat
    const index: RangeIndex
    var stack: seq<Item>
    var pos: Key
    var maxValue: nat
    ghost var s: State

    // As in `Kept`, the comparisons keep the parts from being proved clause by clause.
    ghost predicate Valid()
      reads this, index, index.radix
    {
      && n >= 1 && index.Valid() == true && index.radix.n == n
      && Holds(n, stack, maxValue, pos, s) == true
      && index.values == s.labels && index.starts == s.starts
    }

    constructor (n: nat, index: RangeIndex)
      requires n >= 1 && index.Valid() && index.radix.n == n && index.values == [] == index.starts
      ensures Valid() && this.n == n && this.index == index && s == Start(8 * n)
    {
      this.n := n;
      this.index := index;
      stack := [Item(Unset, Pad([], n, 255))];
      pos := Pad([], n, 0);
      maxValue := 0;
      s := Start(8 * n);
      StartHolds(n);
    }

    /** range_collector_stack_push: open the block that ends at `to`. */
    method Push(to: Key, ghost x: Net)
      requires Valid() && IsKey(256, n, to) && x.to == Val(256, to) && |s.tos| == |s.lens| > 0
      modifies this`stack, this`s
      ensures Valid() && s == Sweep.Push(old(s), x)
    {
      var top := |stack| - 1;
      var c := Cmp(256, to, stack[top].to);
      if c == 0 {
        stack := stack[top := stack[top].(value := Unset)];
      } else {
        stack := stack + [Item(Unset, to)];
      }
      s := Sweep.Push(s, x);
    }

    /** range_collector_stack_emit: emit the keys from `pos` to `to` under the top item's label. */
    method Emit(to: Key) returns (ok: bool)
      requires Valid() && IsKey(256, n, to) && |stack| > 0
      requires s.pos < Pow2(8 * n)
      modifies this`stack, this`pos, this`maxValue, this`s, index, index.radix
      ensures index.Valid() && (!ok ==> index.Exhausted())
      ensures ok ==> Valid() && s == Sweep.Emit(old(s), Val(256, to))
    {
      var top := |stack| - 1;
      var unset := stack[top].value.Unset?;
      var v := if unset then maxValue else stack[top].value.v;
      var next := KeyInc(256, to);
      EmitHolds(n, stack, maxValue, pos, s, to, v, next);
      ghost var s' := Sweep.Emit(s, Val(256, to));
      ok := index.Insert(pos, v);
      if ok {
        maxValue := if unset then maxValue + 1 else maxValue;
        stack := stack[top := stack[top].(value := Set(v))];
        pos := next;
        s := s';
      }
    }

    /** Emit the rest of the top item and drop it. */
    method EmitTop() returns (ok: bool)
      requires Valid() && Kept(8 * n, s) && |stack| > 1 && s.pos <= s.tos[|s.tos| - 1]
      modifies this`stack, this`pos, this`maxValue, this`s, index, index.radix
      ensures index.Valid() && (!ok ==> index.Exhausted())
      ensures ok ==> Valid() && Kept(8 * n, s) && |stack| == old(|stack|) - 1
      ensures ok ==> s.nets == old(s.nets) && s.pos == old(s.tos[|s.tos| - 1]) + 1 <= s.tos[|s.tos| - 1]
    {
      TopEmitted(n, stack, maxValue, pos, s);
      ok := Emit(stack[|stack| - 1].to);
      if ok {
        PopHolds(n, stack, maxValue, pos, s);
        stack := stack[..|stack| - 1];
        s := Pop(s);
      }
    }

    /** Emit the keys of the top item before `to`, if there are any. */
    method EmitBefore(to: Key) returns (ok: bool)
      requires Valid() && Kept(8 * n, s) && IsKey(256, n, to) && |s.tos| > 0
      requires s.pos <= Val(256, to) <= s.tos[|s.tos| - 1]
      modifies this`stack, this`pos, this`maxValue, this`s, index, index.radix
      ensures index.Valid() && (!ok ==> index.Exhausted())
      ensures ok ==> Valid() && Kept(8 * n, s) && s.nets == old(s.nets)
      ensures ok ==> |s.tos| > 0 && s.pos == Val(256, to) <= s.tos[|s.tos| - 1]
    {
      KeyBound(n, to);
      var c := Cmp(256, pos, to);
      if c < 0 {
        var last := KeyDec(256, to);
        EmitStep(8 * n, s, Val(256, last));
        ok := Emit(last);
      } else {
        ok := true;
      }
    }

    /** range_collector_stack_emit_until: emit everything before `to`. */
    method EmitUntil(to: Key) returns (ok: bool)
      requires Valid() && Kept(8 * n, s) && IsKey(256, n, to) && s.pos <= Val(256, to) && s.pos <= s.tos[|s.tos| - 1]
      modifies this`stack, this`pos, this`maxValue, this`s, index, index.radix
      ensures index.Valid() && (!ok ==> index.Exhausted())
      ensures ok ==> Valid() && Kept(8 * n, s) && s.nets == old(s.nets)
      ensures ok ==> |s.tos| > 0 && s.pos == Val(256, to) <= s.tos[|s.tos| - 1]
    {
      while |stack| > 0
        invariant Valid() && Kept(8 * n, s) && s.nets == old(s.nets)
        invariant |stack| > 0 && s.pos <= Val(256, to) && s.pos <= s.tos[|s.tos| - 1]
        decreases |stack|
      {
        TopFacts(8 * n, s);
        var top := stack[|stack| - 1];
        var c := Cmp(256, top.to, to);
        if c < 0 {
          NotBottom(n, s, to);
          ok := EmitTop();
          if !ok {
            return;
          }
        } else {
          ok := EmitBefore(to);
          return;
        }
      }
      ok := false;
    }

    /** range_collector_add_network: emit up to the block's first key, then open the block. */
    method AddNetwork(from: Key, to: Key, ghost x: Net) returns (ok: bool)
      requires Valid() && Kept(8 * n, s) && IsKey(256, n, from) && IsKey(256, n, to)
      requires x.from == Val(256, from) && x.to == Val(256, to) && IsNet(8 * n, x)
      requires forall i | 0 <= i < |s.nets| :: Before(s.nets[i], x)
      requires s.pos <= Val(256, from) && s.pos <= s.tos[|s.tos| - 1]
      modifies this`stack, this`pos, this`maxValue, this`s, index, index.radix
      ensures index.Valid() && (!ok ==> index.Exhausted())
      ensures ok ==> Valid() && Kept(8 * n, s) && s.nets == old(s.nets) + [x] && |stack| <= 8 * n + 1
      ensures ok ==> |s.tos| > 0 && s.pos == x.from <= s.tos[|s.tos| - 1]
    {
      ok := EmitUntil(from);
      if ok {
        TopFacts(8 * n, s);
        PushStep(8 * n, s, x);
        Push(to, x);
      }
    }

    /** The tail of range_collector_collect: emit what is left of every open block. */
    method Finish() returns (ok: bool)
      requires Valid() && Kept(8 * n, s) && s.pos <= s.tos[|s.tos| - 1]
      modifies this`stack, this`pos, this`maxValue, this`s, index, index.radix
      ensures index.Valid() && (!ok ==> index.Exhausted())
      ensures ok ==> Valid() && Kept(8 * n, s) && s.nets == old(s.nets) && s.pos == Pow2(8 * n)
    {
      while |stack| > 1
        invariant Valid() && Kept(8 * n, s) && s.nets == old(s.nets)
        invariant |stack| > 0 && s.pos <= s.tos[|s.tos| - 1]
        decreases |stack|
      {
        ok := EmitTop();
        if !ok {
          return;
        }
      }
      ok := EmitBottom();
    }

    /** Emit the rest of the last open item. */
    method EmitBottom() returns (ok: bool)
      requires Valid() && Kept(8 * n, s) && |stack| == 1 && s.pos <= s.tos[|s.tos| - 1]
      modifies this`stack, this`pos, this`maxValue, this`s, index, index.radix
      ensures index.Valid() && (!ok ==> index.Exhausted())
      ensures ok ==> Valid() && Kept(8 * n, s) && s.nets == old(s.nets) && s.pos == Pow2(8 * n)
    {
      BottomEmitted(n, stack, maxValue, pos, s);
      ok := Emit(stack[0].to);
    }
  }

  lemma {:induction false} EmitStep(bits: nat, s: State, t: nat)
    requires Kept(bits, s) && |s.tos| > 0 && s.pos <= t <= s.tos[|s.tos| - 1]
    ensures |s.vals| == |s.tos| && Kept(bits, Emit(s, t))
  {
    EmitKeeps(bits, s, t);
  }

  lemma {:induction false} PushStep(bits: nat, s: State, x: Net)
    requires Kept(bits, s) && CanPush(bits, s, x) && |s.tos| > 0 && s.pos <= s.tos[|s.tos| - 1]
    ensures |s.tos| == |s.vals| == |s.lens|
    ensures var s' := Sweep.Push(s, x);
            Kept(bits, s') && s'.nets == s.nets + [x] && s'.pos == s.pos && 0 < |s'.tos| <= bits + 1 &&
            s'.pos <= s'.tos[|s'.tos| - 1]
  {
    PushKeeps(bits, s, x);
    StackBound(bits, Sweep.Push(s, x));
  }

  lemma {:induction false} TopFacts(bits: nat, s: State)
    requires Kept(bits, s)
    ensures |s.tos| == |s.vals| == |s.lens| > 0 && s.tos[0] == Pow2(bits) - 1
    ensures s.tos[|s.tos| - 1] < Pow2(bits)
  {
  }

  lemma {:induction false} EmitTopKeeps(bits: nat, s: State)
    requires Kept(bits, s) && |s.tos| > 1 && s.pos <= s.tos[|s.tos| - 1]
    ensures |s.tos| == |s.vals| == |s.lens| && s.tos[|s.tos| - 1] + 1 <= s.tos[|s.tos| - 2]
    ensures Kept(bits, Pop(Emit(s, s.tos[|s.tos| - 1])))
  {
    var t := s.tos[|s.tos| - 1];
    EmitKeeps(bits, s, t);
    PopKeeps(bits, Emit(s, t));
  }

  /** What emitting and dropping the top item of a context leaves. */
  lemma {:induction false} TopEmitted(n: nat, stack: seq<Item>, maxValue: nat, pos: Key, s: State)
    requires Holds(n, stack, maxValue, pos, s) && Kept(8 * n, s) && |stack| > 1 && s.pos <= s.tos[|s.tos| - 1]
    ensures IsKey(256, n, stack[|stack| - 1].to) && s.pos < Pow2(8 * n) && |s.tos| == |s.vals| == |s.lens|
    ensures var s1 := Sweep.Emit(s, Val(256, stack[|stack| - 1].to));
            && |s1.tos| == |s1.lens| == |s.tos| && s1.nets == s.nets && Kept(8 * n, Pop(s1)) && Pop(s1).nets == s.nets
            && |Pop(s1).tos| == |s.tos| - 1 && Pop(s1).pos == s.tos[|s.tos| - 1] + 1 <= s.tos[|s.tos| - 2] == Pop(s1).tos[|s.tos| - 2]
  {
    TopFacts(8 * n, s);
    EmitTopKeeps(8 * n, s);
  }

  lemma {:induction false} BottomEmitted(n: nat, stack: seq<Item>, maxValue: nat, pos: Key, s: State)
    requires Holds(n, stack, maxValue, pos, s) && Kept(8 * n, s) && |stack| == 1 && s.pos <= s.tos[|s.tos| - 1]
    ensures IsKey(256, n, stack[0].to) && s.pos < Pow2(8 * n) && |s.tos| == |s.vals|
    ensures var s1 := Sweep.Emit(s, Val(256, stack[0].to));
            Kept(8 * n, s1) && s1.nets == s.nets && s1.pos == Pow2(8 * n)
  {
    TopFacts(8 * n, s);
    EmitStep(8 * n, s, Pow2(8 * n) - 1);
  }

  lemma {:induction false} KeyBound(n: nat, k: Key)
    requires IsKey(256, n, k)
    ensures Val(256, k) < Pow2(8 * n)
  {
    ValBound(256, k);
    CountIsPow2(n);
  }

  /** An item that ends before a key is not the bottom of the stack. */
  lemma {:induction false} NotBottom(n: nat, s: State, to: Key)
    requires Kept(8 * n, s) && |s.tos| > 0 && IsKey(256, n, to) && s.tos[|s.tos| - 1] < Val(256, to)
    ensures |s.tos| > 1
  {
    KeyBound(n, to);
  }
}
