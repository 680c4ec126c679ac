/**
 The range index of common/range_index.h: range starts in a radix, one value per range, compiled
 into a trie by walking the starts in ascending order.
 */
module RangeIndexing {
  import opened Keys
  import opened KeyArith
  import opened Cursor
  import opened Trie
  import opened RadixTree
  import opened RangeTrie

  /** The position of the last of the ascending `starts` that is at or below `x`, or -1. */
  ghost function Floor(starts: seq<nat>, x: nat): (j: int)
    ensures -1 <= j < |starts|
    ensures j >= 0 ==> starts[j] <= x
    ensures forall i | j < i < |starts| :: x < starts[i]
  {
    if |starts| == 0 then -1 else
      var m := |starts| - 1;
      if starts[m] <= x then m else Floor(starts[..m], x)
  }

  ghost predicate Ascending(starts: seq<nat>) {
    forall i, j | 0 <= i < j < |starts| :: starts[i] < starts[j]
  }

  ghost function Starts(entries: seq<Entry>): seq<nat> {
    seq(|entries|, i requires 0 <= i < |entries| => Val(256, entries[i].key))
  }

  ghost predicate IsList(n: nat, count: nat, list: seq<Entry>) {
    Sorted(list) && forall i | 0 <= i < |list| :: IsKey(256, n, list[i].key) && list[i].value < count
  }

  /** After `m` ranges, exactly the keys that fall into one of them with a valid value hold it. */
  ghost predicate Compiled(t0: Pool, t: Pool, entries: seq<Entry>, values: seq<nat>, m: nat)
    requires t0.Wf() && t.Wf() && t0.b == t.b == 256 && t0.n == t.n
    requires m <= |entries| && forall i | 0 <= i < |entries| :: entries[i].value < |values|
  {
    forall k {:trigger t.Raw(k)} | IsKey(256, t.n, k) ::
      var j := Floor(Starts(entries), Val(256, k));
      t.Raw(k) == if 0 <= j < m && values[entries[j].value] != VALUE_INVALID then ValueSet(values[entries[j].value]) else t0.Raw(k)
  }

  lemma {:induction false} SkipCompiled(t0: Pool, t: Pool, entries: seq<Entry>, values: seq<nat>, m: nat)
    requires t0.Wf() && t.Wf() && t0.b == t.b == 256 && t0.n == t.n
    requires m < |entries| && forall i | 0 <= i < |entries| :: entries[i].value < |values|
    requires Compiled(t0, t, entries, values, m) && values[entries[m].value] == VALUE_INVALID
    ensures Compiled(t0, t, entries, values, m + 1)
  {
  }

  lemma {:induction false} InsertCompiled(t0: Pool, t: Pool, t': Pool, entries: seq<Entry>, values: seq<nat>, m: nat, to: Key)
    requires t0.Wf() && t.Wf() && t'.Wf() && t0.b == t.b == t'.b == 256 && t0.n == t.n == t'.n
    requires m < |entries| && forall i | 0 <= i < |entries| :: entries[i].value < |values|
    requires Sorted(entries) && Compiled(t0, t, entries, values, m)
    requires m + 1 < |entries| ==> Val(256, to) == Val(256, entries[m + 1].key) - 1
    requires m + 1 == |entries| ==> forall k | IsKey(256, t.n, k) :: Val(256, k) <= Val(256, to)
    requires Painted(t, t', entries[m].key, to, ValueSet(values[entries[m].value])) && values[entries[m].value] != VALUE_INVALID
    ensures Compiled(t0, t', entries, values, m + 1)
  {
    var starts := Starts(entries);
    forall k | IsKey(256, t.n, k)
      ensures var j := Floor(starts, Val(256, k));
              t'.Raw(k) == if 0 <= j < m + 1 && values[entries[j].value] != VALUE_INVALID
                           then ValueSet(values[entries[j].value]) else t0.Raw(k)
    {
      var j := Floor(starts, Val(256, k));
      assert j < m ==> Val(256, k) < starts[m];
      assert starts[m] == Val(256, entries[m].key);
      if j > m {
        assert starts[m + 1] == Val(256, entries[m + 1].key);
        assert starts[m + 1] <= starts[j];
      }
      assert InRange(256, entries[m].key, to, k) <==> j == m;
    }
  }

  /** The last position of `x` in `starts`, or -1. */
  ghost function LastAt(starts: seq<nat>, x: nat): (j: int)
    ensures -1 <= j < |starts|
    ensures j >= 0 ==> starts[j] == x
    ensures forall i | j < i < |starts| :: starts[i] != x
  {
    if |starts| == 0 then -1 else
      var m := |starts| - 1;
      if starts[m] == x then m else LastAt(starts[..m], x)
  }

  /** The radix maps each range start to the position it was last inserted at. */
  ghost predicate Indexed(t: Pool, starts: seq<nat>)
    requires t.Wf() && t.b == 256
  {
    forall k {:trigger t.Raw(k)} | IsKey(256, t.n, k) ::
      t.Raw(k) == if LastAt(starts, Val(256, k)) < 0 then RADIX_INVALID else LastAt(starts, Val(256, k))
  }

  lemma {:induction false} IndexedAppend(t: Pool, t': Pool, starts: seq<nat>, pos: Key)
    requires t.Wf() && t'.Wf() && t.b == t'.b == 256 && t.n == t'.n && Indexed(t, starts) && IsKey(256, t.n, pos)
    requires forall k | IsKey(256, t.n, k) :: t'.Raw(k) == if k == pos then |starts| else t.Raw(k)
    ensures Indexed(t', starts + [Val(256, pos)])
  {
    var all := starts + [Val(256, pos)];
    assert all[..|starts|] == starts;
    forall k | IsKey(256, t.n, k)
      ensures t'.Raw(k) == if LastAt(all, Val(256, k)) < 0 then RADIX_INVALID else LastAt(all, Val(256, k))
    {
      ValInjective(256, k, pos);
    }
  }

  class RangeIndex {
    const radix: Radix
    var values: seq<nat>
    /** The range starts in insertion order, as numbers. */
    ghost var starts: seq<nat>
    /** Values the memory context still has room for. */
    var room: nat

    ghost predicate Valid()
      reads this, radix
    {
      radix.Valid() && |values| == |starts| < RADIX_INVALID && Indexed(radix.T(), starts)
    }

    /** One more value or page cannot be had. */
    ghost predicate Exhausted()
      reads this, radix
    {
      room == 0 || |values| + 1 == RADIX_INVALID || radix.chunksLeft == 0
    }

    constructor (n: nat, chunks: nat, room: nat)
      requires n >= 1 && chunks >= 1
      ensures Valid() && fresh(radix) && radix.n == n && values == [] == starts
    {
      radix := new Radix(n, chunks);
      values := [];
      starts := [];
      this.room := room;
    }

    /** range_index_insert: a range start and its value; a failure leaves the index as it was. */
    method Insert(key: Key, value: nat) returns (ok: bool)
      requires Valid() && IsKey(256, radix.n, key)
      modifies this, radix
      ensures Valid()
      ensures ok ==> values == old(values) + [value] && starts == old(starts) + [Val(256, key)] && room == old(room) - 1
      ensures !ok ==> values == old(values) && starts == old(starts) && Exhausted()
    {
      if room == 0 || |values| + 1 == RADIX_INVALID {
        return false;
      }
      ghost var t := radix.T();
      ok := radix.Insert(key, |values|);
      if ok {
        IndexedAppend(t, radix.T(), starts, key);
        room := room - 1;
        values := values + [value];
        starts := starts + [Val(256, key)];
      }
    }

    /** Insert the range of `list[m]`: up to the key before the next start, or to the last key. */
    method InsertRange(lpm: Lpm, ghost t0: Pool, list: seq<Entry>, m: nat) returns (ok: bool)
      requires lpm.Valid() && lpm.b == 256 && t0.Wf() && t0.b == 256 && t0.n == lpm.n
      requires m < |list| && IsList(lpm.n, |values|, list) && Compiled(t0, lpm.T(), list, values, m)
      requires values[list[m].value] != VALUE_INVALID
      modifies lpm`pages, lpm`path, lpm`chunksLeft
      ensures lpm.Valid()
      ensures ok ==> Compiled(t0, lpm.T(), list, values, m + 1)
      ensures !ok ==> lpm.chunksLeft == 0
    {
      var to;
      if m + 1 < |list| {
        to := KeyDec(256, list[m + 1].key);
      } else {
        to := Pad([], lpm.n, 255);
        LastKeys(lpm.n);
      }
      ghost var t := lpm.T();
      ghost var stop;
      ok, stop := lpm.Insert(list[m].key, to, values[list[m].value]);
      if ok {
        InsertCompiled(t0, t, lpm.T(), list, values, m, to);
      }
    }

    /** The range before the start at `i`, if there is one and it has a valid value. */
    method Close(lpm: Lpm, ghost t0: Pool, list: seq<Entry>, i: nat, prevValue: nat) returns (ok: bool)
      requires lpm.Valid() && lpm.b == 256 && t0.Wf() && t0.b == 256 && t0.n == lpm.n && i <= |list| && IsList(lpm.n, |values|, list)
      requires prevValue == if i == 0 then VALUE_INVALID else values[list[i - 1].value]
      requires Compiled(t0, lpm.T(), list, values, if i == 0 then 0 else i - 1)
      modifies lpm`pages, lpm`path, lpm`chunksLeft
      ensures lpm.Valid() && (!ok ==> lpm.chunksLeft == 0)
      ensures ok ==> Compiled(t0, lpm.T(), list, values, i)
    {
      ok := true;
      if prevValue != VALUE_INVALID {
        ok := InsertRange(lpm, t0, list, i - 1);
      } else if i > 0 {
        SkipCompiled(t0, lpm.T(), list, values, i - 1);
      }
    }

    /** The callback of range_index_build_lpm over the walked starts, and the final range. */
    method CompileList(lpm: Lpm, list: seq<Entry>) returns (ok: bool)
      requires lpm.Valid() && lpm.b == 256 && IsList(lpm.n, |values|, list)
      modifies lpm`pages, lpm`path, lpm`chunksLeft
      ensures lpm.Valid()
      ensures ok ==> Compiled(old(lpm.T()), lpm.T(), list, values, |list|)
      ensures !ok ==> lpm.chunksLeft == 0
    {
      ghost var t0 := lpm.T();
      var i := 0;
      var prevValue := VALUE_INVALID;
      while i < |list|
        invariant 0 <= i <= |list| && lpm.Valid()
        invariant prevValue == if i == 0 then VALUE_INVALID else values[list[i - 1].value]
        invariant Compiled(t0, lpm.T(), list, values, if i == 0 then 0 else i - 1)
      {
        ok := Close(lpm, t0, list, i, prevValue);
        if !ok {
          return;
        }
        prevValue := values[list[i].value];
        i := i + 1;
      }
      ok := Close(lpm, t0, list, i, prevValue);
    }

    /**
     range_index_build_lpm: every key gets the value of the greatest range start at or below it; keys below
     all starts, and those of a range whose value is the invalid one, keep what the trie held.
     */
    method BuildLpm(lpm: Lpm) returns (ok: bool, ghost entries: seq<Entry>)
      requires Valid() && lpm.Valid() && lpm.b == 256 && lpm.n == radix.n
      modifies lpm`pages, lpm`path, lpm`chunksLeft
      ensures lpm.Valid()
      ensures IsWalk(entries)
      ensures ok ==> Compiled(old(lpm.T()), lpm.T(), entries, values, |entries|)
      ensures !ok ==> lpm.chunksLeft == 0
    {
      var list := radix.Walk();
      entries := list;
      assert IsWalk(entries);
      ok := CompileList(lpm, list);
    }

    /** `entries` lists the stored range starts in ascending order with their value positions. */
    ghost predicate IsWalk(entries: seq<Entry>)
      requires Valid()
      reads this, radix
    {
      && Sorted(entries)
      && (forall i | 0 <= i < |entries| ::
            IsKey(256, radix.n, entries[i].key) && LastAt(starts, Val(256, entries[i].key)) == entries[i].value < |values|)
      && (forall k | IsKey(256, radix.n, k) && LastAt(starts, Val(256, k)) >= 0 :: Has(entries, k))
    }
  }

  lemma {:induction false} LastKeys(n: nat)
    ensures forall k | IsKey(256, n, k) :: Val(256, k) <= Val(256, Pad([], n, 255))
  {
    forall k | IsKey(256, n, k)
      ensures Val(256, k) <= Val(256, Pad([], n, 255))
    {
      LastKey(n, k);
    }
  }

  lemma {:induction false} LastKey(n: nat, k: Key)
    requires IsKey(256, n, k)
    ensures Val(256, k) <= Val(256, Pad([], n, 255))
  {
    PadBounds(256, k, 0);
    assert k[..0] == [];
  }
}
