/** Partition refinement: the remap table of common/remap.h serving the value table of common/value.h. */
module Partition {
  import opened Arith
  import opened RemapRep

  const CHUNK_SIZE: nat := 4096

  /** The number of referenced keys before `k`: what compaction renumbers key `k` to. */
  ghost function Rank(items: seq<Item>, k: nat): nat
    requires k <= |items|
  {
    if k == 0 then 0 else Rank(items, k - 1) + if items[k - 1].count > 0 then 1 else 0
  }

  lemma {:induction false} RankGrows(items: seq<Item>, j: nat, k: nat)
    requires j <= k <= |items|
    ensures Rank(items, j) <= Rank(items, k)
    ensures j < k && items[j].count > 0 ==> Rank(items, j) < Rank(items, k)
  {
    if j < k {
      RankGrows(items, j, k - 1);
    }
  }

  /** Every number below the last rank belongs to a referenced key. */
  lemma {:induction false} RankReached(items: seq<Item>, n: nat, k: nat) returns (j: nat)
    requires k <= |items| && n < Rank(items, k)
    ensures j < k && items[j].count > 0 && Rank(items, j) == n
  {
    if n == Rank(items, k - 1) {
      j := k - 1;
    } else {
      j := RankReached(items, n, k - 1);
    }
  }

  ghost function Renumbered(items: seq<Item>, k: nat): nat
    requires k < |items|
  {
    if items[k].count > 0 then Rank(items, k) else INVALID
  }

  class RemapTable {
    var gen: nat
    var items: seq<Item>
    var freeList: nat
    var chunksLeft: nat

    /** What remap_table_init sets up: one key that every cell holds, in the first chunk. */
    constructor (capacity: nat, chunksLeft: nat)
      ensures gen == 1 && items == [Item(capacity, 0, 0)] && this.chunksLeft == chunksLeft
    {
      gen, items, freeList := 1, [Item(capacity, 0, 0)], INVALID;
      this.chunksLeft := chunksLeft;
    }

    method NewGen()
      modifies this`gen
      ensures gen == old(gen) + 1
    {
      gen := gen + 1;
    }

    /** remap_table_new_key: fails only when a new chunk is needed and there is none. */
    method NewKey() returns (ok: bool, key: nat)
      modifies this`items, this`chunksLeft
      ensures ok == old(|items| % CHUNK_SIZE != 0 || chunksLeft > 0)
      ensures ok ==> key == old(|items|) && items == old(items) + [Item(0, 0, 0)]
      ensures !ok ==> items == old(items)
      ensures chunksLeft == old(chunksLeft) - if ok && old(|items|) % CHUNK_SIZE == 0 then 1 else 0
    {
      if |items| % CHUNK_SIZE == 0 {
        if chunksLeft == 0 {
          return false, 0;
        }
        chunksLeft := chunksLeft - 1;
      }
      key := |items|;
      items := items + [Item(0, 0, 0)];
      return true, key;
    }

    /** remap_table_touch: the reference moves to the key's value of this generation, a new key if it has none. */
    method Touch(key: nat) returns (ok: bool, renewed: bool, value: nat)
      requires key < |items| && items[key].count > 0 && (items[key].gen == gen ==> items[key].value < |items|)
      modifies this
      ensures gen == old(gen) && ok == (old(items)[key].gen == gen || old(|items| % CHUNK_SIZE != 0 || chunksLeft > 0))
      ensures !ok ==> items == old(items)
      ensures ok ==> renewed == (old(items)[key].gen != gen)
      ensures ok ==> value == if old(items)[key].gen == gen then old(items)[key].value else old(|items|)
      ensures ok ==> items == Shifted(Renewed(old(items), gen, key), gen, key, old(freeList))
      ensures freeList == if ok && items[key].count == 0 then key else old(freeList)
      ensures chunksLeft == old(chunksLeft) - if ok && renewed && old(|items|) % CHUNK_SIZE == 0 then 1 else 0
    {
      renewed := false;
      if items[key].gen != gen {
        var newKey;
        ok, newKey := NewKey();
        if !ok {
          return false, false, 0;
        }
        items := items[key := items[key].(gen := gen, value := newKey)];
        renewed := true;
      }
      assert items == Renewed(old(items), gen, key);
      value := items[key].value;
      items := items[value := Item(items[value].count + 1, gen, value)];
      items := items[key := items[key].(count := items[key].count - 1)];
      if items[key].count == 0 {
        items := items[key := items[key].(value := freeList)];
        freeList := key;
      }
      ok := true;
    }

    /** remap_table_compact: referenced keys are numbered from 0 up without gaps. */
    method Compact()
      modifies this`items
      ensures |items| == old(|items|)
      ensures forall k | 0 <= k < |items| :: items[k] == old(items)[k].(value := Renumbered(old(items), k))
    {
      ghost var was := items;
      var newKey, low := 0, 0;
      while low < |items|
        invariant 0 <= low <= |items| == |was| && newKey == Rank(was, low)
        invariant forall k | 0 <= k < low :: items[k] == was[k].(value := Renumbered(was, k))
        invariant forall k | low <= k < |items| :: items[k] == was[k]
      {
        if items[low].count > 0 {
          items := items[low := items[low].(value := newKey)];
          newKey := newKey + 1;
        } else {
          items := items[low := items[low].(value := INVALID)];
        }
        low := low + 1;
      }
    }
  }

  /** remap_table_init: without memory for the first chunk there is no table. */
  method Init(capacity: nat, chunks: nat) returns (t: RemapTable?)
    ensures t == null <==> chunks == 0
    ensures t != null ==> t.gen == 1 && t.items == [Item(capacity, 0, 0)] && t.chunksLeft == chunks - 1
  {
    if chunks == 0 {
      return null;
    }
    t := new RemapTable(capacity, chunks - 1);
  }

  class ValueTable {
    const vDim: nat
    const hDim: nat
    var cells: seq<nat>
    ghost var hist: seq<set<nat>>

    /** value_table_init: all cells zero. */
    constructor (vDim: nat, hDim: nat)
      ensures this.vDim == vDim && this.hDim == hDim && |cells| == vDim * hDim == |hist|
      ensures forall a | 0 <= a < |cells| :: cells[a] == 0 && hist[a] == {}
    {
      this.vDim, this.hDim := vDim, hDim;
      cells := seq(vDim * hDim, i => 0);
      hist := seq(vDim * hDim, i => {});
    }

    ghost function Refined(t: RemapTable): Rep
      reads this, t
    {
      Rep(t.gen, t.items, cells, hist)
    }

    /** The table and its remap table fit: see `RemapRep.Inv`. */
    ghost predicate Fits(t: RemapTable)
      reads this, t
    {
      Inv(Refined(t)) && |cells| == vDim * hDim
    }

    /** value_table_get_ptr: the cell at a pair of coordinates. */
    function Index(v: nat, h: nat): (a: nat)
      requires v < vDim && h < hDim
      ensures a < vDim * hDim
    {
      CellIndex(v, h, vDim, hDim);
      v * hDim + h
    }

    /** One cell touched through the remap table, as the classifier does it. */
    method TouchCell(t: RemapTable, v: nat, h: nat) returns (ok: bool)
      requires Fits(t) && v < vDim && h < hDim
      modifies this, t
      ensures Fits(t) && t.gen == old(t.gen)
      ensures old(|t.items| % CHUNK_SIZE != 0 || t.chunksLeft > 0) ==> ok
      ensures hist == if ok then old(hist[Index(v, h) := hist[Index(v, h)] + {t.gen}]) else old(hist)
    {
      ghost var r := Refined(t);
      var a := Index(v, h);
      TouchKeeps(r, a, t.freeList);
      ghost var link := t.freeList;
      var renewed, value;
      ok, renewed, value := t.Touch(cells[a]);
      if ok {
        cells := cells[a := value];
        hist := hist[a := hist[a] + {t.gen}];
        assert Refined(t) == Touched(r, a, link);
      } else {
        assert Refined(t) == r;
      }
    }

    method NewGen(t: RemapTable)
      requires Fits(t)
      modifies t`gen
      ensures Fits(t) && t.gen == old(t.gen) + 1
    {
      NewGenKeeps(Refined(t));
      t.NewGen();
    }

    /** The refinement theorem, as it stands after any sequence of the calls above. */
    lemma {:induction false} EqualIffSameGenerations(t: RemapTable, a: nat, b: nat)
      requires Fits(t) && a < |cells| && b < |cells|
      ensures cells[a] == cells[b] <==> hist[a] == hist[b]
      ensures t.items[cells[a]].count == Count(cells, cells[a]) > 0
    {
      assert Separates(Refined(t), a, b);
      assert Counted(Refined(t), cells[a]);
      CountHeld(cells, cells[a]);
    }

    method CompactCell(t: RemapTable, v: nat, h: nat, ghost before: seq<nat>, ghost was: seq<Item>)
      requires v < vDim && h < hDim && |before| == vDim * hDim && Half(before, cells, was, v * hDim + h)
      requires |t.items| == |was| && forall k | 0 <= k < |was| :: t.items[k] == was[k].(value := Renumbered(was, k))
      modifies this`cells
      ensures Half(before, cells, was, v * hDim + h + 1)
    {
      var a := Index(v, h);
      cells := cells[a := t.items[cells[a]].value];
    }

    /** value_table_compact, after the remap table was compacted from `was`. */
    method Compact(t: RemapTable, ghost was: seq<Item>)
      requires |cells| == vDim * hDim && |t.items| == |was|
      requires forall k | 0 <= k < |was| :: t.items[k] == was[k].(value := Renumbered(was, k))
      requires forall a | 0 <= a < |cells| :: cells[a] < |was|
      modifies this`cells
      ensures |cells| == old(|cells|) && forall a | 0 <= a < |cells| :: cells[a] == Renumbered(was, old(cells)[a])
    {
      ghost var before := cells;
      var v := 0;
      while v < vDim
        invariant 0 <= v <= vDim && Half(before, cells, was, v * hDim)
      {
        var h := 0;
        while h < hDim
          invariant 0 <= h <= hDim && v < vDim && Half(before, cells, was, v * hDim + h)
        {
          CompactCell(t, v, h, before, was);
          h := h + 1;
        }
        assert (v + 1) * hDim == v * hDim + hDim;
        v := v + 1;
      }
    }
  }

  /** The first `n` cells are renumbered, the rest are as before. */
  ghost predicate Half(before: seq<nat>, cells: seq<nat>, items: seq<Item>, n: nat) {
    && |cells| == |before| && (forall a | 0 <= a < |before| :: before[a] < |items|)
    && (forall a | 0 <= a < n && a < |before| :: cells[a] == Renumbered(items, before[a]))
    && forall a | n <= a < |before| :: cells[a] == before[a]
  }

  lemma {:induction false} CellIndex(v: nat, h: nat, vDim: nat, hDim: nat)
    requires v < vDim && h < hDim
    ensures v * hDim + h < vDim * hDim
  {
    RowOrder(v + 1, vDim, hDim);
    assert (v + 1) * hDim == v * hDim + hDim;
  }

  /**
   Compaction keeps which cells are equal, and the numbers left are 0, 1, ... without a gap, as many as
   there are classes.
   */
  lemma {:induction false} CompactionIsDense(r: Rep, cells': seq<nat>, a: nat, b: nat, n: nat) returns (c: nat)
    requires Inv(r) && |cells'| == |r.cells| && a < |cells'| && b < |cells'|
    requires forall x | 0 <= x < |cells'| :: cells'[x] == Renumbered(r.items, r.cells[x])
    ensures cells'[a] == cells'[b] <==> r.hist[a] == r.hist[b]
    ensures cells'[a] < Rank(r.items, |r.items|)
    ensures n < Rank(r.items, |r.items|) ==> c < |cells'| && cells'[c] == n
  {
    assert Separates(r, a, b);
    CellRank(r, a);
    CellRank(r, b);
    if r.cells[a] < r.cells[b] {
      RankGrows(r.items, r.cells[a], r.cells[b]);
    } else if r.cells[b] < r.cells[a] {
      RankGrows(r.items, r.cells[b], r.cells[a]);
    }
    c := 0;
    if n < Rank(r.items, |r.items|) {
      var k := RankReached(r.items, n, |r.items|);
      assert Counted(r, k);
      CountHeld(r.cells, k);
      c :| 0 <= c < |r.cells| && r.cells[c] == k;
    }
  }

  lemma {:induction false} CellRank(r: Rep, a: nat)
    requires Inv(r) && a < |r.cells|
    ensures r.items[r.cells[a]].count > 0 && Rank(r.items, r.cells[a]) < Rank(r.items, |r.items|)
  {
    assert Counted(r, r.cells[a]);
    CountHeld(r.cells, r.cells[a]);
    RankGrows(r.items, r.cells[a], |r.items|);
  }

  /** A new pair of tables fits. */
  lemma {:induction false} StartFits(cells: seq<nat>, hist: seq<set<nat>>)
    requires |hist| == |cells| && forall a | 0 <= a < |cells| :: cells[a] == 0 && hist[a] == {}
    ensures Inv(Rep(1, [Item(|cells|, 0, 0)], cells, hist))
  {
    var r := Rep(1, [Item(|cells|, 0, 0)], cells, hist);
    CountAll(cells, 0);
    assert Counted(r, 0);
    forall a, b | 0 <= a < |cells| && 0 <= b < |cells|
      ensures Leads(r, a, b)
    {
      assert 1 in hist[a] + {1};
    }
  }
}
