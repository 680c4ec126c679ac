/**
 The remap table of common/remap.h with the cells it serves: what touching does to keys and cells, as values.
 */
module RemapRep {
  const INVALID: nat := 0xffff_ffff

  datatype Item = Item(count: nat, gen: nat, value: nat)

  /** Keys, the cells that hold keys, and the generations each cell was touched in. */
  datatype Rep = Rep(gen: nat, items: seq<Item>, cells: seq<nat>, hist: seq<set<nat>>)

  ghost function Count(cells: seq<nat>, k: nat): nat {
    if |cells| == 0 then 0 else Count(cells[..|cells| - 1], k) + if cells[|cells| - 1] == k then 1 else 0
  }

  lemma {:induction false} CountUpdate(cells: seq<nat>, a: nat, v: nat, k: nat)
    requires a < |cells|
    ensures Count(cells[a := v], k) + (if cells[a] == k then 1 else 0) == Count(cells, k) + if v == k then 1 else 0
    ensures cells[a] == k ==> Count(cells, k) > 0
    decreases |cells|
  {
    var n := |cells| - 1;
    if a == n {
      assert cells[a := v][..n] == cells[..n];
    } else {
      assert cells[a := v][..n] == cells[..n][a := v];
      CountUpdate(cells[..n], a, v, k);
    }
  }

  lemma {:induction false} CountHeld(cells: seq<nat>, k: nat)
    ensures Count(cells, k) > 0 <==> k in cells
    decreases |cells|
  {
    if |cells| > 0 {
      var n := |cells| - 1;
      CountHeld(cells[..n], k);
      assert cells == cells[..n] + [cells[n]];
    }
  }

  lemma {:induction false} CountAll(cells: seq<nat>, k: nat)
    requires forall a | 0 <= a < |cells| :: cells[a] == k
    ensures Count(cells, k) == |cells|
    decreases |cells|
  {
    if |cells| > 0 {
      CountAll(cells[..|cells| - 1], k);
    }
  }

  // ---- the invariant ----

  ghost predicate Shape(r: Rep) {
    && |r.hist| == |r.cells| && |r.items| > 0
    && (forall a | 0 <= a < |r.cells| :: r.cells[a] < |r.items| && forall g | g in r.hist[a] :: g <= r.gen)
    && forall k | 0 <= k < |r.items| :: r.items[k].gen <= r.gen
  }

  /** The reference count of a key is the number of cells that hold it. */
  ghost predicate Counted(r: Rep, k: nat)
    requires k < |r.items|
  {
    r.items[k].count == Count(r.cells, k)
  }

  /** Two cells hold the same key exactly when they were touched in the same generations. */
  ghost predicate Separates(r: Rep, a: nat, b: nat)
    requires Shape(r) && a < |r.cells| && b < |r.cells|
  {
    r.cells[a] == r.cells[b] <==> r.hist[a] == r.hist[b]
  }

  /** A cell touched in this generation holds a key that maps to itself. */
  ghost predicate Settled(r: Rep, a: nat)
    requires Shape(r) && a < |r.cells|
  {
    r.gen in r.hist[a] ==> r.items[r.cells[a]].gen == r.gen && r.items[r.cells[a]].value == r.cells[a]
  }

  /** The key of a cell not yet touched in this generation has been touched in it, through another cell. */
  ghost predicate Moving(r: Rep, a: nat)
    requires Shape(r) && a < |r.cells|
  {
    r.gen !in r.hist[a] && r.items[r.cells[a]].gen == r.gen
  }

  /** Then its new value is held, and by exactly the cells that were touched along with this one until now. */
  ghost predicate Leads(r: Rep, a: nat, b: nat)
    requires Shape(r) && a < |r.cells| && b < |r.cells|
  {
    r.gen !in r.hist[a] ==>
      if Moving(r, a)
      then r.cells[b] == r.items[r.cells[a]].value <==> r.hist[b] == r.hist[a] + {r.gen}
      else r.hist[b] != r.hist[a] + {r.gen}
  }

  ghost predicate Held(r: Rep, a: nat)
    requires Shape(r) && a < |r.cells|
  {
    Moving(r, a) ==> r.items[r.cells[a]].value in r.cells
  }

  ghost predicate Inv(r: Rep) {
    && Shape(r)
    && (forall k {:trigger Counted(r, k)} | 0 <= k < |r.items| :: Counted(r, k))
    && (forall a, b {:trigger Separates(r, a, b)} | 0 <= a < |r.cells| && 0 <= b < |r.cells| :: Separates(r, a, b))
    && (forall a {:trigger Settled(r, a)} | 0 <= a < |r.cells| :: Settled(r, a))
    && (forall a {:trigger Held(r, a)} | 0 <= a < |r.cells| :: Held(r, a))
    && forall a, b {:trigger Leads(r, a, b)} | 0 <= a < |r.cells| && 0 <= b < |r.cells| :: Leads(r, a, b)
  }

  // ---- touching ----

  /** A new key for a key not touched in this generation. */
  ghost function Renewed(items: seq<Item>, gen: nat, k: nat): seq<Item>
    requires k < |items|
  {
    if items[k].gen == gen then items
    else items[k := items[k].(gen := gen, value := |items|)] + [Item(0, 0, 0)]
  }

  /** One reference moved from `k` to its value; a key left without references links into the free list. */
  ghost function Shifted(items: seq<Item>, gen: nat, k: nat, link: nat): seq<Item>
    requires k < |items| && items[k].value < |items| && (items[k].value != k ==> items[k].count > 0)
  {
    var v := items[k].value;
    var up := items[v := Item(items[v].count + 1, gen, v)];
    var down := up[k].(count := up[k].count - 1);
    up[k := if down.count == 0 then down.(value := link) else down]
  }

  /** The value of a key once it has been touched. */
  ghost function Target(r: Rep, a: nat): nat
    requires Shape(r) && a < |r.cells|
  {
    if r.items[r.cells[a]].gen == r.gen then r.items[r.cells[a]].value else |r.items|
  }

  ghost predicate CanTouch(r: Rep, a: nat) {
    Shape(r) && a < |r.cells| && Target(r, a) <= |r.items| && r.items[r.cells[a]].count > 0
    && (r.items[r.cells[a]].gen == r.gen ==> Target(r, a) < |r.items|)
  }

  /** Cell `a` touched. */
  ghost function Touched(r: Rep, a: nat, link: nat): Rep
    requires CanTouch(r, a)
  {
    Rep(r.gen, Shifted(Renewed(r.items, r.gen, r.cells[a]), r.gen, r.cells[a], link),
        r.cells[a := Target(r, a)], r.hist[a := r.hist[a] + {r.gen}])
  }

  lemma {:induction false} TouchPossible(r: Rep, a: nat)
    requires Inv(r) && a < |r.cells|
    ensures CanTouch(r, a)
  {
    assert Counted(r, r.cells[a]);
    CountUpdate(r.cells, a, 0, r.cells[a]);
    assert Settled(r, a) && Held(r, a);
  }

  /** Touching a cell twice in a generation is touching it once. */
  lemma {:induction false} TouchAgain(r: Rep, a: nat, link: nat)
    requires Inv(r) && a < |r.cells| && r.gen in r.hist[a] && CanTouch(r, a)
    ensures Touched(r, a, link) == r
  {
    assert Settled(r, a);
    assert r.hist[a] + {r.gen} == r.hist[a];
  }

  /** The first touch of a cell in a generation. */
  ghost predicate FirstTouch(r: Rep, a: nat) {
    Inv(r) && a < |r.cells| && r.gen !in r.hist[a] && CanTouch(r, a) && Target(r, a) != r.cells[a]
  }

  lemma {:induction false} FirstTouchMoves(r: Rep, a: nat)
    requires Inv(r) && a < |r.cells| && r.gen !in r.hist[a]
    ensures FirstTouch(r, a)
  {
    TouchPossible(r, a);
    assert Leads(r, a, a);
  }

  /** The cells that now hold the value are those touched along with `a`. */
  lemma {:induction false} TargetHolders(r: Rep, a: nat, b: nat)
    requires FirstTouch(r, a) && b < |r.cells|
    ensures r.cells[b] == Target(r, a) <==> r.hist[b] == r.hist[a] + {r.gen}
    ensures r.cells[b] == r.cells[a] <==> r.hist[b] == r.hist[a]
  {
    assert Leads(r, a, b) && Separates(r, b, a);
  }

  lemma {:induction false} SameUnion(x: set<nat>, y: set<nat>, g: nat)
    requires g !in x && g !in y
    ensures x + {g} == y + {g} <==> x == y
  {
    if x + {g} == y + {g} {
      assert (x + {g}) - {g} == x && (y + {g}) - {g} == y;
    }
  }

  lemma {:induction false} ItemAfter(r: Rep, a: nat, link: nat, j: nat)
    requires FirstTouch(r, a)
    ensures var r', k, v := Touched(r, a, link), r.cells[a], Target(r, a);
            && |r'.items| == (if v == |r.items| then v + 1 else |r.items|)
            && (j < |r'.items| ==>
                  if j == k then r'.items[j].count == r.items[k].count - 1 && r'.items[j].gen == r.gen &&
                                 (r'.items[j].count > 0 ==> r'.items[j].value == v)
                  else if j == v then r'.items[j] == Item((if v == |r.items| then 0 else r.items[v].count) + 1, r.gen, v)
                  else j < |r.items| && r'.items[j] == r.items[j])
  {
  }

  lemma {:induction false} ShapeAfter(r: Rep, a: nat, link: nat)
    requires FirstTouch(r, a)
    ensures Shape(Touched(r, a, link))
  {
    var r' := Touched(r, a, link);
    ItemAfter(r, a, link, 0);
    forall k | 0 <= k < |r'.items|
      ensures r'.items[k].gen <= r'.gen
    {
      ItemAfter(r, a, link, k);
    }
  }

  lemma {:induction false} CountedAfter(r: Rep, a: nat, link: nat, j: nat)
    requires FirstTouch(r, a) && j < |Touched(r, a, link).items|
    ensures Counted(Touched(r, a, link), j)
  {
    ItemAfter(r, a, link, j);
    CountUpdate(r.cells, a, Target(r, a), j);
    if j < |r.items| {
      assert Counted(r, j);
    } else {
      CountHeld(r.cells, j);
    }
  }

  lemma {:induction false} SettledAfter(r: Rep, a: nat, link: nat, b: nat)
    requires FirstTouch(r, a) && b < |r.cells| && Shape(Touched(r, a, link))
    ensures Settled(Touched(r, a, link), b)
  {
    assert Settled(r, b);
    TargetHolders(r, a, b);
    ItemAfter(r, a, link, Touched(r, a, link).cells[b]);
  }

  /** How the key of an untouched cell stands afterwards. */
  lemma {:induction false} MovingAfter(r: Rep, a: nat, link: nat, b: nat)
    requires FirstTouch(r, a) && b < |r.cells| && Shape(Touched(r, a, link)) && b != a && r.gen !in r.hist[b]
    ensures r.cells[b] == r.cells[a] ==>
              Moving(Touched(r, a, link), b) && Touched(r, a, link).items[r.cells[b]].value == Target(r, a)
    ensures r.cells[b] != r.cells[a] ==>
              Touched(r, a, link).items[r.cells[b]] == r.items[r.cells[b]] && Moving(Touched(r, a, link), b) == Moving(r, b)
  {
    var r' := Touched(r, a, link);
    TargetHolders(r, a, b);
    ItemAfter(r, a, link, r.cells[b]);
    CountedAfter(r, a, link, r.cells[b]);
    CountHeld(r'.cells, r.cells[b]);
    assert r'.cells[b] == r.cells[b];
  }

  /** Different keys have different values in a generation. */
  lemma {:induction false} TargetsDiffer(r: Rep, a: nat, b: nat)
    requires FirstTouch(r, a) && b < |r.cells| && Moving(r, b) && r.cells[b] != r.cells[a]
    ensures r.items[r.cells[b]].value != Target(r, a)
  {
    assert Held(r, b);
    var v := r.items[r.cells[b]].value;
    var d :| 0 <= d < |r.cells| && r.cells[d] == v;
    assert Leads(r, b, d);
    TargetHolders(r, a, d);
    TargetHolders(r, a, b);
    SameUnion(r.hist[a], r.hist[b], r.gen);
  }

  lemma {:induction false} HeldAfter(r: Rep, a: nat, link: nat, b: nat)
    requires FirstTouch(r, a) && b < |r.cells| && Shape(Touched(r, a, link))
    ensures Held(Touched(r, a, link), b)
  {
    var r' := Touched(r, a, link);
    assert r'.cells[a] == Target(r, a);
    if b != a && r.gen !in r.hist[b] {
      MovingAfter(r, a, link, b);
      if r.cells[b] != r.cells[a] && Moving(r, b) {
        assert Held(r, b);
        var v := r.items[r.cells[b]].value;
        var d :| 0 <= d < |r.cells| && r.cells[d] == v;
        assert Leads(r, b, d);
        assert r'.cells[d] == v;
      }
    }
  }

  lemma {:induction false} LeadsAfter(r: Rep, a: nat, link: nat, b: nat, c: nat)
    requires FirstTouch(r, a) && b < |r.cells| && c < |r.cells| && Shape(Touched(r, a, link))
    ensures Leads(Touched(r, a, link), b, c)
  {
    if b != a && r.gen !in r.hist[b] {
      MovingAfter(r, a, link, b);
      TargetHolders(r, a, c);
      TargetHolders(r, a, b);
      SameUnion(r.hist[a], r.hist[b], r.gen);
      assert Leads(r, b, c);
      if r.cells[b] != r.cells[a] && Moving(r, b) {
        TargetsDiffer(r, a, b);
      }
    }
  }

  lemma {:induction false} SeparatesAfter(r: Rep, a: nat, link: nat, b: nat, c: nat)
    requires FirstTouch(r, a) && b < |r.cells| && c < |r.cells| && Shape(Touched(r, a, link))
    ensures Separates(Touched(r, a, link), b, c)
  {
    assert Separates(r, b, c);
    TargetHolders(r, a, b);
    TargetHolders(r, a, c);
  }

  /** Touching any cell, at any time, keeps the whole invariant. */
  lemma {:induction false} TouchKeeps(r: Rep, a: nat, link: nat)
    requires Inv(r) && a < |r.cells|
    ensures CanTouch(r, a) && Inv(Touched(r, a, link))
  {
    TouchPossible(r, a);
    if r.gen in r.hist[a] {
      TouchAgain(r, a, link);
    } else {
      FirstTouchMoves(r, a);
      FirstTouchKeeps(r, a, link);
    }
  }

  lemma {:induction false} FirstTouchKeeps(r: Rep, a: nat, link: nat)
    requires FirstTouch(r, a)
    ensures Inv(Touched(r, a, link))
  {
    var r' := Touched(r, a, link);
    ShapeAfter(r, a, link);
    forall k | 0 <= k < |r'.items|
      ensures Counted(r', k)
    {
      CountedAfter(r, a, link, k);
    }
    forall b, c | 0 <= b < |r'.cells| && 0 <= c < |r'.cells|
      ensures Separates(r', b, c) && Leads(r', b, c)
    {
      SeparatesAfter(r, a, link, b, c);
      LeadsAfter(r, a, link, b, c);
    }
    forall b | 0 <= b < |r'.cells|
      ensures Settled(r', b) && Held(r', b)
    {
      SettledAfter(r, a, link, b);
      HeldAfter(r, a, link, b);
    }
  }

  /** A new generation starts with no key touched. */
  lemma {:induction false} NewGenKeeps(r: Rep)
    requires Inv(r)
    ensures Inv(r.(gen := r.gen + 1))
  {
    var r' := r.(gen := r.gen + 1);
    forall k | 0 <= k < |r'.items|
      ensures Counted(r', k)
    {
      assert Counted(r, k);
    }
    forall a, b | 0 <= a < |r'.cells| && 0 <= b < |r'.cells|
      ensures Separates(r', a, b) && Leads(r', a, b)
    {
      assert Separates(r, a, b);
      assert r'.gen !in r.hist[b];
    }
  }
}
