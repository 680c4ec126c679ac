/** The multi-layer firewall-state table (lib/fwstate/fwtable.h). */
module FwTables {
  import opened FwOps
  import opened FwMapRep
  import opened FwMaps
  import opened FwLayers

  /** The objects a map keeps its state in. */
  ghost function Cells(m: FwMap): set<object> {
    {m, m.slots, m.next, m.keys, m.values, m.counters}
  }

  /** An fwmap together with its `next` link. */
  class Layer {
    const fwmap: FwMap
    var next: Layer?

    ghost function Footprint(): set<object> {
      Cells(fwmap)
    }

    constructor (fwmap: FwMap, next: Layer?)
      ensures this.fwmap == fwmap && this.next == next
    {
      this.fwmap := fwmap;
      this.next := next;
    }
  }

  /** The map is well formed and stores exactly `c`. */
  ghost predicate Shows(l: Layer, c: Content)
    reads l.Footprint()
  {
    l.fwmap.Valid() && forall k {:trigger c(k)} :: c(k) == l.fwmap.Lookup(k)
  }

  /** Following `next` from `first` gives the list, and ends. */
  ghost predicate Linked(first: Layer?, list: seq<Layer>)
    reads list
  {
    && first == (if |list| == 0 then null else list[0])
    && (|list| > 0 ==> list[|list| - 1].next == null)
    && forall i, j | 0 <= i < |list| && j == i + 1 < |list| :: list[i].next == list[j]
  }

  /** Two layers share no state. */
  ghost predicate Separate(a: Layer, b: Layer) {
    a != b && a.Footprint() !! b.Footprint()
  }

  ghost predicate Distinct(list: seq<Layer>) {
    forall i, j {:trigger Separate(list[i], list[j])} | 0 <= i < j < |list| :: Separate(list[i], list[j])
  }

  ghost predicate Apart(m: FwMap, list: seq<Layer>) {
    forall i | 0 <= i < |list| :: Cells(m) !! list[i].Footprint()
  }

  /** No layer or table object is among a set of map objects. */
  ghost predicate MapsOnly(owned: set<object>) {
    forall o | o in owned :: !(o is Layer) && !(o is FwTable)
  }

  /** Each layer keeps its state within `owned` and stores its content. */
  ghost predicate Displays(list: seq<Layer>, cs: seq<Content>, owned: set<object>)
    reads owned
  {
    && |cs| == |list|
    && (forall i {:trigger list[i].Footprint()} | 0 <= i < |list| :: list[i].Footprint() <= owned)
    && forall i {:trigger Shows(list[i], cs[i])} | 0 <= i < |list| :: Shows(list[i], cs[i])
  }

  lemma {:induction false} PrependLinked(l: Layer, list: seq<Layer>)
    requires Linked(l.next, list)
    ensures Linked(l, [l] + list)
  {
    var all := [l] + list;
    assert |list| > 0 ==> all[1] == list[0] && all[|list|] == list[|list| - 1];
    forall i, j | 0 <= i < |all| && j == i + 1 < |all|
      ensures all[i].next == all[j]
    {
      if i > 0 {
        assert all[i] == list[i - 1] && all[j] == list[j - 1];
      }
    }
  }

  lemma {:induction false} PrependDistinct(l: Layer, list: seq<Layer>)
    requires Distinct(list) && l !in list && Apart(l.fwmap, list)
    ensures Distinct([l] + list)
  {
    var all := [l] + list;
    forall i, j | 0 <= i < j < |all|
      ensures Separate(all[i], all[j])
    {
      if i == 0 {
        assert all[j] == list[j - 1] && list[j - 1] in list;
      } else {
        assert Separate(list[i - 1], list[j - 1]);
      }
    }
  }

  lemma {:induction false} PrependDisplays(l: Layer, c: Content, list: seq<Layer>, cs: seq<Content>, owned: set<object>)
    requires Displays(list, cs, owned) && Shows(l, c)
    ensures Displays([l] + list, [c] + cs, owned + l.Footprint())
  {
    var all, cs' := [l] + list, [c] + cs;
    forall i | 0 <= i < |all|
      ensures all[i].Footprint() <= owned + l.Footprint() && Shows(all[i], cs'[i])
    {
      if i > 0 {
        assert list[i - 1].Footprint() <= owned && Shows(list[i - 1], cs[i - 1]);
      }
    }
  }

  /** The layers below the first keep clear of its state. */
  lemma {:induction false} TailDisplays(list: seq<Layer>, rest: seq<Layer>, cs: seq<Content>, owned: set<object>)
    requires |list| > 0 && Distinct(list + rest) && Displays(list, cs, owned)
    ensures Displays(list[1..], cs[1..], owned - list[0].Footprint())
  {
    forall i | 0 <= i < |list[1..]|
      ensures list[1..][i].Footprint() <= owned - list[0].Footprint() && Shows(list[1..][i], cs[1..][i])
    {
      assert Separate((list + rest)[0], (list + rest)[i + 1]);
      assert Shows(list[i + 1], cs[i + 1]);
    }
  }

  /** What a layer stores, as a value. */
  ghost function ContentOf(l: Layer): (c: Content)
    reads l.Footprint()
    ensures l.fwmap.Valid() ==> Shows(l, c)
  {
    var h, r := l.fwmap.home, l.fwmap.R();
    k => if Inv(h, r) then Find(h, r, k) else None
  }

  /** The entry of a layer for `key`, awaiting its value. */
  ghost predicate Awaiting(l: Layer, key: Key, idx: nat, d: nat)
    reads l.Footprint()
  {
    var r := l.fwmap.R();
    l.fwmap.Valid() && key in r.spot && Holds(r, key) && SlotOf(r, key).idx == idx && SlotOf(r, key).deadline == d && idx < |r.values|
  }

  /** The layer has no place for the key. */
  ghost predicate NoPlace(l: Layer, key: Key, now: nat)
    reads l.Footprint()
  {
    Full(l.fwmap.home, l.fwmap.R(), key, now)
  }

  /** Every other key looks the same from `now` on. */
  ghost predicate Untouched(c: Content, c': Content, key: Key, now: nat) {
    forall k, t: nat {:trigger Alive(c'(k), t)} | k != key && t >= now :: Alive(c'(k), t) == Alive(c(k), t)
  }

  /** fwmap_entry on one layer. */
  method Enter(l: Layer, ghost c: Content, worker: nat, now: nat, ttl: nat, key: Key)
    returns (ok: bool, idx: nat, empty: bool, ghost c': Content)
    requires Shows(l, c) && worker < l.fwmap.counters.Length && now + ttl > 0
    modifies l.Footprint()
    ensures Shows(l, c') && ok == !old(NoPlace(l, key, now))
    ensures ok ==> Awaiting(l, key, idx, now + ttl) && Untouched(c, c', key, now)
    ensures ok ==> empty == Alive(c(key), now).None?
    ensures ok && !empty ==> l.fwmap.values[idx] == c(key).value.value
    ensures !ok ==> SameContent(c, c')
  {
    assert c(key) == l.fwmap.Lookup(key);
    ghost var r := l.fwmap.R();
    ok, idx, empty := l.fwmap.Entry(worker, now, ttl, key);
    c' := ContentOf(l);
  }

  /** The value written into an entry. */
  method Write(l: Layer, ghost c: Content, key: Key, idx: nat, w: Value, ghost d: nat)
    returns (ghost c': Content)
    requires Shows(l, c) && Awaiting(l, key, idx, d)
    modifies l.fwmap.values
    ensures Shows(l, c')
    ensures c'(key) == Some(Cell(w, d)) && forall k | k != key :: c'(k) == c(k)
  {
    l.fwmap.WriteValue(key, idx, w);
    c' := ContentOf(l);
  }

  /** fwmap_config: what a new map is built from. */
  datatype Config = Config(home: Key -> Home, buckets: nat, extra: nat, size: nat, workers: nat)

  ghost predicate ConfigOk(f: Config) {
    f.workers > 0 && forall k :: f.home(k).bucket < f.buckets && f.home(k).sig > 0
  }

  /** fwmap_new, with the link to the previous head. */
  method NewLayer(f: Config, first: Layer?) returns (layer: Layer)
    requires ConfigOk(f)
    ensures fresh(layer) && fresh(layer.Footprint()) && layer.next == first && Shows(layer, k => None)
    ensures layer.fwmap.counters.Length == f.workers
  {
    var m := new FwMap(f.home, f.buckets, f.extra, f.size, f.workers);
    layer := new Layer(m, first);
  }

  /** A new active layer in front of a chain. */
  method NewHead(f: Config, first: Layer?, ghost list: seq<Layer>, ghost rest: seq<Layer>, ghost cs: seq<Content>,
                 ghost owned: set<object>)
    returns (layer: Layer)
    requires ConfigOk(f) && Linked(first, list) && Distinct(list + rest) && Displays(list, cs, owned)
    ensures fresh(layer) && fresh(layer.Footprint())
    ensures Linked(layer, [layer] + list) && Distinct([layer] + (list + rest))
    ensures Displays([layer] + list, [k => None] + cs, owned + layer.Footprint())
  {
    layer := NewLayer(f, first);
    PrependLinked(layer, list);
    PrependDistinct(layer, list + rest);
    PrependDisplays(layer, k => None, list, cs, owned);
  }

  /** One layer's part of a lookup. */
  method Probe(l: Layer, ghost c: Content, now: nat, key: Key) returns (hit: bool, value: Value, deadline: nat)
    requires Shows(l, c)
    ensures hit <==> Alive(c(key), now).Some?
    ensures hit ==> c(key) == Some(Cell(value, deadline))
  {
    hit, value, deadline := l.fwmap.Get(now, key);
  }

  lemma {:induction false} NextLinked(first: Layer?, list: seq<Layer>, i: nat)
    requires Linked(first, list) && i < |list|
    ensures list[i].next == null <==> i + 1 == |list|
    ensures i + 1 < |list| ==> list[i].next == list[i + 1]
  {
    assert i + 1 < |list| ==> list[i].next == list[i + 1];
  }

  lemma {:induction false} NextVisible(cs: seq<Content>, i: nat, key: Key, now: nat)
    requires i < |cs|
    ensures Visible(cs[i..], key, now) ==
              if Alive(cs[i](key), now).Some? then cs[i](key)
              else if i + 1 == |cs| then None
              else Visible(cs[i + 1..], key, now)
  {
    assert cs[i..][1..] == cs[i + 1..];
  }

  /** fwtable_lookup_internal: the probe of `start`, then of each older layer. */
  method LookupFrom(start: Layer, now: nat, key: Key, ghost list: seq<Layer>, ghost cs: seq<Content>,
                    ghost owned: set<object>)
    returns (hit: bool, value: Value, deadline: nat, fromStale: bool)
    requires Linked(start, list) && Displays(list, cs, owned)
    ensures Visible(cs, key, now) == if hit then Some(Cell(value, deadline)) else None
    ensures fromStale == Alive(cs[0](key), now).None?
  {
    assert list[0].Footprint() <= owned && Shows(list[0], cs[0]);
    hit, value, deadline := Probe(start, cs[0], now, key);
    fromStale := !hit;
    ghost var i := 0;
    var layer := start;
    assert cs[0..] == cs;
    while !hit && layer.next != null
      invariant 0 <= i < |list| && layer == list[i]
      invariant Visible(cs, key, now) == Visible(cs[i..], key, now)
      invariant hit <==> Alive(cs[i](key), now).Some?
      invariant hit ==> cs[i](key) == Some(Cell(value, deadline))
      decreases |list| - i, !hit
    {
      NextLinked(start, list, i);
      NextVisible(cs, i, key, now);
      layer := layer.next;
      i := i + 1;
      assert list[i].Footprint() <= owned && Shows(list[i], cs[i]);
      hit, value, deadline := Probe(layer, cs[i], now, key);
    }
    NextLinked(start, list, i);
    NextVisible(cs, i, key, now);
  }

  lemma {:induction false} TailLinked(first: Layer?, list: seq<Layer>)
    requires Linked(first, list) && |list| > 0
    ensures Linked(list[0].next, list[1..])
  {
    var tail := list[1..];
    forall i, j | 0 <= i < |tail| && j == i + 1 < |tail|
      ensures tail[i].next == tail[j]
    {
      assert list[i + 1].next == list[j + 1];
    }
    NextLinked(first, list, 0);
  }

  lemma {:induction false} InsertedValue(cs: seq<Content>, key: Key, now: nat, v: Value, prev: Value)
    requires |cs| > 0
    ensures Alive(cs[0](key), now).Some? && cs[0](key).value.value == prev ==>
              Update(prev, v, false) == Joined(v, Visible(cs, key, now), now)
    ensures Alive(cs[0](key), now).None? && Visible(cs[1..], key, now).None? ==>
              Update(prev, v, true) == Joined(v, Visible(cs, key, now), now)
    ensures Alive(cs[0](key), now).None? && Visible(cs[1..], key, now).Some? && Visible(cs[1..], key, now).value.value == prev ==>
              Promote(v, prev) == Joined(v, Visible(cs, key, now), now)
  {
    UpdateIsPromote(v, prev);
    VisibleIsAlive(cs[1..], key, now);
  }

  /** The value fwtable_insert stores for an entry of the active layer. */
  method NewValue(active: Layer, now: nat, key: Key, v: Value, idx: nat, empty: bool,
                  ghost list: seq<Layer>, ghost cs: seq<Content>, ghost owned: set<object>)
    returns (w: Value)
    requires |list| > 0 && |cs| == |list| && Linked(active, list) && Displays(list[1..], cs[1..], owned)
    requires idx < active.fwmap.values.Length && empty == Alive(cs[0](key), now).None?
    requires !empty ==> active.fwmap.values[idx] == cs[0](key).value.value
    ensures w == Joined(v, Visible(cs, key, now), now)
  {
    var prev := active.fwmap.values[idx];
    InsertedValue(cs, key, now, v, prev);
    NextLinked(active, list, 0);
    if empty && active.next != null {
      TailLinked(active, list);
      var hit, old', deadline, fromStale := LookupFrom(active.next, now, key, list[1..], cs[1..], owned);
      InsertedValue(cs, key, now, v, old');
      if hit {
        return Promote(v, old');
      }
    }
    return Update(prev, v, empty);
  }

  /** The new value of an entry, computed and written. */
  method Fill(active: Layer, now: nat, key: Key, v: Value, idx: nat, empty: bool, ghost d: nat, ghost mid: Content,
              ghost list: seq<Layer>, ghost cs: seq<Content>, ghost owned: set<object>)
    returns (ghost c: Content)
    requires |list| > 0 && |cs| == |list| && Linked(active, list) && Displays(list[1..], cs[1..], owned)
    requires Shows(active, mid) && Awaiting(active, key, idx, d) && empty == Alive(cs[0](key), now).None?
    requires !empty ==> active.fwmap.values[idx] == cs[0](key).value.value
    modifies active.fwmap.values
    ensures Shows(active, c)
    ensures c(key) == Some(Cell(Joined(v, Visible(cs, key, now), now), d)) && forall k | k != key :: c(k) == mid(k)
  {
    var w := NewValue(active, now, key, v, idx, empty, list, cs, owned);
    c := Write(active, mid, key, idx, w, d);
  }

  lemma {:induction false} FilledIsStored(c: Content, mid: Content, c': Content, key: Key, w: Value, now: nat, d: nat)
    requires Untouched(c, mid, key, now) && c'(key) == Some(Cell(w, d)) && forall k | k != key :: c'(k) == mid(k)
    ensures Stored(c, c', key, w, now, d)
  {
    forall k, t: nat {:trigger Alive(c'(k), t)} | k != key && t >= now
      ensures Alive(c'(k), t) == Alive(c(k), t)
    {
      assert Alive(mid(k), t) == Alive(c(k), t);
    }
  }

  /** fwtable_insert into the active layer, whose state is apart from that of the layers below. */
  method InsertAbove(active: Layer, worker: nat, now: nat, ttl: nat, key: Key, v: Value,
                     ghost list: seq<Layer>, ghost cs: seq<Content>, ghost below: set<object>)
    returns (ok: bool, ghost c: Content)
    requires |list| > 0 && |cs| == |list| && Linked(active, list) && Shows(active, cs[0])
    requires Displays(list[1..], cs[1..], below) && below !! active.Footprint() && MapsOnly(below + active.Footprint())
    requires worker < active.fwmap.counters.Length && now + ttl > 0
    modifies active.Footprint()
    ensures Shows(active, c) && Displays(list[1..], cs[1..], below)
    ensures ok == !old(NoPlace(active, key, now))
    ensures ok ==> Stored(cs[0], c, key, Joined(v, Visible(cs, key, now), now), now, now + ttl)
    ensures !ok ==> SameContent(cs[0], c)
  {
    var idx, empty;
    ghost var mid;
    ok, idx, empty, mid := Enter(active, cs[0], worker, now, ttl, key);
    c := mid;
    if ok {
      c := Fill(active, now, key, v, idx, empty, now + ttl, mid, list, cs, below);
      FilledIsStored(cs[0], mid, c, key, Joined(v, Visible(cs, key, now), now), now, now + ttl);
    }
  }

  /** fwtable_insert on a chain that has an active layer. */
  method InsertActive(active: Layer, worker: nat, now: nat, ttl: nat, key: Key, v: Value,
                      ghost list: seq<Layer>, ghost rest: seq<Layer>, ghost cs: seq<Content>, ghost owned: set<object>)
    returns (ok: bool, ghost c: Content)
    requires |list| > 0 && Linked(active, list) && Distinct(list + rest) && Displays(list, cs, owned) && MapsOnly(owned)
    requires worker < active.fwmap.counters.Length && now + ttl > 0
    modifies active.Footprint()
    ensures Shows(active, c) && Displays(list[1..], cs[1..], owned - active.Footprint())
    ensures ok == !old(NoPlace(active, key, now))
    ensures ok ==> Stored(cs[0], c, key, Joined(v, Visible(cs, key, now), now), now, now + ttl)
    ensures !ok ==> SameContent(cs[0], c)
  {
    assert list[0].Footprint() <= owned && Shows(list[0], cs[0]);
    TailDisplays(list, rest, cs, owned);
    ok, c := InsertAbove(active, worker, now, ttl, key, v, list, cs, owned - active.Footprint());
  }

  lemma {:induction false} HeadDisplays(c: Content, list: seq<Layer>, cs: seq<Content>, owned: set<object>)
    requires |list| == |cs| > 0 && list[0].Footprint() <= owned
    requires Shows(list[0], c) && Displays(list[1..], cs[1..], owned - list[0].Footprint())
    ensures Displays(list, cs[0 := c], owned)
  {
    PrependDisplays(list[0], c, list[1..], cs[1..], owned - list[0].Footprint());
    assert [list[0]] + list[1..] == list && [c] + cs[1..] == cs[0 := c];
    assert (owned - list[0].Footprint()) + list[0].Footprint() == owned;
  }

  lemma {:induction false} InsertedStep(ls: seq<Content>, c: Content, now: nat, ttl: nat, key: Key, v: Value, ok: bool)
    requires |ls| > 0
    requires if ok then Stored(ls[0], c, key, Joined(v, Visible(ls, key, now), now), now, now + ttl) else SameContent(ls[0], c)
    ensures Step(ls, FwLayers.Insert(now, ttl, key, v, ok), ls[0 := c])
  {
    assert ls[0 := c][1..] == ls[1..];
  }

  /** fwmap_max_deadline of a layer: nothing in it is live from then on. */
  method LayerMax(l: Layer, ghost c: Content) returns (m: nat)
    requires Shows(l, c)
    ensures m == MaxOf(l.fwmap.counters[..]) && Dead(c, m)
  {
    m := l.fwmap.MaxDeadline();
    forall k
      ensures Alive(c(k), m).None?
    {
      assert Live(l.fwmap.Lookup(k), m).None?;
    }
  }

  /** The loop that finds the oldest layer and the one before it. */
  method LastTwo(first: Layer, ghost list: seq<Layer>) returns (prev: Layer, tail: Layer)
    requires Linked(first, list) && |list| > 1
    ensures prev == list[|list| - 2] && tail == list[|list| - 1]
  {
    NextLinked(first, list, 0);
    prev, tail := first, first.next;
    ghost var i := 1;
    while tail.next != null
      invariant 1 <= i < |list| && prev == list[i - 1] && tail == list[i]
      decreases |list| - i
    {
      NextLinked(first, list, i);
      prev := tail;
      tail := tail.next;
      i := i + 1;
    }
    NextLinked(first, list, i);
  }

  /** The decision part of fwtable_unlink_stale_cp. */
  method ExpiredTail(first: Layer?, now: nat, ghost list: seq<Layer>, ghost cs: seq<Content>, ghost owned: set<object>)
    returns (expired: bool, prev: Layer?, tail: Layer?)
    requires Linked(first, list) && Displays(list, cs, owned)
    ensures expired <==> |list| > 1 && MaxOf(list[|list| - 1].fwmap.counters[..]) <= now
    ensures expired ==> prev == list[|list| - 2] && tail == list[|list| - 1] && Dead(cs[|list| - 1], now)
  {
    if first == null {
      return false, null, null;
    }
    NextLinked(first, list, 0);
    if first.next == null {
      return false, null, null;
    }
    prev, tail := LastTwo(first, list);
    ghost var i := |list| - 1;
    assert list[i].Footprint() <= owned && Shows(list[i], cs[i]);
    var m := LayerMax(tail, cs[i]);
    expired := m <= now;
  }

  /** The link updates that take the oldest layer off the chain and onto the stale list. */
  method MoveTail(prev: Layer, tail: Layer, stale: Layer?, ghost list: seq<Layer>, ghost rest: seq<Layer>)
    requires |list| > 1 && Linked(list[0], list) && Linked(stale, rest) && Distinct(list + rest)
    requires prev == list[|list| - 2] && tail == list[|list| - 1]
    modifies prev, tail
    ensures Linked(list[0], list[..|list| - 1]) && Linked(tail, [tail] + rest)
  {
    ghost var n := |list| - 1;
    forall i | 0 <= i < |list + rest|
      ensures i != n ==> (list + rest)[i] != tail
      ensures i != n - 1 ==> (list + rest)[i] != prev
    {
      assert i < n ==> Separate((list + rest)[i], (list + rest)[n]);
      assert n < i ==> Separate((list + rest)[n], (list + rest)[i]);
      assert i < n - 1 ==> Separate((list + rest)[i], (list + rest)[n - 1]);
      assert n - 1 < i ==> Separate((list + rest)[n - 1], (list + rest)[i]);
    }
    assert forall i | 0 <= i < |rest| :: rest[i] == (list + rest)[|list| + i];
    assert forall i | 0 <= i < |list| :: list[i] == (list + rest)[i];
    prev.next := null;
    tail.next := stale;
    PrependLinked(tail, rest);
  }

  lemma {:induction false} PrefixDisplays(list: seq<Layer>, cs: seq<Content>, owned: set<object>, n: nat)
    requires Displays(list, cs, owned) && n <= |list|
    ensures Displays(list[..n], cs[..n], owned)
  {
    forall i | 0 <= i < n
      ensures list[..n][i].Footprint() <= owned && Shows(list[..n][i], cs[..n][i])
    {
      assert list[i].Footprint() <= owned && Shows(list[i], cs[i]);
    }
  }

  class FwTable {
    var head: Layer?
    var stale: Layer?
    ghost var chain: seq<Layer>
    ghost var parked: seq<Layer>
    ghost var layers: seq<Content>
    ghost var owned: set<object>

    // Compared with `true`, each part is proved as one fact and not clause by clause.
    ghost predicate Valid()
      reads this, chain, parked, owned
    {
      && Linked(head, chain) == true && Linked(stale, parked) == true && Distinct(chain + parked) == true
      && Displays(chain, layers, owned) == true && MapsOnly(owned)
    }

    constructor ()
      ensures Valid() && layers == [] && parked == []
    {
      head, stale, chain, parked, layers, owned := null, null, [], [], [], {};
    }

    /** fwtable_insert_layer_cp; `room` tells whether memory for the layer can be had. */
    method InsertLayer(f: Config, room: bool, ghost now: nat) returns (ok: bool)
      requires Valid() && ConfigOk(f)
      modifies this
      ensures Valid() && ok == room && parked == old(parked)
      ensures if ok then Step(old(layers), AddLayer(now), layers) else layers == old(layers)
    {
      if !room {
        return false;
      }
      var layer := NewHead(f, head, chain, parked, layers, owned);
      assert [layer] + (chain + parked) == ([layer] + chain) + parked;
      head := layer;
      chain := [layer] + chain;
      layers := [k => None] + layers;
      owned := owned + layer.Footprint();
      return true;
    }

    /** fwtable_lookup and fwtable_lookup_with_deadline: what is visible, and whether the active layer has it. */
    method Lookup(now: nat, key: Key) returns (hit: bool, value: Value, deadline: nat, fromStale: bool)
      requires Valid()
      ensures Visible(layers, key, now) == if hit then Some(Cell(value, deadline)) else None
      ensures hit ==> fromStale == Alive(layers[0](key), now).None?
    {
      if head == null {
        return false, EMPTY_VALUE, 0, false;
      }
      hit, value, deadline, fromStale := LookupFrom(head, now, key, chain, layers, owned);
    }

    /**
     fwtable_insert: false when the table is empty or the active layer is full. The value stored is the
     merge with the visible one, whichever layer holds it.
     */
    method Insert(worker: nat, now: nat, ttl: nat, key: Key, v: Value) returns (ok: bool)
      requires Valid() && now + ttl > 0 && (head != null ==> worker < head.fwmap.counters.Length)
      modifies this`layers, owned
      ensures ok == old(head != null && !NoPlace(head, key, now))
      ensures Valid() && Step(old(layers), FwLayers.Insert(now, ttl, key, v, ok), layers)
    {
      if head == null {
        return false;
      }
      ghost var c, cs := layers[0], layers;
      assert chain[0].Footprint() <= owned;
      ok, c := InsertActive(head, worker, now, ttl, key, v, chain, parked, layers, owned);
      HeadDisplays(c, chain, layers, owned);
      InsertedStep(layers, c, now, ttl, key, v, ok);
      layers := layers[0 := c];
    }

    /** The oldest layer goes to the front of the stale list. */
    method Retire(prev: Layer, tail: Layer)
      requires Valid() && |chain| > 1 && prev == chain[|chain| - 2] && tail == chain[|chain| - 1]
      modifies this, chain
      ensures Valid() && layers == old(layers[..|chain| - 1])
      ensures chain == old(chain[..|chain| - 1]) && parked == old([chain[|chain| - 1]] + parked)
    {
      ghost var i := |chain| - 1;
      MoveTail(prev, tail, stale, chain, parked);
      PrefixDisplays(chain, layers, owned, i);
      assert chain[..i] + ([tail] + parked) == chain + parked;
      stale := tail;
      parked := [tail] + parked;
      chain := chain[..i];
      layers := layers[..i];
    }

    /**
     fwtable_unlink_stale_cp: the oldest layer moves to the stale list exactly when there is a newer
     one and all its deadlines have passed.
     */
    method UnlinkStale(now: nat) returns (moved: bool)
      requires Valid()
      modifies this, chain
      ensures Valid() && Step(old(layers), Unlink(now), layers)
      ensures moved <==> old(|chain| > 1 && MaxOf(chain[|chain| - 1].fwmap.counters[..]) <= now)
      ensures if moved then chain == old(chain[..|chain| - 1]) && parked == old([chain[|chain| - 1]] + parked)
              else chain == old(chain) && parked == old(parked)
    {
      var prev, tail;
      moved, prev, tail := ExpiredTail(head, now, chain, layers, owned);
      if moved {
        Retire(prev, tail);
      }
    }
  }
}
