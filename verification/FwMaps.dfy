/** One layer of the firewall-state table: the hash map of lib/fwstate/fwmap.h. */
module FwMaps {
  import opened FwOps
  import opened FwMapRep

  /** The value of a cell that has not expired at `t`. */
  ghost function Live(o: Option<Cell>, t: nat): Option<Value> {
    if o.Some? && o.value.deadline > t then Some(o.value.value) else None
  }

  /** Per-worker statistics. */
  datatype Counter = Counter(maxChain: nat, total: nat, maxDeadline: nat)

  ghost function MaxOf(cs: seq<Counter>): nat {
    if |cs| == 0 then 0 else
      var m := MaxOf(cs[..|cs| - 1]);
      if cs[|cs| - 1].maxDeadline > m then cs[|cs| - 1].maxDeadline else m
  }

  ghost function TotalOf(cs: seq<Counter>): nat {
    if |cs| == 0 then 0 else TotalOf(cs[..|cs| - 1]) + cs[|cs| - 1].total
  }

  lemma {:induction false} CounterChange(cs: seq<Counter>, w: nat, c: Counter)
    requires w < |cs| && c.maxDeadline >= cs[w].maxDeadline
    ensures MaxOf(cs[w := c]) == if c.maxDeadline > MaxOf(cs) then c.maxDeadline else MaxOf(cs)
    ensures TotalOf(cs[w := c]) == TotalOf(cs) - cs[w].total + c.total
    ensures cs[w].maxDeadline <= MaxOf(cs) && cs[w].total <= TotalOf(cs)
    decreases |cs|
  {
    var n := |cs| - 1;
    if w < n {
      assert cs[w := c][..n] == cs[..n][w := c];
      CounterChange(cs[..n], w, c);
    } else {
      assert cs[w := c][..n] == cs[..n];
    }
  }

  /** No slot outlives the deadlines recorded by the workers, and they counted every stored key. */
  ghost predicate Counted(slots: seq<Slot>, cursor: nat, cs: seq<Counter>) {
    (forall i | 0 <= i < |slots| :: slots[i].deadline <= MaxOf(cs)) && TotalOf(cs) == cursor
  }

  // ---- searching a chain ----

  /** The first `q` slots of the chain are occupied by other keys. */
  ghost predicate NotBefore<K(!new)>(home: K -> Home, r: Rep<K>, b: nat, key: K, q: nat) {
    && Inv(home, r) && b < r.l.p && q <= r.used[b]
    && forall o | 0 <= o < q :: KeyAt(home, r, b, o) != key
  }

  /** The first slot, among the first `q`, that a new key may take over. */
  ghost predicate RoomBefore<K(!new)>(home: K -> Home, r: Rep<K>, b: nat, now: nat, q: nat, hasRoom: bool, room: nat, at: nat)
    requires Inv(home, r) && b < r.l.p && q <= r.used[b]
  {
    if hasRoom then at < q && room == Ix(r.l, b, at) && r.slots[room].deadline < now
    else forall o | 0 <= o < q :: r.slots[Ix(r.l, b, o)].deadline >= now
  }

  /** A chain searched to its end without finding the key does not hold it. */
  lemma {:induction false} NotFound<K(!new)>(home: K -> Home, r: Rep<K>, b: nat, key: K)
    requires Inv(home, r) && home(key).bucket == b && NotBefore(home, r, b, key, r.used[b])
    ensures key !in r.spot
  {
    if key in r.spot {
      assert Holds(r, key);
      var k := KeyAt(home, r, r.spot[key].chain, r.spot[key].at);
    }
  }

  /** What the slot under the cursor says about the key. */
  lemma {:induction false} SlotCase<K(!new)>(home: K -> Home, r: Rep<K>, b: nat, key: K, q: nat)
    requires Inv(home, r) && InChain(r.l, b, q) && home(key).bucket == b
    ensures var s := r.slots[Ix(r.l, b, q)];
            && (s.deadline == 0 <==> q >= r.used[b]) && (s.sig == 0 <==> q >= r.used[b])
            && (q < r.used[b] ==> s.idx < r.cursor <= |r.keys| && (KeyAt(home, r, b, q) == key <==> s.sig == home(key).sig && r.keys[s.idx] == key))
  {
    assert SlotOk(home, r, b, q);
  }

  lemma {:induction false} SlotIndex(l: Links, b: nat, j: nat, i: nat)
    requires LinksOk(l) && b < l.p && j < |l.chains[b]| && i < 4
    ensures InChain(l, b, 4 * j + i) && Ix(l, b, 4 * j + i) == 4 * l.chains[b][j] + i
  {
  }

  /** The variables of the search: what was found, and the first slot a new key may take. */
  datatype Search = Search(stop: bool, found: bool, slot: nat, hasRoom: bool, room: nat)

  /** Still searching after `q` slots; `at` is the place of the room found so far. */
  ghost predicate Searching<K(!new)>(home: K -> Home, r: Rep<K>, key: K, now: nat, q: nat, s: Search, at: nat) {
    !s.stop && !s.found && NotBefore(home, r, home(key).bucket, key, q) &&
    RoomBefore(home, r, home(key).bucket, now, q, s.hasRoom, s.room, at)
  }

  /** No occupied slot of the chain has expired before `now`. */
  ghost predicate NoneExpired<K(!new)>(home: K -> Home, r: Rep<K>, b: nat, now: nat)
    requires Inv(home, r) && b < r.l.p
  {
    forall o | 0 <= o < r.used[b] :: r.slots[Ix(r.l, b, o)].deadline >= now
  }

  /** There is no place for the key: nothing to take over, and no unused slot or no store index left. */
  ghost predicate Full<K(!new)>(home: K -> Home, r: Rep<K>, key: K, now: nat) {
    var b := home(key).bucket;
    && Inv(home, r) && b < r.l.p && key !in r.spot && NoneExpired(home, r, b, now)
    && (r.cursor >= |r.keys| || (r.used[b] == Room(r.l, b) && r.l.p + r.l.extraFree >= |r.l.next|))
  }

  /** The search stopped: at the key in slot `at`, or with room for it there. */
  ghost predicate Stopped<K(!new)>(home: K -> Home, r: Rep<K>, key: K, now: nat, s: Search, at: nat) {
    var b := home(key).bucket;
    && s.stop && Inv(home, r) && InChain(r.l, b, at)
    && if s.found then at < r.used[b] && s.slot == Ix(r.l, b, at) && KeyAt(home, r, b, at) == key
       else key !in r.spot && s.hasRoom && s.room == Ix(r.l, b, at) &&
            ((at == r.used[b] && NoneExpired(home, r, b, now)) || (at < r.used[b] && r.slots[s.room].deadline < now))
  }

  ghost predicate Searched<K(!new)>(home: K -> Home, r: Rep<K>, key: K, now: nat, q: nat, s: Search, at: nat) {
    if s.stop then Stopped(home, r, key, now, s, at) else Searching(home, r, key, now, q, s, at)
  }

  /** The whole chain is full and does not hold the key; `at` is an expired slot, if there is one. */
  ghost predicate Exhausted<K(!new)>(home: K -> Home, r: Rep<K>, key: K, now: nat, s: Search, at: nat) {
    var b := home(key).bucket;
    && !s.found && Inv(home, r) && b < r.l.p && r.used[b] == Room(r.l, b) && key !in r.spot
    && RoomBefore(home, r, b, now, r.used[b], s.hasRoom, s.room, at)
  }

  /** Following `next` walks the chain and ends with it. */
  lemma {:induction false} NextBucket(l: Links, b: nat, j: nat)
    requires LinksOk(l) && b < l.p && j < |l.chains[b]|
    ensures l.chains[b][j] < |l.next|
    ensures l.next[l.chains[b][j]] == 0 <==> j + 1 == |l.chains[b]|
    ensures j + 1 < |l.chains[b]| ==> l.chains[b][j + 1] == l.p + l.next[l.chains[b][j]]
  {
    assert LinkOk(l, b, j) && (j + 1 < |l.chains[b]| ==> LinkOk(l, b, j + 1));
  }

  /** Every other key kept its cell, or had expired before `now` and lost its slot. */
  ghost predicate OthersKept<K(!new)>(home: K -> Home, r: Rep<K>, r': Rep<K>, key: K, now: nat)
    requires Inv(home, r) && Inv(home, r')
  {
    forall k {:trigger Find(home, r', k)} | k != key ::
      || Find(home, r', k) == Find(home, r, k)
      || (Find(home, r', k).None? && Find(home, r, k).Some? && Find(home, r, k).value.deadline < now)
  }

  /** The entry for `key`: its slot points at `idx` and expires at `d`. */
  ghost predicate Entered<K(!new)>(home: K -> Home, r: Rep<K>, r': Rep<K>, key: K, now: nat, d: nat, idx: nat, empty: bool) {
    && Inv(home, r) && Inv(home, r') && r'.values == r.values && idx < |r.values|
    && key in r'.spot && Holds(r', key) && SlotOf(r', key).idx == idx && SlotOf(r', key).deadline == d
    && empty == Live(Find(home, r, key), now).None?
    && (!empty ==> r.values[idx] == Live(Find(home, r, key), now).value)
    && OthersKept(home, r, r', key, now)
  }

  /** Taking over an occupied slot: the key's own, or one that expired. */
  lemma {:induction false} ClaimEntered<K(!new)>(home: K -> Home, r: Rep<K>, at: nat, key: K, now: nat, d: nat)
    requires Inv(home, r) && InChain(r.l, home(key).bucket, at) && at < r.used[home(key).bucket] && d > 0
    requires key == KeyAt(home, r, home(key).bucket, at) ||
             (key !in r.spot && r.slots[Ix(r.l, home(key).bucket, at)].deadline < now)
    ensures var s := r.slots[Ix(r.l, home(key).bucket, at)];
            Entered(home, r, Claim(home, r, home(key).bucket, at, key, d), key, now, d, s.idx, key !in r.spot || s.deadline <= now)
  {
    var b := home(key).bucket;
    var r' := Claim(home, r, b, at, key, d);
    ClaimKeeps(home, r, b, at, key, d);
    ClaimHolds(home, r, b, at, key, d, key);
    assert SlotOk(home, r, b, at);
    forall k | k != key
      ensures Find(home, r', k) == Find(home, r, k) ||
              (Find(home, r', k).None? && Find(home, r, k).Some? && Find(home, r, k).value.deadline < now)
    {
      ClaimFind(home, r, b, at, key, d, k);
      assert k == KeyAt(home, r, b, at) ==> Holds(r, k);
    }
  }

  lemma {:induction false} AppendEntered<K(!new)>(home: K -> Home, r: Rep<K>, key: K, now: nat, d: nat)
    requires Inv(home, r) && InChain(r.l, home(key).bucket, r.used[home(key).bucket]) && r.cursor < |r.keys| && d > 0 && key !in r.spot
    ensures Entered(home, r, Append(home, r, home(key).bucket, key, d), key, now, d, r.cursor, true)
  {
    var b := home(key).bucket;
    AppendKeeps(home, r, b, key, d);
    AppendHolds(home, r, b, key, d, key);
    forall k | k != key
      ensures Find(home, Append(home, r, b, key, d), k) == Find(home, r, k)
    {
      AppendFind(home, r, b, key, d, k);
    }
  }

  ghost predicate SameFinds<K(!new)>(home: K -> Home, r: Rep<K>, r': Rep<K>)
    requires Inv(home, r) && Inv(home, r')
  {
    forall k {:trigger Find(home, r', k)} :: Find(home, r', k) == Find(home, r, k)
  }

  lemma {:induction false} ExtendSame<K(!new)>(home: K -> Home, r: Rep<K>, b: nat)
    requires Inv(home, r) && b < r.l.p && r.used[b] == Room(r.l, b) && r.l.p + r.l.extraFree < |r.l.next|
    ensures Inv(home, r.(l := ExtendLinks(r.l, b))) && SameFinds(home, r, r.(l := ExtendLinks(r.l, b)))
    ensures var l' := ExtendLinks(r.l, b); InChain(l', b, r.used[b]) && Ix(l', b, r.used[b]) == 4 * (r.l.p + r.l.extraFree)
  {
    ExtendKeeps(home, r, b);
    forall k
      ensures Find(home, r.(l := ExtendLinks(r.l, b)), k) == Find(home, r, k)
    {
      ExtendFind(home, r, b, k);
    }
  }

  lemma {:induction false} EnteredFrom<K(!new)>(home: K -> Home, r: Rep<K>, r1: Rep<K>, r': Rep<K>, key: K, now: nat, d: nat, idx: nat)
    requires Inv(home, r) && Inv(home, r1) && SameFinds(home, r, r1) && r1.values == r.values
    requires Entered(home, r1, r', key, now, d, idx, true)
    ensures Entered(home, r, r', key, now, d, idx, true)
  {
    assert Find(home, r1, key) == Find(home, r, key);
    forall k | k != key
      ensures Find(home, r', k) == Find(home, r, k) ||
              (Find(home, r', k).None? && Find(home, r, k).Some? && Find(home, r, k).value.deadline < now)
    {
      assert Find(home, r1, k) == Find(home, r, k);
    }
  }

  /** A search that ended without the key but with room names an expired or the first unused slot. */
  ghost predicate HasPlace<K(!new)>(home: K -> Home, r: Rep<K>, key: K, now: nat, s: Search, at: nat) {
    !s.found && s.hasRoom && if s.stop then Stopped(home, r, key, now, s, at) else Exhausted(home, r, key, now, s, at)
  }

  lemma {:induction false} RoomOccupied<K(!new)>(home: K -> Home, r: Rep<K>, key: K, now: nat, s: Search, at: nat)
    requires HasPlace(home, r, key, now, s, at) && s.room < |r.slots| && r.slots[s.room].deadline > 0
    ensures InChain(r.l, home(key).bucket, at) && at < r.used[home(key).bucket] && s.room == Ix(r.l, home(key).bucket, at)
    ensures key !in r.spot && r.slots[s.room].deadline < now
  {
    assert InChain(r.l, home(key).bucket, at) ==> SlotOk(home, r, home(key).bucket, at);
  }

  lemma {:induction false} RoomUnused<K(!new)>(home: K -> Home, r: Rep<K>, key: K, now: nat, s: Search, at: nat)
    requires HasPlace(home, r, key, now, s, at) && s.room < |r.slots| && r.slots[s.room].deadline == 0
    ensures InChain(r.l, home(key).bucket, at) && at == r.used[home(key).bucket] && s.room == Ix(r.l, home(key).bucket, at)
    ensures key !in r.spot && NoneExpired(home, r, home(key).bucket, now)
  {
    assert InChain(r.l, home(key).bucket, at) ==> SlotOk(home, r, home(key).bucket, at);
  }

  /** A value joined with the live one it replaces, if any. */
  ghost function Joined(v: Value, o: Option<Cell>, now: nat): Value {
    match Live(o, now)
    case Some(prev) => Merge(v, prev)
    case None => v
  }

  /** None of the first `q` slots of the key's chain is a live slot of the key. */
  ghost predicate NoneLive<K(!new)>(home: K -> Home, r: Rep<K>, key: K, now: nat, q: nat) {
    var b := home(key).bucket;
    && Inv(home, r) && b < r.l.p && q <= r.used[b]
    && forall o | 0 <= o < q :: KeyAt(home, r, b, o) != key || r.slots[Ix(r.l, b, o)].deadline <= now
  }

  lemma {:induction false} NoneLiveAtAll<K(!new)>(home: K -> Home, r: Rep<K>, key: K, now: nat)
    requires home(key).bucket < |r.used| && NoneLive(home, r, key, now, r.used[home(key).bucket])
    ensures Live(Find(home, r, key), now).None?
  {
    if key in r.spot {
      assert Holds(r, key);
      var w := r.spot[key];
      assert SlotOk(home, r, w.chain, w.at);
      assert KeyAt(home, r, w.chain, w.at) == key;
    }
  }

  lemma {:induction false} FoundCell<K(!new)>(home: K -> Home, r: Rep<K>, b: nat, key: K, q: nat)
    requires Inv(home, r) && InChain(r.l, b, q) && q < r.used[b] && KeyAt(home, r, b, q) == key
    ensures var s := r.slots[Ix(r.l, b, q)]; s.idx < |r.values| && Find(home, r, key) == Some(Cell(r.values[s.idx], s.deadline))
  {
    assert SlotOk(home, r, b, q);
  }

  /** The slot and its value are the live cell found. */
  ghost predicate Holding(o: Option<Cell>, s: Slot, values: seq<Value>, now: nat) {
    s.idx < |values| && o == Some(Cell(values[s.idx], s.deadline)) && s.deadline > now
  }

  const EMPTY_VALUE := Value(false, 0, 0, 0, 0, 0, 0)

  lemma {:induction false} FreshOk<K(!new)>(home: K -> Home, r: Rep<K>)
    requires r.l.p <= |r.l.next| && r.l.chains == seq(r.l.p, b => [b]) && r.l.link == seq(|r.l.next|, (c: nat) => Place(c, 0))
    requires r.l.extraFree == 1 && |r.slots| == 4 * |r.l.next| && r.used == seq(r.l.p, b => 0)
    requires (forall c | 0 <= c < |r.l.next| :: r.l.next[c] == 0) && forall i | 0 <= i < |r.slots| :: r.slots[i] == Slot(0, 0, 0)
    requires r.cursor == 0 && r.owner == [] && |r.keys| == |r.values| && r.spot == map[]
    requires forall k :: home(k).bucket < r.l.p && home(k).sig > 0
    ensures Inv(home, r)
  {
    assert LinksOk(r.l);
    assert Parts(home, r);
  }

  lemma {:induction false} ZeroCounters(cs: seq<Counter>)
    requires forall i | 0 <= i < |cs| :: cs[i] == Counter(0, 0, 0)
    ensures MaxOf(cs) == 0 && TotalOf(cs) == 0
    decreases |cs|
  {
    if |cs| > 0 {
      ZeroCounters(cs[..|cs| - 1]);
    }
  }

  class FwMap {
    const home: Key -> Home
    const p: nat
    const slots: array<Slot>
    const next: array<nat>
    const keys: array<Key>
    const values: array<Value>
    const counters: array<Counter>
    var cursor: nat
    var extraFree: nat

    ghost var chains: seq<seq<nat>>
    ghost var link: seq<Place>
    ghost var used: seq<nat>
    ghost var owner: seq<Place>
    ghost var spot: map<Key, Place>

    ghost function R(): Rep<Key>
      reads this, slots, next, keys, values
    {
      Rep(Links(p, next[..], extraFree, chains, link), slots[..], keys[..], values[..], cursor, used, owner, spot)
    }

    ghost predicate Valid()
      reads this, slots, next, keys, values, counters
    {
      Inv(home, R()) && counters.Length > 0 && Counted(slots[..], cursor, counters[..])
    }

    /** What the map holds for a key, expired or not. */
    ghost function Lookup(k: Key): Option<Cell>
      requires Valid()
      reads this, slots, next, keys, values, counters
    {
      Find(home, R(), k)
    }

    /** One slot of the search loop in fwmap_entry. */
    method ProbeSlot(now: nat, key: Key, x: nat, s: Search, ghost q: nat, ghost at: nat) returns (s': Search, ghost at': nat)
      requires Valid() && Searching(home, R(), key, now, q, s, at)
      requires InChain(R().l, home(key).bucket, q) && x == Ix(R().l, home(key).bucket, q)
      ensures Searched(home, R(), key, now, q + 1, s', at')
    {
      ghost var b, r := home(key).bucket, R();
      SlotCase(home, r, b, key, q);
      s', at' := s, at;
      if slots[x].deadline < now && !s.hasRoom {
        s', at' := s.(hasRoom := true, room := x), q;
      }
      if slots[x].sig == home(key).sig && keys[slots[x].idx] == key {
        return s'.(stop := true, found := true, slot := x), q;
      }
      if slots[x].deadline == 0 {
        if !s'.hasRoom {
          s', at' := s'.(hasRoom := true, room := x), q;
        }
        NotFound(home, r, b, key);
        return s'.(stop := true), at';
      }
    }

    /** One bucket of the search loop. */
    method ProbeBucket(now: nat, key: Key, c: nat, s: Search, ghost j: nat, ghost at: nat) returns (s': Search, ghost at': nat)
      requires Valid() && Searching(home, R(), key, now, 4 * j, s, at)
      requires j < |chains[home(key).bucket]| && c == chains[home(key).bucket][j]
      ensures Searched(home, R(), key, now, 4 * (j + 1), s', at')
    {
      s', at' := s, at;
      var i := 0;
      while i < 4
        invariant 0 <= i <= 4 && Searching(home, R(), key, now, 4 * j + i, s', at')
      {
        SlotIndex(R().l, home(key).bucket, j, i);
        s', at' := ProbeSlot(now, key, 4 * c + i, s', 4 * j + i, at');
        if s'.stop {
          return;
        }
        i := i + 1;
      }
    }

    /** The search loop of fwmap_entry over the whole chain. */
    method Probe(now: nat, key: Key) returns (s: Search, last: nat, chainLength: nat, ghost at: nat)
      requires Valid()
      ensures s.stop ==> Stopped(home, R(), key, now, s, at)
      ensures 1 <= chainLength <= |chains[home(key).bucket]| && (!s.stop ==> chainLength == |chains[home(key).bucket]|)
      ensures !s.stop ==> Exhausted(home, R(), key, now, s, at) && last == chains[home(key).bucket][|chains[home(key).bucket]| - 1]
    {
      ghost var b, j := home(key).bucket, 0;
      last, chainLength := home(key).bucket, 1;
      s, at := Search(false, false, 0, false, 0), 0;
      while true
        invariant b < p && 0 <= j < |chains[b]| && last == chains[b][j] && chainLength == j + 1
        invariant Searching(home, R(), key, now, 4 * j, s, at)
        decreases |chains[b]| - j
      {
        s, at := ProbeBucket(now, key, last, s, j, at);
        if s.stop {
          return;
        }
        NextBucket(R().l, b, j);
        if next[last] == 0 {
          NotFound(home, R(), b, key);
          return;
        }
        last := p + next[last];
        j := j + 1;
        chainLength := chainLength + 1;
      }
    }

    /** fwmap_update_counters. */
    method UpdateCounters(worker: nat, chainLength: nat, increment: nat, deadline: nat)
      requires worker < counters.Length
      modifies counters
      ensures TotalOf(counters[..]) == old(TotalOf(counters[..])) + increment
      ensures MaxOf(counters[..]) == if deadline > old(MaxOf(counters[..])) then deadline else old(MaxOf(counters[..]))
    {
      var c := counters[worker];
      var c' := Counter(if chainLength > c.maxChain then chainLength else c.maxChain, c.total + increment,
                        if deadline > c.maxDeadline then deadline else c.maxDeadline);
      CounterChange(counters[..], worker, c');
      ghost var cs := counters[..];
      counters[worker] := c';
      assert counters[..] == cs[worker := c'];
    }

    /** Give an occupied slot to a key. */
    method TakeSlot(worker: nat, now: nat, d: nat, key: Key, x: nat, chainLength: nat, ghost at: nat) returns (idx: nat, empty: bool)
      requires Valid() && worker < counters.Length && InChain(R().l, home(key).bucket, at) && at < used[home(key).bucket] && d > 0
      requires x == Ix(R().l, home(key).bucket, at)
      requires key == KeyAt(home, R(), home(key).bucket, at) || (key !in spot && slots[x].deadline < now)
      modifies this, slots, keys, counters
      ensures Valid() && Entered(home, old(R()), R(), key, now, d, idx, empty)
    {
      ghost var b, r := home(key).bucket, R();
      ClaimEntered(home, r, at, key, now, d);
      assert SlotOk(home, r, b, at);
      var s := slots[x];
      idx := s.idx;
      UpdateCounters(worker, chainLength, 0, d);
      slots[x] := Slot(home(key).sig, d, idx);
      empty := keys[idx] != key || s.deadline <= now;
      spot := (spot - {keys[idx]})[key := Place(b, at)];
      keys[idx] := key;
      assert R() == Claim(home, r, b, at, key, d);
    }

    /** Give the first unused slot of the chain to a new key, if the key store has room. */
    method NewSlot(worker: nat, ghost now: nat, d: nat, key: Key, x: nat, chainLength: nat) returns (ok: bool, idx: nat)
      requires Valid() && worker < counters.Length && InChain(R().l, home(key).bucket, used[home(key).bucket]) && d > 0
      requires x == Ix(R().l, home(key).bucket, used[home(key).bucket]) && key !in spot
      modifies this, slots, keys, counters
      ensures Valid()
      ensures ok == (old(cursor) < keys.Length)
      ensures ok ==> Entered(home, old(R()), R(), key, now, d, idx, true)
      ensures !ok ==> R() == old(R())
    {
      idx := cursor;
      if cursor >= keys.Length {
        return false, idx;
      }
      ghost var b, r := home(key).bucket, R();
      AppendEntered(home, r, key, now, d);
      UpdateCounters(worker, chainLength, 1, d);
      slots[x] := Slot(home(key).sig, d, idx);
      keys[idx] := key;
      cursor := cursor + 1;
      owner := owner + [Place(b, used[b])];
      spot := spot[key := Place(b, used[b])];
      used := used[b := used[b] + 1];
      assert R() == Append(home, r, b, key, d);
      return true, idx;
    }

    /** Chain a fresh extra bucket after the last one. */
    method ExtendChain(last: nat, ghost b: nat) returns (ok: bool)
      requires Valid() && b < p && used[b] == Room(R().l, b) && last == chains[b][|chains[b]| - 1]
      modifies this, next
      ensures Valid()
      ensures ok == (p + old(extraFree) < next.Length)
      ensures ok ==> R() == old(R().(l := ExtendLinks(R().l, b)))
      ensures !ok ==> R() == old(R())
    {
      if p + extraFree >= next.Length {
        return false;
      }
      ghost var r := R();
      ExtendKeeps(home, r, b);
      NextBucket(r.l, b, |chains[b]| - 1);
      var c := p + extraFree;
      next[last] := extraFree;
      next[c] := 0;
      link := link[c := Place(b, |chains[b]|)];
      chains := chains[b := chains[b] + [c]];
      extraFree := extraFree + 1;
      assert R() == r.(l := ExtendLinks(r.l, b));
      return true;
    }

    /** The last resort of fwmap_entry: a new bucket for the chain and its first slot for the key. */
    method GrowChain(worker: nat, now: nat, d: nat, key: Key, last: nat, chainLength: nat) returns (ok: bool, idx: nat)
      requires Valid() && worker < counters.Length && d > 0 && key !in spot
      requires used[home(key).bucket] == Room(R().l, home(key).bucket)
      requires last == chains[home(key).bucket][|chains[home(key).bucket]| - 1]
      modifies this, slots, next, keys, counters
      ensures Valid() && ok == (p + old(extraFree) < next.Length && old(cursor) < keys.Length)
      ensures ok ==> Entered(home, old(R()), R(), key, now, d, idx, true)
      ensures !ok ==> SameFinds(home, old(R()), R())
    {
      ghost var b, r := home(key).bucket, R();
      var c := p + extraFree;
      ok := ExtendChain(last, b);
      if !ok {
        return false, 0;
      }
      ghost var r1 := R();
      ExtendSame(home, r, b);
      ok, idx := NewSlot(worker, now, d, key, 4 * c, chainLength);
      if ok {
        EnteredFrom(home, r, r1, R(), key, now, d, idx);
      }
    }

    /** Put a new key into the room the search found. */
    method FillRoom(worker: nat, now: nat, d: nat, key: Key, s: Search, chainLength: nat, ghost at: nat)
      returns (ok: bool, idx: nat, empty: bool)
      requires Valid() && worker < counters.Length && d > 0 && HasPlace(home, R(), key, now, s, at) && s.room < slots.Length
      modifies this, slots, keys, counters
      ensures Valid()
      ensures ok == !old(Full(home, R(), key, now))
      ensures ok ==> Entered(home, old(R()), R(), key, now, d, idx, empty)
      ensures !ok ==> R() == old(R())
    {
      if slots[s.room].deadline > 0 {
        RoomOccupied(home, R(), key, now, s, at);
        idx, empty := TakeSlot(worker, now, d, key, s.room, chainLength, at);
        return true, idx, empty;
      }
      RoomUnused(home, R(), key, now, s, at);
      ok, idx := NewSlot(worker, now, d, key, s.room, chainLength);
      return ok, idx, true;
    }

    /**
     fwmap_entry, with the copy of a new key into its place that both callers do next: finds or
     makes the slot of `key` and sets its deadline. Only slots that expired before `now` are reused.
     */
    method Entry(worker: nat, now: nat, ttl: nat, key: Key) returns (ok: bool, idx: nat, empty: bool)
      requires Valid() && worker < counters.Length && now + ttl > 0
      modifies this, slots, next, keys, counters
      ensures Valid() && ok == !old(Full(home, R(), key, now))
      ensures ok ==> Entered(home, old(R()), R(), key, now, now + ttl, idx, empty)
      ensures !ok ==> SameFinds(home, old(R()), R())
    {
      var d := now + ttl;
      var s, last, chainLength;
      ghost var at;
      s, last, chainLength, at := Probe(now, key);
      if s.found {
        idx, empty := TakeSlot(worker, now, d, key, s.slot, chainLength, at);
        return true, idx, empty;
      }
      if !s.hasRoom {
        ok, idx := GrowChain(worker, now, d, key, last, chainLength + 1);
        return ok, idx, true;
      }
      ok, idx, empty := FillRoom(worker, now, d, key, s, chainLength, at);
    }

    /** Store a value for a key that has its entry. */
    method WriteValue(key: Key, idx: nat, v: Value)
      requires Valid() && key in spot && Holds(R(), key) && SlotOf(R(), key).idx == idx && idx < values.Length
      modifies values
      ensures Valid()
      ensures forall k :: Lookup(k) ==
                if k == key then Some(Cell(v, old(SlotOf(R(), key).deadline))) else old(Lookup(k))
    {
      ghost var r := R();
      values[idx] := v;
      assert R() == r.(values := r.values[idx := v]);
      SetValueKeeps(home, r, idx, v);
      forall k
        ensures Find(home, R(), k) == if k == key then Some(Cell(v, SlotOf(r, key).deadline)) else Find(home, r, k)
      {
        SetValueFind(home, r, idx, v, key, k);
      }
    }

    /**
     fwmap_put. For the key, the new value is joined with a live old one; every other key looks the
     same at and after `now`. A full map changes nothing that can be looked up.
     */
    method Put(worker: nat, now: nat, ttl: nat, key: Key, v: Value) returns (ok: bool)
      requires Valid() && worker < counters.Length && now + ttl > 0
      modifies this, slots, next, keys, values, counters
      ensures Valid() && ok == !old(Full(home, R(), key, now))
      ensures ok ==> Lookup(key) == Some(Cell(Joined(v, old(Lookup(key)), now), now + ttl))
      ensures ok ==> forall k, t: nat | k != key && t >= now :: Live(Lookup(k), t) == Live(old(Lookup(k)), t)
      ensures !ok ==> forall k :: Lookup(k) == old(Lookup(k))
    {
      ghost var r := R();
      var idx, empty;
      ok, idx, empty := Entry(worker, now, ttl, key);
      if !ok {
        return;
      }
      ghost var r1 := R();
      WriteValue(key, idx, Update(values[idx], v, empty));
      UpdateIsPromote(v, r1.values[idx]);
      forall k, t: nat | k != key && t >= now
        ensures Live(Lookup(k), t) == Live(Find(home, r, k), t)
      {
        assert Lookup(k) == Find(home, r1, k);
      }
    }

    // ---- reading ----

    /** One slot of the search loop in fwmap_get_value_and_deadline. */
    method GetSlot(now: nat, key: Key, x: nat, ghost q: nat) returns (stop: bool, hit: bool)
      requires Valid() && NoneLive(home, R(), key, now, q) && InChain(R().l, home(key).bucket, q)
      requires x == Ix(R().l, home(key).bucket, q) && x < slots.Length
      ensures hit ==> Holding(Lookup(key), slots[x], values[..], now)
      ensures stop && !hit ==> Live(Lookup(key), now).None?
      ensures !stop ==> !hit && NoneLive(home, R(), key, now, q + 1)
    {
      ghost var b, r := home(key).bucket, R();
      SlotCase(home, r, b, key, q);
      if slots[x].sig == home(key).sig && slots[x].deadline > now {
        if keys[slots[x].idx] == key {
          FoundCell(home, r, b, key, q);
          return true, true;
        }
      } else if slots[x].sig == 0 {
        NoneLiveAtAll(home, r, key, now);
        return true, false;
      }
      return false, false;
    }

    /** One bucket of that loop. */
    method GetBucket(now: nat, key: Key, c: nat, ghost j: nat) returns (stop: bool, hit: bool, slot: nat)
      requires Valid() && NoneLive(home, R(), key, now, 4 * j)
      requires j < |chains[home(key).bucket]| && c == chains[home(key).bucket][j]
      ensures hit ==> slot < slots.Length && Holding(Lookup(key), slots[slot], values[..], now)
      ensures stop && !hit ==> Live(Lookup(key), now).None?
      ensures !stop ==> !hit && NoneLive(home, R(), key, now, 4 * (j + 1))
    {
      var i := 0;
      while i < 4
        invariant 0 <= i <= 4 && NoneLive(home, R(), key, now, 4 * j + i)
      {
        slot := 4 * c + i;
        SlotIndex(R().l, home(key).bucket, j, i);
        stop, hit := GetSlot(now, key, slot, 4 * j + i);
        if stop {
          return;
        }
        i := i + 1;
      }
      return false, false, 0;
    }

    /** fwmap_get_value_and_deadline: the live cell of a key, as `fwmap_get` and the table see it. */
    method Get(now: nat, key: Key) returns (hit: bool, value: Value, deadline: nat)
      requires Valid()
      ensures hit <==> Live(Lookup(key), now).Some?
      ensures hit ==> Lookup(key) == Some(Cell(value, deadline))
    {
      ghost var b, j := home(key).bucket, 0;
      var c := home(key).bucket;
      while true
        invariant b < p && 0 <= j < |chains[b]| && c == chains[b][j] && NoneLive(home, R(), key, now, 4 * j)
        decreases |chains[b]| - j
      {
        var stop, found, slot := GetBucket(now, key, c, j);
        if stop {
          hit := found;
          value := if found then values[slots[slot].idx] else EMPTY_VALUE;
          deadline := if found then slots[slot].deadline else 0;
          return;
        }
        NextBucket(R().l, b, j);
        if next[c] == 0 {
          NoneLiveAtAll(home, R(), key, now);
          return false, EMPTY_VALUE, 0;
        }
        c := p + next[c];
        j := j + 1;
      }
    }

    /** fwmap_max_deadline. */
    method MaxDeadline() returns (m: nat)
      requires Valid()
      ensures m == MaxOf(counters[..])
      ensures forall k, t: nat | t >= m :: Live(Lookup(k), t).None?
    {
      m := counters[0].maxDeadline;
      var i := 1;
      assert counters[..1][..0] == [];
      while i < counters.Length
        invariant 1 <= i <= counters.Length && m == MaxOf(counters[..i])
      {
        assert counters[..i + 1][..i] == counters[..i];
        if counters[i].maxDeadline > m {
          m := counters[i].maxDeadline;
        }
        i := i + 1;
      }
      assert counters[..i] == counters[..];
      forall k, t: nat | t >= m
        ensures Live(Lookup(k), t).None?
      {
        if k in spot {
          assert Holds(R(), k);
        }
      }
    }

    /** fwmap_new: an empty map of `p` buckets, `extra` chained ones and room for `size` keys. */
    constructor (home: Key -> Home, p: nat, extra: nat, size: nat, workers: nat)
      requires workers > 0 && forall k :: home(k).bucket < p && home(k).sig > 0
      ensures Valid() && this.home == home && counters.Length == workers && keys.Length == size
      ensures fresh(slots) && fresh(next) && fresh(keys) && fresh(values) && fresh(counters)
      ensures forall k :: Lookup(k).None?
      ensures MaxOf(counters[..]) == 0
    {
      this.home := home;
      this.p := p;
      slots := new Slot[4 * (p + extra)](i => Slot(0, 0, 0));
      next := new nat[p + extra](i => 0);
      keys := new Key[size](i => Key(0, 0, 0, 0, 0));
      values := new Value[size](i => EMPTY_VALUE);
      counters := new Counter[workers](i => Counter(0, 0, 0));
      cursor := 0;
      extraFree := 1;
      chains := seq(p, b => [b]);
      link := seq(p + extra, (c: nat) => Place(c, 0));
      used := seq(p, b => 0);
      owner := [];
      spot := map[];
      new;
      FreshOk(home, R());
      ZeroCounters(counters[..]);
    }
  }
}
