/** Counter registries and the slots they give their counters across generations (lib/counters/counters.c). */
module CounterRegistry {
  import opened KeyArith

  const POOLS: nat := 7
  const MAX_SIZE: nat := 64
  const NAME_LEN: nat := 128

  /** A counter of `size` words; `offset` is -1 until it has its slot. */
  datatype Counter = Counter(name: string, size: nat, gen: nat, offset: int)

  function BitLength(v: nat): nat {
    if v == 0 then 0 else 1 + BitLength(v / 2)
  }

  /** uint64_log_up. */
  function LogUp(v: nat): nat {
    if v == 0 then 0 else if v == Pow2(BitLength(v) - 1) then BitLength(v) - 1 else BitLength(v)
  }

  lemma {:induction false} BitLengthBounds(v: nat)
    requires v > 0
    ensures BitLength(v) > 0 && Pow2(BitLength(v) - 1) <= v < Pow2(BitLength(v))
  {
    if v > 1 {
      BitLengthBounds(v / 2);
    } else {
      assert BitLength(1) == 1 + BitLength(0);
    }
  }

  /** The slot of a size is the smallest power of two that holds it. */
  lemma {:induction false} LogUpExact(v: nat)
    requires v > 0
    ensures v <= Pow2(LogUp(v)) && (LogUp(v) > 0 ==> Pow2(LogUp(v) - 1) < v)
    ensures v <= MAX_SIZE ==> LogUp(v) < POOLS
  {
    BitLengthBounds(v);
    assert Pow2(6) == 64 by {
      assert Pow2(3) == 8;
    }
    if v <= MAX_SIZE && LogUp(v) >= POOLS {
      Pow2Grows(6, LogUp(v) - 1);
    }
  }

  function Pool(c: Counter): nat {
    LogUp(c.size)
  }

  /** The bytes of a slot of a pool. */
  function SlotBytes(p: nat): nat {
    8 * Pow2(p)
  }

  /** Where a slot of a pool starts. */
  function OffsetOf(slot: nat, p: nat): nat {
    slot * SlotBytes(p)
  }

  // ---- layout ----

  /** Names and sizes are legal and names differ. */
  ghost predicate Named(names: seq<Counter>) {
    && (forall i {:trigger names[i]} | 0 <= i < |names| :: 0 < names[i].size <= MAX_SIZE && names[i].offset >= -1)
    && forall i, j | 0 <= i < j < |names| :: names[i].name != names[j].name
  }

  /** Counter `i`, if it has a slot, has slot number `slots[i]` of its pool. */
  ghost predicate PlacedAt(names: seq<Counter>, counts: seq<nat>, slots: seq<nat>, i: nat)
    requires i < |names| == |slots|
  {
    names[i].offset >= 0 ==>
      && Pool(names[i]) < |counts| && slots[i] < counts[Pool(names[i])]
      && names[i].offset == OffsetOf(slots[i], Pool(names[i]))
  }

  ghost predicate SlotsDiffer(names: seq<Counter>, slots: seq<nat>, i: nat, j: nat)
    requires i < |names| == |slots| && j < |names|
  {
    i != j && names[i].offset >= 0 && names[j].offset >= 0 && Pool(names[i]) == Pool(names[j]) ==> slots[i] != slots[j]
  }

  /** Every counter that has a slot has one of its own. */
  ghost predicate Layout(names: seq<Counter>, counts: seq<nat>, slots: seq<nat>) {
    && |counts| == POOLS && |slots| == |names| && Named(names)
    && (forall i {:trigger PlacedAt(names, counts, slots, i)} | 0 <= i < |names| :: PlacedAt(names, counts, slots, i))
    && forall i, j {:trigger SlotsDiffer(names, slots, i, j)} | 0 <= i < |names| && 0 <= j < |names| ::
         SlotsDiffer(names, slots, i, j)
  }

  /** All counters are still there, in their places, but for the slots. */
  ghost predicate Kept(before: seq<Counter>, names: seq<Counter>) {
    |before| <= |names| && forall j {:trigger names[j]} | 0 <= j < |before| :: names[j] == before[j].(offset := names[j].offset)
  }

  ghost predicate AllPlaced(names: seq<Counter>) {
    forall i | 0 <= i < |names| :: names[i].offset >= 0
  }

  /**
   Where each counter of a new generation got its slot: `origin[i]` is the counter of the old one it
   carries over, with name, size and slot; or it is -1, and then the slot, if it has one, is new.
   */
  ghost predicate FromOld(names: seq<Counter>, slots: seq<nat>, origin: seq<int>,
                          old': seq<Counter>, oldSlots: seq<nat>, base: seq<nat>, i: nat)
    requires i < |names| == |slots| == |origin| && |old'| == |oldSlots|
  {
    if origin[i] >= 0 then
      && origin[i] < |old'| && names[i].name == old'[origin[i]].name && names[i].size == old'[origin[i]].size
      && names[i].offset == old'[origin[i]].offset >= 0 && slots[i] == oldSlots[origin[i]]
    else
      names[i].offset >= 0 ==> Pool(names[i]) < |base| && slots[i] >= base[Pool(names[i])]
  }

  ghost predicate Origins(names: seq<Counter>, slots: seq<nat>, origin: seq<int>,
                          old': seq<Counter>, oldSlots: seq<nat>, base: seq<nat>) {
    && |names| == |slots| == |origin| && |old'| == |oldSlots|
    && forall i {:trigger FromOld(names, slots, origin, old', oldSlots, base, i)} | 0 <= i < |names| ::
         FromOld(names, slots, origin, old', oldSlots, base, i)
  }

  /** Those of the first `n` current counters of the old generation that have slots are carried over. */
  ghost predicate CarriedOver(origin: seq<int>, old': seq<Counter>, oldGen: nat, n: nat) {
    n <= |old'| && forall k {:trigger old'[k]} | 0 <= k < n && old'[k].gen == oldGen && old'[k].offset >= 0 :: k in origin
  }

  ghost predicate Present(names: seq<Counter>, c: Counter) {
    exists j | 0 <= j < |names| :: names[j].name == c.name && names[j].size == c.size
  }

  /** The first `n` current counters of the old generation are all there, with name and size. */
  ghost predicate AllPresent(names: seq<Counter>, old': seq<Counter>, oldGen: nat, n: nat) {
    n <= |old'| && forall k {:trigger Present(names, old'[k])} | 0 <= k < n && old'[k].gen == oldGen :: Present(names, old'[k])
  }

  lemma {:induction false} PresentKept(names: seq<Counter>, names': seq<Counter>, old': seq<Counter>, oldGen: nat, n: nat)
    requires AllPresent(names, old', oldGen, n) && Kept(names, names')
    ensures AllPresent(names', old', oldGen, n)
  {
    forall k | 0 <= k < n && old'[k].gen == oldGen
      ensures Present(names', old'[k])
    {
      assert Present(names, old'[k]);
      var j :| 0 <= j < |names| && names[j].name == old'[k].name && names[j].size == old'[k].size;
      assert names'[j] == names[j].(offset := names'[j].offset);
    }
  }

  /** Some counter has slot `s` of pool `p`. */
  ghost predicate Held(names: seq<Counter>, slots: seq<nat>, p: nat, s: nat) {
    exists i | 0 <= i < |names| && i < |slots| :: names[i].offset >= 0 && Pool(names[i]) == p && slots[i] == s
  }

  /** The slots given out past `base` are all held: none is skipped. */
  ghost predicate Dense(names: seq<Counter>, slots: seq<nat>, base: seq<nat>, counts: seq<nat>) {
    |base| == POOLS == |counts| &&
      forall p, s: nat {:trigger Held(names, slots, p, s)} | 0 <= p < POOLS && base[p] <= s < counts[p] :: Held(names, slots, p, s)
  }

  lemma {:induction false} PlaceDense(names: seq<Counter>, slots: seq<nat>, base: seq<nat>, counts: seq<nat>, i: nat, offset: nat)
    requires |names| == |slots| && i < |names| && names[i].offset == -1 && Pool(names[i]) < POOLS && Dense(names, slots, base, counts)
    ensures var p := Pool(names[i]);
            Dense(names[i := names[i].(offset := offset)], slots[i := counts[p]], base, counts[p := counts[p] + 1])
  {
    var p := Pool(names[i]);
    var names', slots', counts' := names[i := names[i].(offset := offset)], slots[i := counts[p]], counts[p := counts[p] + 1];
    forall q, s: nat | 0 <= q < POOLS && base[q] <= s < counts'[q]
      ensures Held(names', slots', q, s)
    {
      if q == p && s == counts[p] {
        assert names'[i].offset >= 0 && Pool(names'[i]) == q && slots'[i] == s;
      } else {
        assert Held(names, slots, q, s);
        var j :| 0 <= j < |names| && names[j].offset >= 0 && Pool(names[j]) == q && slots[j] == s;
        assert names'[j].offset >= 0 && Pool(names'[j]) == q && slots'[j] == s;
      }
    }
  }

  /**
   Two registries linked from one old registry, each with a new counter in a pool: both give the first slot
   the old one had not given out to a counter of their own.
   */
  lemma {:induction false} SiblingsShareSlot(
      old': seq<Counter>, oldSlots: seq<nat>, base: seq<nat>, p: nat,
      names1: seq<Counter>, slots1: seq<nat>, counts1: seq<nat>, origin1: seq<int>, i: nat,
      names2: seq<Counter>, slots2: seq<nat>, counts2: seq<nat>, origin2: seq<int>, j: nat)
    requires Layout(names1, counts1, slots1) && AllPlaced(names1) && Origins(names1, slots1, origin1, old', oldSlots, base)
    requires Layout(names2, counts2, slots2) && AllPlaced(names2) && Origins(names2, slots2, origin2, old', oldSlots, base)
    requires Dense(names1, slots1, base, counts1) && Dense(names2, slots2, base, counts2) && p < POOLS
    requires i < |names1| && Pool(names1[i]) == p && origin1[i] < 0 && j < |names2| && Pool(names2[j]) == p && origin2[j] < 0
    ensures base[p] < counts1[p] && base[p] < counts2[p]
    ensures Held(names1, slots1, p, base[p]) && Held(names2, slots2, p, base[p])
  {
    assert PlacedAt(names1, counts1, slots1, i) && FromOld(names1, slots1, origin1, old', oldSlots, base, i);
    assert PlacedAt(names2, counts2, slots2, j) && FromOld(names2, slots2, origin2, old', oldSlots, base, j);
  }

  /** A counter carried over joins the layout. */
  lemma {:induction false} AdoptLayout(names: seq<Counter>, counts: seq<nat>, slots: seq<nat>, origin: seq<int>,
                                       old': seq<Counter>, oldSlots: seq<nat>, i: nat, k: nat)
    requires Layout(names, counts, slots) && Origins(names, slots, origin, old', oldSlots, counts)
    requires Layout(old', counts, oldSlots) && i < |names| && k < |old'| && old'[k].offset >= 0
    requires names[i].name == old'[k].name && names[i].size == old'[k].size
    requires forall j | 0 <= j < |names| :: origin[j] < 0 ==> names[j].offset == -1
    ensures Layout(names[i := names[i].(offset := old'[k].offset)], counts, slots[i := oldSlots[k]])
    ensures Origins(names[i := names[i].(offset := old'[k].offset)], slots[i := oldSlots[k]], origin[i := k], old', oldSlots, counts)
  {
    var names', slots', origin' := names[i := names[i].(offset := old'[k].offset)], slots[i := oldSlots[k]], origin[i := k];
    forall j | 0 <= j < |names'|
      ensures PlacedAt(names', counts, slots', j) && FromOld(names', slots', origin', old', oldSlots, counts, j)
    {
      assert PlacedAt(names, counts, slots, j) && FromOld(names, slots, origin, old', oldSlots, counts, j);
      assert PlacedAt(old', counts, oldSlots, k);
    }
    forall j, h | 0 <= j < |names'| && 0 <= h < |names'|
      ensures SlotsDiffer(names', slots', j, h)
    {
      assert SlotsDiffer(names, slots, j, h);
      assert FromOld(names', slots', origin', old', oldSlots, counts, j);
      assert FromOld(names', slots', origin', old', oldSlots, counts, h);
      if j != h && origin'[j] >= 0 && origin'[h] >= 0 {
        assert SlotsDiffer(old', oldSlots, origin'[j], origin'[h]);
      }
    }
  }

  /** A new counter takes the next slot of its pool. */
  lemma {:induction false} PlaceLayout(names: seq<Counter>, counts: seq<nat>, slots: seq<nat>, i: nat, offset: nat)
    requires Layout(names, counts, slots) && i < |names| && names[i].offset == -1 && Pool(names[i]) < POOLS
    requires offset == OffsetOf(counts[Pool(names[i])], Pool(names[i]))
    ensures var p := Pool(names[i]);
            Layout(names[i := names[i].(offset := offset)], counts[p := counts[p] + 1], slots[i := counts[p]])
  {
    var p := Pool(names[i]);
    var names', counts', slots' := names[i := names[i].(offset := offset)], counts[p := counts[p] + 1],
                                   slots[i := counts[p]];
    forall j | 0 <= j < |names'|
      ensures PlacedAt(names', counts', slots', j)
    {
      assert PlacedAt(names, counts, slots, j);
    }
    forall j, h | 0 <= j < |names'| && 0 <= h < |names'|
      ensures SlotsDiffer(names', slots', j, h)
    {
      assert SlotsDiffer(names, slots, j, h) && PlacedAt(names, counts, slots, j) && PlacedAt(names, counts, slots, h);
    }
  }

  /** A fresh counter at the end of the list changes no slot. */
  lemma {:induction false} InsertLayout(names: seq<Counter>, counts: seq<nat>, slots: seq<nat>, c: Counter)
    requires Layout(names, counts, slots) && 0 < c.size <= MAX_SIZE && c.offset == -1
    requires forall i | 0 <= i < |names| :: names[i].name != c.name
    ensures Layout(names + [c], counts, slots + [0])
  {
    var names', slots' := names + [c], slots + [0];
    forall j | 0 <= j < |names'|
      ensures PlacedAt(names', counts, slots', j)
    {
      assert j < |names| ==> PlacedAt(names, counts, slots, j);
    }
    forall j, h | 0 <= j < |names'| && 0 <= h < |names'|
      ensures SlotsDiffer(names', slots', j, h)
    {
      assert j < |names| && h < |names| ==> SlotsDiffer(names, slots, j, h);
    }
  }

  class Registry {
    var gen: nat
    var names: seq<Counter>
    var counts: seq<nat>
    var room: nat
    ghost var slots: seq<nat>

    ghost predicate Valid()
      reads this
    {
      Layout(names, counts, slots)
    }

    /** A registry that has not been linked. */
    ghost predicate Fresh()
      reads this
    {
      Valid() && counts == seq(POOLS, i => 0) && forall i | 0 <= i < |names| :: names[i].offset == -1
    }

    /** counter_registry_init. */
    constructor (gen: nat, room: nat)
      ensures Fresh() && names == [] && this.gen == gen
    {
      this.gen, this.room, names, slots := gen, room, [], [];
      counts := seq(POOLS, i => 0);
    }

    /** counter_registry_lookup_index; `|names|` when there is none. */
    method LookupIndex(name: string) returns (idx: nat)
      ensures idx <= |names| && (idx < |names| ==> names[idx].name == name)
      ensures idx == |names| ==> forall i | 0 <= i < |names| :: names[i].name != name
    {
      idx := 0;
      while idx < |names| && names[idx].name != name
        invariant idx <= |names| && forall i | 0 <= i < idx :: names[i].name != name
      {
        idx := idx + 1;
      }
    }

    /** counter_registry_insert: false when there is no memory for one more. */
    method Insert(name: string, size: nat, gen: nat) returns (ok: bool)
      requires Valid() && 0 < size <= MAX_SIZE && forall i | 0 <= i < |names| :: names[i].name != name
      modifies this`names, this`slots, this`room
      ensures Valid() && ok == (old(room) > 0) && room == old(room) - if ok then 1 else 0
      ensures ok ==> names == old(names) + [Counter(name, size, gen, -1)] && slots == old(slots) + [0]
      ensures !ok ==> names == old(names) && slots == old(slots) && room == 0
    {
      if room == 0 {
        return false;
      }
      var c := Counter(name, size, gen, -1);
      InsertLayout(names, counts, slots, c);
      room := room - 1;
      names := names + [c];
      slots := slots + [0];
      return true;
    }

    /**
     counter_registry_register. A name declared again keeps its place and becomes current, even when the size
     does not match and the call fails.
     */
    method Register(name: string, size: nat) returns (ok: bool, idx: nat)
      requires Valid()
      modifies this`names, this`slots, this`room
      ensures Valid() && (old(Fresh()) ==> Fresh()) && |names| >= old(|names|)
      ensures ok ==> idx < |names| && names[idx].name == name && names[idx].size == size && names[idx].gen == gen
      ensures 0 < size <= MAX_SIZE && |name| < NAME_LEN && !ok ==>
                idx <= old(|names|) && if idx < old(|names|) then names[idx].name == name && names[idx].size != size else old(room) == 0
      ensures size == 0 || size > MAX_SIZE || |name| >= NAME_LEN ==> !ok && names == old(names)
      ensures forall i | 0 <= i < old(|names|) :: names[i].name == old(names)[i].name && names[i].size == old(names)[i].size
      ensures forall i | 0 <= i < old(|names|) && old(names)[i].name != name :: names[i] == old(names)[i]
    {
      if size == 0 || size > MAX_SIZE || |name| >= NAME_LEN {
        return false, 0;
      }
      idx := LookupIndex(name);
      if idx < |names| {
        RenewLayout(names, counts, slots, idx, gen);
        names := names[idx := names[idx].(gen := gen)];
        return names[idx].size == size, idx;
      }
      ok := Insert(name, size, gen);
    }

    /** One round of the first loop of counter_registry_link: carry over counter `k` if it is current. */
    method Adopt(src: Registry, k: nat, ghost origin: seq<int>) returns (ok: bool, ghost origin': seq<int>)
      requires Adopting(src, k, origin) && k < |src.names|
      modifies this`names, this`slots, this`room
      ensures Valid() && (ok ==> Adopting(src, k + 1, origin')) && Kept(old(names), names)
      ensures !ok ==> room == 0 || Clash(names, src)
    {
      origin' := origin;
      var c := src.names[k];
      if c.gen != src.gen {
        SkipOld(names, counts, slots, origin, src.names, src.slots, src.gen, k);
        return true, origin;
      }
      var i := LookupIndex(c.name);
      if i == |names| {
        CarryNew(names, counts, slots, origin, src.names, src.slots, src.gen, k);
        ok := Insert(c.name, c.size, c.gen);
        if !ok {
          return;
        }
        origin' := origin + [-1];
      } else if names[i].size != c.size {
        return false, origin;
      }
      CarryOne(names, counts, slots, origin', src.names, src.slots, src.gen, k, i);
      names := names[i := names[i].(offset := c.offset)];
      slots := if c.offset >= 0 then slots[i := src.slots[k]] else slots;
      origin' := if c.offset >= 0 then origin'[i := k] else origin';
      ok := true;
    }

    /** One round of its second loop: a counter without a slot gets the next one of its pool. */
    method Place(i: nat, ghost base: seq<nat>, ghost origin: seq<int>, ghost old': seq<Counter>, ghost oldSlots: seq<nat>)
      requires Placing(i, base, origin, old', oldSlots) && i < |names|
      modifies this`names, this`slots, this`counts
      ensures Placing(i + 1, base, origin, old', oldSlots) && |names| == old(|names|) && Kept(old(names), names)
    {
      if names[i].offset != -1 {
        return;
      }
      LogUpExact(names[i].size);
      var p := Pool(names[i]);
      var offset := OffsetOf(counts[p], p);
      PlaceOne(names, counts, slots, i, base, origin, old', oldSlots, p, offset);
      slots := slots[i := counts[p]];
      names := names[i := names[i].(offset := offset)];
      counts := counts[p := counts[p] + 1];
    }

    /** The state of the second loop before its round `i`. */
    ghost predicate Placing(i: nat, base: seq<nat>, origin: seq<int>, old': seq<Counter>, oldSlots: seq<nat>)
      reads this
    {
      PlacedTo(names, counts, slots, i, base, origin, old', oldSlots)
    }

    /**
     counter_registry_link. On success every counter has a slot of its own; the current counters of `src`
     are all here, each with the slot it had there, if it had one; all others have the next slots after those
     that `src` has given out, without a gap.
     */
    method Link(src: Registry?) returns (ok: bool, ghost origin: seq<int>)
      requires Fresh() && src != this && (src != null ==> src.Valid())
      modifies this
      ensures Valid() && gen == old(gen) && Kept(old(names), names)
      ensures !ok ==> src != null && (room == 0 || Clash(names, src))
      ensures ok ==> AllPlaced(names)
      ensures ok && src != null ==>
        Origins(names, slots, origin, src.names, src.slots, src.counts) && CarriedOver(origin, src.names, src.gen, |src.names|)
      ensures ok && src != null ==> AllPresent(names, src.names, src.gen, |src.names|) && Dense(names, slots, src.counts, counts)
      ensures ok && src != null ==> forall p | 0 <= p < POOLS :: src.counts[p] <= counts[p]
      ensures ok && src == null ==> |names| == old(|names|) && Dense(names, slots, seq(POOLS, i => 0), counts)
    {
      origin := seq(|names|, i => -1);
      ghost var old', oldSlots, base := [], [], counts;
      if src != null {
        FreshOrigins(names, counts, src.counts, slots, src.names, src.slots);
        old', oldSlots, base := src.names, src.slots, src.counts;
        counts := src.counts;
        ok, origin := AdoptAll(src, origin);
        if !ok {
          return;
        }
      } else {
        FreshOrigins(names, counts, counts, slots, [], []);
      }
      var i := 0;
      while i < |names|
        invariant 0 <= i <= |names| && Placing(i, base, origin, old', oldSlots) && gen == old(gen) && Kept(old(names), names)
        invariant src == null ==> |names| == old(|names|) && base == seq(POOLS, i => 0)
        invariant src != null ==> base == src.counts && old' == src.names && oldSlots == src.slots
        invariant src != null ==> CarriedOver(origin, src.names, src.gen, |src.names|)
        invariant src != null ==> AllPresent(names, src.names, src.gen, |src.names|)
      {
        ghost var before := names;
        Place(i, base, origin, old', oldSlots);
        if src != null {
          PresentKept(before, names, src.names, src.gen, |src.names|);
        }
        i := i + 1;
      }
      ok := true;
    }

    method AdoptAll(src: Registry, ghost origin: seq<int>) returns (ok: bool, ghost origin': seq<int>)
      requires Adopting(src, 0, origin)
      modifies this`names, this`slots, this`room
      ensures Valid() && (ok ==> Adopting(src, |src.names|, origin')) && Kept(old(names), names)
      ensures !ok ==> room == 0 || Clash(names, src)
    {
      origin' := origin;
      var k := 0;
      while k < |src.names|
        invariant 0 <= k <= |src.names| && Adopting(src, k, origin') && Kept(old(names), names)
      {
        ok, origin' := Adopt(src, k, origin');
        if !ok {
          return;
        }
        k := k + 1;
      }
      ok := true;
    }

    /** The state of the first loop of counter_registry_link before its round `k`. */
    ghost predicate Adopting(src: Registry, k: nat, origin: seq<int>)
      reads this, src
    {
      this != src && counts == src.counts && Carrying(names, counts, slots, origin, src.names, src.slots, src.gen, k)
    }
  }

  /** A current counter of the old registry has been declared with another size. */
  ghost predicate Clash(names: seq<Counter>, src: Registry)
    reads src
  {
    exists i, k | 0 <= i < |names| && 0 <= k < |src.names| && src.names[k].gen == src.gen ::
      names[i].name == src.names[k].name && names[i].size != src.names[k].size
  }

  /** No counter from `k` on has been carried over. */
  ghost predicate NotYet(origin: seq<int>, k: nat) {
    forall j | 0 <= j < |origin| :: origin[j] < k
  }

  lemma {:induction false} RenewLayout(names: seq<Counter>, counts: seq<nat>, slots: seq<nat>, i: nat, gen: nat)
    requires Layout(names, counts, slots) && i < |names|
    ensures Layout(names[i := names[i].(gen := gen)], counts, slots)
  {
    var names' := names[i := names[i].(gen := gen)];
    forall j | 0 <= j < |names'|
      ensures PlacedAt(names', counts, slots, j)
    {
      assert PlacedAt(names, counts, slots, j);
    }
    forall j, h | 0 <= j < |names'| && 0 <= h < |names'|
      ensures SlotsDiffer(names', slots, j, h)
    {
      assert SlotsDiffer(names, slots, j, h);
    }
  }

  lemma {:induction false} InsertOrigins(names: seq<Counter>, slots: seq<nat>, origin: seq<int>,
                                         old': seq<Counter>, oldSlots: seq<nat>, base: seq<nat>, c: Counter)
    requires Origins(names, slots, origin, old', oldSlots, base) && c.offset == -1
    ensures Origins(names + [c], slots + [0], origin + [-1], old', oldSlots, base)
  {
    forall j | 0 <= j < |names| + 1
      ensures FromOld(names + [c], slots + [0], origin + [-1], old', oldSlots, base, j)
    {
      assert j < |names| ==> FromOld(names, slots, origin, old', oldSlots, base, j);
    }
  }

  /** The first `k` counters of the old registry have been dealt with. */
  ghost predicate Carrying(names: seq<Counter>, counts: seq<nat>, slots: seq<nat>, origin: seq<int>,
                           old': seq<Counter>, oldSlots: seq<nat>, oldGen: nat, k: nat) {
    && Layout(names, counts, slots) && Layout(old', counts, oldSlots)
    && Origins(names, slots, origin, old', oldSlots, counts)
    && (forall j | 0 <= j < |names| :: origin[j] < 0 ==> names[j].offset == -1)
    && CarriedOver(origin, old', oldGen, k) && AllPresent(names, old', oldGen, k) && NotYet(origin, k)
  }

  /** A counter that is not current is left out. */
  lemma {:induction false} SkipOld(names: seq<Counter>, counts: seq<nat>, slots: seq<nat>, origin: seq<int>,
                                   old': seq<Counter>, oldSlots: seq<nat>, oldGen: nat, k: nat)
    requires Carrying(names, counts, slots, origin, old', oldSlots, oldGen, k) && k < |old'| && old'[k].gen != oldGen
    ensures Carrying(names, counts, slots, origin, old', oldSlots, oldGen, k + 1)
  {
    assert forall h | 0 <= h < k && old'[h].gen == oldGen :: Present(names, old'[h]);
  }

  /** One whose name is new joins the list, without a slot. */
  lemma {:induction false} CarryNew(names: seq<Counter>, counts: seq<nat>, slots: seq<nat>, origin: seq<int>,
                                    old': seq<Counter>, oldSlots: seq<nat>, oldGen: nat, k: nat)
    requires Carrying(names, counts, slots, origin, old', oldSlots, oldGen, k) && k < |old'|
    requires forall i | 0 <= i < |names| :: names[i].name != old'[k].name
    ensures 0 < old'[k].size <= MAX_SIZE
    ensures Carrying(names + [old'[k].(offset := -1)], counts, slots + [0], origin + [-1], old', oldSlots, oldGen, k)
  {
    var c := old'[k].(offset := -1);
    assert old'[k].size > 0;
    InsertLayout(names, counts, slots, c);
    InsertOrigins(names, slots, origin, old', oldSlots, counts, c);
    PresentKept(names, names + [c], old', oldGen, k);
    forall h | 0 <= h < k && old'[h].gen == oldGen && old'[h].offset >= 0
      ensures h in origin + [-1]
    {
      assert h in origin;
    }
  }

  /** No counter carried over before has this name. */
  lemma {:induction false} NotCarriedYet(names: seq<Counter>, counts: seq<nat>, slots: seq<nat>, origin: seq<int>,
                                         old': seq<Counter>, oldSlots: seq<nat>, oldGen: nat, k: nat, i: nat)
    requires Carrying(names, counts, slots, origin, old', oldSlots, oldGen, k) && k < |old'| && i < |names|
    requires names[i].name == old'[k].name
    ensures origin[i] < 0 && names[i].offset == -1
  {
    assert FromOld(names, slots, origin, old', oldSlots, counts, i);
  }

  /** The counter of that name takes over the slot, if there is one. */
  lemma {:induction false} CarryOne(names: seq<Counter>, counts: seq<nat>, slots: seq<nat>, origin: seq<int>,
                                    old': seq<Counter>, oldSlots: seq<nat>, oldGen: nat, k: nat, i: nat)
    requires Carrying(names, counts, slots, origin, old', oldSlots, oldGen, k) && k < |old'| && i < |names|
    requires names[i].name == old'[k].name && names[i].size == old'[k].size
    ensures var placed := old'[k].offset >= 0;
            Carrying(names[i := names[i].(offset := old'[k].offset)], counts, if placed then slots[i := oldSlots[k]] else slots,
                     if placed then origin[i := k] else origin, old', oldSlots, oldGen, k + 1)
  {
    var names' := names[i := names[i].(offset := old'[k].offset)];
    NotCarriedYet(names, counts, slots, origin, old', oldSlots, oldGen, k, i);
    PresentKept(names, names', old', oldGen, k);
    assert Present(names', old'[k]) by {
      assert names'[i].name == old'[k].name && names'[i].size == old'[k].size;
    }
    if old'[k].offset >= 0 {
      AdoptLayout(names, counts, slots, origin, old', oldSlots, i, k);
      StillCarried(origin, old', oldGen, k, i);
    } else {
      assert old'[k].offset >= -1;
      assert names' == names;
    }
  }

  /** Carrying over counter `k` into place `i`, which was free, keeps the others carried over. */
  lemma {:induction false} StillCarried(origin: seq<int>, old': seq<Counter>, oldGen: nat, k: nat, i: nat)
    requires CarriedOver(origin, old', oldGen, k) && i < |origin| && k < |old'| && origin[i] < 0
    ensures CarriedOver(origin[i := k], old', oldGen, k + 1)
  {
    forall h | 0 <= h < k + 1 && old'[h].gen == oldGen && old'[h].offset >= 0
      ensures h in origin[i := k]
    {
      if h < k {
        var j :| 0 <= j < |origin| && origin[j] == h;
        assert origin[i := k][j] == h;
      } else {
        assert origin[i := k][i] == k;
      }
    }
  }

  lemma {:induction false} PlaceOrigins(names: seq<Counter>, slots: seq<nat>, origin: seq<int>, old': seq<Counter>,
                                        oldSlots: seq<nat>, base: seq<nat>, i: nat, offset: nat, slot: nat)
    requires Origins(names, slots, origin, old', oldSlots, base) && i < |names| && names[i].offset == -1
    requires Pool(names[i]) < |base| && slot >= base[Pool(names[i])]
    ensures Origins(names[i := names[i].(offset := offset)], slots[i := slot], origin, old', oldSlots, base)
  {
    var names', slots' := names[i := names[i].(offset := offset)], slots[i := slot];
    forall j | 0 <= j < |names'|
      ensures FromOld(names', slots', origin, old', oldSlots, base, j)
    {
      assert FromOld(names, slots, origin, old', oldSlots, base, j);
    }
  }

  /** The first `i` counters have slots, those past `base` new and without a gap. */
  ghost predicate PlacedTo(names: seq<Counter>, counts: seq<nat>, slots: seq<nat>, i: nat, base: seq<nat>,
                           origin: seq<int>, old': seq<Counter>, oldSlots: seq<nat>) {
    && Layout(names, counts, slots) && Origins(names, slots, origin, old', oldSlots, base) && i <= |names| && |base| == POOLS
    && (forall p | 0 <= p < POOLS :: base[p] <= counts[p]) && Dense(names, slots, base, counts)
    && forall j | 0 <= j < i :: names[j].offset >= 0
  }

  lemma {:induction false} PlaceOne(names: seq<Counter>, counts: seq<nat>, slots: seq<nat>, i: nat, base: seq<nat>,
                                    origin: seq<int>, old': seq<Counter>, oldSlots: seq<nat>, p: nat, offset: nat)
    requires PlacedTo(names, counts, slots, i, base, origin, old', oldSlots) && i < |names| && names[i].offset == -1
    requires p == Pool(names[i]) < POOLS && offset == OffsetOf(counts[p], p)
    ensures PlacedTo(names[i := names[i].(offset := offset)], counts[p := counts[p] + 1],
                     slots[i := counts[p]], i + 1, base, origin, old', oldSlots)
  {
    PlaceLayout(names, counts, slots, i, offset);
    PlaceOrigins(names, slots, origin, old', oldSlots, base, i, offset, counts[p]);
    PlaceDense(names, slots, base, counts, i, offset);
  }

  lemma {:induction false} FreshOrigins(names: seq<Counter>, counts: seq<nat>, base: seq<nat>, slots: seq<nat>,
                                        old': seq<Counter>, oldSlots: seq<nat>)
    requires Layout(names, counts, slots) && |old'| == |oldSlots| && |base| == POOLS
    requires forall i | 0 <= i < |names| :: names[i].offset == -1
    ensures Layout(names, base, slots)
    ensures Origins(names, slots, seq(|names|, i => -1), old', oldSlots, base)
  {
    forall j | 0 <= j < |names|
      ensures PlacedAt(names, base, slots, j)
      ensures FromOld(names, slots, seq(|names|, i => -1), old', oldSlots, base, j)
    {
    }
    forall j, h | 0 <= j < |names| && 0 <= h < |names|
      ensures SlotsDiffer(names, slots, j, h)
    {
    }
  }
}
