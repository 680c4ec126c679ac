/**
 The bucket store of lib/fwstate/fwmap.h as a value: primary buckets of four slots, each the head of
 a chain of extra buckets, and the key and value stores the slots point into.
 */
module FwMapRep {
  import opened FwOps

  /** One slot of a bucket; signature and deadline are zero when it was never used. */
  datatype Slot = Slot(sig: nat, deadline: nat, idx: nat)

  /** What a key maps to. */
  datatype Cell = Cell(value: Value, deadline: nat)

  /** Where a key belongs: its primary bucket and its nonzero signature. */
  datatype Home = Home(bucket: nat, sig: nat)

  /** Position `at` in chain `chain`: of a bucket or of a slot. */
  datatype Place = Place(chain: nat, at: nat)

  /**
   The chains: `p` primary buckets come first, then the extra buckets; `next[c]` numbers the extra
   bucket that follows bucket `c`, 0 for none. `chains[b]` lists the buckets of primary bucket `b`,
   `link[c]` is the place of bucket `c` in them.
   */
  datatype Links = Links(p: nat, next: seq<nat>, extraFree: nat, chains: seq<seq<nat>>, link: seq<Place>)

  /** Bucket `j` of chain `b` is where `link` says and leads to the next one. */
  ghost predicate LinkOk(l: Links, b: nat, j: nat)
    requires b < |l.chains| && j < |l.chains[b]| && |l.next| == |l.link|
  {
    && l.chains[b][j] < |l.next| && l.link[l.chains[b][j]] == Place(b, j)
    && (j > 0 ==> l.p < l.chains[b][j] < l.p + l.extraFree)
    && l.next[l.chains[b][j]] == (if j + 1 < |l.chains[b]| then l.chains[b][j + 1] - l.p else 0)
  }

  /** Chains start at their primary bucket, follow the links and share no bucket. */
  ghost predicate LinksOk(l: Links) {
    && |l.chains| == l.p <= |l.next| == |l.link|
    && 1 <= l.extraFree && (l.extraFree == 1 || l.p + l.extraFree <= |l.next|)
    && (forall b | 0 <= b < l.p :: |l.chains[b]| >= 1 && l.chains[b][0] == b)
    && (forall b, j {:trigger LinkOk(l, b, j)} | 0 <= b < l.p && 0 <= j < |l.chains[b]| :: LinkOk(l, b, j))
  }

  /** The number of slots in chain `b`. */
  ghost function Room(l: Links, b: nat): nat
    requires b < |l.chains|
  {
    4 * |l.chains[b]|
  }

  /** The index of slot `q` of chain `b`; slot `i` of bucket `c` is at `4*c+i`. */
  ghost function Ix(l: Links, b: nat, q: nat): (i: nat)
    requires LinksOk(l) && b < l.p && q < Room(l, b)
    ensures i < 4 * |l.next|
  {
    assert LinkOk(l, b, q / 4);
    4 * l.chains[b][q / 4] + q % 4
  }

  lemma {:induction false} IxInjective(l: Links, b: nat, q: nat, c: nat, o: nat)
    requires LinksOk(l) && b < l.p && q < Room(l, b) && c < l.p && o < Room(l, c)
    ensures Ix(l, b, q) == Ix(l, c, o) <==> b == c && q == o
  {
    if Ix(l, b, q) == Ix(l, c, o) {
      assert l.chains[b][q / 4] == l.chains[c][o / 4];
      assert LinkOk(l, b, q / 4) && LinkOk(l, c, o / 4);
    }
  }

  lemma {:induction false} IxBelowFree(l: Links, b: nat, q: nat)
    requires LinksOk(l) && b < l.p && q < Room(l, b)
    ensures Ix(l, b, q) < 4 * (l.p + l.extraFree)
  {
    assert LinkOk(l, b, q / 4);
  }

  /**
   The whole store. `used[b]` counts the occupied slots of a chain, `owner[i]` is the slot that
   holds store index `i`, `spot[k]` the slot that holds key `k`.
   */
  datatype Rep<K> = Rep(l: Links, slots: seq<Slot>, keys: seq<K>, values: seq<Value>, cursor: nat,
                        used: seq<nat>, owner: seq<Place>, spot: map<K, Place>)

  ghost predicate ShapeOk<K>(r: Rep<K>) {
    && LinksOk(r.l)
    && |r.slots| == 4 * |r.l.next|
    && |r.used| == r.l.p && (forall b | 0 <= b < r.l.p :: r.used[b] <= Room(r.l, b))
    && |r.owner| == r.cursor <= |r.keys| == |r.values|
  }

  ghost predicate InChain(l: Links, b: nat, q: nat) {
    LinksOk(l) && b < l.p && q < Room(l, b)
  }

  /** Occupied slots come first and belong to their key; the rest of the chain is unused. */
  ghost predicate SlotOk<K>(home: K -> Home, r: Rep<K>, b: nat, q: nat)
    requires ShapeOk(r) && InChain(r.l, b, q)
  {
    var s := r.slots[Ix(r.l, b, q)];
    if q < r.used[b] then
      && s.deadline > 0 && s.idx < r.cursor && r.owner[s.idx] == Place(b, q)
      && home(r.keys[s.idx]) == Home(b, s.sig)
      && r.keys[s.idx] in r.spot && r.spot[r.keys[s.idx]] == Place(b, q)
    else
      s.deadline == 0 && s.sig == 0
  }

  ghost predicate Holds<K>(r: Rep<K>, k: K)
    requires ShapeOk(r) && k in r.spot
  {
    var w := r.spot[k];
    && InChain(r.l, w.chain, w.at) && w.at < r.used[w.chain]
    && r.slots[Ix(r.l, w.chain, w.at)].idx < r.cursor && r.keys[r.slots[Ix(r.l, w.chain, w.at)].idx] == k
  }

  ghost predicate Parts<K(!new)>(home: K -> Home, r: Rep<K>) {
    && ShapeOk(r)
    && (forall b, q {:trigger SlotOk(home, r, b, q)} | InChain(r.l, b, q) :: SlotOk(home, r, b, q))
    && (forall i | 4 * (r.l.p + r.l.extraFree) <= i < |r.slots| :: r.slots[i].deadline == 0 && r.slots[i].sig == 0)
    && (forall k {:trigger Holds(r, k)} | k in r.spot :: Holds(r, k))
    && (forall k :: home(k).bucket < r.l.p && home(k).sig > 0)
  }

  /** The invariant of the store: compared with `true`, `Parts` is proved as one fact and not clause by clause. */
  ghost predicate Inv<K(!new)>(home: K -> Home, r: Rep<K>) {
    Parts(home, r) == true
  }

  /** The slot of a key. */
  ghost function SlotOf<K>(r: Rep<K>, k: K): Slot
    requires ShapeOk(r) && k in r.spot && Holds(r, k)
  {
    r.slots[Ix(r.l, r.spot[k].chain, r.spot[k].at)]
  }

  datatype Option<T> = None | Some(value: T)

  /** The map with deadlines that the store stands for. */
  ghost function Find<K(!new)>(home: K -> Home, r: Rep<K>, k: K): Option<Cell>
    requires Inv(home, r)
  {
    if k in r.spot then
      assert Holds(r, k);
      Some(Cell(r.values[SlotOf(r, k).idx], SlotOf(r, k).deadline))
    else None
  }

  ghost function KeyAt<K(!new)>(home: K -> Home, r: Rep<K>, b: nat, q: nat): (k: K)
    requires Inv(home, r) && InChain(r.l, b, q) && q < r.used[b]
    ensures k in r.spot && r.spot[k] == Place(b, q) && home(k) == Home(b, r.slots[Ix(r.l, b, q)].sig)
  {
    assert SlotOk(home, r, b, q);
    r.keys[r.slots[Ix(r.l, b, q)].idx]
  }

  // ---- the ways an entry changes the store ----

  /** An occupied slot given to `key`: a new deadline for its own key, or a takeover from another. */
  ghost function Claim<K(!new)>(home: K -> Home, r: Rep<K>, b: nat, q: nat, key: K, d: nat): Rep<K>
    requires Inv(home, r) && InChain(r.l, b, q) && q < r.used[b]
  {
    assert SlotOk(home, r, b, q);
    var x := Ix(r.l, b, q);
    var i := r.slots[x].idx;
    r.(slots := r.slots[x := Slot(home(key).sig, d, i)], keys := r.keys[i := key],
       spot := (r.spot - {r.keys[i]})[key := Place(b, q)])
  }

  lemma {:induction false} ClaimSlot<K(!new)>(home: K -> Home, r: Rep<K>, b: nat, q: nat, key: K, d: nat, c: nat, o: nat)
    requires Inv(home, r) && InChain(r.l, b, q) && q < r.used[b] && d > 0 && home(key).bucket == b
    requires key == KeyAt(home, r, b, q) || key !in r.spot
    requires InChain(r.l, c, o)
    ensures ShapeOk(Claim(home, r, b, q, key, d)) && SlotOk(home, Claim(home, r, b, q, key, d), c, o)
  {
    IxInjective(r.l, b, q, c, o);
    assert SlotOk(home, r, b, q) && SlotOk(home, r, c, o);
  }

  lemma {:induction false} ClaimHolds<K(!new)>(home: K -> Home, r: Rep<K>, b: nat, q: nat, key: K, d: nat, k: K)
    requires Inv(home, r) && InChain(r.l, b, q) && q < r.used[b]
    requires key == KeyAt(home, r, b, q) || key !in r.spot
    requires k in Claim(home, r, b, q, key, d).spot
    ensures ShapeOk(Claim(home, r, b, q, key, d)) && Holds(Claim(home, r, b, q, key, d), k)
    ensures k != key ==> k in r.spot && Holds(r, k) && SlotOf(Claim(home, r, b, q, key, d), k) == SlotOf(r, k)
  {
    assert SlotOk(home, r, b, q);
    if k != key {
      assert Holds(r, k);
      IxInjective(r.l, b, q, r.spot[k].chain, r.spot[k].at);
      assert SlotOk(home, r, r.spot[k].chain, r.spot[k].at);
    }
  }

  lemma {:induction false} ClaimKeeps<K(!new)>(home: K -> Home, r: Rep<K>, b: nat, q: nat, key: K, d: nat)
    requires Inv(home, r) && InChain(r.l, b, q) && q < r.used[b] && d > 0 && home(key).bucket == b
    requires key == KeyAt(home, r, b, q) || key !in r.spot
    ensures Inv(home, Claim(home, r, b, q, key, d))
  {
    var r' := Claim(home, r, b, q, key, d);
    assert SlotOk(home, r, b, q);
    IxBelowFree(r.l, b, q);
    forall c, o | InChain(r.l, c, o)
      ensures SlotOk(home, r', c, o)
    {
      ClaimSlot(home, r, b, q, key, d, c, o);
    }
    forall k | k in r'.spot
      ensures Holds(r', k)
    {
      ClaimHolds(home, r, b, q, key, d, k);
    }
    assert Parts(home, r');
  }

  lemma {:induction false} ClaimFind<K(!new)>(home: K -> Home, r: Rep<K>, b: nat, q: nat, key: K, d: nat, k: K)
    requires Inv(home, r) && InChain(r.l, b, q) && q < r.used[b] && Inv(home, Claim(home, r, b, q, key, d))
    requires key == KeyAt(home, r, b, q) || key !in r.spot
    ensures r.slots[Ix(r.l, b, q)].idx < |r.values|
    ensures Find(home, Claim(home, r, b, q, key, d), k) ==
            if k == key then Some(Cell(r.values[r.slots[Ix(r.l, b, q)].idx], d))
            else if k == KeyAt(home, r, b, q) then None
            else Find(home, r, k)
  {
    assert SlotOk(home, r, b, q);
    if k in Claim(home, r, b, q, key, d).spot {
      ClaimHolds(home, r, b, q, key, d, k);
    }
  }

  /** The first unused slot of a chain given to a new key, with the next store index. */
  ghost function Append<K>(home: K -> Home, r: Rep<K>, b: nat, key: K, d: nat): Rep<K>
    requires ShapeOk(r) && b < r.l.p && InChain(r.l, b, r.used[b]) && r.cursor < |r.keys|
  {
    var q := r.used[b];
    r.(slots := r.slots[Ix(r.l, b, q) := Slot(home(key).sig, d, r.cursor)], keys := r.keys[r.cursor := key],
       cursor := r.cursor + 1, used := r.used[b := q + 1], owner := r.owner + [Place(b, q)],
       spot := r.spot[key := Place(b, q)])
  }

  lemma {:induction false} AppendSlot<K(!new)>(home: K -> Home, r: Rep<K>, b: nat, key: K, d: nat, c: nat, o: nat)
    requires Inv(home, r) && b < r.l.p && InChain(r.l, b, r.used[b]) && r.cursor < |r.keys|
    requires d > 0 && home(key).bucket == b && key !in r.spot && InChain(r.l, c, o)
    ensures ShapeOk(Append(home, r, b, key, d)) && SlotOk(home, Append(home, r, b, key, d), c, o)
  {
    IxInjective(r.l, b, r.used[b], c, o);
    assert SlotOk(home, r, c, o);
  }

  lemma {:induction false} AppendHolds<K(!new)>(home: K -> Home, r: Rep<K>, b: nat, key: K, d: nat, k: K)
    requires Inv(home, r) && b < r.l.p && InChain(r.l, b, r.used[b]) && r.cursor < |r.keys| && key !in r.spot
    requires k in Append(home, r, b, key, d).spot
    ensures ShapeOk(Append(home, r, b, key, d)) && Holds(Append(home, r, b, key, d), k)
    ensures k != key ==> k in r.spot && Holds(r, k) && SlotOf(Append(home, r, b, key, d), k) == SlotOf(r, k)
  {
    if k != key {
      assert Holds(r, k);
      IxInjective(r.l, b, r.used[b], r.spot[k].chain, r.spot[k].at);
    }
  }

  lemma {:induction false} AppendKeeps<K(!new)>(home: K -> Home, r: Rep<K>, b: nat, key: K, d: nat)
    requires Inv(home, r) && b < r.l.p && InChain(r.l, b, r.used[b]) && r.cursor < |r.keys|
    requires d > 0 && home(key).bucket == b && key !in r.spot
    ensures Inv(home, Append(home, r, b, key, d))
  {
    var r' := Append(home, r, b, key, d);
    IxBelowFree(r.l, b, r.used[b]);
    forall c, o | InChain(r.l, c, o)
      ensures SlotOk(home, r', c, o)
    {
      AppendSlot(home, r, b, key, d, c, o);
    }
    forall k | k in r'.spot
      ensures Holds(r', k)
    {
      AppendHolds(home, r, b, key, d, k);
    }
    assert Parts(home, r');
  }

  lemma {:induction false} AppendFind<K(!new)>(home: K -> Home, r: Rep<K>, b: nat, key: K, d: nat, k: K)
    requires Inv(home, r) && b < r.l.p && InChain(r.l, b, r.used[b]) && r.cursor < |r.keys| && key !in r.spot
    requires Inv(home, Append(home, r, b, key, d))
    ensures Find(home, Append(home, r, b, key, d), k) ==
            if k == key then Some(Cell(r.values[r.cursor], d)) else Find(home, r, k)
  {
    if k in Append(home, r, b, key, d).spot {
      AppendHolds(home, r, b, key, d, k);
    }
  }

  /** A fresh extra bucket at the end of a full chain. */
  ghost function ExtendLinks(l: Links, b: nat): Links
    requires LinksOk(l) && b < l.p && l.p + l.extraFree < |l.next|
  {
    var len := |l.chains[b]|;
    var c := l.p + l.extraFree;
    assert LinkOk(l, b, len - 1);
    Links(l.p, l.next[l.chains[b][len - 1] := l.extraFree][c := 0], l.extraFree + 1,
          l.chains[b := l.chains[b] + [c]], l.link[c := Place(b, len)])
  }

  lemma {:induction false} ExtendLinksOk(l: Links, b: nat)
    requires LinksOk(l) && b < l.p && l.p + l.extraFree < |l.next|
    ensures LinksOk(ExtendLinks(l, b))
  {
    var l' := ExtendLinks(l, b);
    var len := |l.chains[b]|;
    assert LinkOk(l, b, len - 1);
    forall c, j | 0 <= c < l.p && 0 <= j < |l'.chains[c]|
      ensures LinkOk(l', c, j)
    {
      if !(c == b && j == len) {
        assert LinkOk(l, c, j);
      }
    }
  }

  lemma {:induction false} ExtendIx(l: Links, b: nat, c: nat, o: nat)
    requires LinksOk(l) && b < l.p && l.p + l.extraFree < |l.next| && LinksOk(ExtendLinks(l, b)) && InChain(ExtendLinks(l, b), c, o)
    ensures if InChain(l, c, o) then Ix(ExtendLinks(l, b), c, o) == Ix(l, c, o)
            else c == b && o >= Room(l, b) && Ix(ExtendLinks(l, b), c, o) >= 4 * (l.p + l.extraFree)
  {
  }

  lemma {:induction false} ExtendKeeps<K(!new)>(home: K -> Home, r: Rep<K>, b: nat)
    requires Inv(home, r) && b < r.l.p && r.used[b] == Room(r.l, b) && r.l.p + r.l.extraFree < |r.l.next|
    ensures Inv(home, r.(l := ExtendLinks(r.l, b)))
  {
    var r' := r.(l := ExtendLinks(r.l, b));
    ExtendLinksOk(r.l, b);
    forall c, o | InChain(r'.l, c, o)
      ensures SlotOk(home, r', c, o)
    {
      ExtendIx(r.l, b, c, o);
      assert InChain(r.l, c, o) ==> SlotOk(home, r, c, o);
    }
    forall k | k in r'.spot
      ensures Holds(r', k)
    {
      assert Holds(r, k);
      ExtendIx(r.l, b, r.spot[k].chain, r.spot[k].at);
    }
    assert Parts(home, r');
  }

  lemma {:induction false} ExtendFind<K(!new)>(home: K -> Home, r: Rep<K>, b: nat, k: K)
    requires Inv(home, r) && b < r.l.p && r.used[b] == Room(r.l, b) && r.l.p + r.l.extraFree < |r.l.next|
    requires Inv(home, r.(l := ExtendLinks(r.l, b)))
    ensures Find(home, r.(l := ExtendLinks(r.l, b)), k) == Find(home, r, k)
  {
    if k in r.spot {
      assert Holds(r, k);
      ExtendIx(r.l, b, r.spot[k].chain, r.spot[k].at);
    }
  }

  /** A new value for a stored key. */
  lemma {:induction false} SetValueKeeps<K(!new)>(home: K -> Home, r: Rep<K>, i: nat, v: Value)
    requires Inv(home, r) && i < |r.values|
    ensures Inv(home, r.(values := r.values[i := v]))
  {
    var r' := r.(values := r.values[i := v]);
    forall c, o | InChain(r.l, c, o)
      ensures SlotOk(home, r', c, o)
    {
      assert SlotOk(home, r, c, o);
    }
    forall k | k in r'.spot
      ensures Holds(r', k)
    {
      assert Holds(r, k);
    }
    assert Parts(home, r');
  }

  lemma {:induction false} SetValueFind<K(!new)>(home: K -> Home, r: Rep<K>, i: nat, v: Value, key: K, k: K)
    requires Inv(home, r) && i < |r.values| && key in r.spot && Holds(r, key) && SlotOf(r, key).idx == i
    requires Inv(home, r.(values := r.values[i := v]))
    ensures Find(home, r.(values := r.values[i := v]), k) ==
            if k == key then Some(Cell(v, SlotOf(r, key).deadline)) else Find(home, r, k)
  {
    if k in r.spot {
      assert Holds(r, k);
      assert SlotOk(home, r, r.spot[k].chain, r.spot[k].at) && SlotOk(home, r, r.spot[key].chain, r.spot[key].at);
    }
  }
}
