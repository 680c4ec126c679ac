/**
 The pages behind counter storages of lib/counters/counters.c: storages list blocks of 512 words, pool by
 pool, and share them by reference count.
 */
module CounterPages {
  import opened CounterRegistry

  const PAGE_BYTES: nat := 4096
  const PAGE_WORDS: nat := 512

  datatype Block = Block(refcnt: nat, page: seq<nat>)

  /** The blocks of each pool, in order; a storage whose count is zero has been freed. */
  datatype Storage = Storage(registry: nat, refcnt: nat, pools: seq<seq<nat>>)

  datatype Store = Store(blocks: seq<Block>, storages: seq<Storage>)

  ghost predicate Lists(s: Storage, b: nat) {
    exists p | 0 <= p < |s.pools| :: b in s.pools[p]
  }

  function One(c: bool): nat {
    if c then 1 else 0
  }

  /** The number of storages that list block `b`. */
  ghost function Uses(ss: seq<Storage>, b: nat): nat {
    if |ss| == 0 then 0 else Uses(ss[..|ss| - 1], b) + if Lists(ss[|ss| - 1], b) then 1 else 0
  }

  /** No block is listed twice by one storage. */
  ghost predicate Apart(s: Storage, p: nat, k: nat, q: nat, j: nat)
    requires p < |s.pools| && q < |s.pools| && k < |s.pools[p]| && j < |s.pools[q]|
  {
    s.pools[p][k] == s.pools[q][j] ==> p == q && k == j
  }

  ghost predicate StorageOk(s: Storage, blocks: nat) {
    && |s.pools| == POOLS
    && (forall p, k | 0 <= p < POOLS && 0 <= k < |s.pools[p]| :: s.pools[p][k] < blocks)
    && (forall p, k, q, j {:trigger Apart(s, p, k, q, j)}
          | 0 <= p < POOLS && 0 <= k < |s.pools[p]| && 0 <= q < POOLS && 0 <= j < |s.pools[q]| :: Apart(s, p, k, q, j))
  }

  /** Reference counts are exact: a block is in use exactly as long as some storage lists it. */
  ghost predicate Inv(st: Store) {
    && (forall i {:trigger StorageOk(st.storages[i], |st.blocks|)} | 0 <= i < |st.storages| :: StorageOk(st.storages[i], |st.blocks|))
    && (forall b {:trigger Uses(st.storages, b)} | 0 <= b < |st.blocks| :: st.blocks[b].refcnt == Uses(st.storages, b))
    && forall b | 0 <= b < |st.blocks| :: |st.blocks[b].page| == PAGE_WORDS
  }

  lemma {:induction false} UsesUpdate(ss: seq<Storage>, i: nat, s: Storage, b: nat)
    requires i < |ss|
    ensures Uses(ss[i := s], b) + One(Lists(ss[i], b)) == Uses(ss, b) + One(Lists(s, b))
    ensures Lists(ss[i], b) ==> Uses(ss, b) > 0
    decreases |ss|
  {
    var n := |ss| - 1;
    if i == n {
      assert ss[i := s][..n] == ss[..n];
    } else {
      assert ss[i := s][..n] == ss[..n][i := s];
      UsesUpdate(ss[..n], i, s, b);
    }
  }

  lemma {:induction false} UsesNone(ss: seq<Storage>, b: nat)
    requires forall i | 0 <= i < |ss| :: !Lists(ss[i], b)
    ensures Uses(ss, b) == 0
    decreases |ss|
  {
    if |ss| > 0 {
      UsesNone(ss[..|ss| - 1], b);
    }
  }

  // ---- taking a block into a storage ----

  ghost function With(s: Storage, p: nat, b: nat): Storage
    requires p < |s.pools|
  {
    s.(pools := s.pools[p := s.pools[p] + [b]])
  }

  lemma {:induction false} WithLists(s: Storage, p: nat, b: nat, c: nat)
    requires p < |s.pools|
    ensures Lists(With(s, p, b), c) <==> Lists(s, c) || c == b
  {
    var s' := With(s, p, b);
    if Lists(s, c) {
      var q :| 0 <= q < |s.pools| && c in s.pools[q];
      assert c in s'.pools[q];
    }
    assert b in s'.pools[p];
    if Lists(s', c) {
      var q :| 0 <= q < |s'.pools| && c in s'.pools[q];
      assert c in s.pools[q] || c == b;
    }
  }

  lemma {:induction false} WithOk(s: Storage, p: nat, b: nat, blocks: nat)
    requires StorageOk(s, blocks) && p < POOLS && b < blocks && !Lists(s, b)
    ensures StorageOk(With(s, p, b), blocks)
  {
    var s' := With(s, p, b);
    forall q, k, r, j | 0 <= q < POOLS && 0 <= k < |s'.pools[q]| && 0 <= r < POOLS && 0 <= j < |s'.pools[r]|
      ensures Apart(s', q, k, r, j)
    {
      assert k < |s.pools[q]| ==> s'.pools[q][k] in s.pools[q];
      assert j < |s.pools[r]| ==> s'.pools[r][j] in s.pools[r];
      if k < |s.pools[q]| && j < |s.pools[r]| {
        assert Apart(s, q, k, r, j);
      }
    }
  }

  /** A block another storage has, now listed by this one too. */
  ghost function Shared(st: Store, i: nat, p: nat, b: nat): Store
    requires i < |st.storages| && p < |st.storages[i].pools| && b < |st.blocks|
  {
    Store(st.blocks[b := st.blocks[b].(refcnt := st.blocks[b].refcnt + 1)], st.storages[i := With(st.storages[i], p, b)])
  }

  lemma {:induction false} SharedKeeps(st: Store, i: nat, p: nat, b: nat)
    requires Inv(st) && i < |st.storages| && p < POOLS && b < |st.blocks| && !Lists(st.storages[i], b)
    ensures |st.storages[i].pools| == POOLS && Inv(Shared(st, i, p, b))
  {
    assert StorageOk(st.storages[i], |st.blocks|);
    var st' := Shared(st, i, p, b);
    WithOk(st.storages[i], p, b, |st.blocks|);
    forall j | 0 <= j < |st'.storages|
      ensures StorageOk(st'.storages[j], |st'.blocks|)
    {
      assert StorageOk(st.storages[j], |st.blocks|);
    }
    forall c | 0 <= c < |st'.blocks|
      ensures st'.blocks[c].refcnt == Uses(st'.storages, c)
    {
      WithLists(st.storages[i], p, b, c);
      UsesUpdate(st.storages, i, With(st.storages[i], p, b), c);
      assert st.blocks[c].refcnt == Uses(st.storages, c);
    }
  }

  ghost function Zeros(): seq<nat> {
    seq(PAGE_WORDS, i => 0)
  }

  /** A new zeroed block for this storage. */
  ghost function Extended(st: Store, i: nat, p: nat): Store
    requires i < |st.storages| && p < |st.storages[i].pools|
  {
    Store(st.blocks + [Block(1, Zeros())], st.storages[i := With(st.storages[i], p, |st.blocks|)])
  }

  lemma {:induction false} NotListedYet(st: Store, i: nat)
    requires Inv(st) && i < |st.storages|
    ensures !Lists(st.storages[i], |st.blocks|)
  {
    assert StorageOk(st.storages[i], |st.blocks|);
  }

  lemma {:induction false} ExtendedKeeps(st: Store, i: nat, p: nat)
    requires Inv(st) && i < |st.storages| && p < POOLS
    ensures |st.storages[i].pools| == POOLS && Inv(Extended(st, i, p))
  {
    assert StorageOk(st.storages[i], |st.blocks|);
    var st' := Extended(st, i, p);
    NotListedYet(st, i);
    forall j | 0 <= j < |st'.storages|
      ensures StorageOk(st'.storages[j], |st'.blocks|)
    {
      assert StorageOk(st.storages[j], |st.blocks|);
      LargerOk(st.storages[j], |st.blocks|, |st'.blocks|);
      if j == i {
        WithOk(st.storages[i], p, |st.blocks|, |st'.blocks|);
      }
    }
    forall c | 0 <= c < |st'.blocks|
      ensures st'.blocks[c].refcnt == Uses(st'.storages, c)
    {
      WithLists(st.storages[i], p, |st.blocks|, c);
      UsesUpdate(st.storages, i, With(st.storages[i], p, |st.blocks|), c);
      if c < |st.blocks| {
        assert st.blocks[c].refcnt == Uses(st.storages, c);
      } else {
        forall j | 0 <= j < |st.storages|
          ensures !Lists(st.storages[j], c)
        {
          NotListedYet(st, j);
        }
        UsesNone(st.storages, c);
      }
    }
  }

  lemma {:induction false} LargerOk(s: Storage, m: nat, n: nat)
    requires StorageOk(s, m) && m <= n
    ensures StorageOk(s, n)
  {
    forall q, k, r, j | 0 <= q < POOLS && 0 <= k < |s.pools[q]| && 0 <= r < POOLS && 0 <= j < |s.pools[r]|
      ensures Apart(s, q, k, r, j)
    {
      assert Apart(s, q, k, r, j);
    }
  }

  // ---- letting a block go ----

  /** The first block of a pool of a storage, no longer listed. */
  ghost function Let(st: Store, i: nat, p: nat): Store
    requires i < |st.storages| && p < |st.storages[i].pools| && st.storages[i].pools[p] != []
    requires st.storages[i].pools[p][0] < |st.blocks| && st.blocks[st.storages[i].pools[p][0]].refcnt > 0
  {
    var s, b := st.storages[i], st.storages[i].pools[p][0];
    Store(st.blocks[b := st.blocks[b].(refcnt := st.blocks[b].refcnt - 1)],
          st.storages[i := s.(pools := s.pools[p := s.pools[p][1..]])])
  }

  lemma {:induction false} LetLists(s: Storage, p: nat, c: nat, blocks: nat)
    requires StorageOk(s, blocks) && p < POOLS && s.pools[p] != []
    ensures Lists(s.(pools := s.pools[p := s.pools[p][1..]]), c) <==> Lists(s, c) && c != s.pools[p][0]
  {
    var s', b := s.(pools := s.pools[p := s.pools[p][1..]]), s.pools[p][0];
    if Lists(s, c) && c != b {
      var q :| 0 <= q < |s.pools| && c in s.pools[q];
      assert s.pools[p] == [b] + s.pools[p][1..];
      assert c in s'.pools[q];
    }
    if Lists(s', c) {
      var q :| 0 <= q < |s'.pools| && c in s'.pools[q];
      var k :| 0 <= k < |s'.pools[q]| && s'.pools[q][k] == c;
      if q == p {
        assert s.pools[p][k + 1] == c;
        assert Apart(s, p, 0, p, k + 1);
      } else {
        assert Apart(s, p, 0, q, k);
      }
    }
  }

  lemma {:induction false} LetOk(s: Storage, p: nat, blocks: nat)
    requires StorageOk(s, blocks) && p < POOLS && s.pools[p] != []
    ensures StorageOk(s.(pools := s.pools[p := s.pools[p][1..]]), blocks)
  {
    var s' := s.(pools := s.pools[p := s.pools[p][1..]]);
    forall q, k, r, j | 0 <= q < POOLS && 0 <= k < |s'.pools[q]| && 0 <= r < POOLS && 0 <= j < |s'.pools[r]|
      ensures Apart(s', q, k, r, j)
    {
      assert Apart(s, q, if q == p then k + 1 else k, r, if r == p then j + 1 else j);
    }
  }

  lemma {:induction false} LetKeeps(st: Store, i: nat, p: nat)
    requires Inv(st) && i < |st.storages| && p < POOLS && |st.storages[i].pools| == POOLS && st.storages[i].pools[p] != []
    ensures st.storages[i].pools[p][0] < |st.blocks| && st.blocks[st.storages[i].pools[p][0]].refcnt > 0
    ensures Inv(Let(st, i, p))
  {
    var s, b := st.storages[i], st.storages[i].pools[p][0];
    assert StorageOk(s, |st.blocks|);
    assert b in s.pools[p];
    var s' := s.(pools := s.pools[p := s.pools[p][1..]]);
    UsesUpdate(st.storages, i, s', b);
    assert st.blocks[b].refcnt == Uses(st.storages, b);
    var st' := Let(st, i, p);
    forall j | 0 <= j < |st'.storages|
      ensures StorageOk(st'.storages[j], |st'.blocks|)
    {
      assert StorageOk(st.storages[j], |st.blocks|);
      LetOk(s, p, |st.blocks|);
    }
    forall c | 0 <= c < |st'.blocks|
      ensures st'.blocks[c].refcnt == Uses(st'.storages, c)
    {
      LetLists(s, p, c, |st.blocks|);
      UsesUpdate(st.storages, i, s', c);
      assert st.blocks[c].refcnt == Uses(st.storages, c);
    }
  }

  /** A block is referenced exactly while some storage lists it; it is freed with the last one. */
  lemma {:induction false} ReferencedIffListed(st: Store, b: nat)
    requires Inv(st) && b < |st.blocks|
    ensures st.blocks[b].refcnt > 0 <==> exists i | 0 <= i < |st.storages| :: Lists(st.storages[i], b)
  {
    assert st.blocks[b].refcnt == Uses(st.storages, b);
    if st.blocks[b].refcnt > 0 {
      var i := UsesWitness(st.storages, b);
    } else if i :| 0 <= i < |st.storages| && Lists(st.storages[i], b) {
      UsesUpdate(st.storages, i, st.storages[i], b);
    }
  }

  lemma {:induction false} UsesWitness(ss: seq<Storage>, b: nat) returns (i: nat)
    requires Uses(ss, b) > 0
    ensures i < |ss| && Lists(ss[i], b)
    decreases |ss|
  {
    var n := |ss| - 1;
    if Lists(ss[n], b) {
      i := n;
    } else {
      i := UsesWitness(ss[..n], b);
    }
  }
}
