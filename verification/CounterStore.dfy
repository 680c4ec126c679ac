/** Counter storages across generations (lib/counters/counters.c). */
module CounterStore {
  import opened Arith
  import opened KeyArith
  import opened CounterPages
  import opened CounterRegistry

  const NO_POOLS: seq<seq<nat>> := [[], [], [], [], [], [], []]

  // ---- cells ----

  /** Word `f` of the pool of a storage, counted through its blocks. */
  ghost predicate InPool(s: Storage, p: nat, f: nat) {
    p < |s.pools| && f / PAGE_WORDS < |s.pools[p]|
  }

  ghost function WordAt(blocks: seq<Block>, s: Storage, p: nat, f: nat): nat
    requires InPool(s, p, f) && s.pools[p][f / PAGE_WORDS] < |blocks|
    requires |blocks[s.pools[p][f / PAGE_WORDS]].page| == PAGE_WORDS
  {
    blocks[s.pools[p][f / PAGE_WORDS]].page[f % PAGE_WORDS]
  }

  lemma {:induction false} PageSplit(p: nat)
    requires p <= 6
    ensures Pow2(p) * Pow2(9 - p) == PAGE_WORDS && Pow2(p) > 0
  {
    Pow2Sum(p, 9 - p);
    assert Pow2(9) == 512 by {
      assert Pow2(3) == 8;
      Pow2Sum(3, 3);
      Pow2Sum(6, 3);
    }
  }

  lemma {:induction false} CellArithmetic(x: nat, q: nat, rem: nat, w: nat)
    requires x == q * 512 + rem && rem + w < 512
    ensures 8 * x / 4096 == (x + w) / 512 && 8 * x % 4096 / 8 + w == (x + w) % 512
  {
  }

  /** `n`-word slots, `m` to a page. */
  lemma {:induction false} SlotInPage(slot: nat, n: nat, m: nat, w: nat) returns (q: nat, rem: nat)
    requires n * m == 512 && w < n
    ensures slot * n == q * 512 + rem && rem + w < 512
  {
    q := slot / m;
    var r := slot % m;
    rem := r * n;
    RowOrder(r + 1, m, n);
    assert (r + 1) * n == r * n + n && m * n == 512;
    assert slot == q * m + r;
    assert (q * m + r) * n == q * m * n + r * n;
    assert q * m * n == q * (m * n);
  }

  /** A slot never crosses a page: byte offset, block and place of each of its words. */
  lemma {:induction false} CellOfSlot(slot: nat, p: nat, w: nat)
    requires p <= 6 && w < Pow2(p)
    ensures var offset, f := OffsetOf(slot, p), slot * Pow2(p) + w;
            && offset == 8 * (slot * Pow2(p))
            && offset / PAGE_BYTES == f / PAGE_WORDS && offset % PAGE_BYTES / 8 + w == f % PAGE_WORDS
  {
    PageSplit(p);
    var x := slot * Pow2(p);
    var q, rem := SlotInPage(slot, Pow2(p), Pow2(9 - p), w);
    CellArithmetic(x, q, rem, w);
    MulAssoc8(slot, Pow2(p));
  }

  lemma {:induction false} MulAssoc8(a: nat, n: nat)
    ensures a * (8 * n) == 8 * (a * n)
  {
  }

  /** Different words of a storage are different cells. */
  lemma {:induction false} WordsApart(s: Storage, blocks: nat, p: nat, f: nat, q: nat, g: nat)
    requires StorageOk(s, blocks) && InPool(s, p, f) && InPool(s, q, g) && (p != q || f != g)
    ensures s.pools[p][f / PAGE_WORDS] != s.pools[q][g / PAGE_WORDS] || f % PAGE_WORDS != g % PAGE_WORDS
  {
    assert Apart(s, p, f / PAGE_WORDS, q, g / PAGE_WORDS);
  }

  /**
   Two counters of one storage never share a word: those of a pool have different slots, those of different
   pools different blocks.
   */
  lemma {:induction false} CountersApart(s: Storage, blocks: nat, p: nat, a: nat, v: nat, q: nat, b: nat, w: nat, f: nat, g: nat)
    requires StorageOk(s, blocks) && v < Pow2(p) && w < Pow2(q) && (p != q || a != b)
    requires f == a * Pow2(p) + v && g == b * Pow2(q) + w && InPool(s, p, f) && InPool(s, q, g)
    ensures s.pools[p][f / PAGE_WORDS] != s.pools[q][g / PAGE_WORDS] || f % PAGE_WORDS != g % PAGE_WORDS
  {
    if p == q && f == g {
      RowsDiffer(a, v, b, w, Pow2(p));
    }
    WordsApart(s, blocks, p, f, q, g);
  }

  /** The blocks a pool needs for its counters. */
  function BlocksFor(count: nat, p: nat): nat {
    (count * SlotBytes(p) + PAGE_BYTES - 1) / PAGE_BYTES
  }

  /** They hold every slot given out. */
  lemma {:induction false} EnoughBlocks(count: nat, p: nat, slot: nat, w: nat)
    requires p <= 6 && slot < count && w < Pow2(p)
    ensures (slot * Pow2(p) + w) / PAGE_WORDS < BlocksFor(count, p) && slot * Pow2(p) + w < count * Pow2(p)
  {
    CellOfSlot(slot, p, w);
    RowOrder(slot + 1, count, Pow2(p));
    MulAssoc8(count, Pow2(p));
    assert (slot + 1) * Pow2(p) == slot * Pow2(p) + Pow2(p);
    BlockArithmetic(slot * Pow2(p), count * Pow2(p));
  }

  lemma {:induction false} BlockArithmetic(x: nat, y: nat)
    requires x < y
    ensures 8 * x / 4096 < (8 * y + 4095) / 4096
  {
  }

  // ---- building a storage on an old one ----

  /** A storage that has the first `p` pools of the old one, and below `fresh'` no other block. */
  ghost predicate Built(s: Storage, old': seq<seq<nat>>, fresh': nat, p: nat) {
    && |s.pools| == POOLS && |old'| == POOLS
    && (forall q | 0 <= q < p && q < POOLS :: old'[q] <= s.pools[q])
    && (forall q | p < q < POOLS :: s.pools[q] == [])
    && forall q, k | 0 <= q < POOLS && 0 <= k < |s.pools[q]| ::
         if k < |old'[q]| then s.pools[q][k] == old'[q][k] else s.pools[q][k] >= fresh'
  }

  /** Pages of existing blocks are not touched. */
  ghost predicate SamePages(before: seq<Block>, after: seq<Block>) {
    |before| <= |after| && forall b {:trigger after[b]} | 0 <= b < |before| :: after[b].page == before[b].page
  }

  ghost predicate NewZero(blocks: seq<Block>, from: nat) {
    forall b {:trigger blocks[b]} | from <= b < |blocks| :: blocks[b].page == Zeros()
  }

  lemma {:induction false} NotTaken(s: Storage, o: Storage, fresh': nat, p: nat, q: nat, j: nat)
    requires StorageOk(o, fresh') && Built(s, o.pools, fresh', p) && p < POOLS && |s.pools[p]| < |o.pools[p]|
    requires q < POOLS && j < |s.pools[q]|
    ensures s.pools[q][j] != o.pools[p][|s.pools[p]|]
  {
    if j < |o.pools[q]| {
      assert Apart(o, p, |s.pools[p]|, q, j);
    }
  }

  lemma {:induction false} NextOldBlock(s: Storage, o: Storage, blocks: nat, fresh': nat, p: nat)
    requires StorageOk(o, fresh') && Built(s, o.pools, fresh', p) && p < POOLS && |s.pools[p]| < |o.pools[p]|
    ensures o.pools[p][|s.pools[p]|] < fresh' && !Lists(s, o.pools[p][|s.pools[p]|])
    ensures Built(With(s, p, o.pools[p][|s.pools[p]|]), o.pools, fresh', p)
  {
    forall q, j | 0 <= q < POOLS && 0 <= j < |s.pools[q]|
      ensures s.pools[q][j] != o.pools[p][|s.pools[p]|]
    {
      NotTaken(s, o, fresh', p, q, j);
    }
  }

  lemma {:induction false} FreshBlock(s: Storage, o: Storage, fresh': nat, p: nat, b: nat)
    requires StorageOk(o, fresh') && Built(s, o.pools, fresh', p) && p < POOLS && |s.pools[p]| >= |o.pools[p]| && b >= fresh'
    ensures Built(With(s, p, b), o.pools, fresh', p)
  {
  }

  lemma {:induction false} NextPool(s: Storage, o: Storage, fresh': nat, p: nat)
    requires Built(s, o.pools, fresh', p) && p < POOLS && |s.pools[p]| >= |o.pools[p]|
    ensures Built(s, o.pools, fresh', p + 1)
  {
    assert s.pools[p][..|o.pools[p]|] == o.pools[p];
  }

  // ---- what is still unused ----

  /** In pool `p` every word past the slots given out is zero. */
  ghost predicate ZeroFrom(blocks: seq<Block>, s: Storage, p: nat, from: nat)
    requires StorageOk(s, |blocks|) && p < POOLS && forall b | 0 <= b < |blocks| :: |blocks[b].page| == PAGE_WORDS
  {
    forall f: nat {:trigger WordAt(blocks, s, p, f)} | from <= f && InPool(s, p, f) :: WordAt(blocks, s, p, f) == 0
  }

  /** A storage built on an old one sees the same words, and zeros in the blocks it added. */
  lemma {:induction false} BuiltWord(before: seq<Block>, blocks: seq<Block>, o: Storage, s: Storage, p: nat, f: nat)
    requires StorageOk(o, |before|) && StorageOk(s, |blocks|) && p < POOLS && InPool(s, p, f)
    requires Built(s, o.pools, |before|, POOLS) && SamePages(before, blocks) && NewZero(blocks, |before|)
    requires forall b | 0 <= b < |blocks| :: |blocks[b].page| == PAGE_WORDS
    requires forall b | 0 <= b < |before| :: |before[b].page| == PAGE_WORDS
    ensures WordAt(blocks, s, p, f) == if InPool(o, p, f) then WordAt(before, o, p, f) else 0
  {
    var k := f / PAGE_WORDS;
    var b := s.pools[p][k];
    if InPool(o, p, f) {
      assert b == o.pools[p][k];
    } else {
      assert b >= |before| && blocks[b].page == Zeros();
    }
  }

  // ---- all storages together ----

  /** Each block has one place: every storage that lists it does so in the same pool at the same index. */
  ghost predicate Placed(s: Storage, place: seq<(nat, nat)>) {
    && |s.pools| == POOLS
    && forall p, k | 0 <= p < POOLS && 0 <= k < |s.pools[p]| :: s.pools[p][k] < |place| && place[s.pools[p][k]] == (p, k)
  }

  ghost predicate AllInPlace(ss: seq<Storage>, place: seq<(nat, nat)>) {
    forall i {:trigger Placed(ss[i], place)} | 0 <= i < |ss| :: Placed(ss[i], place)
  }

  /** The storage has blocks for the slots its registry has given out. */
  ghost predicate Roomy(s: Storage, limit: seq<nat>) {
    |limit| == POOLS == |s.pools| && forall p | 0 <= p < POOLS :: BlocksFor(limit[p], p) <= |s.pools[p]|
  }

  /** A freed storage has no blocks, any other enough of them. */
  ghost predicate Stocked(s: Storage, limit: seq<nat>) {
    if s.refcnt == 0 then s.pools == NO_POOLS else Roomy(s, limit)
  }

  /** `limits[i]` are the slot counts of the registry of storage `i`. */
  ghost predicate Sound(st: Store, place: seq<(nat, nat)>, limits: seq<seq<nat>>) {
    && Inv(st) && |place| == |st.blocks| && |limits| == |st.storages| && AllInPlace(st.storages, place)
    && forall i {:trigger Stocked(st.storages[i], limits[i])} | 0 <= i < |st.storages| :: Stocked(st.storages[i], limits[i])
  }

  lemma {:induction false} WithPlaced(s: Storage, place: seq<(nat, nat)>, p: nat, b: nat)
    requires Placed(s, place) && p < POOLS && b < |place| && place[b] == (p, |s.pools[p]|)
    ensures Placed(With(s, p, b), place)
  {
  }

  lemma {:induction false} MorePlaced(ss: seq<Storage>, place: seq<(nat, nat)>, x: (nat, nat))
    requires AllInPlace(ss, place)
    ensures AllInPlace(ss, place + [x])
  {
    forall i | 0 <= i < |ss|
      ensures Placed(ss[i], place + [x])
    {
      assert Placed(ss[i], place);
    }
  }

  /** One storage changed, into one whose blocks are in their places. */
  lemma {:induction false} StillPlaced(ss: seq<Storage>, i: nat, s: Storage, place: seq<(nat, nat)>)
    requires AllInPlace(ss, place) && i < |ss| && Placed(s, place)
    ensures AllInPlace(ss[i := s], place)
  {
    var ss' := ss[i := s];
    forall j | 0 <= j < |ss'|
      ensures Placed(ss'[j], place)
    {
      assert Placed(ss[j], place);
    }
  }

  /** The storage the next one starts from, which may be none. */
  ghost function Base(st: Store, hasOld: bool, old': nat): Storage {
    if hasOld && old' < |st.storages| then st.storages[old'] else Storage(0, 0, NO_POOLS)
  }

  lemma {:induction false} BaseOk(st: Store, place: seq<(nat, nat)>, hasOld: bool, old': nat)
    requires Inv(st) && AllInPlace(st.storages, place)
    ensures StorageOk(Base(st, hasOld, old'), |st.blocks|) && Placed(Base(st, hasOld, old'), place)
  {
    if hasOld && old' < |st.storages| {
      assert StorageOk(st.storages[old'], |st.blocks|) && Placed(st.storages[old'], place);
    }
  }

  /** A new storage for a registry with these counts, complete. */
  ghost predicate Complete(st: Store, st': Store, o: Storage, counts: seq<nat>) {
    var i := |st.storages|;
    && Inv(st') && |st'.storages| == i + 1 && st'.storages[..i] == st.storages
    && Built(st'.storages[i], o.pools, |st.blocks|, POOLS) && st'.storages[i].refcnt == 1
    && SamePages(st.blocks, st'.blocks) && NewZero(st'.blocks, |st.blocks|) && Roomy(st'.storages[i], counts)
  }

  lemma {:induction false} OneMoreSound(st: Store, st': Store, place: seq<(nat, nat)>, place': seq<(nat, nat)>,
                                        limits: seq<seq<nat>>, counts: seq<nat>)
    requires Sound(st, place, limits) && Inv(st') && |place'| == |st'.blocks| && AllInPlace(st'.storages, place')
    requires |st'.storages| == |st.storages| + 1 && st'.storages[..|st.storages|] == st.storages
    requires Stocked(st'.storages[|st.storages|], counts)
    ensures Sound(st', place', limits + [counts])
  {
    forall i | 0 <= i < |st'.storages|
      ensures Stocked(st'.storages[i], (limits + [counts])[i])
    {
      if i < |st.storages| {
        assert st'.storages[i] == st'.storages[..|st.storages|][i];
        assert Stocked(st.storages[i], limits[i]);
      }
    }
  }

  /** One storage's count or blocks changed, the rest is as it was. */
  lemma {:induction false} ChangedSound(st: Store, st': Store, place: seq<(nat, nat)>, limits: seq<seq<nat>>, i: nat)
    requires Sound(st, place, limits) && Inv(st') && |st'.blocks| == |st.blocks| && i < |st.storages| == |st'.storages|
    requires st'.storages == st.storages[i := st'.storages[i]]
    requires var s := st'.storages[i];
             (s.pools == NO_POOLS && s.refcnt == 0) ||
             (s.pools == st.storages[i].pools && s.refcnt > 0 && st.storages[i].refcnt > 0)
    ensures Sound(st', place, limits)
  {
    assert Placed(st.storages[i], place) && Stocked(st.storages[i], limits[i]);
    StillPlaced(st.storages, i, st'.storages[i], place);
    forall j | 0 <= j < |st'.storages|
      ensures Stocked(st'.storages[j], limits[j])
    {
      assert Stocked(st.storages[j], limits[j]);
    }
  }

  // ---- clean storages ----

  /** The words of the first `count` slots of a pool. */
  ghost function SlotWords(count: nat, p: nat): nat {
    count * Pow2(p)
  }

  ghost predicate PagesOk(blocks: seq<Block>) {
    forall b | 0 <= b < |blocks| :: |blocks[b].page| == PAGE_WORDS
  }

  /** Every slot of the storage past these counts is zero. */
  ghost predicate Clean(blocks: seq<Block>, s: Storage, limit: seq<nat>)
    requires StorageOk(s, |blocks|) && PagesOk(blocks) && |limit| == POOLS
  {
    forall p {:trigger limit[p]} | 0 <= p < POOLS :: ZeroFrom(blocks, s, p, SlotWords(limit[p], p))
  }

  /**
   A storage built on any old one shows zeros past some counts exactly if the old one does: what lies
   past them is what other storages on the same blocks have written there.
   */
  lemma {:induction false} SpawnCleanIff(st: Store, st': Store, o: Storage, counts: seq<nat>, limit: seq<nat>)
    requires Inv(st) && StorageOk(o, |st.blocks|) && Complete(st, st', o, counts) && |limit| == POOLS
    ensures StorageOk(st'.storages[|st.storages|], |st'.blocks|)
    ensures Clean(st'.blocks, st'.storages[|st.storages|], limit) <==> Clean(st.blocks, o, limit)
  {
    var s := st'.storages[|st.storages|];
    assert StorageOk(st'.storages[|st.storages|], |st'.blocks|);
    forall p | 0 <= p < POOLS
      ensures ZeroFrom(st'.blocks, s, p, SlotWords(limit[p], p)) <==> ZeroFrom(st.blocks, o, p, SlotWords(limit[p], p))
    {
      SpawnZeroIff(st, st', o, counts, p, SlotWords(limit[p], p));
    }
  }

  lemma {:induction false} SpawnZeroIff(st: Store, st': Store, o: Storage, counts: seq<nat>, p: nat, from: nat)
    requires Inv(st) && StorageOk(o, |st.blocks|) && Complete(st, st', o, counts) && p < POOLS
    requires StorageOk(st'.storages[|st.storages|], |st'.blocks|)
    ensures ZeroFrom(st'.blocks, st'.storages[|st.storages|], p, from) <==> ZeroFrom(st.blocks, o, p, from)
  {
    var s := st'.storages[|st.storages|];
    if ZeroFrom(st.blocks, o, p, from) {
      forall f: nat | from <= f && InPool(s, p, f)
        ensures WordAt(st'.blocks, s, p, f) == 0
      {
        BuiltWord(st.blocks, st'.blocks, o, s, p, f);
        assert InPool(o, p, f) ==> WordAt(st.blocks, o, p, f) == 0;
      }
    } else {
      var f: nat :| from <= f && InPool(o, p, f) && WordAt(st.blocks, o, p, f) != 0;
      assert o.pools[p] <= s.pools[p];
      BuiltWord(st.blocks, st'.blocks, o, s, p, f);
      assert WordAt(st'.blocks, s, p, f) != 0;
    }
  }

  /** With larger counts there is less to be zero. */
  lemma {:induction false} CleanPast(blocks: seq<Block>, s: Storage, limit: seq<nat>, counts: seq<nat>)
    requires StorageOk(s, |blocks|) && PagesOk(blocks) && |limit| == POOLS == |counts| && Clean(blocks, s, limit)
    requires forall p | 0 <= p < POOLS :: limit[p] <= counts[p]
    ensures Clean(blocks, s, counts)
  {
    forall p | 0 <= p < POOLS
      ensures ZeroFrom(blocks, s, p, SlotWords(counts[p], p))
    {
      RowOrder(limit[p], counts[p], Pow2(p));
      assert ZeroFrom(blocks, s, p, SlotWords(limit[p], p));
    }
  }

  /** Generations built on one another resolve a word they have in common to one cell. */
  lemma {:induction false} SameCell(o: Storage, s: Storage, fresh': nat, p: nat, f: nat)
    requires Built(s, o.pools, fresh', POOLS) && p < POOLS && InPool(o, p, f)
    ensures InPool(s, p, f) && s.pools[p][f / PAGE_WORDS] == o.pools[p][f / PAGE_WORDS]
  {
    assert o.pools[p] <= s.pools[p];
  }

  // ---- writing ----

  ghost function Written(st: Store, b: nat, x: nat, v: nat): Store
    requires b < |st.blocks| && x < |st.blocks[b].page|
  {
    st.(blocks := st.blocks[b := st.blocks[b].(page := st.blocks[b].page[x := v])])
  }

  /** Word `f` of pool `p`, as storage `i` sees it, is the only word that changed. */
  ghost predicate Wrote(st: Store, st': Store, i: nat, p: nat, f: nat, v: nat) {
    && i < |st.storages| && InPool(st.storages[i], p, f)
    && var b := st.storages[i].pools[p][f / PAGE_WORDS];
      b < |st.blocks| && |st.blocks[b].page| == PAGE_WORDS && st' == Written(st, b, f % PAGE_WORDS, v)
  }

  lemma {:induction false} WriteInv(st: Store, b: nat, x: nat, v: nat)
    requires Inv(st) && b < |st.blocks| && x < PAGE_WORDS
    ensures Inv(Written(st, b, x, v))
  {
    var st' := Written(st, b, x, v);
    forall i | 0 <= i < |st'.storages|
      ensures StorageOk(st'.storages[i], |st'.blocks|)
    {
      assert StorageOk(st.storages[i], |st.blocks|);
    }
    forall c | 0 <= c < |st'.blocks|
      ensures st'.blocks[c].refcnt == Uses(st'.storages, c)
    {
      assert st.blocks[c].refcnt == Uses(st.storages, c);
    }
  }

  /** Storage `j` sees word `f` of pool `p` of storage `i`. */
  ghost predicate Sees(ss: seq<Storage>, i: nat, j: nat, p: nat, f: nat) {
    && i < |ss| && j < |ss| && InPool(ss[i], p, f) && InPool(ss[j], p, f)
    && ss[i].pools[p][f / PAGE_WORDS] == ss[j].pools[p][f / PAGE_WORDS]
  }

  /** After a write through storage `i`, storage `j` sees the new value in that word, if at all, and no other change. */
  lemma {:induction false} WroteWord(st: Store, st': Store, place: seq<(nat, nat)>, limits: seq<seq<nat>>,
                                     i: nat, p: nat, f: nat, v: nat, j: nat, q: nat, g: nat)
    requires Sound(st, place, limits) && Wrote(st, st', i, p, f, v) && p < POOLS && j < |st.storages| && q < POOLS
    requires StorageOk(st.storages[j], |st.blocks|) && InPool(st.storages[j], q, g) && |st'.blocks| == |st.blocks| && PagesOk(st'.blocks)
    ensures WordAt(st'.blocks, st.storages[j], q, g) ==
              if q == p && g == f && Sees(st.storages, i, j, p, f) then v else WordAt(st.blocks, st.storages[j], q, g)
  {
    assert Placed(st.storages[i], place) && Placed(st.storages[j], place);
    var b, c := st.storages[i].pools[p][f / PAGE_WORDS], st.storages[j].pools[q][g / PAGE_WORDS];
    if b == c {
      assert place[b] == (p, f / PAGE_WORDS) && place[c] == (q, g / PAGE_WORDS);
    }
  }

  /**
   Exactly which writes soil a clean storage: those of a value other than zero, through a storage on the
   same block, into a word past the slots its own registry has given out.
   */
  lemma {:induction false} WriteCleanIff(st: Store, st': Store, place: seq<(nat, nat)>, limits: seq<seq<nat>>,
                                         i: nat, p: nat, f: nat, v: nat, j: nat)
    requires Sound(st, place, limits) && Wrote(st, st', i, p, f, v) && p < POOLS && j < |st.storages| && |limits[j]| == POOLS
    requires StorageOk(st.storages[j], |st.blocks|) && Clean(st.blocks, st.storages[j], limits[j])
    ensures Inv(st') && st'.storages == st.storages && |st'.blocks| == |st.blocks|
    ensures Clean(st'.blocks, st.storages[j], limits[j]) <==>
            !(v != 0 && Sees(st.storages, i, j, p, f) && SlotWords(limits[j][p], p) <= f)
  {
    var s := st.storages[j];
    WriteInv(st, st.storages[i].pools[p][f / PAGE_WORDS], f % PAGE_WORDS, v);
    if v != 0 && Sees(st.storages, i, j, p, f) && SlotWords(limits[j][p], p) <= f {
      WroteWord(st, st', place, limits, i, p, f, v, j, p, f);
      assert !ZeroFrom(st'.blocks, s, p, SlotWords(limits[j][p], p));
    } else {
      forall q | 0 <= q < POOLS
        ensures ZeroFrom(st'.blocks, s, q, SlotWords(limits[j][q], q))
      {
        assert ZeroFrom(st.blocks, s, q, SlotWords(limits[j][q], q));
        forall g: nat | SlotWords(limits[j][q], q) <= g && InPool(s, q, g)
          ensures WordAt(st'.blocks, s, q, g) == 0
        {
          assert WordAt(st.blocks, s, q, g) == 0;
          WroteWord(st, st', place, limits, i, p, f, v, j, q, g);
        }
      }
    }
  }

  /**
   Two storages spawned on one old storage, for registries that were both given some slot: what the first counts
   there the second starts with, if the old storage already has the block of that slot, and only then.
   */
  lemma {:induction false} SiblingStartsSoiled(
      st: Store, st1: Store, st2: Store, st3: Store, place: seq<(nat, nat)>, limits: seq<seq<nat>>,
      i: nat, counts1: seq<nat>, counts2: seq<nat>, p: nat, slot: nat, k: nat, v: nat, f: nat)
    requires Inv(st) && i < |st.storages| && Complete(st, st1, st.storages[i], counts1) && Sound(st1, place, limits)
    requires p < POOLS && k < Pow2(p) && f == slot * Pow2(p) + k && Wrote(st1, st2, |st.storages|, p, f, v)
    requires Inv(st2) && Complete(st2, st3, st2.storages[i], counts2) && slot < counts2[p]
    ensures var s := st3.storages[|st2.storages|];
            StorageOk(s, |st3.blocks|) && PagesOk(st3.blocks) && InPool(s, p, f) &&
            WordAt(st3.blocks, s, p, f) == if InPool(st.storages[i], p, f) then v else 0
  {
    var o, s := st.storages[i], st3.storages[|st2.storages|];
    assert st1.storages[i] == st1.storages[..|st.storages|][i];
    assert StorageOk(st2.storages[i], |st2.blocks|) && StorageOk(st3.storages[|st2.storages|], |st3.blocks|);
    EnoughBlocks(counts2[p], p, slot, k);
    BuiltWord(st2.blocks, st3.blocks, o, s, p, f);
    if InPool(o, p, f) {
      SameCell(o, st1.storages[|st.storages|], |st.blocks|, p, f);
      assert StorageOk(st1.storages[i], |st1.blocks|);
      WroteWord(st1, st2, place, limits, |st.storages|, p, f, v, i, p, f);
    }
  }

  const ONE_BLOCK: seq<seq<nat>> := [[0], [], [], [], [], [], []]

  /** `n` storages on the same single block. */
  ghost function Sharers(n: nat): seq<Storage> {
    seq(n, (i: nat) => Storage(i, 1, ONE_BLOCK))
  }

  ghost function SharedBlock(n: nat, page: seq<nat>): Store {
    Store([Block(n, page)], Sharers(n))
  }

  lemma {:induction false} SharersUse(n: nat)
    ensures Uses(Sharers(n), 0) == n
  {
    if n > 0 {
      SharersUse(n - 1);
      assert Sharers(n)[..n - 1] == Sharers(n - 1);
      assert 0 in Sharers(n)[n - 1].pools[0];
    }
  }

  lemma {:induction false} SharedBlockInv(n: nat, page: seq<nat>)
    requires |page| == PAGE_WORDS
    ensures Inv(SharedBlock(n, page))
  {
    SharersUse(n);
  }

  lemma {:induction false} FewSlots(c: nat)
    requires 1 <= c <= 2
    ensures Roomy(Storage(0, 1, ONE_BLOCK), [c, 0, 0, 0, 0, 0, 0])
  {
    assert Pow2(0) == 1;
    forall p | 1 <= p < POOLS
      ensures BlocksFor(0, p) == 0
    {
    }
  }

  lemma {:induction false} OneMoreSharer(n: nat, page: seq<nat>, c: nat)
    requires n > 0 && |page| == PAGE_WORDS && 1 <= c <= 2
    ensures Complete(SharedBlock(n, page), SharedBlock(n + 1, page), SharedBlock(n, page).storages[0], [c, 0, 0, 0, 0, 0, 0])
  {
    SharedBlockInv(n + 1, page);
    FewSlots(c);
    assert Sharers(n + 1)[..n] == Sharers(n);
    assert Roomy(Sharers(n + 1)[n], [c, 0, 0, 0, 0, 0, 0]);
  }

  lemma {:induction false} FirstSharer(c: nat)
    requires 1 <= c <= 2
    ensures Complete(Store([], []), SharedBlock(1, Zeros()), Storage(0, 0, NO_POOLS), [c, 0, 0, 0, 0, 0, 0])
  {
    SharedBlockInv(1, Zeros());
    FewSlots(c);
    assert Roomy(Sharers(1)[0], [c, 0, 0, 0, 0, 0, 0]);
    assert Sharers(1)[..0] == [];
  }

  lemma {:induction false} SharerWrites(n: nat, page: seq<nat>, i: nat, x: nat, v: nat)
    requires i < n && |page| == PAGE_WORDS && x < PAGE_WORDS
    ensures Wrote(SharedBlock(n, page), SharedBlock(n, page[x := v]), i, 0, x, v)
  {
  }

  lemma {:induction false} SharerSees(n: nat, page: seq<nat>, i: nat, x: nat)
    requires i < n && |page| == PAGE_WORDS && x < PAGE_WORDS
    ensures var st := SharedBlock(n, page);
            StorageOk(st.storages[i], |st.blocks|) && PagesOk(st.blocks) && InPool(st.storages[i], 0, x) &&
            WordAt(st.blocks, st.storages[i], 0, x) == page[x]
  {
    SharedBlockInv(n, page);
    assert StorageOk(SharedBlock(n, page).storages[i], |SharedBlock(n, page).blocks|);
  }

  /**
   Such a run: a storage with one slot of pool 0, a second on it with two slots, which counts in the new one, and a
   third on the first with two slots, whose new slot starts with that value.
   */
  lemma {:induction false} SiblingHappens(v: nat) returns (st1: Store, st2: Store, st3: Store, st4: Store)
    ensures Complete(Store([], []), st1, Storage(0, 0, NO_POOLS), [1, 0, 0, 0, 0, 0, 0])
    ensures |st1.storages| == 1 && Complete(st1, st2, st1.storages[0], [2, 0, 0, 0, 0, 0, 0])
    ensures Wrote(st2, st3, 1, 0, 1, v) && |st3.storages| == 2
    ensures Complete(st3, st4, st3.storages[0], [2, 0, 0, 0, 0, 0, 0])
    ensures |st4.storages| == 3 && StorageOk(st4.storages[2], |st4.blocks|) && PagesOk(st4.blocks) && InPool(st4.storages[2], 0, 1)
    ensures WordAt(st4.blocks, st4.storages[2], 0, 1) == v
  {
    var zeros := Zeros();
    var page := zeros[1 := v];
    st1, st2, st3, st4 := SharedBlock(1, zeros), SharedBlock(2, zeros), SharedBlock(2, page), SharedBlock(3, page);
    FirstSharer(1);
    OneMoreSharer(1, zeros, 2);
    SharerWrites(2, zeros, 1, 1, v);
    OneMoreSharer(2, page, 2);
    SharerSees(3, page, 2, 1);
  }

  // ---- freeing ----

  /** Storage `i` gone; the others and all pages as before. */
  ghost predicate Freed(st: Store, st': Store, i: nat) {
    && Inv(st') && i < |st.storages| == |st'.storages| && |st'.blocks| == |st.blocks| && SamePages(st.blocks, st'.blocks)
    && st'.storages[i].refcnt == 0 && st'.storages[i].pools == NO_POOLS
    && st'.storages == st.storages[i := st'.storages[i]]
  }

  /** What a storage shows does not depend on reference counts. */
  lemma {:induction false} SamePagesClean(before: seq<Block>, after: seq<Block>, s: Storage, limit: seq<nat>)
    requires SamePages(before, after) && StorageOk(s, |before|) && StorageOk(s, |after|)
    requires PagesOk(before) && PagesOk(after) && |limit| == POOLS
    ensures Clean(before, s, limit) <==> Clean(after, s, limit)
  {
    forall p | 0 <= p < POOLS
      ensures ZeroFrom(before, s, p, SlotWords(limit[p], p)) <==> ZeroFrom(after, s, p, SlotWords(limit[p], p))
    {
      SamePagesZero(before, after, s, p, SlotWords(limit[p], p));
    }
  }

  lemma {:induction false} SamePagesZero(before: seq<Block>, after: seq<Block>, s: Storage, p: nat, from: nat)
    requires SamePages(before, after) && StorageOk(s, |before|) && StorageOk(s, |after|)
    requires PagesOk(before) && PagesOk(after) && p < POOLS
    ensures ZeroFrom(before, s, p, from) <==> ZeroFrom(after, s, p, from)
  {
    forall f: nat | InPool(s, p, f)
      ensures WordAt(before, s, p, f) == WordAt(after, s, p, f)
    {
      assert after[s.pools[p][f / PAGE_WORDS]].page == before[s.pools[p][f / PAGE_WORDS]].page;
    }
  }

  // ---- runs ----

  /** All storages at one time. */
  datatype World = World(st: Store, place: seq<(nat, nat)>, limits: seq<seq<nat>>)

  /** A step writes one word, or leaves all pages alone as spawning, sharing and freeing do. */
  datatype Event = Count(i: nat, p: nat, f: nat, v: nat) | Other

  ghost predicate Step(w: World, e: Event, w': World) {
    && Sound(w.st, w.place, w.limits) && Sound(w'.st, w'.place, w'.limits) && w.limits <= w'.limits
    && match e
      case Count(i, p, f, v) => p < POOLS && Wrote(w.st, w'.st, i, p, f, v)
      case Other => SamePages(w.st.blocks, w'.st.blocks)
  }

  ghost predicate Run(ws: seq<World>, es: seq<Event>) {
    |ws| == |es| + 1 && forall t | 0 <= t < |es| :: Step(ws[t], es[t], ws[t + 1])
  }

  /** The step counts in a word that storage `j` sees past the slots of its registry. */
  ghost predicate Soils(w: World, e: Event, j: nat) {
    && j < |w.limits| && |w.limits[j]| == POOLS
    && e.Count? && e.v != 0 && e.p < POOLS && Sees(w.st.storages, e.i, j, e.p, e.f) && SlotWords(w.limits[j][e.p], e.p) <= e.f
  }

  /** Storage `j` is in use, with these blocks and counts. */
  ghost predicate Lives(w: World, j: nat, s: Storage, limit: seq<nat>) {
    && j < |w.st.storages| == |w.limits| && w.st.storages[j].pools == s.pools && w.limits[j] == limit
    && |limit| == POOLS && StorageOk(s, |w.st.blocks|) && PagesOk(w.st.blocks)
  }

  ghost predicate CleanAt(w: World, s: Storage, limit: seq<nat>) {
    && |limit| == POOLS && StorageOk(s, |w.st.blocks|) && PagesOk(w.st.blocks) && Clean(w.st.blocks, s, limit)
  }

  lemma {:induction false} SamePools(blocks: seq<Block>, s: Storage, s': Storage, limit: seq<nat>)
    requires StorageOk(s, |blocks|) && StorageOk(s', |blocks|) && PagesOk(blocks) && |limit| == POOLS && s'.pools == s.pools
    ensures Clean(blocks, s, limit) <==> Clean(blocks, s', limit)
  {
    forall p | 0 <= p < POOLS
      ensures ZeroFrom(blocks, s, p, SlotWords(limit[p], p)) <==> ZeroFrom(blocks, s', p, SlotWords(limit[p], p))
    {
      assert forall f: nat | InPool(s, p, f) :: WordAt(blocks, s, p, f) == WordAt(blocks, s', p, f);
    }
  }

  lemma {:induction false} StepClean(w: World, e: Event, w': World, j: nat, s: Storage, limit: seq<nat>)
    requires Step(w, e, w') && Lives(w, j, s, limit) && Lives(w', j, s, limit) && CleanAt(w, s, limit)
    ensures CleanAt(w', s, limit) <==> !Soils(w, e, j)
  {
    if e.Count? {
      assert StorageOk(w.st.storages[j], |w.st.blocks|);
      SamePools(w.st.blocks, s, w.st.storages[j], limit);
      WriteCleanIff(w.st, w'.st, w.place, w.limits, e.i, e.p, e.f, e.v, j);
      SamePools(w'.st.blocks, s, w.st.storages[j], limit);
    } else {
      SamePagesClean(w.st.blocks, w'.st.blocks, s, limit);
    }
  }

  /**
   Over every run of spawns, frees and writes of any storages: one that was clean stays so exactly until some
   other storage on its blocks counts in a slot its own registry has not given out.
   */
  lemma {:induction false} CleanUntilSoiled(ws: seq<World>, es: seq<Event>, m: nat, n: nat, j: nat, s: Storage, limit: seq<nat>)
    requires Run(ws, es) && m <= n <= |es| && CleanAt(ws[m], s, limit)
    requires forall t {:trigger Lives(ws[t], j, s, limit)} | m <= t <= n :: Lives(ws[t], j, s, limit)
    requires forall t | m <= t < n - 1 :: !Soils(ws[t], es[t], j)
    ensures CleanAt(ws[n], s, limit) <==> m == n || !Soils(ws[n - 1], es[n - 1], j)
  {
    if m < n {
      assert Lives(ws[n - 1], j, s, limit) && Lives(ws[n], j, s, limit);
      CleanUntilSoiled(ws, es, m, n - 1, j, s, limit);
      assert Step(ws[n - 1], es[n - 1], ws[n]);
      StepClean(ws[n - 1], es[n - 1], ws[n], j, s, limit);
    }
  }

  /** A counter of a registry that has no more slots than another's never soils the other's storage. */
  lemma {:induction false} OlderNeverSoil(w: World, i: nat, j: nat, p: nat, slot: nat, k: nat, v: nat)
    requires i < |w.limits| && j < |w.limits| && |w.limits[i]| == POOLS == |w.limits[j]| && p < POOLS && k < Pow2(p)
    requires slot < w.limits[i][p] <= w.limits[j][p]
    ensures !Soils(w, Count(i, p, slot * Pow2(p) + k, v), j)
  {
    RowOrder(slot + 1, w.limits[j][p], Pow2(p));
    assert (slot + 1) * Pow2(p) == slot * Pow2(p) + Pow2(p);
  }

  /**
   Counters from one generation to the next, registry and storage together: one that is carried over
   resolves to the cell it had before, and if the old storage is clean every word of any other one is zero.
   */
  lemma {:induction false} AcrossGenerations(
      st: Store, st': Store, o: Storage, limit: seq<nat>, counts: seq<nat>,
      names: seq<CounterRegistry.Counter>, slots: seq<nat>, origin: seq<int>,
      old': seq<CounterRegistry.Counter>, oldSlots: seq<nat>, i: nat, p: nat, w: nat, f: nat)
    requires Inv(st) && StorageOk(o, |st.blocks|) && Roomy(o, limit) && Complete(st, st', o, counts)
    requires CounterRegistry.Layout(names, counts, slots) && CounterRegistry.AllPlaced(names)
    requires CounterRegistry.Layout(old', limit, oldSlots)
    requires CounterRegistry.Origins(names, slots, origin, old', oldSlots, limit)
    requires i < |names| && p == CounterRegistry.Pool(names[i]) && w < Pow2(p) && f == slots[i] * Pow2(p) + w
    ensures p < POOLS && InPool(st'.storages[|st.storages|], p, f) && StorageOk(st'.storages[|st.storages|], |st'.blocks|)
    ensures origin[i] >= 0 ==>
              InPool(o, p, f) && st'.storages[|st.storages|].pools[p][f / PAGE_WORDS] == o.pools[p][f / PAGE_WORDS]
    ensures origin[i] < 0 && Clean(st.blocks, o, limit) ==> WordAt(st'.blocks, st'.storages[|st.storages|], p, f) == 0
  {
    CounterRegistry.LogUpExact(names[i].size);
    assert CounterRegistry.PlacedAt(names, counts, slots, i);
    assert CounterRegistry.FromOld(names, slots, origin, old', oldSlots, limit, i);
    EnoughBlocks(counts[p], p, slots[i], w);
    assert StorageOk(st'.storages[|st.storages|], |st'.blocks|);
    if origin[i] >= 0 {
      assert CounterRegistry.PlacedAt(old', limit, oldSlots, origin[i]);
      EnoughBlocks(limit[p], p, slots[i], w);
      SameCell(o, st'.storages[|st.storages|], |st.blocks|, p, f);
    } else {
      SpawnZeroIff(st, st', o, counts, p, SlotWords(limit[p], p));
      RowOrder(limit[p], slots[i], Pow2(p));
      assert Clean(st.blocks, o, limit) ==> ZeroFrom(st.blocks, o, p, SlotWords(limit[p], p));
    }
  }

  // ---- generations that follow one another ----

  /**
   A line of generations: the newest storage and the one it was spawned on, or -1, and whether nothing has been
   counted through the newest one yet.
   */
  datatype Line = Line(w: World, newest: int, prev: int, fresh': bool)

  /**
   Counting in word `k` of a slot its registry has given out; a spawn on the newest storage; taking back the
   newest one before anything was counted through it; and sharing, freeing or a failed spawn on the side.
   */
  datatype LineEvent = Counted(i: nat, p: nat, slot: nat, k: nat, v: nat) | Spawned(counts: seq<nat>) | TakenBack | Aside

  ghost predicate Live(w: World, i: int) {
    0 <= i < |w.st.storages| && w.st.storages[i].refcnt > 0
  }

  ghost predicate AtMost(a: seq<nat>, b: seq<nat>) {
    |a| == POOLS == |b| && forall p | 0 <= p < POOLS :: a[p] <= b[p]
  }

  /** No page changes, nothing comes to life, and no registry does. */
  ghost predicate NothingNew(w: World, w': World) {
    && SamePages(w.st.blocks, w'.st.blocks) && w.limits <= w'.limits
    && forall i {:trigger Live(w', i)} :: Live(w', i) ==> Live(w, i)
  }

  ghost predicate Stays(w: World, w': World, j: int) {
    Live(w, j) && Live(w', j) && w'.st.storages[j].pools == w.st.storages[j].pools
  }

  /** The storage a spawn starts from, and the slot counts of its registry. */
  ghost function OldOf(g: Line): Storage {
    if Live(g.w, g.newest) then g.w.st.storages[g.newest] else Storage(0, 0, NO_POOLS)
  }

  ghost function LimitOf(g: Line): seq<nat> {
    if Live(g.w, g.newest) && g.newest < |g.w.limits| then g.w.limits[g.newest] else seq(POOLS, i => 0)
  }

  ghost predicate LineStep(g: Line, e: LineEvent, g': Line) {
    && Sound(g.w.st, g.w.place, g.w.limits) && Sound(g'.w.st, g'.w.place, g'.w.limits)
    && match e
      case Counted(i, p, slot, k, v) =>
        && Live(g.w, i) && p < POOLS && k < Pow2(p) && |g.w.limits[i]| == POOLS && slot < g.w.limits[i][p]
        && Wrote(g.w.st, g'.w.st, i, p, slot * Pow2(p) + k, v)
        && g' == g.(w := g.w.(st := g'.w.st), fresh' := g.fresh' && i != g.newest)
      case Spawned(counts) =>
        && AtMost(LimitOf(g), counts) && Complete(g.w.st, g'.w.st, OldOf(g), counts)
        && g'.w.limits == g.w.limits + [counts] && g' == Line(g'.w, |g.w.st.storages|, g.newest, true)
      case TakenBack =>
        && g.fresh' && NothingNew(g.w, g'.w) && Stays(g.w, g'.w, g.prev) && !Live(g'.w, g.newest)
        && g' == Line(g'.w, g.prev, -1, false)
      case Aside =>
        && NothingNew(g.w, g'.w) && (g.newest >= 0 ==> Stays(g.w, g'.w, g.newest))
        && (g' == g.(w := g'.w, prev := -1) || (g' == g.(w := g'.w) && (g.prev >= 0 ==> Stays(g.w, g'.w, g.prev))))
  }

  ghost predicate LineRun(gs: seq<Line>, es: seq<LineEvent>) {
    && |gs| == |es| + 1 && gs[0] == Line(World(Store([], []), [], []), -1, -1, false)
    && forall t | 0 <= t < |es| :: LineStep(gs[t], es[t], gs[t + 1])
  }

  /** Storage `j` is clean, and no registry but that of `except` has more slots than its own. */
  ghost predicate Tops(w: World, j: int, except: int) {
    && Live(w, j) && j < |w.limits| && CleanAt(w, w.st.storages[j], w.limits[j])
    && forall i {:trigger Live(w, i)} | Live(w, i) && i != except :: i < |w.limits| && AtMost(w.limits[i], w.limits[j])
  }

  ghost predicate LineOk(g: Line) {
    && Sound(g.w.st, g.w.place, g.w.limits)
    && (if g.newest < 0 then forall i {:trigger Live(g.w, i)} :: !Live(g.w, i) else Tops(g.w, g.newest, -1))
    && (g.fresh' && g.prev >= 0 ==> Tops(g.w, g.prev, g.newest))
  }

  lemma {:induction false} SoundPages(st: Store, place: seq<(nat, nat)>, limits: seq<seq<nat>>, i: nat)
    requires Sound(st, place, limits) && i < |st.storages|
    ensures PagesOk(st.blocks) && StorageOk(st.storages[i], |st.blocks|) && |limits| == |st.storages|
    ensures st.storages[i].refcnt > 0 ==> Roomy(st.storages[i], limits[i])
  {
    assert StorageOk(st.storages[i], |st.blocks|) && Stocked(st.storages[i], limits[i]);
  }

  lemma {:induction false} AsideTops(w: World, w': World, j: int, except: int)
    requires Sound(w.st, w.place, w.limits) && Sound(w'.st, w'.place, w'.limits)
    requires Tops(w, j, except) && NothingNew(w, w') && Stays(w, w', j)
    ensures Tops(w', j, except)
  {
    var s, s' := w.st.storages[j], w'.st.storages[j];
    SoundPages(w'.st, w'.place, w'.limits, j);
    SameOk(s', s, |w'.st.blocks|);
    SamePagesClean(w.st.blocks, w'.st.blocks, s, w.limits[j]);
    SamePools(w'.st.blocks, s, s', w.limits[j]);
    forall i | Live(w', i) && i != except
      ensures i < |w'.limits| && AtMost(w'.limits[i], w'.limits[j])
    {
      assert Live(w, i);
    }
  }

  lemma {:induction false} CountedTops(w: World, st': Store, i: nat, p: nat, slot: nat, k: nat, v: nat, j: int, except: int)
    requires Sound(w.st, w.place, w.limits) && Tops(w, j, except) && Live(w, i) && i != except && p < POOLS && k < Pow2(p)
    requires |w.limits[i]| == POOLS && slot < w.limits[i][p] && Wrote(w.st, st', i, p, slot * Pow2(p) + k, v)
    ensures Tops(w.(st := st'), j, except)
  {
    SoundPages(w.st, w.place, w.limits, j);
    OlderNeverSoil(w, i, j, p, slot, k, v);
    WriteCleanIff(w.st, st', w.place, w.limits, i, p, slot * Pow2(p) + k, v, j);
    assert StorageOk(st'.storages[j], |st'.blocks|);
    forall h | Live(w.(st := st'), h) && h != except
      ensures h < |w.limits| && AtMost(w.limits[h], w.limits[j])
    {
      assert Live(w, h);
    }
  }

  /** A new storage on top of a clean one, or on none, is clean past its own counts. */
  lemma {:induction false} SpawnedClean(g: Line, w': World, counts: seq<nat>)
    requires LineOk(g) && AtMost(LimitOf(g), counts) && Complete(g.w.st, w'.st, OldOf(g), counts)
    ensures CleanAt(w', w'.st.storages[|g.w.st.storages|], counts)
  {
    var o, s := OldOf(g), w'.st.storages[|g.w.st.storages|];
    OldClean(g);
    SpawnCleanIff(g.w.st, w'.st, o, counts, LimitOf(g));
    CleanPast(w'.st.blocks, s, LimitOf(g), counts);
  }

  lemma {:induction false} OldClean(g: Line)
    requires LineOk(g)
    ensures StorageOk(OldOf(g), |g.w.st.blocks|) && PagesOk(g.w.st.blocks) && Roomy(OldOf(g), LimitOf(g))
    ensures Clean(g.w.st.blocks, OldOf(g), LimitOf(g))
  {
    if Live(g.w, g.newest) {
      SoundPages(g.w.st, g.w.place, g.w.limits, g.newest);
    } else {
      forall p | 0 <= p < POOLS
        ensures ZeroFrom(g.w.st.blocks, OldOf(g), p, SlotWords(LimitOf(g)[p], p)) && BlocksFor(LimitOf(g)[p], p) == 0
      {
      }
    }
  }

  lemma {:induction false} SpawnedLimits(g: Line, w': World, counts: seq<nat>, i: int)
    requires LineOk(g) && AtMost(LimitOf(g), counts) && Complete(g.w.st, w'.st, OldOf(g), counts)
    requires w'.limits == g.w.limits + [counts] && Live(w', i)
    ensures i < |w'.limits| && AtMost(w'.limits[i], counts) && (i < |g.w.st.storages| ==> Live(g.w, i))
  {
    if i < |g.w.st.storages| {
      assert w'.st.storages[i] == w'.st.storages[..|g.w.st.storages|][i];
      assert Live(g.w, i);
    }
  }

  lemma {:induction false} SpawnedOk(g: Line, g': Line, counts: seq<nat>)
    requires LineOk(g) && LineStep(g, Spawned(counts), g')
    ensures LineOk(g')
  {
    var n := |g.w.st.storages|;
    SpawnedClean(g, g'.w, counts);
    forall i | Live(g'.w, i)
      ensures i < |g'.w.limits| && AtMost(g'.w.limits[i], counts)
    {
      SpawnedLimits(g, g'.w, counts, i);
    }
    if g.newest >= 0 {
      SpawnedPrev(g, g', counts);
    }
  }

  /** The storage below stays clean, and the new one is the only one that has more slots. */
  lemma {:induction false} SpawnedPrev(g: Line, g': Line, counts: seq<nat>)
    requires LineOk(g) && LineStep(g, Spawned(counts), g') && g.newest >= 0
    ensures Tops(g'.w, g.newest, |g.w.st.storages|)
  {
    var n, j := |g.w.st.storages|, g.newest;
    assert g'.w.st.storages[j] == g'.w.st.storages[..n][j];
    SoundPages(g'.w.st, g'.w.place, g'.w.limits, j);
    SamePagesClean(g.w.st.blocks, g'.w.st.blocks, g.w.st.storages[j], g.w.limits[j]);
    forall i | Live(g'.w, i) && i != n
      ensures i < |g'.w.limits| && AtMost(g'.w.limits[i], g'.w.limits[j])
    {
      SpawnedLimits(g, g'.w, counts, i);
    }
  }

  lemma {:induction false} CountedOk(g: Line, e: LineEvent, g': Line)
    requires LineOk(g) && e.Counted? && LineStep(g, e, g')
    ensures LineOk(g')
  {
    CountedTops(g.w, g'.w.st, e.i, e.p, e.slot, e.k, e.v, g.newest, -1);
    if g'.fresh' && g.prev >= 0 {
      CountedTops(g.w, g'.w.st, e.i, e.p, e.slot, e.k, e.v, g.prev, g.newest);
    }
  }

  lemma {:induction false} TakenBackOk(g: Line, g': Line)
    requires LineOk(g) && LineStep(g, TakenBack, g')
    ensures LineOk(g')
  {
    AsideTops(g.w, g'.w, g.prev, g.newest);
    forall i | Live(g'.w, i)
      ensures i < |g'.w.limits| && AtMost(g'.w.limits[i], g'.w.limits[g.prev])
    {
      assert i != g.newest;
    }
  }

  lemma {:induction false} AsideOk(g: Line, g': Line)
    requires LineOk(g) && LineStep(g, Aside, g')
    ensures LineOk(g')
  {
    if g.newest >= 0 {
      AsideTops(g.w, g'.w, g.newest, -1);
    }
    if g.fresh' && g'.prev >= 0 {
      AsideTops(g.w, g'.w, g.prev, g.newest);
    }
    if g.newest < 0 {
      assert forall i {:trigger Live(g'.w, i)} :: Live(g'.w, i) ==> Live(g.w, i);
    }
  }

  /** Over every such run the newest storage is clean and no registry has more slots than its own. */
  lemma {:induction false} LineStaysClean(gs: seq<Line>, es: seq<LineEvent>, n: nat)
    requires LineRun(gs, es) && n <= |es|
    ensures LineOk(gs[n])
  {
    if n > 0 {
      LineStaysClean(gs, es, n - 1);
      var g, e, g' := gs[n - 1], es[n - 1], gs[n];
      assert LineStep(gs[n - 1], es[n - 1], gs[n]);
      match e
      case Counted(i, p, slot, k, v) => CountedOk(g, e, g');
      case Spawned(counts) => SpawnedOk(g, g', counts);
      case TakenBack => TakenBackOk(g, g');
      case Aside => AsideOk(g, g');
    }
  }

  /**
   In every such run, whenever a generation is linked and spawned on the newest one: a counter that is carried
   over resolves to the cell it had, and every word of any other counter starts at zero.
   */
  lemma {:induction false} NewCountersStartAtZero(
      gs: seq<Line>, es: seq<LineEvent>, n: nat,
      names: seq<CounterRegistry.Counter>, slots: seq<nat>, origin: seq<int>,
      old': seq<CounterRegistry.Counter>, oldSlots: seq<nat>, i: nat, p: nat, w: nat, f: nat)
    requires LineRun(gs, es) && n < |es| && es[n].Spawned?
    requires CounterRegistry.Layout(names, es[n].counts, slots) && CounterRegistry.AllPlaced(names)
    requires CounterRegistry.Layout(old', LimitOf(gs[n]), oldSlots)
    requires CounterRegistry.Origins(names, slots, origin, old', oldSlots, LimitOf(gs[n]))
    requires i < |names| && p == CounterRegistry.Pool(names[i]) && w < Pow2(p) && f == slots[i] * Pow2(p) + w
    ensures var st, st' := gs[n].w.st, gs[n + 1].w.st;
            |st'.storages| == |st.storages| + 1 && gs[n + 1].newest == |st.storages| && StorageOk(st'.storages[|st.storages|], |st'.blocks|)
    ensures var st, st' := gs[n].w.st, gs[n + 1].w.st;
            p < POOLS && InPool(st'.storages[|st.storages|], p, f) && PagesOk(st'.blocks)
    ensures var st, st' := gs[n].w.st, gs[n + 1].w.st;
            origin[i] >= 0 ==>
              InPool(OldOf(gs[n]), p, f) && st'.storages[|st.storages|].pools[p][f / PAGE_WORDS] == OldOf(gs[n]).pools[p][f / PAGE_WORDS]
    ensures var st, st' := gs[n].w.st, gs[n + 1].w.st;
            origin[i] < 0 ==> WordAt(st'.blocks, st'.storages[|st.storages|], p, f) == 0
  {
    LineStaysClean(gs, es, n);
    assert LineStep(gs[n], es[n], gs[n + 1]);
    OldClean(gs[n]);
    AcrossGenerations(gs[n].w.st, gs[n + 1].w.st, OldOf(gs[n]), LimitOf(gs[n]), es[n].counts,
                      names, slots, origin, old', oldSlots, i, p, w, f);
  }

  // ---- reference counts of storages ----

  lemma {:induction false} UsesSame(ss: seq<Storage>, i: nat, s: Storage, b: nat)
    requires i < |ss| && s.pools == ss[i].pools
    ensures Uses(ss[i := s], b) == Uses(ss, b)
  {
    UsesUpdate(ss, i, s, b);
    assert Lists(s, b) == Lists(ss[i], b);
  }

  lemma {:induction false} RecountInv(st: Store, i: nat, s: Storage)
    requires Inv(st) && i < |st.storages| && s.pools == st.storages[i].pools
    ensures Inv(st.(storages := st.storages[i := s]))
  {
    var st' := st.(storages := st.storages[i := s]);
    forall j | 0 <= j < |st'.storages|
      ensures StorageOk(st'.storages[j], |st'.blocks|)
    {
      assert StorageOk(st.storages[j], |st.blocks|);
      if j == i {
        SameOk(st.storages[i], s, |st.blocks|);
      }
    }
    forall c | 0 <= c < |st'.blocks|
      ensures st'.blocks[c].refcnt == Uses(st'.storages, c)
    {
      UsesSame(st.storages, i, s, c);
      assert st.blocks[c].refcnt == Uses(st.storages, c);
    }
  }

  lemma {:induction false} SameOk(s: Storage, s': Storage, blocks: nat)
    requires StorageOk(s, blocks) && s'.pools == s.pools
    ensures StorageOk(s', blocks)
  {
    forall q, k, r, j | 0 <= q < POOLS && 0 <= k < |s'.pools[q]| && 0 <= r < POOLS && 0 <= j < |s'.pools[r]|
      ensures Apart(s', q, k, r, j)
    {
      assert Apart(s, q, k, r, j);
    }
  }

  /** A new storage that lists nothing yet. */
  lemma {:induction false} BeginInv(st: Store, s: Storage)
    requires Inv(st) && s.pools == NO_POOLS
    ensures Inv(Store(st.blocks, st.storages + [s]))
  {
    var ss := st.storages + [s];
    forall j | 0 <= j < |ss|
      ensures StorageOk(ss[j], |st.blocks|)
    {
      assert j < |st.storages| ==> StorageOk(st.storages[j], |st.blocks|);
    }
    forall c | 0 <= c < |st.blocks|
      ensures st.blocks[c].refcnt == Uses(ss, c)
    {
      assert ss[..|st.storages|] == st.storages && !Lists(s, c);
      assert st.blocks[c].refcnt == Uses(st.storages, c);
    }
  }

  class Storages {
    var blocks: seq<Block>
    var storages: seq<Storage>
    var room: nat
    ghost var place: seq<(nat, nat)>
    ghost var limits: seq<seq<nat>>

    ghost function St(): Store
      reads this
    {
      Store(blocks, storages)
    }

    ghost predicate Valid()
      reads this
    {
      Sound(St(), place, limits)
    }

    ghost predicate Live(i: nat)
      reads this
    {
      i < |storages| && storages[i].refcnt > 0
    }

    constructor (room: nat)
      ensures Valid() && storages == []
    {
      blocks, storages, limits, place := [], [], [], [];
      this.room := room;
    }

    /** The last storage is being built on `o`, pools before `p` done; `st` is how it began. */
    ghost predicate Building(st: Store, o: Storage, p: nat)
      reads this
    {
      && Inv(St()) && StorageOk(o, |st.blocks|)
      && |storages| == |st.storages| + 1 && storages[..|st.storages|] == st.storages
      && Built(storages[|st.storages|], o.pools, |st.blocks|, p) && storages[|st.storages|].refcnt == 1
      && SamePages(st.blocks, blocks) && NewZero(blocks, |st.blocks|)
      && |place| == |blocks| && AllInPlace(storages, place) && Placed(o, place)
    }

    /** One more block of the old storage. */
    method ShareBlock(b: nat, p: nat, ghost st: Store, ghost o: Storage)
      requires Building(st, o, p) && p < POOLS && |storages[|st.storages|].pools[p]| < |o.pools[p]|
      requires b == o.pools[p][|storages[|st.storages|].pools[p]|]
      modifies this`blocks, this`storages
      ensures Building(st, o, p)
      ensures |storages[|st.storages|].pools[p]| == old(|storages[|st.storages|].pools[p]|) + 1
      ensures forall q | 0 <= q < POOLS && q != p :: storages[|st.storages|].pools[q] == old(storages[|st.storages|].pools[q])
      ensures storages[|st.storages|].registry == old(storages[|st.storages|].registry)
    {
      var i := |storages| - 1;
      NextOldBlock(storages[i], o, |blocks|, |st.blocks|, p);
      SharedKeeps(St(), i, p, b);
      ghost var st' := Shared(St(), i, p, b);
      assert Placed(storages[i], place);
      WithPlaced(storages[i], place, p, b);
      StillPlaced(storages, i, With(storages[i], p, b), place);
      blocks := blocks[b := blocks[b].(refcnt := blocks[b].refcnt + 1)];
      storages := storages[i := storages[i].(pools := storages[i].pools[p := storages[i].pools[p] + [b]])];
      assert St() == st';
    }

    /** One new block, if there is memory for it. */
    method AddBlock(p: nat, ghost st: Store, ghost o: Storage) returns (ok: bool)
      requires Building(st, o, p) && p < POOLS && |storages[|st.storages|].pools[p]| >= |o.pools[p]|
      modifies this`blocks, this`storages, this`room, this`place
      ensures Building(st, o, p) && ok == (old(room) > 0) && room == old(room) - if ok then 1 else 0
      ensures ok ==> |storages[|st.storages|].pools[p]| == old(|storages[|st.storages|].pools[p]|) + 1
      ensures forall q | 0 <= q < POOLS && q != p :: storages[|st.storages|].pools[q] == old(storages[|st.storages|].pools[q])
      ensures storages[|st.storages|].registry == old(storages[|st.storages|].registry)
    {
      if room == 0 {
        return false;
      }
      var i := |storages| - 1;
      FreshBlock(storages[i], o, |st.blocks|, p, |blocks|);
      ExtendedKeeps(St(), i, p);
      ghost var st' := Extended(St(), i, p);
      ghost var x := (p, |storages[i].pools[p]|);
      MorePlaced(storages, place, x);
      MorePlaced([o], place, x);
      assert Placed(storages[i], place + [x]) && Placed([o][0], place + [x]);
      WithPlaced(storages[i], place + [x], p, |blocks|);
      StillPlaced(storages, i, With(storages[i], p, |blocks|), place + [x]);
      room := room - 1;
      place := place + [x];
      storages := storages[i := storages[i].(pools := storages[i].pools[p := storages[i].pools[p] + [|blocks|]])];
      blocks := blocks + [Block(1, seq(PAGE_WORDS, i => 0))];
      assert St() == st';
      return true;
    }

    /** The two inner loops of counter_storage_spawn for one pool: old blocks first, then new ones. */
    method FillPool(old': Storage, p: nat, count: nat, ghost st: Store) returns (ok: bool)
      requires Building(st, old', p) && p < POOLS && storages[|st.storages|].pools[p] == []
      modifies this`blocks, this`storages, this`room, this`place
      ensures |place| == |blocks| && AllInPlace(storages, place)
      ensures Inv(St()) && (ok ==> Building(st, old', p + 1) && |storages[|st.storages|].pools[p]| >= count) && (!ok ==> room == 0)
      ensures |storages| == |st.storages| + 1 && storages[..|st.storages|] == st.storages && SamePages(st.blocks, blocks)
      ensures forall q | 0 <= q < POOLS && q != p && ok :: storages[|st.storages|].pools[q] == old(storages[|st.storages|].pools[q])
      ensures |storages[|st.storages|].pools| == POOLS && storages[|st.storages|].registry == old(storages[|st.storages|].registry)
    {
      var i := |storages| - 1;
      var blockCount := if |old'.pools[p]| > count then |old'.pools[p]| else count;
      var idx := 0;
      while idx < |old'.pools[p]|
        invariant 0 <= idx <= |old'.pools[p]| && Building(st, old', p) && |storages[|st.storages|].pools[p]| == idx
        invariant forall q | 0 <= q < POOLS && q != p :: storages[|st.storages|].pools[q] == old(storages[|st.storages|].pools[q])
        invariant storages[|st.storages|].registry == old(storages[|st.storages|].registry)
      {
        ShareBlock(old'.pools[p][idx], p, st, old');
        idx := idx + 1;
      }
      while idx < blockCount
        invariant |old'.pools[p]| <= idx <= blockCount && Building(st, old', p) && |storages[|st.storages|].pools[p]| == idx
        invariant forall q | 0 <= q < POOLS && q != p :: storages[|st.storages|].pools[q] == old(storages[|st.storages|].pools[q])
        invariant storages[|st.storages|].registry == old(storages[|st.storages|].registry)
      {
        ok := AddBlock(p, st, old');
        if !ok {
          return;
        }
        idx := idx + 1;
      }
      NextPool(storages[i], old', |st.blocks|, p);
      ok := true;
    }

    /** The loop over all pools. */
    method FillAll(old': Storage, counts: seq<nat>, ghost st: Store) returns (ok: bool)
      requires Building(st, old', 0) && storages[|st.storages|].pools == NO_POOLS && |counts| == POOLS
      modifies this`blocks, this`storages, this`room, this`place
      ensures |place| == |blocks| && AllInPlace(storages, place)
      ensures Inv(St()) && (ok ==> Complete(st, St(), old', counts)) && (!ok ==> room == 0)
      ensures |storages| == |st.storages| + 1 && storages[..|st.storages|] == st.storages && SamePages(st.blocks, blocks)
      ensures |storages[|st.storages|].pools| == POOLS && storages[|st.storages|].registry == old(storages[|st.storages|].registry)
    {
      var p := 0;
      while p < POOLS
        invariant 0 <= p <= POOLS && Building(st, old', p)
        invariant forall q | p <= q < POOLS :: storages[|st.storages|].pools[q] == []
        invariant storages[|st.storages|].registry == old(storages[|st.storages|].registry)
        invariant forall q | 0 <= q < p :: BlocksFor(counts[q], q) <= |storages[|st.storages|].pools[q]|
      {
        ok := FillPool(old', p, BlocksFor(counts[p], p), st);
        if !ok {
          return;
        }
        p := p + 1;
      }
      ok := true;
    }

    /** counter_storage_pool_fini for all pools: every block loses one reference. */
    method ReleaseBlocks(i: nat)
      requires Inv(St()) && i < |storages|
      modifies this`blocks, this`storages
      ensures Inv(St()) && |storages| == old(|storages|) && |blocks| == old(|blocks|) && SamePages(old(blocks), blocks)
      ensures storages == old(storages)[i := old(storages)[i].(pools := NO_POOLS)]
    {
      assert StorageOk(storages[i], |blocks|);
      ghost var s := storages[i];
      var p := 0;
      while p < POOLS
        invariant 0 <= p <= POOLS && Releasing(old(storages), old(blocks), i, p)
        invariant p < POOLS ==> storages[i].pools[p] == s.pools[p]
      {
        while storages[i].pools[p] != []
          invariant Releasing(old(storages), old(blocks), i, p)
          decreases |storages[i].pools[p]|
        {
          LetKeeps(St(), i, p);
          var b := storages[i].pools[p][0];
          ghost var st' := Let(St(), i, p);
          blocks := blocks[b := blocks[b].(refcnt := blocks[b].refcnt - 1)];
          storages := storages[i := storages[i].(pools := storages[i].pools[p := storages[i].pools[p][1..]])];
          assert St() == st';
        }
        p := p + 1;
      }
      assert storages[i].pools == NO_POOLS;
    }

    /** Pools before `p` of storage `i` are empty; nothing else changed but reference counts. */
    ghost predicate Releasing(ss: seq<Storage>, bs: seq<Block>, i: nat, p: nat)
      reads this
    {
      && Inv(St()) && i < |ss| && |storages| == |ss| && |blocks| == |bs| && SamePages(bs, blocks)
      && |storages[i].pools| == POOLS && |ss[i].pools| == POOLS
      && storages == ss[i := ss[i].(pools := storages[i].pools)]
      && (forall q | 0 <= q < p && q < POOLS :: storages[i].pools[q] == [])
      && forall q | p < q < POOLS :: storages[i].pools[q] == ss[i].pools[q]
    }

    /** The last reference of a storage goes, and its blocks with it. */
    method Drop(i: nat)
      requires Inv(St()) && i < |storages|
      modifies this`blocks, this`storages
      ensures Freed(old(St()), St(), i)
    {
      RecountInv(St(), i, storages[i].(refcnt := 0));
      storages := storages[i := storages[i].(refcnt := 0)];
      ReleaseBlocks(i);
    }

    /** A new storage, filled or given up. */
    method Build(base: Storage, registry: nat, counts: seq<nat>) returns (ok: bool)
      requires Valid() && StorageOk(base, |blocks|) && Placed(base, place) && |counts| == POOLS
      modifies this
      ensures Valid() && SamePages(old(blocks), blocks) && limits == old(limits) + [counts]
      ensures |storages| == old(|storages|) + 1 && storages[..old(|storages|)] == old(storages)
      ensures ok ==> Complete(old(St()), St(), base, counts) && storages[old(|storages|)].registry == registry
      ensures !ok ==> room == 0 && storages[old(|storages|)].refcnt == 0
    {
      ghost var st, before := St(), place;
      BeginInv(st, Storage(registry, 1, NO_POOLS));
      var id := |storages|;
      storages := storages + [Storage(registry, 1, NO_POOLS)];
      BeginPlaced(st.storages, Storage(registry, 1, NO_POOLS), place);
      ok := FillAll(base, counts, st);
      if !ok {
        ghost var mid := storages;
        Drop(id);
        StillPlaced(mid, id, storages[id], place);
      }
      OneMoreSound(st, St(), before, place, limits, counts);
      limits := limits + [counts];
    }

    /**
     counter_storage_spawn on any live storage, or on none. A storage for the same registry is shared. A new
     one sees every word the old one sees in the same place and zeros in the blocks it adds, so past the slots
     of the old registry it is clean exactly if the old storage is; on failure nothing is left referenced.
     */
    method Spawn(hasOld: bool, old': nat, registry: nat, counts: seq<nat>) returns (ok: bool, id: nat)
      requires Valid() && (hasOld ==> Live(old')) && |counts| == POOLS
      modifies this
      ensures Valid() && SamePages(old(blocks), blocks) && old(|storages|) <= |storages| && old(limits) <= limits
      ensures hasOld && old(storages)[old'].registry == registry ==>
                ok && id == old' && blocks == old(blocks) &&
                storages == old(storages)[id := old(storages)[id].(refcnt := old(storages)[id].refcnt + 1)]
      ensures !(hasOld && old(storages)[old'].registry == registry) ==> storages[..old(|storages|)] == old(storages)
      ensures !ok ==> room == 0 && |storages| == old(|storages|) + 1 && storages[old(|storages|)].refcnt == 0
      ensures ok && !(hasOld && old(storages)[old'].registry == registry) ==>
                id == old(|storages|) && Live(id) && limits[id] == counts &&
                storages[id].registry == registry && Complete(old(St()), St(), Base(old(St()), hasOld, old'), counts)
    {
      if hasOld {
        if storages[old'].registry == registry {
          ghost var st := St();
          var s := storages[old'].(refcnt := storages[old'].refcnt + 1);
          RecountInv(st, old', s);
          ChangedSound(st, Store(blocks, storages[old' := s]), place, limits, old');
          storages := storages[old' := s];
          return true, old';
        }
      }
      var base := if hasOld then storages[old'] else Storage(0, 0, NO_POOLS);
      BaseOk(St(), place, hasOld, old');
      id := |storages|;
      ok := Build(base, registry, counts);
    }

    /** counter_storage_free: the blocks are let go only with the last reference. */
    method Free(i: nat)
      requires Valid() && Live(i)
      modifies this`blocks, this`storages
      ensures Valid() && SamePages(old(blocks), blocks) && |storages| == old(|storages|)
      ensures old(storages)[i].refcnt > 1 ==>
                blocks == old(blocks) && storages == old(storages)[i := old(storages)[i].(refcnt := old(storages)[i].refcnt - 1)]
      ensures old(storages)[i].refcnt == 1 ==> Freed(old(St()), St(), i)
    {
      ghost var st := St();
      if storages[i].refcnt > 1 {
        var s := storages[i].(refcnt := storages[i].refcnt - 1);
        RecountInv(st, i, s);
        ChangedSound(st, Store(blocks, storages[i := s]), place, limits, i);
        storages := storages[i := s];
        return;
      }
      Drop(i);
      ChangedSound(st, St(), place, limits, i);
    }

    /** Counting: word `w` of the counter in slot `slot` of pool `p`, found through its byte offset. */
    method Write(i: nat, p: nat, slot: nat, w: nat, v: nat, ghost f: nat)
      requires Valid() && Live(i) && p < POOLS && |limits[i]| == POOLS && w < Pow2(p) && slot < limits[i][p]
      requires f == slot * Pow2(p) + w
      modifies this`blocks
      ensures Valid() && Wrote(old(St()), St(), i, p, f, v)
    {
      CellOfSlot(slot, p, w);
      EnoughBlocks(limits[i][p], p, slot, w);
      assert Stocked(storages[i], limits[i]) && StorageOk(storages[i], |blocks|);
      var offset := OffsetOf(slot, p);
      var b := storages[i].pools[p][offset / PAGE_BYTES];
      var x := offset % PAGE_BYTES / 8 + w;
      ghost var st := St();
      WriteInv(st, b, x, v);
      blocks := blocks[b := blocks[b].(page := blocks[b].page[x := v])];
      WroteSound(st, St(), place, limits);
    }
  }

  lemma {:induction false} WroteSound(st: Store, st': Store, place: seq<(nat, nat)>, limits: seq<seq<nat>>)
    requires Sound(st, place, limits) && Inv(st') && st'.storages == st.storages && |st'.blocks| == |st.blocks|
    ensures Sound(st', place, limits)
  {
    assert forall i | 0 <= i < |st.storages| :: Stocked(st.storages[i], limits[i]) && Placed(st.storages[i], place);
  }

  lemma {:induction false} BeginPlaced(ss: seq<Storage>, s: Storage, place: seq<(nat, nat)>)
    requires AllInPlace(ss, place) && s.pools == NO_POOLS
    ensures AllInPlace(ss + [s], place)
  {
    forall i | 0 <= i < |ss + [s]|
      ensures Placed((ss + [s])[i], place)
    {
      assert i < |ss| ==> Placed(ss[i], place);
    }
  }
}
