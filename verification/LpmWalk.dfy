/** Walking a whole trie: lpm_walk and the pull iterator of common/lpm.h, from all zeros to all ones. */
module LpmWalk {
  import opened Keys
  import opened KeyArith
  import opened Trie
  import opened Cursor
  import opened Compaction
  import opened RangeTrie
  import opened LpmRuns
  import opened RunList

  // ---- the trie as a function of numbers ----

  /** What a lookup answers for the key that spells `x`. */
  ghost function ByNumber(t: Pool): nat -> nat
    requires t.Wf() && t.b > 0
  {
    (x: nat) => if x < Count(t.b, t.n) then ValueGet(t.Raw(KeyOf(t.b, t.n, x))) else VALUE_INVALID
  }

  lemma {:induction false} ByKey(t: Pool, k: Key)
    requires t.Wf() && t.b > 0 && IsKey(t.b, t.n, k)
    ensures Val(t.b, k) < Count(t.b, t.n) && ByNumber(t)(Val(t.b, k)) == ValueGet(t.Raw(k))
  {
    ValBound(t.b, k);
    ValInjective(t.b, KeyOf(t.b, t.n, Val(t.b, k)), k);
  }

  /** The last key below the slot the cursor stands on. */
  ghost function End(b: nat, n: nat, key: Key, hop: nat): nat
    requires hop < n == |key| && b > 0
  {
    Val(b, Pad(key[..hop + 1], n, b - 1))
  }

  lemma {:induction false} PosEnd(b: nat, n: nat, key: Key, hop: nat)
    requires hop < n && b > 0 && IsKey(b, n, key)
    ensures Pos(b, n, key, hop) <= End(b, n, key, hop) < Count(b, n)
  {
    var hi := Pad(key[..hop + 1], n, b - 1);
    assert hi[..hop + 1] == key[..hop + 1];
    PadBounds(b, hi, hop + 1);
    ValBound(b, hi);
  }

  /** The numbers of a block are the keys with its digits. */
  lemma {:induction false} InBlock(b: nat, n: nat, w: Key, k: Key)
    requires b > 0 && |w| <= n && IsKey(b, |w|, w) && IsKey(b, n, k)
    requires Val(b, Pad(w, n, 0)) <= Val(b, k) <= Val(b, Pad(w, n, b - 1))
    ensures k[..|w|] == w
  {
    var lo, hi := Pad(w, n, 0), Pad(w, n, b - 1);
    assert lo[..|w|] == w && hi[..|w|] == w;
    PrefixOrder(b, lo, k, |w|);
    PrefixOrder(b, k, hi, |w|);
    ValInjective(b, k[..|w|], w);
  }

  lemma {:induction false} LeafBlock(t: Pool, key: Key, stack: seq<nat>, hop: nat, x: nat)
    requires t.Wf() && t.b > 0 && hop < t.n && IsKey(t.b, t.n, key) && |stack| == t.n && OnPath(t, key, stack, hop)
    requires stack[hop] < |t.pages| && t.pages[stack[hop]][key[hop]].Leaf?
    requires Pos(t.b, t.n, key, hop) <= x <= End(t.b, t.n, key, hop)
    ensures ByNumber(t)(x) == ValueGet(t.pages[stack[hop]][key[hop]].raw)
  {
    PosEnd(t.b, t.n, key, hop);
    var k := KeyOf(t.b, t.n, x);
    assert key[..hop + 1] == key[..hop] + [key[hop]];
    InBlock(t.b, t.n, key[..hop + 1], k);
    assert t.Walk(key[..hop]) == stack[hop];
    RawAtSlot(t, key[..hop], key[hop], k);
  }

  ghost predicate Sound(t: Pool) {
    t.b >= 2 && t.n >= 1 && t.Wf() && t.Good()
  }

  /** All keys: from all zeros to all ones. */
  ghost predicate WholeRange(b: nat, n: nat, from: Key, to: Key) {
    IsKey(b, n, from) && |to| == n && forall i | 0 <= i < n :: from[i] == 0 && to[i] == b - 1
  }

  // ---- moving the cursor ----

  /** The upper bound is met down to `hiLimit` and no further. */
  ghost predicate HiOk(b: nat, key: Key, hop: nat, hiLimit: nat) {
    && hiLimit <= hop < |key| && (forall i | 0 <= i < hiLimit :: key[i] == b - 1)
    && (hiLimit < hop ==> key[hiLimit] != b - 1)
  }

  lemma {:induction false} EndUp(b: nat, n: nat, key: Key, hop: nat)
    requires 0 < hop < n == |key| && b > 0 && key[hop] == b - 1
    ensures End(b, n, key, hop) == End(b, n, key, hop - 1)
  {
    assert Pad(key[..hop + 1], n, b - 1) == Pad(key[..hop], n, b - 1);
  }

  lemma {:induction false} EndNext(b: nat, n: nat, key: Key, hop: nat)
    requires hop < n == |key| && b > 0
    ensures Pos(b, n, key[hop := key[hop] + 1], hop) == End(b, n, key, hop) + 1
  {
    var key' := key[hop := key[hop] + 1];
    var w, w' := key[..hop + 1], key'[..hop + 1];
    assert w == key[..hop] + [key[hop]] && w' == key[..hop] + [key[hop] + 1];
    ValSnoc(b, key[..hop], key[hop]);
    ValSnoc(b, key[..hop], key[hop] + 1);
    PadHigh(b, w, n, Val(b, w'));
    PadLow(b, w', n, Val(b, w'));
  }

  lemma {:induction false} EndAll(b: nat, n: nat, key: Key, hop: nat)
    requires hop < n == |key| && b > 0 && forall i | 0 <= i <= hop :: key[i] == b - 1
    ensures End(b, n, key, hop) + 1 == Count(b, n)
  {
    assert Pad(key[..hop + 1], n, b - 1) == Pad([], n, b - 1);
    PadAll(b, n);
  }

  /** The do-while of the walk: to the slot after the current block, or out at the end. */
  method Advance(b: nat, to: Key, key: Key, hop: nat, hiLimit: nat) returns (key': Key, hop': nat, done: bool)
    requires b >= 2 && |key| == |to| && IsKey(b, |key|, key) && HiOk(b, key, hop, hiLimit)
    requires forall i | 0 <= i < |to| :: to[i] == b - 1
    ensures done ==> End(b, |key|, key, hop) + 1 == Count(b, |key|)
    ensures !done ==> hop' <= hop && IsKey(b, |key|, key') && HiOk(b, key', hop', hiLimit) && key'[..hop'] == key[..hop']
    ensures !done ==> Pos(b, |key|, key', hop') == End(b, |key|, key, hop) + 1
  {
    hop' := hop;
    while true
      invariant hiLimit <= hop' <= hop && End(b, |key|, key, hop') == End(b, |key|, key, hop)
      decreases hop'
    {
      var next := Inc(b, key[hop']);
      key' := key[hop' := next];
      var upper := if hop' == hiLimit then to[hop'] else b - 1;
      if next != Inc(b, upper) {
        EndNext(b, |key|, key, hop');
        done := false;
        return;
      }
      if hop' == hiLimit {
        EndAll(b, |key|, key, hop');
        done := true;
        return;
      }
      EndUp(b, |key|, key, hop');
      hop' := hop' - 1;
    }
  }

  /** The walk stands on a slot of the trie. */
  ghost predicate Standing(t: Pool, key: Key, stack: seq<nat>, hop: nat, hiLimit: nat) {
    && t.Wf() && t.b >= 2 && IsKey(t.b, t.n, key) && |stack| == t.n && HiOk(t.b, key, hop, hiLimit)
    && OnPath(t, key, stack, hop)
  }

  lemma {:induction false} StandingSlot(t: Pool, key: Key, stack: seq<nat>, hop: nat, hiLimit: nat)
    requires Standing(t, key, stack, hop, hiLimit)
    ensures stack[hop] < |t.pages| && key[hop] < |t.pages[stack[hop]]|
  {
    assert t.Walk(key[..hop]) == stack[hop];
  }

  lemma {:induction false} StandingUp(t: Pool, key: Key, stack: seq<nat>, hop: nat, hiLimit: nat, key': Key, hop': nat)
    requires Standing(t, key, stack, hop, hiLimit) && hop' <= hop && IsKey(t.b, t.n, key') && key'[..hop'] == key[..hop']
    requires HiOk(t.b, key', hop', hiLimit)
    ensures Standing(t, key', stack, hop', hiLimit)
  {
    forall j | 0 <= j <= hop'
      ensures t.Walk(key'[..j]) == stack[j]
    {
      assert key'[..j] == key'[..hop'][..j] && key[..j] == key[..hop'][..j];
      assert t.Walk(key[..j]) == stack[j];
    }
  }

  /** Going down: the first digit below is zero, whether or not this depth was reached before. */
  method Descend(l: Lpm, from: Key, to: Key, key: Key, stack: seq<nat>, hop: nat, hiLimit: nat, maxHop: nat)
    returns (key': Key, stack': seq<nat>, hop': nat, hiLimit': nat, maxHop': nat)
    requires l.Valid() && Standing(l.T(), key, stack, hop, hiLimit) && IsKey(l.b, l.n, from) && |to| == l.n
    requires forall i | 0 <= i < l.n :: from[i] == 0 && to[i] == l.b - 1
    requires stack[hop] < |l.pages| && key[hop] < |l.pages[stack[hop]]| && l.pages[stack[hop]][key[hop]].Node?
    ensures hop' == hop + 1 && Standing(l.T(), key', stack', hop', hiLimit')
    ensures Pos(l.b, l.n, key', hop') == Pos(l.b, l.n, key, hop)
  {
    hiLimit' := if key[hop] == to[hop] && hop == hiLimit then hiLimit + 1 else hiLimit;
    DescendPath(l.T(), key, stack, hop, 0);
    DownAhead(l.b, l.n, key, hop);
    hop', maxHop' := hop + 1, maxHop;
    if hop' > maxHop {
      key' := key[hop' := from[hop']];
      maxHop' := hop';
    } else {
      key' := key[hop' := 0];
    }
    stack' := stack[hop' := l.pages[stack[hop]][key[hop]].page];
  }

  // ---- merging what is visited ----

  /** The range being put together: its value, and once a block was seen its ends. */
  datatype Pending = Pending(value: nat, from: Key, to: Key)

  /** The ranges spell the runs. */
  ghost predicate Spells(b: nat, n: nat, out: seq<Range>, runs: seq<Run>) {
    && |out| == |runs|
    && forall i {:trigger out[i]} | 0 <= i < |out| ::
         && IsKey(b, n, out[i].from) && IsKey(b, n, out[i].to)
         && runs[i] == Run(Val(b, out[i].from), Val(b, out[i].to), out[i].value)
  }

  /** All blocks before `pos` have been merged. */
  ghost predicate Merged(t: Pool, out: seq<Range>, runs: seq<Run>, p: Pending, start: nat, pos: nat)
    requires t.Wf() && t.b > 0
  {
    && Spells(t.b, t.n, out, runs) && Sofar(ByNumber(t), Count(t.b, t.n), runs, p.value, start, pos)
    && (start < pos ==> IsKey(t.b, t.n, p.from) && Val(t.b, p.from) == start && IsKey(t.b, t.n, p.to) && Val(t.b, p.to) == pos - 1)
  }

  lemma {:induction false} MergeClose(t: Pool, out: seq<Range>, runs: seq<Run>, p: Pending, start: nat, pos: nat)
    requires t.Wf() && t.b > 0 && Merged(t, out, runs, p, start, pos) && p.value != VALUE_INVALID
    ensures Close(runs, p.value, start, pos) == runs + [Run(start, pos - 1, p.value)]
    ensures Spells(t.b, t.n, out + [Range(p.from, p.to, p.value)], Close(runs, p.value, start, pos))
  {
  }

  lemma {:induction false} BlockEnds(t: Pool, key: Key, hop: nat)
    requires t.b > 0 && hop < t.n && IsKey(t.b, t.n, key)
    ensures var first, last := Pad(key[..hop + 1], t.n, 0), Pad(key[..hop + 1], t.n, t.b - 1);
            && IsKey(t.b, t.n, first) && Val(t.b, first) == Pos(t.b, t.n, key, hop)
            && IsKey(t.b, t.n, last) && Val(t.b, last) == End(t.b, t.n, key, hop)
            && Pos(t.b, t.n, key, hop) <= End(t.b, t.n, key, hop) < Count(t.b, t.n)
  {
    PosEnd(t.b, t.n, key, hop);
  }

  lemma {:induction false} MergeBlock(t: Pool, out: seq<Range>, runs: seq<Run>, p: Pending, start: nat, pos: nat, end: nat,
                                      v: nat, first: Key, last: Key)
    requires t.Wf() && t.b > 0 && Merged(t, out, runs, p, start, pos) && pos <= end < Count(t.b, t.n)
    requires forall x: nat {:trigger ByNumber(t)(x)} | pos <= x < end + 1 :: ByNumber(t)(x) == v
    requires IsKey(t.b, t.n, first) && Val(t.b, first) == pos && IsKey(t.b, t.n, last) && Val(t.b, last) == end
    ensures p.value == v && pos > 0 ==> Merged(t, out, runs, p.(to := last), start, end + 1)
    ensures p.value == v && pos == 0 ==> Merged(t, out, runs, Pending(v, first, last), start, end + 1)
    ensures p.value != v ==>
              Merged(t, if p.value != VALUE_INVALID then out + [Range(p.from, p.to, p.value)] else out,
                     Close(runs, p.value, start, pos), Pending(v, first, last), pos, end + 1)
  {
    AddBlock(ByNumber(t), Count(t.b, t.n), runs, p.value, start, pos, end + 1, v);
    if p.value != VALUE_INVALID {
      MergeClose(t, out, runs, p, start, pos);
    }
  }

  lemma {:induction false} LeafConstant(t: Pool, key: Key, stack: seq<nat>, hop: nat, hiLimit: nat)
    requires Standing(t, key, stack, hop, hiLimit)
    requires stack[hop] < |t.pages| && key[hop] < |t.pages[stack[hop]]| && t.pages[stack[hop]][key[hop]].Leaf?
    ensures forall x: nat {:trigger ByNumber(t)(x)} | Pos(t.b, t.n, key, hop) <= x < End(t.b, t.n, key, hop) + 1 ::
              ByNumber(t)(x) == ValueGet(t.pages[stack[hop]][key[hop]].raw)
  {
    forall x: nat | Pos(t.b, t.n, key, hop) <= x < End(t.b, t.n, key, hop) + 1
      ensures ByNumber(t)(x) == ValueGet(t.pages[stack[hop]][key[hop]].raw)
    {
      LeafBlock(t, key, stack, hop, x);
    }
  }

  /** After a block of value `v`: the pending range goes on, or starts anew. */
  function Examined(p: Pending, v: nat, first: Key, last: Key): Pending {
    if p.value != v then Pending(v, first, last) else p.(to := last)
  }

  /** Whether such a block closes the pending range. */
  predicate Closes(p: Pending, v: nat) {
    p.value != v && p.value != VALUE_INVALID
  }

  function OutAfter(out: seq<Range>, p: Pending, v: nat): seq<Range> {
    if Closes(p, v) then out + [Range(p.from, p.to, p.value)] else out
  }

  ghost function StartAfter(p: Pending, v: nat, start: nat, pos: nat): nat {
    if p.value != v then pos else start
  }

  ghost function RunsAfter(runs: seq<Run>, p: Pending, v: nat, start: nat, pos: nat): seq<Run> {
    if p.value != v then Close(runs, p.value, start, pos) else runs
  }

  lemma {:induction false} VisitMerged(t: Pool, key: Key, stack: seq<nat>, hop: nat, hiLimit: nat, p: Pending,
                                       out: seq<Range>, runs: seq<Run>, start: nat)
    requires Standing(t, key, stack, hop, hiLimit) && Merged(t, out, runs, p, start, Pos(t.b, t.n, key, hop))
    requires stack[hop] < |t.pages| && key[hop] < |t.pages[stack[hop]]| && t.pages[stack[hop]][key[hop]].Leaf?
    requires Pos(t.b, t.n, key, hop) == 0 ==> p.from == Pad(key[..hop + 1], t.n, 0)
    ensures var v, pos := ValueGet(t.pages[stack[hop]][key[hop]].raw), Pos(t.b, t.n, key, hop);
            var p' := Examined(p, v, Pad(key[..hop + 1], t.n, 0), Pad(key[..hop + 1], t.n, t.b - 1));
            && p'.value == v && p'.to == Pad(key[..hop + 1], t.n, t.b - 1)
            && Merged(t, OutAfter(out, p, v), RunsAfter(runs, p, v, start, pos), p', StartAfter(p, v, start, pos),
                      End(t.b, t.n, key, hop) + 1)
  {
    var v := ValueGet(t.pages[stack[hop]][key[hop]].raw);
    BlockEnds(t, key, hop);
    LeafConstant(t, key, stack, hop, hiLimit);
    MergeBlock(t, out, runs, p, start, Pos(t.b, t.n, key, hop), End(t.b, t.n, key, hop), v,
               Pad(key[..hop + 1], t.n, 0), Pad(key[..hop + 1], t.n, t.b - 1));
  }

  /** At the end the pending range is closed. */
  lemma {:induction false} MergeEnd(t: Pool, out: seq<Range>, runs: seq<Run>, p: Pending, start: nat)
    requires t.Wf() && t.b > 0 && Merged(t, out, runs, p, start, Count(t.b, t.n))
    ensures IsRunList(ByNumber(t), Count(t.b, t.n), Close(runs, p.value, start, Count(t.b, t.n)))
    ensures Spells(t.b, t.n, if p.value != VALUE_INVALID then out + [Range(p.from, p.to, p.value)] else out,
                   Close(runs, p.value, start, Count(t.b, t.n)))
  {
    Finish(ByNumber(t), Count(t.b, t.n), runs, p.value, start);
    if p.value != VALUE_INVALID {
      MergeClose(t, out, runs, p, start, Count(t.b, t.n));
    }
  }

  lemma {:induction false} MergeStart(t: Pool, zero: Key, p: Pending)
    requires t.Wf() && t.b >= 2 && t.n > 0 && IsKey(t.b, t.n, zero) && (forall i | 0 <= i < t.n :: zero[i] == 0)
    requires p.value == VALUE_INVALID
    ensures Standing(t, zero, seq(t.n, i => 0), 0, 0) && Pos(t.b, t.n, zero, 0) == 0 && Merged(t, [], [], p, 0, 0)
  {
    assert zero[..0] == [];
    assert Pad(zero[..1], t.n, 0) == Pad([], t.n, 0);
    PadAll(t.b, t.n);
  }

  /** The ranges are all the maximal runs of lookups, in ascending order. */
  ghost predicate WalkOf(t: Pool, out: seq<Range>, runs: seq<Run>)
    requires t.Wf() && t.b > 0
  {
    Spells(t.b, t.n, out, runs) && IsRunList(ByNumber(t), Count(t.b, t.n), runs)
  }

  /** The state of a walk: where it stands, and what it has put together and handed over. */
  ghost predicate Walking(t: Pool, zero: Key, key: Key, stack: seq<nat>, hop: nat, hiLimit: nat,
                          out: seq<Range>, runs: seq<Run>, p: Pending, start: nat) {
    && Standing(t, key, stack, hop, hiLimit) && Merged(t, out, runs, p, start, Pos(t.b, t.n, key, hop))
    && (Pos(t.b, t.n, key, hop) == 0 ==> p.from == zero)
  }

  lemma {:induction false} FirstIsZero(t: Pool, zero: Key, key: Key, hop: nat)
    requires t.b > 0 && hop < t.n && IsKey(t.b, t.n, key) && IsKey(t.b, t.n, zero) && Pos(t.b, t.n, key, hop) == 0
    requires forall i | 0 <= i < t.n :: zero[i] == 0
    ensures Pad(key[..hop + 1], t.n, 0) == zero
  {
    assert Pad([], t.n, 0) == zero;
    PadAll(t.b, t.n);
    ValInjective(t.b, Pad(key[..hop + 1], t.n, 0), zero);
  }

  /** The slot it stands on has been examined. */
  ghost predicate Seen(t: Pool, zero: Key, key: Key, stack: seq<nat>, hop: nat, hiLimit: nat,
                       out: seq<Range>, runs: seq<Run>, p: Pending, start: nat) {
    && Standing(t, key, stack, hop, hiLimit) && stack[hop] < |t.pages| && t.pages[stack[hop]][key[hop]].Leaf?
    && p.value == ValueGet(t.pages[stack[hop]][key[hop]].raw) && p.to == Pad(key[..hop + 1], t.n, t.b - 1)
    && Merged(t, out, runs, p, start, End(t.b, t.n, key, hop) + 1)
  }

  /** A value slot of a walk examined: everything up to its end is merged. */
  lemma {:induction false} SlotMerged(t: Pool, zero: Key, key: Key, stack: seq<nat>, hop: nat, hiLimit: nat,
                                      out: seq<Range>, runs: seq<Run>, p: Pending, start: nat)
    requires Walking(t, zero, key, stack, hop, hiLimit, out, runs, p, start)
    requires IsKey(t.b, t.n, zero) && forall i | 0 <= i < t.n :: zero[i] == 0
    requires stack[hop] < |t.pages| && key[hop] < |t.pages[stack[hop]]| && t.pages[stack[hop]][key[hop]].Leaf?
    ensures var v, pos := ValueGet(t.pages[stack[hop]][key[hop]].raw), Pos(t.b, t.n, key, hop);
            var p' := Examined(p, v, Pad(key[..hop + 1], t.n, 0), Pad(key[..hop + 1], t.n, t.b - 1));
            Seen(t, zero, key, stack, hop, hiLimit, OutAfter(out, p, v), RunsAfter(runs, p, v, start, pos), p',
                 StartAfter(p, v, start, pos))
  {
    if Pos(t.b, t.n, key, hop) == 0 {
      FirstIsZero(t, zero, key, hop);
    }
    VisitMerged(t, key, stack, hop, hiLimit, p, out, runs, start);
  }

  /** The entry `cur`, if there is one, is the only one added. */
  ghost predicate Extends(before: seq<Range>, after: seq<Range>, has: bool, cur: Range) {
    after == if has then before + [cur] else before
  }

  /** Where an iterator is with its slot: it has examined it and returned without moving on, or not yet. */
  ghost predicate IterAt(t: Pool, zero: Key, seen: bool, key: Key, stack: seq<nat>, hop: nat, hiLimit: nat,
                     out: seq<Range>, runs: seq<Run>, p: Pending, start: nat) {
    if seen then Seen(t, zero, key, stack, hop, hiLimit, out, runs, p, start)
    else Walking(t, zero, key, stack, hop, hiLimit, out, runs, p, start)
  }

  lemma {:induction false} SeenAgain(t: Pool, zero: Key, key: Key, stack: seq<nat>, hop: nat, hiLimit: nat,
                                     out: seq<Range>, runs: seq<Run>, p: Pending, start: nat)
    requires Seen(t, zero, key, stack, hop, hiLimit, out, runs, p, start) && key[hop] < |t.pages[stack[hop]]|
    ensures var v := ValueGet(t.pages[stack[hop]][key[hop]].raw);
            !Closes(p, v) && Examined(p, v, Pad(key[..hop + 1], t.n, 0), Pad(key[..hop + 1], t.n, t.b - 1)) == p
  {
  }

  /** Examining the slot an iterator stands on; doing it again changes nothing. */
  lemma {:induction false} SlotLooked(t: Pool, zero: Key, seen: bool, key: Key, stack: seq<nat>, hop: nat, hiLimit: nat,
                                      out: seq<Range>, runs: seq<Run>, p: Pending, start: nat, v: nat, p': Pending)
    returns (out': seq<Range>, runs': seq<Run>, start': nat)
    requires IterAt(t, zero, seen, key, stack, hop, hiLimit, out, runs, p, start)
    requires IsKey(t.b, t.n, zero) && forall i | 0 <= i < t.n :: zero[i] == 0
    requires stack[hop] < |t.pages| && key[hop] < |t.pages[stack[hop]]| && t.pages[stack[hop]][key[hop]].Leaf?
    requires v == ValueGet(t.pages[stack[hop]][key[hop]].raw)
    requires p' == Examined(p, v, Pad(key[..hop + 1], t.n, 0), Pad(key[..hop + 1], t.n, t.b - 1))
    ensures Seen(t, zero, key, stack, hop, hiLimit, out', runs', p', start')
    ensures Extends(out, out', Closes(p, v), Range(p.from, p.to, p.value))
  {
    if seen {
      SeenAgain(t, zero, key, stack, hop, hiLimit, out, runs, p, start);
      out', runs', start' := out, runs, start;
    } else {
      SlotMerged(t, zero, key, stack, hop, hiLimit, out, runs, p, start);
      runs' := RunsAfter(runs, p, v, start, Pos(t.b, t.n, key, hop));
      start' := StartAfter(p, v, start, Pos(t.b, t.n, key, hop));
      out' := OutAfter(out, p, v);
    }
  }

  /** The value slot an iterator stands on. */
  method Look(l: Lpm, key: Key, stack: seq<nat>, hop: nat, hiLimit: nat, p: Pending,
              ghost zero: Key, ghost seen: bool, ghost out: seq<Range>, ghost runs: seq<Run>, ghost start: nat)
    returns (has: bool, cur: Range, p': Pending, ghost out': seq<Range>, ghost runs': seq<Run>, ghost start': nat)
    requires l.Valid() && IterAt(l.T(), zero, seen, key, stack, hop, hiLimit, out, runs, p, start)
    requires IsKey(l.b, l.n, zero) && forall i | 0 <= i < l.n :: zero[i] == 0
    requires stack[hop] < |l.pages| && key[hop] < |l.pages[stack[hop]]| && l.pages[stack[hop]][key[hop]].Leaf?
    ensures Seen(l.T(), zero, key, stack, hop, hiLimit, out', runs', p', start')
    ensures Extends(out, out', has, cur)
  {
    var v := ValueGet(l.pages[stack[hop]][key[hop]].raw);
    has, cur := Closes(p, v), Range(p.from, p.to, p.value);
    p' := Examined(p, v, Pad(key[..hop + 1], l.n, 0), Pad(key[..hop + 1], l.n, l.b - 1));
    out', runs', start' := SlotLooked(l.T(), zero, seen, key, stack, hop, hiLimit, out, runs, p, start, v, p');
  }

  /** From an examined slot to the next one. */
  lemma {:induction false} PastSlot(t: Pool, zero: Key, key: Key, stack: seq<nat>, hop: nat, hiLimit: nat,
                                      out: seq<Range>, runs: seq<Run>, p: Pending, start: nat, key': Key, hop': nat)
    requires Seen(t, zero, key, stack, hop, hiLimit, out, runs, p, start)
    requires hop' <= hop && IsKey(t.b, t.n, key') && HiOk(t.b, key', hop', hiLimit) && key'[..hop'] == key[..hop']
    requires Pos(t.b, t.n, key', hop') == End(t.b, t.n, key, hop) + 1
    ensures Walking(t, zero, key', stack, hop', hiLimit, out, runs, p, start)
    ensures Pos(t.b, t.n, key, hop) < Pos(t.b, t.n, key', hop')
  {
    PosEnd(t.b, t.n, key, hop);
    StandingUp(t, key, stack, hop, hiLimit, key', hop');
  }

  /** The move past an examined slot. */
  method Leave(l: Lpm, to: Key, key: Key, stack: seq<nat>, hop: nat, hiLimit: nat,
               ghost p: Pending, ghost zero: Key, ghost out: seq<Range>, ghost runs: seq<Run>, ghost start: nat)
    returns (key': Key, hop': nat, done: bool)
    requires l.Valid() && Seen(l.T(), zero, key, stack, hop, hiLimit, out, runs, p, start)
    requires |to| == l.n && forall i | 0 <= i < l.n :: to[i] == l.b - 1
    ensures done ==> Merged(l.T(), out, runs, p, start, Count(l.b, l.n))
    ensures !done ==> Walking(l.T(), zero, key', stack, hop', hiLimit, out, runs, p, start)
    ensures !done ==> Pos(l.b, l.n, key, hop) < Pos(l.b, l.n, key', hop')
  {
    key', hop', done := Advance(l.b, to, key, hop, hiLimit);
    if !done {
      PastSlot(l.T(), zero, key, stack, hop, hiLimit, out, runs, p, start, key', hop');
    }
  }

  /** One value slot and the move past it. */
  method VisitSlot(l: Lpm, to: Key, key: Key, stack: seq<nat>, hop: nat, hiLimit: nat, p: Pending,
                   out: seq<Range>, ghost zero: Key, ghost runs: seq<Run>, ghost start: nat)
    returns (p': Pending, out': seq<Range>, key': Key, hop': nat, done: bool, ghost runs': seq<Run>, ghost start': nat)
    requires l.Valid() && Walking(l.T(), zero, key, stack, hop, hiLimit, out, runs, p, start)
    requires IsKey(l.b, l.n, zero) && |to| == l.n && (forall i | 0 <= i < l.n :: zero[i] == 0 && to[i] == l.b - 1)
    requires stack[hop] < |l.pages| && key[hop] < |l.pages[stack[hop]]| && l.pages[stack[hop]][key[hop]].Leaf?
    ensures done ==> Merged(l.T(), out', runs', p', start', Count(l.b, l.n))
    ensures !done ==> Walking(l.T(), zero, key', stack, hop', hiLimit, out', runs', p', start')
    ensures !done ==> Pos(l.b, l.n, key, hop) < Pos(l.b, l.n, key', hop')
  {
    var has, cur;
    ghost var merged;
    has, cur, p', merged, runs', start' := Look(l, key, stack, hop, hiLimit, p, zero, false, out, runs, start);
    out' := if has then out + [cur] else out;
    assert out' == merged;
    key', hop', done := Leave(l, to, key, stack, hop, hiLimit, p', zero, out', runs', start');
  }

  /** lpm_walk over all keys; the calls it makes, as a list. */
  method Walk(l: Lpm, from: Key, to: Key) returns (out: seq<Range>, ghost runs: seq<Run>)
    requires l.Valid() && WholeRange(l.b, l.n, from, to)
    ensures WalkOf(l.T(), out, runs)
  {
    var key, stack: seq<nat>, p := from, seq(l.n, i => 0), Pending(VALUE_INVALID, from, []);
    var hop: nat, hiLimit: nat, maxHop: nat, done := 0, 0, 0, false;
    out, runs := [], [];
    ghost var start: nat := 0;
    MergeStart(l.T(), from, p);
    while !done
      invariant !done ==> Walking(l.T(), from, key, stack, hop, hiLimit, out, runs, p, start)
      invariant done ==> Merged(l.T(), out, runs, p, start, Count(l.b, l.n))
      decreases !done, if done then 0 else Count(l.b, l.n) - Pos(l.b, l.n, key, hop), l.n - hop
    {
      StandingSlot(l.T(), key, stack, hop, hiLimit);
      PosEnd(l.b, l.n, key, hop);
      if l.pages[stack[hop]][key[hop]].Node? {
        key, stack, hop, hiLimit, maxHop := Descend(l, from, to, key, stack, hop, hiLimit, maxHop);
      } else {
        p, out, key, hop, done, runs, start := VisitSlot(l, to, key, stack, hop, hiLimit, p, out, from, runs, start);
      }
    }
    MergeEnd(l.T(), out, runs, p, start);
    runs := Close(runs, p.value, start, Count(l.b, l.n));
    if p.value != VALUE_INVALID {
      out := out + [Range(p.from, p.to, p.value)];
    }
  }

  // ---- what the list means ----

  /** A key is covered by exactly one listed range, with its value, or by none when it has no value. */
  lemma {:induction false} WalkMeaning(t: Pool, out: seq<Range>, runs: seq<Run>, k: Key, i: nat)
    requires t.Wf() && t.b > 0 && WalkOf(t, out, runs) && IsKey(t.b, t.n, k)
    ensures i < |out| && InRange(t.b, out[i].from, out[i].to, k) ==> out[i].value == ValueGet(t.Raw(k)) != VALUE_INVALID
    ensures ValueGet(t.Raw(k)) != VALUE_INVALID ==> exists j | 0 <= j < |out| :: InRange(t.b, out[j].from, out[j].to, k)
  {
    var x := Val(t.b, k);
    ByKey(t, k);
    if i < |out| && InRange(t.b, out[i].from, out[i].to, k) {
      assert RunAt(ByNumber(t), Count(t.b, t.n), runs[i]);
      assert ByNumber(t)(x) == runs[i].value;
    }
    if ValueGet(t.Raw(k)) != VALUE_INVALID {
      assert Listed(runs, x);
      var j :| 0 <= j < |runs| && Within(runs[j], x);
      assert InRange(t.b, out[j].from, out[j].to, k);
    }
  }

  /** One of the first `m` ranges covers the key. */
  ghost predicate Covered(b: nat, out: seq<Range>, k: Key, m: nat)
    requires m <= |out|
  {
    exists j | 0 <= j < m :: InRange(b, out[j].from, out[j].to, k)
  }

  lemma {:induction false} CoveredStep(b: nat, out: seq<Range>, k: Key, m: nat)
    requires m < |out|
    ensures Covered(b, out, k, m + 1) <==> Covered(b, out, k, m) || InRange(b, out[m].from, out[m].to, k)
  {
  }

  /** When all ranges that cover a key agree, any of them is the last writer. */
  lemma {:induction false} LastWriterAgreed(b: nat, out: seq<Range>, k: Key, v: nat, m: nat)
    requires m <= |out| && forall j {:trigger out[j]} | 0 <= j < m && InRange(b, out[j].from, out[j].to, k) :: out[j].value == v
    ensures LastWriter(b, out[..m], k) == if Covered(b, out, k, m) then v else VALUE_INVALID
  {
    if m > 0 {
      var before, last := out[..m - 1], out[m - 1];
      assert out[..m][..m - 1] == before && out[..m][m - 1] == last;
      LastWriterAgreed(b, out, k, v, m - 1);
      CoveredStep(b, out, k, m - 1);
    }
  }

  /** The listed ranges, taken as inserts, spell the whole trie. */
  lemma {:induction false} WalkSpellsTrie(t: Pool, out: seq<Range>, runs: seq<Run>, k: Key)
    requires t.Wf() && t.b > 0 && WalkOf(t, out, runs) && IsKey(t.b, t.n, k)
    ensures LastWriter(t.b, out, k) == ValueGet(t.Raw(k))
  {
    forall j | 0 <= j < |out| && InRange(t.b, out[j].from, out[j].to, k)
      ensures out[j].value == ValueGet(t.Raw(k))
    {
      WalkMeaning(t, out, runs, k, j);
    }
    assert out[..|out|] == out;
    LastWriterAgreed(t.b, out, k, ValueGet(t.Raw(k)), |out|);
    WalkMeaning(t, out, runs, k, 0);
  }

  lemma {:induction false} WalkRanges(t: Pool, out: seq<Range>, runs: seq<Run>)
    requires t.Wf() && t.Good() && t.b > 0 && t.n > 0 && WalkOf(t, out, runs)
    ensures AllRanges(t.b, t.n, out)
  {
    forall i | 0 <= i < |out|
      ensures IsRange(t.b, t.n, out[i])
    {
      var k := out[i].from;
      assert RunAt(ByNumber(t), Count(t.b, t.n), runs[i]);
      assert k[..0] == [];
      WalkMeaning(t, out, runs, k, i);
      FindGood(t, 0, k, 0);
      GoodValue(t.Raw(k));
    }
  }

  lemma {:induction false} GoodValue(raw: nat)
    requires GoodRaw(raw) && ValueGet(raw) != VALUE_INVALID
    ensures ValueGet(raw) < 0x8000_0000
  {
  }

  /** Walking a trie and inserting what it lists into an empty one reproduces every lookup. */
  method RoundTrip(l: Lpm, empty: Lpm) returns (ok: bool)
    requires l.Valid() && empty.Valid() && l != empty && empty.b == l.b && empty.n == l.n
    requires forall k | IsKey(l.b, l.n, k) :: empty.Value(k) == VALUE_INVALID
    modifies empty`pages, empty`path, empty`chunksLeft
    ensures empty.Valid() && (!ok ==> empty.chunksLeft == 0)
    ensures ok ==> forall k | IsKey(l.b, l.n, k) :: empty.Value(k) == l.Value(k)
  {
    var from, to := seq(l.n, i => 0), seq(l.n, i => l.b - 1);
    ghost var t := l.T();
    var out;
    ghost var runs;
    out, runs := Walk(l, from, to);
    WalkRanges(t, out, runs);
    ok := InsertAll(empty, out);
    if ok {
      forall k | IsKey(l.b, l.n, k)
        ensures empty.Value(k) == l.Value(k)
      {
        WalkSpellsTrie(t, out, runs, k);
      }
    }
  }

  // ---- the pull iterator ----

  /** From an examined slot to the next one; at the end the last pending entry comes out. */
  method MoveOn(l: Lpm, to: Key, key: Key, stack: seq<nat>, hop: nat, hiLimit: nat, p: Pending,
                ghost zero: Key, ghost out: seq<Range>, ghost runs: seq<Run>, ghost start: nat)
    returns (has: bool, cur: Range, key': Key, hop': nat, done: bool, ghost out': seq<Range>, ghost runs': seq<Run>)
    requires l.Valid() && Seen(l.T(), zero, key, stack, hop, hiLimit, out, runs, p, start)
    requires |to| == l.n && forall i | 0 <= i < l.n :: to[i] == l.b - 1
    ensures has ==> done
    ensures Extends(out, out', has, cur)
    ensures done ==> WalkOf(l.T(), out', runs')
    ensures !done ==> Walking(l.T(), zero, key', stack, hop', hiLimit, out', runs', p, start)
    ensures !done ==> Pos(l.b, l.n, key, hop) < Pos(l.b, l.n, key', hop')
  {
    key', hop', done := Leave(l, to, key, stack, hop, hiLimit, p, zero, out, runs, start);
    has, cur, out', runs' := false, Range(p.from, p.to, p.value), out, runs;
    if !done {
      return;
    }
    MergeEnd(l.T(), out, runs, p, start);
    runs' := Close(runs, p.value, start, Count(l.b, l.n));
    if p.value != VALUE_INVALID {
      out' := out + [cur];
      has := true;
    }
  }

  /** One round of the iterator's loop: down, or an examination that may hand out an entry, and on. */
  method IterStep(l: Lpm, from: Key, to: Key, key: Key, stack: seq<nat>, hop: nat, hiLimit: nat, maxHop: nat, p: Pending,
                  ghost out: seq<Range>, ghost runs: seq<Run>, ghost start: nat, ghost seen: bool)
    returns (has: bool, cur: Range, key': Key, stack': seq<nat>, hop': nat, hiLimit': nat, maxHop': nat, p': Pending, done: bool,
             ghost out': seq<Range>, ghost runs': seq<Run>, ghost start': nat, ghost seen': bool)
    requires l.Valid() && IterAt(l.T(), from, seen, key, stack, hop, hiLimit, out, runs, p, start)
    requires WholeRange(l.b, l.n, from, to)
    ensures Extends(out, out', has, cur)
    ensures done ==> WalkOf(l.T(), out', runs')
    ensures !done ==> IterAt(l.T(), from, seen', key', stack', hop', hiLimit', out', runs', p', start')
    ensures !done && !has ==> Ahead(l.b, l.n, Count(l.b, l.n), key, hop, key', hop')
  {
    StandingSlot(l.T(), key, stack, hop, hiLimit);
    has, cur, done := false, Range([], [], 0), false;
    key', stack', hop', hiLimit', maxHop', p' := key, stack, hop, hiLimit, maxHop, p;
    out', runs', start', seen' := out, runs, start, seen;
    if l.pages[stack[hop]][key[hop]].Node? {
      key', stack', hop', hiLimit', maxHop' := Descend(l, from, to, key, stack, hop, hiLimit, maxHop);
      PosEnd(l.b, l.n, key', hop');
      return;
    }
    has, cur, p', out', runs', start' := Look(l, key, stack, hop, hiLimit, p, from, seen, out, runs, start);
    seen' := true;
    if !has {
      has, cur, key', hop', done, out', runs' := MoveOn(l, to, key, stack, hop, hiLimit, p', from, out', runs', start');
      seen' := false;
      if !done {
        PosEnd(l.b, l.n, key', hop');
      }
    }
  }

  /** The iterator's loop, up to the next entry or the end. */
  method IterRun(l: Lpm, from: Key, to: Key, key: Key, stack: seq<nat>, hop: nat, hiLimit: nat, maxHop: nat, p: Pending,
                 ghost out: seq<Range>, ghost runs: seq<Run>, ghost start: nat, ghost seen: bool)
    returns (has: bool, cur: Range, key': Key, stack': seq<nat>, hop': nat, hiLimit': nat, maxHop': nat, p': Pending, done: bool,
             ghost out': seq<Range>, ghost runs': seq<Run>, ghost start': nat, ghost seen': bool)
    requires l.Valid() && IterAt(l.T(), from, seen, key, stack, hop, hiLimit, out, runs, p, start)
    requires WholeRange(l.b, l.n, from, to)
    ensures Extends(out, out', has, cur) && (has || done)
    ensures done ==> WalkOf(l.T(), out', runs')
    ensures !done ==> IterAt(l.T(), from, seen', key', stack', hop', hiLimit', out', runs', p', start')
  {
    has, cur, done := false, Range([], [], 0), false;
    key', stack', hop', hiLimit', maxHop', p' := key, stack, hop, hiLimit, maxHop, p;
    out', runs', start', seen' := out, runs, start, seen;
    while !has && !done
      invariant !done ==> IterAt(l.T(), from, seen', key', stack', hop', hiLimit', out', runs', p', start')
      invariant done ==> WalkOf(l.T(), out', runs')
      invariant Extends(out, out', has, cur)
      decreases !has && !done, if has || done then 0 else Count(l.b, l.n) - Pos(l.b, l.n, key', hop'), l.n - hop'
    {
      has, cur, key', stack', hop', hiLimit', maxHop', p', done, out', runs', start', seen' :=
        IterStep(l, from, to, key', stack', hop', hiLimit', maxHop', p', out', runs', start', seen');
    }
  }

  /** The walk state of an iterator. */
  datatype Place = Place(key: Key, stack: seq<nat>, hop: nat, hiLimit: nat, maxHop: nat, p: Pending)

  /** What it has handed out, as ranges and as runs. */
  datatype Log = Log(out: seq<Range>, runs: seq<Run>, start: nat, seen: bool)

  ghost predicate Iterating(t: Pool, zero: Key, at: Place, log: Log, done: bool) {
    if done then t.Wf() && t.b > 0 && WalkOf(t, log.out, log.runs)
    else IterAt(t, zero, log.seen, at.key, at.stack, at.hop, at.hiLimit, log.out, log.runs, at.p, log.start)
  }

  /** lpm_iter_next on the state. */
  method IterNext(l: Lpm, from: Key, to: Key, at: Place, done: bool, ghost log: Log)
    returns (has: bool, cur: Range, at': Place, done': bool, ghost log': Log)
    requires l.Valid() && WholeRange(l.b, l.n, from, to) && Iterating(l.T(), from, at, log, done)
    ensures Extends(log.out, log'.out, has, cur) && (has || done')
    ensures Iterating(l.T(), from, at', log', done')
  {
    if done {
      return false, Range([], [], 0), at, true, log;
    }
    var key', stack', hop', hiLimit', maxHop', p';
    ghost var out', runs', start', seen';
    has, cur, key', stack', hop', hiLimit', maxHop', p', done', out', runs', start', seen' :=
      IterRun(l, from, to, at.key, at.stack, at.hop, at.hiLimit, at.maxHop, at.p, log.out, log.runs, log.start, log.seen);
    at' := Place(key', stack', hop', hiLimit', maxHop', p');
    log' := Log(out', runs', start', seen');
  }

  class LpmIter {
    const lpm: Lpm
    const rangeFrom: Key
    const rangeTo: Key
    var at: Place
    var done: bool
    ghost const t: Pool
    ghost var log: Log

    ghost predicate Valid()
      reads this, lpm
    {
      && t == lpm.T() && Sound(t) && lpm.chunk >= 1 && WholeRange(lpm.b, lpm.n, rangeFrom, rangeTo)
      && Iterating(t, rangeFrom, at, log, done)
    }

    /** lpm_iter_init over all keys. */
    constructor (lpm: Lpm, from: Key, to: Key)
      requires lpm.Valid() && WholeRange(lpm.b, lpm.n, from, to)
      ensures Valid() && !done && log.out == [] && this.lpm == lpm
    {
      this.lpm, rangeFrom, rangeTo, t := lpm, from, to, lpm.T();
      at := Place(from, seq(lpm.n, i => 0), 0, 0, 0, Pending(VALUE_INVALID, from, []));
      done, log := false, Log([], [], 0, false);
      MergeStart(lpm.T(), from, Pending(VALUE_INVALID, from, []));
    }

    /** lpm_iter_next: one more entry, until all of the walk's ranges have come out. */
    method Next() returns (has: bool, cur: Range)
      requires Valid()
      modifies this
      ensures Valid() && Extends(old(log).out, log.out, has, cur)
      ensures !has ==> done
    {
      var at', done';
      ghost var log';
      has, cur, at', done', log' := IterNext(lpm, rangeFrom, rangeTo, at, done, log);
      at, done, log := at', done', log';
    }
  }

  /** Once exhausted, the iterator has given exactly the ranges the walk gives. */
  lemma {:induction false} IteratorIsWalk(t: Pool, out: seq<Range>, runs: seq<Run>, out': seq<Range>, runs': seq<Run>)
    requires t.Wf() && t.b > 0 && WalkOf(t, out, runs) && WalkOf(t, out', runs')
    ensures out == out'
  {
    RunListUnique(ByNumber(t), Count(t.b, t.n), runs, runs', 0);
    forall i | 0 <= i < |out|
      ensures out[i] == out'[i]
    {
      assert runs[i] == runs'[i];
      ValInjective(t.b, out[i].from, out'[i].from);
      ValInjective(t.b, out[i].to, out'[i].to);
    }
  }
}
