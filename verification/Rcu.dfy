/**
 The grace period of common/rcu.h as a state machine: readers that sample the epoch, mark themselves
 active and load the value, and one writer that publishes a value, flips the epoch twice and scans the
 workers one load at a time. Loads and stores are atomic and take effect in program order.
 */
module Rcu {
  /** Packed worker state: bit 0 tells whether the worker is active, bit 1 is its epoch. */
  function Pack(e: nat): nat
    requires e < 2
  {
    1 + 2 * e
  }

  predicate ActiveIn(state: nat, e: nat) {
    state % 2 == 1 && state / 2 % 2 == e
  }

  /** Where a worker is: it has sampled an epoch, stored its state, or loaded version `v` of the value. */
  datatype Reader = Idle | Sampled(e: nat) | Marked(e: nat) | Holding(e: nat, v: nat)

  /**
   Where the writer is: at rest, past the store of the value, waiting for epoch `e` (in round 1 or 2)
   with worker `i` next to look at, or between the two rounds.
   */
  datatype Writer = Rest | Published | Scanning(round: nat, e: nat, i: nat) | Between

  /** `version` counts the values published; `packed` holds the workers' atomic states. */
  datatype State = State(epoch: nat, version: nat, packed: seq<nat>, readers: seq<Reader>, writer: Writer)

  datatype Action = Sample(w: nat) | Mark(w: nat) | Load(w: nat) | End(w: nat) | Store | Flip | Scan

  /** One step of some thread. */
  ghost predicate Next(s: State, a: Action, s': State) {
    match a
    case Sample(w) =>
      && w < |s.readers| && s.readers[w].Idle?
      && s' == s.(readers := s.readers[w := Sampled(s.epoch)])
    case Mark(w) =>
      && w < |s.readers| && |s.packed| == |s.readers| && s.readers[w].Sampled? && s.readers[w].e < 2
      && s' == s.(readers := s.readers[w := Marked(s.readers[w].e)], packed := s.packed[w := Pack(s.readers[w].e)])
    case Load(w) =>
      && w < |s.readers| && s.readers[w].Marked?
      && s' == s.(readers := s.readers[w := Holding(s.readers[w].e, s.version)])
    case End(w) =>
      && w < |s.readers| && |s.packed| == |s.readers| && s.readers[w].Holding?
      && s' == s.(readers := s.readers[w := Idle], packed := s.packed[w := 0])
    case Store =>
      s.writer.Rest? && s' == s.(version := s.version + 1, writer := Published)
    case Flip =>
      && s.epoch < 2 && (s.writer.Published? || s.writer.Between?)
      && s' == s.(epoch := 1 - s.epoch, writer := Scanning(if s.writer.Published? then 1 else 2, s.epoch, 0))
    case Scan =>
      && s.writer.Scanning? && s.writer.i <= |s.packed|
      && s' == s.(writer :=
           if s.writer.i == |s.packed| then (if s.writer.round == 1 then Between else Rest)
           else if ActiveIn(s.packed[s.writer.i], s.writer.e) then s.writer.(i := 0)
           else s.writer.(i := s.writer.i + 1))
  }

  ghost predicate Init(s: State) {
    && s.epoch == 0 && s.version == 0 && s.writer == Rest && |s.packed| == |s.readers|
    && forall w | 0 <= w < |s.readers| :: s.readers[w] == Idle && s.packed[w] == 0
  }

  /** A worker that loaded a value the writer has already replaced, while marked with epoch `e`. */
  ghost predicate Old(s: State, w: nat, e: nat)
    requires w < |s.readers|
  {
    s.readers[w].Holding? && s.readers[w].e == e && s.readers[w].v < s.version
  }

  /** The packed word says what the worker is doing. */
  ghost predicate WordOk(s: State, w: nat)
    requires w < |s.readers| == |s.packed|
  {
    match s.readers[w]
    case Idle => s.packed[w] == 0
    case Sampled(e) => e < 2 && s.packed[w] == 0
    case Marked(e) => e < 2 && s.packed[w] == Pack(e)
    case Holding(e, v) => e < 2 && s.packed[w] == Pack(e) && v <= s.version
  }

  /** Which workers can no longer hold a replaced value, by how far the writer has come. */
  ghost predicate Cleared(s: State, w: nat, e: nat) {
    match s.writer
    case Rest => true
    case Published => false
    case Scanning(round, f, i) => (e == f && w < i) || (round == 2 && e != f)
    case Between => e != s.epoch
  }

  ghost predicate Inv(s: State) {
    && |s.packed| == |s.readers| && s.epoch < 2
    && (s.writer.Scanning? ==> 1 <= s.writer.round <= 2 && s.writer.i <= |s.readers| && s.writer.e == 1 - s.epoch)
    && (forall w {:trigger WordOk(s, w)} | 0 <= w < |s.readers| :: WordOk(s, w))
    && forall w, e: nat {:trigger Old(s, w, e)} | 0 <= w < |s.readers| && e < 2 && Cleared(s, w, e) :: !Old(s, w, e)
  }

  lemma {:induction false} InitInv(s: State)
    requires Init(s)
    ensures Inv(s)
  {
    assert forall w | 0 <= w < |s.readers| :: s.readers[w] == Idle;
  }

  lemma {:induction false} PackRoundTrip(e: nat, f: nat)
    requires e < 2
    ensures ActiveIn(Pack(e), f) <==> e == f
    ensures !ActiveIn(0, f)
  {
  }

  lemma {:induction false} StepWords(s: State, a: Action, s': State, w: nat)
    requires Inv(s) && Next(s, a, s') && w < |s'.readers|
    ensures |s'.readers| == |s'.packed| == |s.readers| && WordOk(s', w)
  {
    assert WordOk(s, w);
  }

  lemma {:induction false} StepCleared(s: State, a: Action, s': State, w: nat, e: nat)
    requires Inv(s) && Next(s, a, s') && w < |s'.readers| == |s.readers| && e < 2 && Cleared(s', w, e)
    ensures !Old(s', w, e)
  {
    assert WordOk(s, w);
    assert Cleared(s, w, e) ==> !Old(s, w, e);
    if a.Scan? && s.writer.i < |s.packed| && w == s.writer.i && e == s.writer.e && s.readers[w].Holding? {
      PackRoundTrip(s.readers[w].e, e);
    }
  }

  lemma {:induction false} InvStep(s: State, a: Action, s': State)
    requires Inv(s) && Next(s, a, s')
    ensures Inv(s')
  {
    forall w | 0 <= w < |s'.readers|
      ensures WordOk(s', w)
    {
      StepWords(s, a, s', w);
    }
    forall w, e: nat | 0 <= w < |s'.readers| && e < 2 && Cleared(s', w, e)
      ensures !Old(s', w, e)
    {
      StepCleared(s, a, s', w, e);
    }
  }

  // ---- runs ----

  ghost predicate Run(ss: seq<State>, steps: seq<Action>) {
    && |ss| == |steps| + 1 && Init(ss[0])
    && forall i | 0 <= i < |steps| :: Next(ss[i], steps[i], ss[i + 1])
  }

  lemma {:induction false} RunInv(ss: seq<State>, steps: seq<Action>, n: nat)
    requires Run(ss, steps) && n <= |steps|
    ensures Inv(ss[n]) && |ss[n].readers| == |ss[0].readers|
  {
    if n == 0 {
      InitInv(ss[0]);
    } else {
      RunInv(ss, steps, n - 1);
      assert Next(ss[n - 1], steps[n - 1], ss[n]);
      InvStep(ss[n - 1], steps[n - 1], ss[n]);
    }
  }

  lemma {:induction false} VersionGrows(ss: seq<State>, steps: seq<Action>, m: nat, n: nat)
    requires Run(ss, steps) && m <= n <= |steps|
    ensures ss[m].version <= ss[n].version
  {
    if m < n {
      VersionGrows(ss, steps, m, n - 1);
      assert Next(ss[n - 1], steps[n - 1], ss[n]);
    }
  }

  /** While the writer rests, every reader holds the value last published. */
  lemma {:induction false} RestMeansCurrent(s: State, w: nat)
    requires Inv(s) && s.writer.Rest? && w < |s.readers| && s.readers[w].Holding?
    ensures s.readers[w].v == s.version
  {
    assert WordOk(s, w);
    assert !Old(s, w, s.readers[w].e);
  }

  /** A held value stays at or above the version of any earlier rest. */
  lemma {:induction false} NeverOlder(ss: seq<State>, steps: seq<Action>, m: nat, n: nat, w: nat)
    requires Run(ss, steps) && m <= n <= |steps| && ss[m].writer.Rest?
    requires w < |ss[n].readers| && ss[n].readers[w].Holding?
    ensures ss[n].readers[w].v >= ss[m].version
  {
    RunInv(ss, steps, n);
    if n == m {
      RestMeansCurrent(ss[n], w);
    } else {
      RunInv(ss, steps, n - 1);
      assert Next(ss[n - 1], steps[n - 1], ss[n]);
      if ss[n - 1].readers[w].Holding? {
        NeverOlder(ss, steps, m, n - 1, w);
      } else {
        VersionGrows(ss, steps, m, n - 1);
      }
    }
  }

  /**
   The guarantee rcu_update gives: in every run, once an update has returned, no worker ever again
   holds a value it replaced, not even one that sampled its epoch many updates ago. What was replaced
   can be reclaimed.
   */
  lemma {:induction false} ReclaimIsSafe(ss: seq<State>, steps: seq<Action>, done: nat, n: nat, w: nat, old': nat)
    requires Run(ss, steps) && done <= n <= |steps| && ss[done].writer.Rest? && old' < ss[done].version
    requires w < |ss[n].readers|
    ensures !(ss[n].readers[w].Holding? && ss[n].readers[w].v == old')
  {
    if ss[n].readers[w].Holding? {
      NeverOlder(ss, steps, done, n, w);
    }
  }

  // ---- what the flips are for ----

  /** The workers that a wait for epoch `e` may have to wait for. */
  ghost function Blockers(s: State, e: nat): set<nat> {
    set w: nat | w < |s.readers| && !s.readers[w].Idle? && s.readers[w].e == e
  }

  /** During a wait no worker joins those waited for: the flip sends newcomers to the other epoch. */
  lemma {:induction false} WaitIsBounded(s: State, a: Action, s': State)
    requires Inv(s) && Next(s, a, s') && s.writer.Scanning?
    ensures Blockers(s', s.writer.e) <= Blockers(s, s.writer.e)
    ensures a.End? && a.w in Blockers(s, s.writer.e) ==> a.w !in Blockers(s', s.writer.e)
  {
  }

  /** With none left the scan never starts over. */
  lemma {:induction false} ScanEnds(s: State, s': State)
    requires Inv(s) && Next(s, Scan, s') && Blockers(s, s.writer.e) == {}
    ensures s'.writer.Scanning? ==> s'.writer.i == s.writer.i + 1
    ensures s'.writer.Scanning? <==> s.writer.i < |s.readers|
  {
    if s.writer.i < |s.readers| {
      var w := s.writer.i;
      assert WordOk(s, w);
      assert w !in Blockers(s, s.writer.e);
      if s.readers[w].Marked? || s.readers[w].Holding? {
        PackRoundTrip(s.readers[w].e, s.writer.e);
      }
    }
  }

  /** Nobody in epoch `e`, and the scan restarts only on a worker that is. */
  lemma {:induction false} RestartHasBlocker(s: State, s': State)
    requires Inv(s) && Next(s, Scan, s') && s.writer.i < |s.packed| && s'.writer.i != s.writer.i + 1
    ensures s.writer.i in Blockers(s, s.writer.e) && !s.readers[s.writer.i].Sampled?
  {
    var w := s.writer.i;
    assert WordOk(s, w);
    if s.readers[w].Marked? || s.readers[w].Holding? {
      PackRoundTrip(s.readers[w].e, s.writer.e);
    }
  }

  // ---- one round is not enough ----

  function One(epoch: nat, version: nat, packed: nat, r: Reader, w: Writer): State {
    State(epoch, version, [packed], [r], w)
  }

  /** A run, by its last state. */
  ghost predicate Reaches(s: State) {
    exists ss, steps :: Run(ss, steps) && ss[|steps|] == s
  }

  lemma {:induction false} Reach(s: State, a: Action, s': State)
    requires Reaches(s) && Next(s, a, s')
    ensures Reaches(s')
  {
    var ss, steps :| Run(ss, steps) && ss[|steps|] == s;
    var ss', steps' := ss + [s'], steps + [a];
    assert forall i | 0 <= i < |steps'| :: Next(ss'[i], steps'[i], ss'[i + 1]);
    assert Run(ss', steps') && ss'[|steps'|] == s';
  }

  lemma {:induction false} ReachStart()
    ensures Reaches(One(0, 0, 0, Idle, Rest))
  {
    var s := One(0, 0, 0, Idle, Rest);
    assert Run([s], []) && [s][0] == s;
  }

  /** Half an update, up to the second flip, with a worker that stays as it is. */
  lemma {:induction false} FirstRound(version: nat, packed: nat, r: Reader)
    requires Reaches(One(0, version, packed, r, Rest)) && !ActiveIn(packed, 0)
    ensures Reaches(One(1, version + 1, packed, r, Between))
  {
    Reach(One(0, version, packed, r, Rest), Store, One(0, version + 1, packed, r, Published));
    Reach(One(0, version + 1, packed, r, Published), Flip, One(1, version + 1, packed, r, Scanning(1, 0, 0)));
    Reach(One(1, version + 1, packed, r, Scanning(1, 0, 0)), Scan, One(1, version + 1, packed, r, Scanning(1, 0, 1)));
    Reach(One(1, version + 1, packed, r, Scanning(1, 0, 1)), Scan, One(1, version + 1, packed, r, Between));
  }

  /**
   A worker that sampled the epoch during an earlier update marks itself with the epoch that is no
   longer current and loads; the first round of the next update passes it by while it still holds the
   replaced value.
   */
  lemma {:induction false} OneRoundIsNotEnough()
    ensures exists s :: Reaches(s) && |s.readers| == 1 && s.writer.Between? && Old(s, 0, 1)
  {
    ReachStart();
    FirstRound(0, 0, Idle);
    Reach(One(1, 1, 0, Idle, Between), Sample(0), One(1, 1, 0, Sampled(1), Between));
    Reach(One(1, 1, 0, Sampled(1), Between), Flip, One(0, 1, 0, Sampled(1), Scanning(2, 1, 0)));
    Reach(One(0, 1, 0, Sampled(1), Scanning(2, 1, 0)), Scan, One(0, 1, 0, Sampled(1), Scanning(2, 1, 1)));
    Reach(One(0, 1, 0, Sampled(1), Scanning(2, 1, 1)), Scan, One(0, 1, 0, Sampled(1), Rest));
    Reach(One(0, 1, 0, Sampled(1), Rest), Mark(0), One(0, 1, 3, Marked(1), Rest));
    Reach(One(0, 1, 3, Marked(1), Rest), Load(0), One(0, 1, 3, Holding(1, 1), Rest));
    FirstRound(1, 3, Holding(1, 1));
    assert Old(One(1, 2, 3, Holding(1, 1), Between), 0, 1);
  }
}
