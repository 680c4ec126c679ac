/**
 The reader-writer lock of common/rwlock.h: one 32-bit counter, any number of threads below 2^29, one
 atomic operation per step. The weak compare-and-exchange may fail without cause.
 */
module RwLock {
  const WAIT := 1
  const WRITE := 2
  const READ := 4
  const MAX_THREADS := 0x2000_0000

  /** The result of one signed 32-bit addition or subtraction. */
  function Wrap(x: int): int {
    if x >= 0x8000_0000 then x - 0x1_0000_0000
    else if x < -0x8000_0000 then x + 0x1_0000_0000
    else x
  }

  /** `x & (WAIT | WRITE)` in two's complement. */
  function Masked(x: int): int {
    x % 4
  }

  /**
   Where a thread is. `Backing` has added its read count but saw a writer; `Trying`, `Loaded` and
   `Failed` are the places in the write loop before the load, the exchange and the wait bit.
   */
  datatype Thread = Out | Reading | Backing | Trying | Loaded(x: int) | Failed(x: int) | Writing

  datatype State = State(cnt: int, threads: seq<Thread>)

  datatype Action = AddRead(t: nat) | BackOut(t: nat) | ReadUnlock(t: nat) | WriteEnter(t: nat) | WriteLoad(t: nat)
                  | Exchange(t: nat, luck: bool) | SetWait(t: nat) | WriteUnlock(t: nat)

  function Go(s: State, t: nat, cnt: int, p: Thread): State
    requires t < |s.threads|
  {
    State(cnt, s.threads[t := p])
  }

  ghost predicate Next(s: State, a: Action, s': State) {
    a.t < |s.threads| &&
    match a
    case AddRead(t) =>
      && s.threads[t].Out?
      && var x := Wrap(s.cnt + READ); s' == Go(s, t, x, if Masked(x) == 0 then Reading else Backing)
    case BackOut(t) =>
      s.threads[t].Backing? && s' == Go(s, t, Wrap(s.cnt - READ), Out)
    case ReadUnlock(t) =>
      s.threads[t].Reading? && s' == Go(s, t, Wrap(s.cnt - READ), Out)
    case WriteEnter(t) =>
      s.threads[t].Out? && s' == Go(s, t, s.cnt, Trying)
    case WriteLoad(t) =>
      s.threads[t].Trying? && s' == Go(s, t, s.cnt, if s.cnt > WAIT then Trying else Loaded(s.cnt))
    case Exchange(t, luck) =>
      && s.threads[t].Loaded?
      && s' == if luck && s.cnt == s.threads[t].x then Go(s, t, WRITE, Writing) else Go(s, t, s.cnt, Failed(s.cnt))
    case SetWait(t) =>
      && s.threads[t].Failed?
      && s' == Go(s, t, if s.threads[t].x % 2 == 0 then s.cnt + (1 - s.cnt % 2) else s.cnt, Trying)
    case WriteUnlock(t) =>
      s.threads[t].Writing? && s' == Go(s, t, Wrap(s.cnt - WRITE), Out)
  }

  ghost predicate Init(s: State) {
    s.cnt == 0 && |s.threads| < MAX_THREADS && forall t | 0 <= t < |s.threads| :: s.threads[t] == Out
  }

  // ---- counting threads ----

  datatype Kind = Readers | Writers | Seekers

  /** Whether a thread has its read count in, holds the write lock, or seeks it. */
  predicate Is(p: Thread, k: Kind) {
    match k
    case Readers => p.Reading? || p.Backing?
    case Writers => p.Writing?
    case Seekers => p.Trying? || p.Loaded? || p.Failed?
  }

  function One(p: Thread, k: Kind): nat {
    if Is(p, k) then 1 else 0
  }

  ghost function Count(ts: seq<Thread>, k: Kind): nat {
    if |ts| == 0 then 0 else Count(ts[..|ts| - 1], k) + One(ts[|ts| - 1], k)
  }

  lemma {:induction false} CountUpdate(ts: seq<Thread>, t: nat, p: Thread, k: Kind)
    requires t < |ts|
    ensures Count(ts[t := p], k) == Count(ts, k) - One(ts[t], k) + One(p, k)
    ensures One(ts[t], k) <= Count(ts, k) <= |ts|
    decreases |ts|
  {
    var n := |ts| - 1;
    if t == n {
      assert ts[t := p][..n] == ts[..n];
      if n > 0 {
        CountUpdate(ts[..n], 0, ts[0], k);
      }
    } else {
      assert ts[t := p][..n] == ts[..n][t := p];
      CountUpdate(ts[..n], t, p, k);
    }
  }

  lemma {:induction false} CountNone(ts: seq<Thread>, k: Kind)
    requires forall t | 0 <= t < |ts| :: !Is(ts[t], k)
    ensures Count(ts, k) == 0
    decreases |ts|
  {
    if |ts| > 0 {
      CountNone(ts[..|ts| - 1], k);
    }
  }

  // ---- the invariant ----

  /** The counter as `readers`, `writers` and the wait bit. */
  ghost predicate Tally(cnt: int, readers: nat, writers: nat) {
    0 <= cnt && cnt == READ * readers + WRITE * writers + cnt % 2
  }

  lemma {:induction false} Parity(x: int)
    ensures (x + READ) % 2 == x % 2 && (x - READ) % 2 == x % 2 && (x - WRITE) % 2 == x % 2
    ensures (x + (1 - x % 2)) % 2 == 1
  {
  }

  lemma {:induction false} LowBits(q: int, m: int)
    requires 0 <= m < 4
    ensures Masked(READ * q + m) == m
  {
  }

  lemma {:induction false} TallyStep(cnt: int, readers: nat, writers: nat)
    requires Tally(cnt, readers, writers) && writers <= 1
    ensures Tally(cnt + READ, readers + 1, writers) && (cnt + READ) % 2 == cnt % 2
    ensures Masked(cnt + READ) == 0 <==> writers == 0 && cnt % 2 == 0
    ensures readers > 0 ==> Tally(cnt - READ, readers - 1, writers) && (cnt - READ) % 2 == cnt % 2
    ensures writers > 0 ==> Tally(cnt - WRITE, readers, writers - 1) && (cnt - WRITE) % 2 == cnt % 2
    ensures Tally(cnt + (1 - cnt % 2), readers, writers)
    ensures cnt <= WAIT ==> readers == 0 && writers == 0
  {
    Parity(cnt);
    LowBits(readers + 1, WRITE * writers + cnt % 2);
  }

  /**
   The counter is exactly four per reader in, two for the writer, and the wait bit; a writer is alone;
   a wait bit always has a writer that seeks the lock.
   */
  ghost predicate Inv(s: State) {
    && |s.threads| < MAX_THREADS && Count(s.threads, Writers) <= 1
    && Tally(s.cnt, Count(s.threads, Readers), Count(s.threads, Writers))
    && (Count(s.threads, Writers) == 1 ==> forall t | 0 <= t < |s.threads| :: !s.threads[t].Reading?)
    && (s.cnt % 2 == 1 ==> Count(s.threads, Seekers) > 0)
    && forall t | 0 <= t < |s.threads| :: s.threads[t].Loaded? ==> s.threads[t].x <= WAIT
  }

  lemma {:induction false} InitInv(s: State)
    requires Init(s)
    ensures Inv(s)
  {
    CountNone(s.threads, Readers);
    CountNone(s.threads, Writers);
  }

  lemma {:induction false} NoReaderIn(ts: seq<Thread>)
    requires Count(ts, Readers) == 0
    ensures forall t | 0 <= t < |ts| :: !ts[t].Reading?
  {
    forall t | 0 <= t < |ts|
      ensures !ts[t].Reading?
    {
      CountUpdate(ts, t, Out, Readers);
    }
  }

  /** The 32-bit arithmetic never wraps. */
  lemma {:induction false} NoWrap(s: State, a: Action, s': State)
    requires Inv(s) && Next(s, a, s')
    ensures 0 <= s.cnt < 0x8000_0000 && Wrap(s.cnt) == s.cnt
    ensures a.AddRead? ==> s'.cnt == s.cnt + READ
    ensures a.BackOut? || a.ReadUnlock? ==> s'.cnt == s.cnt - READ
    ensures a.WriteUnlock? ==> s'.cnt == s.cnt - WRITE
  {
    CountUpdate(s.threads, a.t, Out, Writers);
    CountUpdate(s.threads, a.t, Reading, Readers);
    CountUpdate(s.threads[a.t := Reading], a.t, Reading, Readers);
  }

  lemma {:induction false} StepCount(s: State, a: Action, s': State, k: Kind)
    requires Next(s, a, s')
    ensures |s'.threads| == |s.threads| && One(s.threads[a.t], k) <= Count(s.threads, k)
    ensures Count(s'.threads, k) == Count(s.threads, k) - One(s.threads[a.t], k) + One(s'.threads[a.t], k)
  {
    var p := s'.threads[a.t];
    assert s'.threads == s.threads[a.t := p];
    CountUpdate(s.threads, a.t, p, k);
  }

  /** The operations that add to the counter. */
  ghost predicate Adds(a: Action) {
    a.AddRead? || a.BackOut? || a.ReadUnlock? || a.WriteUnlock?
  }

  lemma {:induction false} AddsTally(s: State, a: Action, s': State)
    requires Inv(s) && Next(s, a, s') && Adds(a)
    ensures Count(s'.threads, Writers) <= 1 && Tally(s'.cnt, Count(s'.threads, Readers), Count(s'.threads, Writers))
  {
    StepCount(s, a, s', Readers);
    StepCount(s, a, s', Writers);
    TallyStep(s.cnt, Count(s.threads, Readers), Count(s.threads, Writers));
    NoWrap(s, a, s');
  }

  lemma {:induction false} InvTally(s: State, a: Action, s': State)
    requires Inv(s) && Next(s, a, s')
    ensures Count(s'.threads, Writers) <= 1 && Tally(s'.cnt, Count(s'.threads, Readers), Count(s'.threads, Writers))
  {
    if Adds(a) {
      AddsTally(s, a, s');
    } else {
      StepCount(s, a, s', Readers);
      StepCount(s, a, s', Writers);
      TallyStep(s.cnt, Count(s.threads, Readers), Count(s.threads, Writers));
      if a.Exchange? {
        assert Tally(WRITE, 0, 1);
      }
    }
  }

  lemma {:induction false} InvSeekers(s: State, a: Action, s': State)
    requires Inv(s) && Next(s, a, s')
    ensures s'.cnt % 2 == 1 ==> Count(s'.threads, Seekers) > 0
  {
    NoWrap(s, a, s');
    Parity(s.cnt);
    StepCount(s, a, s', Seekers);
  }

  lemma {:induction false} InvStep(s: State, a: Action, s': State)
    requires Inv(s) && Next(s, a, s')
    ensures Inv(s')
  {
    InvTally(s, a, s');
    InvSeekers(s, a, s');
    NoWrap(s, a, s');
    TallyStep(s.cnt, Count(s.threads, Readers), Count(s.threads, Writers));
    CountUpdate(s.threads, a.t, s'.threads[a.t], Writers);
    assert s'.threads == s.threads[a.t := s'.threads[a.t]];
    if a.Exchange? && s'.threads[a.t].Writing? {
      NoReaderIn(s.threads);
    }
  }

  // ---- runs ----

  ghost predicate Run(ss: seq<State>, steps: seq<Action>) {
    && |ss| == |steps| + 1 && Init(ss[0])
    && forall i | 0 <= i < |steps| :: Next(ss[i], steps[i], ss[i + 1])
  }

  lemma {:induction false} RunInv(ss: seq<State>, steps: seq<Action>, n: nat)
    requires Run(ss, steps) && n <= |steps|
    ensures Inv(ss[n])
  {
    if n == 0 {
      InitInv(ss[0]);
    } else {
      RunInv(ss, steps, n - 1);
      assert Next(ss[n - 1], steps[n - 1], ss[n]);
      InvStep(ss[n - 1], steps[n - 1], ss[n]);
    }
  }

  /** In every run, whoever writes is alone: no other thread reads or writes. */
  lemma {:induction false} Exclusion(ss: seq<State>, steps: seq<Action>, n: nat, t: nat, u: nat)
    requires Run(ss, steps) && n <= |steps| && t < |ss[n].threads| && u < |ss[n].threads| && t != u
    requires ss[n].threads[t].Writing?
    ensures !ss[n].threads[u].Reading? && !ss[n].threads[u].Writing?
  {
    RunInv(ss, steps, n);
    var ts := ss[n].threads;
    CountUpdate(ts, t, Out, Writers);
    CountUpdate(ts[t := Out], u, Out, Writers);
  }

  /**
   In every run a read attempt succeeds at once exactly when no thread holds the write lock and the wait
   bit is off; with no writer holding or seeking the lock it always succeeds, so no wait bit is left behind.
   */
  lemma {:induction false} ReadAttempt(ss: seq<State>, steps: seq<Action>, n: nat, t: nat, s': State)
    requires Run(ss, steps) && n <= |steps| && Next(ss[n], AddRead(t), s')
    ensures s'.threads[t].Reading? <==> Count(ss[n].threads, Writers) == 0 && ss[n].cnt % 2 == 0
    ensures Count(ss[n].threads, Writers) == 0 && Count(ss[n].threads, Seekers) == 0 ==> s'.threads[t].Reading?
  {
    RunInv(ss, steps, n);
    NoWrap(ss[n], AddRead(t), s');
    TallyStep(ss[n].cnt, Count(ss[n].threads, Readers), Count(ss[n].threads, Writers));
  }

  /** When everyone is out again the counter is back to zero. */
  lemma {:induction false} AllOutIsZero(ss: seq<State>, steps: seq<Action>, n: nat)
    requires Run(ss, steps) && n <= |steps| && forall t | 0 <= t < |ss[n].threads| :: ss[n].threads[t].Out?
    ensures ss[n].cnt == 0
  {
    RunInv(ss, steps, n);
    CountNone(ss[n].threads, Readers);
    CountNone(ss[n].threads, Writers);
    CountNone(ss[n].threads, Seekers);
  }
}
