/**
 The single-producer single-consumer ring of common/data_pipe.h. Positions are 64-bit words that wrap;
 the lengths of the histories are the same positions without wrapping. A load of the other side's
 position may return any value from the one last seen up to the current one.
 */
module DataPipe {
  import opened Arith
  import opened KeyArith

  const U64: nat := 0x1_0000_0000_0000_0000

  // ---- window arithmetic ----

  /** `x` reduced to 64 bits. */
  function Word(x: int): nat {
    x % U64
  }

  /** The slots a call may use: `count` of them from `start`. */
  datatype Window = Window(start: nat, count: nat)

  /** The arithmetic of data_pipe_ring_handle on a ring of `n` slots, in 64-bit words. */
  function Clip(from: nat, to: nat, n: nat, space: nat): Window
    requires n > 0
  {
    Window(from % n, Clipped(from % n, Word(to - from + space), n))
  }

  /** The available slots, less those past the end of the ring if it is passed. */
  function Clipped(masked: nat, available: nat, n: nat): nat
    requires n > 0
  {
    var over := Word(masked + available - n);
    var wraps := Word(masked + available) / n;
    Word(available - wraps * over)
  }

  lemma {:induction false} WordUnique(x: int, k: int, rem: nat)
    requires rem < U64 && x == k * U64 + rem
    ensures Word(x) == rem
  {
    QuotientUnique(x, k, rem, U64);
  }

  /** Reducing to 64 bits first does not change the slot. */
  lemma {:induction false} SlotOfWord(p: nat, n: nat, m: nat)
    requires n > 0 && n * m == U64
    ensures Word(p) % n == p % n
  {
    var h, k := p / U64, Word(p) / n;
    assert p == h * (n * m) + (k * n + Word(p) % n);
    assert h * (n * m) == (h * m) * n;
    assert p == (h * m + k) * n + Word(p) % n by {
      assert (h * m + k) * n == (h * m) * n + k * n;
    }
    QuotientUnique(p, h * m + k, Word(p) % n, n);
  }

  lemma {:induction false} WordDifference(a: nat, b: nat, space: nat)
    requires 0 <= b - a + space < U64
    ensures Word(Word(b) - Word(a) + space) == b - a + space
  {
    var k := a / U64 - b / U64;
    assert Word(b) - Word(a) + space == k * U64 + (b - a + space);
    WordUnique(Word(b) - Word(a) + space, k, b - a + space);
  }

  lemma {:induction false} ClipWords(start: nat, available: nat, n: nat)
    requires start < n <= 0x4000_0000 && available <= n
    ensures Clipped(start, available, n) == if start + available <= n then available else n - start
  {
    var x := start + available;
    WordUnique(x, 0, x);
    if x < n {
      QuotientUnique(x, 0, x, n);
      assert Word(x) / n * Word(x - n) == 0;
      WordUnique(available, 0, available);
    } else {
      QuotientUnique(x, 1, x - n, n);
      WordUnique(x - n, 0, x - n);
      assert Word(x) / n * Word(x - n) == x - n;
      WordUnique(n - start, 0, n - start);
    }
  }

  /** The branchless code clips the available slots at the end of the ring, whatever has wrapped. */
  lemma {:induction false} ClipExact(a: nat, b: nat, n: nat, m: nat, space: nat)
    requires 0 < n <= 0x4000_0000 && n * m == U64 && 0 <= b - a + space <= n
    ensures var w := Clip(Word(a), Word(b), n, space);
            w.start == a % n && w.count == if a % n + (b - a + space) <= n then b - a + space else n - a % n
  {
    SlotOfWord(a, n, m);
    WordDifference(a, b, space);
    ClipWords(a % n, b - a + space, n);
  }

  lemma {:induction false} SlotAhead(p: nat, i: nat, n: nat)
    requires n > 0 && p % n + i < n
    ensures (p + i) % n == p % n + i
  {
    QuotientUnique(p + i, p / n, p % n + i, n);
  }

  /** Positions less than a turn apart use different slots. */
  lemma {:induction false} SlotsDiffer(p: nat, q: nat, n: nat)
    requires n > 0 && p < q < p + n
    ensures p % n != q % n
  {
    if p % n == q % n {
      assert (q / n - p / n) * n == q - p;
      Multiple(q / n - p / n - 1, n);
    }
  }

  lemma {:induction false} SlotsApart(p: nat, i: nat, q: nat, j: nat, n: nat)
    requires n > 0 && p % n + i < n && q % n + j < n && p + i < q + j < p + i + n
    ensures p % n + i != q % n + j
  {
    SlotAhead(p, i, n);
    SlotAhead(q, j, n);
    SlotsDiffer(p + i, q + j, n);
  }

  lemma {:induction false} Pow2Values()
    ensures Pow2(30) == 0x4000_0000 && Pow2(64) == U64
  {
    assert Pow2(2) == 4;
    assert Pow2(4) == 16;
    Pow2Sum(2, 4);
    assert Pow2(6) == 64;
    Pow2Sum(4, 4);
    assert Pow2(8) == 256;
    Pow2Sum(8, 6);
    assert Pow2(14) == 0x4000;
    Pow2Sum(8, 8);
    assert Pow2(16) == 0x1_0000;
    Pow2Sum(16, 14);
    Pow2Sum(16, 16);
    assert Pow2(32) == 0x1_0000_0000;
    Pow2Sum(32, 32);
  }

  lemma {:induction false} RingDivides(size: nat)
    requires size <= 30
    ensures 0 < Pow2(size) <= 0x4000_0000 && Pow2(size) * Pow2(64 - size) == U64
  {
    Pow2Values();
    Pow2Sum(size, 64 - size);
    Pow2Grows(size, 30);
  }

  // ---- the two sides ----

  /** `used` is the number of slots up to the last one the consumer's callback has touched. */
  datatype Producer<T> = Quiet | Pushing(win: Window) | Freeing(win: Window, seen: seq<T>)
  datatype Consumer<T> = Waiting | Popping(win: Window, seen: seq<T>, used: nat)

  /**
   The ring, the words `w`, `r` and `f`, what each side is in the middle of, the latest positions each
   has seen of the other, and the histories: items pushed, items the consumer was shown, what it left in
   their place, and what the producer got back.
   */
  datatype State<T> = State(size: nat, w: nat, r: nat, f: nat, data: seq<T>, producer: Producer<T>, consumer: Consumer<T>,
                            seenW: nat, seenR: nat, pushed: seq<T>, popped: seq<T>, results: seq<T>, freed: seq<T>)

  datatype Action<T> = PushLoad | Fill(i: nat, x: T) | PushStore(h: nat)
                     | FreeLoad(to: nat) | FreeStore(h: nat)
                     | PopLoad(to: nat) | Touch(i: nat, x: T) | PopStore(h: nat)

  function Slots<T>(s: State<T>): nat {
    Pow2(s.size)
  }

  /** A window lies within the slot array. */
  predicate Fits<T>(s: State<T>, win: Window) {
    win.start + win.count <= |s.data|
  }

  function PushWindow<T>(s: State<T>): Window {
    Clip(s.w, s.f, Slots(s), Slots(s))
  }

  function FreeWindow<T>(s: State<T>, to: nat): Window {
    Clip(s.f, Word(to), Slots(s), 0)
  }

  function PopWindow<T>(s: State<T>, to: nat): Window {
    Clip(s.r, Word(to), Slots(s), 0)
  }

  /** One step of either side: the loads and the window, one slot of the callback's work, or the final store. */
  ghost predicate Next<T>(s: State<T>, a: Action<T>, s': State<T>) {
    match a
    case PushLoad =>
      && s.producer.Quiet?
      && var win := PushWindow(s); s' == if win.count == 0 then s else s.(producer := Pushing(win))
    case Fill(i, x) =>
      && s.producer.Pushing? && i < s.producer.win.count && Fits(s, s.producer.win)
      && s' == s.(data := s.data[s.producer.win.start + i := x])
    case PushStore(h) =>
      && s.producer.Pushing? && h <= s.producer.win.count && Fits(s, s.producer.win)
      && s' == s.(w := Word(s.w + h), producer := Quiet,
                  pushed := s.pushed + s.data[s.producer.win.start..s.producer.win.start + h])
    case FreeLoad(to) =>
      && s.producer.Quiet? && s.seenR <= to <= |s.popped|
      && Fits(s, FreeWindow(s, to))
      && var win := FreeWindow(s, to); s' == s.(seenR := to, producer :=
             if win.count == 0 then Quiet else Freeing(win, s.data[win.start..win.start + win.count]))
    case FreeStore(h) =>
      && s.producer.Freeing? && h <= s.producer.win.count && h <= |s.producer.seen|
      && s' == s.(f := Word(s.f + h), producer := Quiet, freed := s.freed + s.producer.seen[..h])
    case PopLoad(to) =>
      && s.consumer.Waiting? && s.seenW <= to <= |s.pushed|
      && Fits(s, PopWindow(s, to))
      && var win := PopWindow(s, to); s' == s.(seenW := to, consumer :=
             if win.count == 0 then Waiting else Popping(win, s.data[win.start..win.start + win.count], 0))
    case Touch(i, x) =>
      && s.consumer.Popping? && i < s.consumer.win.count && Fits(s, s.consumer.win)
      && s' == s.(data := s.data[s.consumer.win.start + i := x],
                  consumer := s.consumer.(used := if i < s.consumer.used then s.consumer.used else i + 1))
    case PopStore(h) =>
      && s.consumer.Popping? && h <= s.consumer.win.count && h <= |s.consumer.seen| && Fits(s, s.consumer.win)
      && s' == s.(r := Word(s.r + h), consumer := Waiting, popped := s.popped + s.consumer.seen[..h],
                  results := s.results + s.data[s.consumer.win.start..s.consumer.win.start + h])
  }

  ghost predicate Init<T>(s: State<T>) {
    && s.size <= 30 && |s.data| == Slots(s) && s.w == s.r == s.f == s.seenW == s.seenR == 0
    && s.producer.Quiet? && s.consumer.Waiting?
    && s.pushed == s.popped == s.results == s.freed == []
  }

  /** The consumer leaves the slots it does not report as handled the way it was shown them. */
  ghost predicate Reports<T>(s: State<T>, a: Action<T>) {
    a.PopStore? && s.consumer.Popping? && Fits(s, s.consumer.win) && |s.consumer.seen| == s.consumer.win.count ==>
      forall i {:trigger s.consumer.seen[i]} | a.h <= i < s.consumer.used && i < s.consumer.win.count ::
        s.data[s.consumer.win.start + i] == s.consumer.seen[i]
  }

  // ---- the invariant ----

  /** `f <= r <= w <= f + 2^size`, with what each side knows in between. */
  ghost predicate InOrder<T>(s: State<T>) {
    && s.size <= 30 && |s.data| == Slots(s) && |s.results| == |s.popped|
    && |s.freed| <= s.seenR <= |s.popped| <= s.seenW <= |s.pushed| <= |s.freed| + Slots(s)
  }

  /** The words are these positions. */
  ghost predicate Positions<T>(s: State<T>) {
    && InOrder(s)
    && s.w == Word(|s.pushed|) && s.r == Word(|s.popped|) && s.f == Word(|s.freed|)
  }

  /** A window of `count` slots, none past the end of the ring, that starts at position `p`. */
  ghost predicate WindowAt(win: Window, p: nat, limit: nat, n: nat) {
    n > 0 && win.start == p % n && win.start + win.count <= n && p + win.count <= limit
  }

  ghost predicate ProducerOk<T>(s: State<T>) {
    match s.producer
    case Quiet => true
    case Pushing(win) => WindowAt(win, |s.pushed|, |s.freed| + Slots(s), Slots(s))
    case Freeing(win, seen) =>
      && WindowAt(win, |s.freed|, s.seenR, Slots(s)) && s.seenR <= |s.results|
      && seen == s.results[|s.freed|..|s.freed| + win.count]
  }

  ghost predicate ConsumerOk<T>(s: State<T>) {
    match s.consumer
    case Waiting => true
    case Popping(win, seen, used) => used <= win.count == |seen| && WindowAt(win, |s.popped|, s.seenW, Slots(s))
  }

  ghost function At<T>(s: State<T>, p: nat): T
    requires |s.data| == Slots(s) > 0
  {
    s.data[p % Slots(s)]
  }

  /** Position `p`, which the consumer is done with, still holds what it left there. */
  ghost predicate Left<T>(s: State<T>, p: nat)
    requires |s.data| == Slots(s) > 0 && p < |s.results|
  {
    At(s, p) == s.results[p]
  }

  /** What holds whatever the consumer does with the slots it is shown. */
  ghost predicate Safe<T>(s: State<T>) {
    && Positions(s) && |s.data| > 0 && ProducerOk(s) && ConsumerOk(s) && s.freed <= s.results
    && forall p {:trigger Left(s, p)} | |s.freed| <= p < |s.popped| :: Left(s, p)
  }

  /** Position `p`, which the consumer is not done with, still holds what was pushed, unless the consumer has it in hand. */
  ghost predicate Unhandled<T>(s: State<T>, p: nat)
    requires |s.data| == Slots(s) > 0 && p < |s.pushed|
  {
    (s.consumer.Popping? && p < |s.popped| + s.consumer.used) || At(s, p) == s.pushed[p]
  }

  /** The consumer has been shown, and will be shown, what was pushed. */
  ghost predicate Intact<T>(s: State<T>)
    requires Safe(s)
  {
    && s.popped <= s.pushed
    && (s.consumer.Popping? ==> s.consumer.seen == s.pushed[|s.popped|..|s.popped| + s.consumer.win.count])
    && forall p {:trigger Unhandled(s, p)} | |s.popped| <= p < |s.pushed| :: Unhandled(s, p)
  }

  ghost predicate Inv<T>(s: State<T>) {
    Safe(s) && Intact(s)
  }

  lemma {:induction false} InitInv<T>(s: State<T>)
    requires Init(s)
    ensures Inv(s)
  {
    RingDivides(s.size);
  }

  /** Every window a call computes is in bounds, at its own position and within what its side may use. */
  lemma {:induction false} LoadedWindows<T>(s: State<T>, to: nat)
    requires Positions(s)
    ensures Slots(s) > 0 && WindowAt(PushWindow(s), |s.pushed|, |s.freed| + Slots(s), Slots(s))
    ensures s.seenR <= to <= |s.popped| ==> WindowAt(FreeWindow(s, to), |s.freed|, to, Slots(s))
    ensures s.seenW <= to <= |s.pushed| ==> WindowAt(PopWindow(s, to), |s.popped|, to, Slots(s))
  {
    RingDivides(s.size);
    ClipExact(|s.pushed|, |s.freed|, Slots(s), Pow2(64 - s.size), Slots(s));
    if s.seenR <= to <= |s.popped| {
      ClipExact(|s.freed|, to, Slots(s), Pow2(64 - s.size), 0);
    }
    if s.seenW <= to <= |s.pushed| {
      ClipExact(|s.popped|, to, Slots(s), Pow2(64 - s.size), 0);
    }
  }

  lemma {:induction false} WordAdd(x: nat, h: nat)
    ensures Word(Word(x) + h) == Word(x + h)
  {
    WordUnique(x + h, x / U64 + (Word(x) + h) / U64, Word(Word(x) + h));
  }

  /** What a step does apart from the words: windows are named by the positions they are at. */
  ghost predicate Moves<T>(s: State<T>, a: Action<T>, s': State<T>) {
    match a
    case PushLoad =>
      s.producer.Quiet? && (s' == s || (
        && s'.producer.Pushing? && s' == s.(producer := s'.producer)
        && WindowAt(s'.producer.win, |s.pushed|, |s.freed| + Slots(s), Slots(s))))
    case Fill(i, x) =>
      && s.producer.Pushing? && i < s.producer.win.count && Fits(s, s.producer.win)
      && s' == s.(data := s.data[s.producer.win.start + i := x])
    case PushStore(h) =>
      && s.producer.Pushing? && h <= s.producer.win.count && Fits(s, s.producer.win)
      && s' == s.(w := s'.w, producer := Quiet, pushed := s.pushed + s.data[s.producer.win.start..s.producer.win.start + h])
    case FreeLoad(to) =>
      s.producer.Quiet? && s.seenR <= to <= |s.popped| && (s' == s.(seenR := to) || (
        && s'.producer.Freeing? && s' == s.(seenR := to, producer := s'.producer)
        && var win := s'.producer.win;
          Fits(s, win) && WindowAt(win, |s.freed|, to, Slots(s)) && s'.producer.seen == s.data[win.start..win.start + win.count]))
    case FreeStore(h) =>
      && s.producer.Freeing? && h <= s.producer.win.count && h <= |s.producer.seen|
      && s' == s.(f := s'.f, producer := Quiet, freed := s.freed + s.producer.seen[..h])
    case PopLoad(to) =>
      s.consumer.Waiting? && s.seenW <= to <= |s.pushed| && (s' == s.(seenW := to) || (
        && s'.consumer.Popping? && s' == s.(seenW := to, consumer := s'.consumer) && s'.consumer.used == 0
        && var win := s'.consumer.win;
          Fits(s, win) && WindowAt(win, |s.popped|, to, Slots(s)) && s'.consumer.seen == s.data[win.start..win.start + win.count]))
    case Touch(i, x) =>
      && s.consumer.Popping? && i < s.consumer.win.count && Fits(s, s.consumer.win)
      && s' == s.(data := s.data[s.consumer.win.start + i := x],
                  consumer := s.consumer.(used := if i < s.consumer.used then s.consumer.used else i + 1))
    case PopStore(h) =>
      && s.consumer.Popping? && h <= s.consumer.win.count && h <= |s.consumer.seen| && Fits(s, s.consumer.win)
      && s' == s.(r := s'.r, consumer := Waiting, popped := s.popped + s.consumer.seen[..h],
                  results := s.results + s.data[s.consumer.win.start..s.consumer.win.start + h])
  }

  lemma {:induction false} NextMoves<T>(s: State<T>, a: Action<T>, s': State<T>)
    requires Positions(s) && Next(s, a, s')
    ensures Moves(s, a, s')
  {
    if a.PushLoad? {
      LoadedWindows(s, 0);
    } else if a.FreeLoad? || a.PopLoad? {
      LoadedWindows(s, a.to);
    }
  }

  lemma {:induction false} StepOrder<T>(s: State<T>, a: Action<T>, s': State<T>)
    requires Safe(s) && Moves(s, a, s')
    ensures InOrder(s') && s'.size == s.size
    ensures |s'.pushed| == |s.pushed| + if a.PushStore? then a.h else 0
    ensures |s'.popped| == |s.popped| + if a.PopStore? then a.h else 0
    ensures |s'.freed| == |s.freed| + if a.FreeStore? then a.h else 0
  {
  }

  /** A word after its side's store, or one that is left alone. */
  ghost predicate Moved(w: nat, w': nat, h: nat) {
    w' == if h == 0 then w else Word(w + h)
  }

  lemma {:induction false} WordMoves(w: nat, w': nat, p: nat, p': nat, h: nat)
    requires w == Word(p) && p' == p + h && Moved(w, w', h)
    ensures w' == Word(p')
  {
    WordAdd(p, h);
  }

  lemma {:induction false} StepPositions<T>(s: State<T>, a: Action<T>, s': State<T>)
    requires Safe(s) && Next(s, a, s')
    ensures Positions(s') && |s'.data| > 0
  {
    NextMoves(s, a, s');
    StepOrder(s, a, s');
    StepWords(s, a, s');
    WordMoves(s.w, s'.w, |s.pushed|, |s'.pushed|, if a.PushStore? then a.h else 0);
    WordMoves(s.r, s'.r, |s.popped|, |s'.popped|, if a.PopStore? then a.h else 0);
    WordMoves(s.f, s'.f, |s.freed|, |s'.freed|, if a.FreeStore? then a.h else 0);
    RingDivides(s.size);
  }

  lemma {:induction false} StepWords<T>(s: State<T>, a: Action<T>, s': State<T>)
    requires Safe(s) && Next(s, a, s')
    ensures Moved(s.w, s'.w, if a.PushStore? then a.h else 0)
    ensures Moved(s.r, s'.r, if a.PopStore? then a.h else 0)
    ensures Moved(s.f, s'.f, if a.FreeStore? then a.h else 0)
  {
    WordAgain(s.w, |s.pushed|);
    WordAgain(s.r, |s.popped|);
    WordAgain(s.f, |s.freed|);
  }

  lemma {:induction false} WordAgain(w: nat, p: nat)
    requires w == Word(p)
    ensures Word(w) == w
  {
  }

  lemma {:induction false} WindowCell<T>(s: State<T>, win: Window, p: nat, limit: nat, i: nat)
    requires |s.data| == Slots(s) && WindowAt(win, p, limit, Slots(s)) && i < win.count
    ensures s.data[win.start + i] == At(s, p + i)
  {
    SlotAhead(p, i, Slots(s));
  }

  /** Writing a slot of a window leaves every other position within a turn alone. */
  lemma {:induction false} WindowWrite<T>(s: State<T>, s': State<T>, win: Window, p: nat, limit: nat, i: nat, x: T, q: nat)
    requires |s.data| == Slots(s) && WindowAt(win, p, limit, Slots(s)) && i < win.count
    requires s'.data == s.data[win.start + i := x] && s'.size == s.size
    requires q < p + i < q + Slots(s) || p + i < q < p + i + Slots(s)
    ensures At(s', q) == At(s, q)
  {
    SlotAhead(p, i, Slots(s));
    if q < p + i {
      SlotsDiffer(q, p + i, Slots(s));
    } else {
      SlotsDiffer(p + i, q, Slots(s));
    }
  }

  ghost function ItemAt<T>(items: seq<T>, i: nat, k: nat): T
    requires i + k < |items|
  {
    items[i + k]
  }

  lemma {:induction false} SameItems<T>(a: seq<T>, b: seq<T>, i: nat, j: nat, n: nat)
    requires i + n <= |a| && j + n <= |b| && forall k {:trigger ItemAt(a, i, k)} | 0 <= k < n :: ItemAt(a, i, k) == ItemAt(b, j, k)
    ensures a[i..i + n] == b[j..j + n]
  {
    var c, d := a[i..i + n], b[j..j + n];
    forall k | 0 <= k < n
      ensures c[k] == d[k]
    {
      assert ItemAt(a, i, k) == ItemAt(b, j, k);
    }
  }

  // ---- what always holds ----

  lemma {:induction false} FreeShowsAt<T>(s: State<T>, win: Window, to: nat, i: nat)
    requires Safe(s) && WindowAt(win, |s.freed|, to, Slots(s)) && to <= |s.popped| && i < win.count
    ensures ItemAt(s.data, win.start, i) == ItemAt(s.results, |s.freed|, i)
  {
    WindowCell(s, win, |s.freed|, to, i);
    assert Left(s, |s.freed| + i);
  }

  /** What a window of the producer's free call shows: what the consumer left. */
  lemma {:induction false} FreeShows<T>(s: State<T>, win: Window, to: nat)
    requires Safe(s) && WindowAt(win, |s.freed|, to, Slots(s)) && to <= |s.popped|
    ensures s.data[win.start..win.start + win.count] == s.results[|s.freed|..|s.freed| + win.count]
  {
    forall i {:trigger ItemAt(s.data, win.start, i)} | 0 <= i < win.count
      ensures ItemAt(s.data, win.start, i) == ItemAt(s.results, |s.freed|, i)
    {
      FreeShowsAt(s, win, to, i);
    }
    SameItems(s.data, s.results, win.start, |s.freed|, win.count);
  }

  lemma {:induction false} FreeLoadOk<T>(s: State<T>, to: nat, s': State<T>)
    requires Safe(s) && Moves(s, FreeLoad(to), s')
    ensures ProducerOk(s')
  {
    if s'.producer.Freeing? {
      FreeShows(s, s'.producer.win, to);
    }
  }

  /** The other side's steps leave the producer's window good. */
  lemma {:induction false} ProducerStays<T>(s: State<T>, s': State<T>)
    requires ProducerOk(s) && s'.producer == s.producer && s'.size == s.size && s'.seenR == s.seenR
    requires s'.pushed == s.pushed && s'.freed == s.freed && s.results <= s'.results
    ensures ProducerOk(s')
  {
  }

  lemma {:induction false} StepProducer<T>(s: State<T>, a: Action<T>, s': State<T>)
    requires Safe(s) && Moves(s, a, s')
    ensures ProducerOk(s')
  {
    if a.FreeLoad? {
      FreeLoadOk(s, a.to, s');
    } else if !a.PushLoad? && !a.PushStore? && !a.FreeStore? {
      ProducerStays(s, s');
    }
  }

  lemma {:induction false} StepConsumer<T>(s: State<T>, a: Action<T>, s': State<T>)
    requires Safe(s) && Moves(s, a, s')
    ensures ConsumerOk(s')
  {
  }

  /** A prefix with the items that follow it is a longer prefix. */
  lemma {:induction false} LongerPrefix<T>(items: seq<T>, all: seq<T>, seen: seq<T>, count: nat, h: nat)
    requires items <= all && |items| + count <= |all| && seen == all[|items|..|items| + count] && h <= count
    ensures items + seen[..h] <= all
  {
    assert items + seen[..h] == all[..|items| + h];
  }

  lemma {:induction false} StepReturned<T>(s: State<T>, a: Action<T>, s': State<T>)
    requires Safe(s) && Moves(s, a, s')
    ensures s'.freed <= s'.results && s.results <= s'.results
  {
    if a.FreeStore? {
      LongerPrefix(s.freed, s.results, s.producer.seen, s.producer.win.count, a.h);
    }
  }

  /** What a handled slot of the consumer's window holds after the store: the result. */
  lemma {:induction false} HandledCell<T>(s: State<T>, win: Window, p: nat, limit: nat, h: nat, s': State<T>, i: nat)
    requires |s.data| == Slots(s) && WindowAt(win, p, limit, Slots(s)) && i < h <= win.count && |s.results| == p
    requires s'.data == s.data && s'.size == s.size && s'.results == s.results + s.data[win.start..win.start + h]
    ensures At(s', p + i) == s'.results[p + i]
  {
    WindowCell(s, win, p, limit, i);
    SliceItem(s.results, s.data, win.start, h, i);
  }

  lemma {:induction false} SliceItem<T>(items: seq<T>, data: seq<T>, start: nat, h: nat, i: nat)
    requires start + h <= |data| && i < h
    ensures (items + data[start..start + h])[|items| + i] == data[start + i]
  {
  }

  lemma {:induction false} WriteLeft<T>(s: State<T>, a: Action<T>, s': State<T>, p: nat)
    requires Safe(s) && Moves(s, a, s') && (a.Fill? || a.Touch?) && |s.freed| <= p < |s.popped|
    ensures |s'.data| == Slots(s') > 0 && p < |s'.results| && Left(s', p)
  {
    assert Left(s, p);
    if a.Fill? {
      WindowWrite(s, s', s.producer.win, |s.pushed|, |s.freed| + Slots(s), a.i, a.x, p);
    } else {
      WindowWrite(s, s', s.consumer.win, |s.popped|, s.seenW, a.i, a.x, p);
    }
  }

  lemma {:induction false} StepLeft<T>(s: State<T>, a: Action<T>, s': State<T>, p: nat)
    requires Safe(s) && Moves(s, a, s') && |s'.freed| <= p < |s'.popped| && |s'.data| == Slots(s') > 0 && |s'.results| == |s'.popped|
    requires |s.freed| <= |s'.freed|
    ensures Left(s', p)
  {
    if a.Fill? || a.Touch? {
      WriteLeft(s, a, s', p);
    } else if a.PopStore? && |s.popped| <= p {
      HandledCell(s, s.consumer.win, |s.popped|, s.seenW, a.h, s', p - |s.popped|);
    } else {
      assert Left(s, p);
    }
  }

  /** Every step keeps what always holds. */
  lemma {:induction false} SafeStep<T>(s: State<T>, a: Action<T>, s': State<T>)
    requires Safe(s) && Next(s, a, s')
    ensures Safe(s')
  {
    StepPositions(s, a, s');
    NextMoves(s, a, s');
    StepOrder(s, a, s');
    StepProducer(s, a, s');
    StepConsumer(s, a, s');
    StepReturned(s, a, s');
    forall p | |s'.freed| <= p < |s'.popped|
      ensures Left(s', p)
    {
      StepLeft(s, a, s', p);
    }
  }

  // ---- what the consumer is shown ----

  lemma {:induction false} PopShowsAt<T>(s: State<T>, win: Window, to: nat, i: nat)
    requires Inv(s) && s.consumer.Waiting? && WindowAt(win, |s.popped|, to, Slots(s)) && to <= |s.pushed| && i < win.count
    ensures ItemAt(s.data, win.start, i) == ItemAt(s.pushed, |s.popped|, i)
  {
    WindowCell(s, win, |s.popped|, to, i);
    assert Unhandled(s, |s.popped| + i);
  }

  lemma {:induction false} PopShows<T>(s: State<T>, win: Window, to: nat)
    requires Inv(s) && s.consumer.Waiting? && WindowAt(win, |s.popped|, to, Slots(s)) && to <= |s.pushed|
    ensures s.data[win.start..win.start + win.count] == s.pushed[|s.popped|..|s.popped| + win.count]
  {
    forall i {:trigger ItemAt(s.data, win.start, i)} | 0 <= i < win.count
      ensures ItemAt(s.data, win.start, i) == ItemAt(s.pushed, |s.popped|, i)
    {
      PopShowsAt(s, win, to, i);
    }
    SameItems(s.data, s.pushed, win.start, |s.popped|, win.count);
  }

  lemma {:induction false} StepSeen<T>(s: State<T>, a: Action<T>, s': State<T>)
    requires Inv(s) && Moves(s, a, s') && Safe(s') && s'.consumer.Popping?
    ensures s'.consumer.seen == s'.pushed[|s'.popped|..|s'.popped| + s'.consumer.win.count]
  {
    if a.PopLoad? {
      PopShows(s, s'.consumer.win, a.to);
    } else {
      assert s'.popped == s.popped && s'.consumer.win == s.consumer.win && s'.consumer.seen == s.consumer.seen;
      SameSlice(s.pushed, s'.pushed, |s.popped|, s.consumer.win.count);
    }
  }

  lemma {:induction false} SameSlice<T>(items: seq<T>, items': seq<T>, i: nat, n: nat)
    requires items <= items' && i + n <= |items|
    ensures items[i..i + n] == items'[i..i + n]
  {
  }

  lemma {:induction false} StepShown<T>(s: State<T>, a: Action<T>, s': State<T>)
    requires Inv(s) && Moves(s, a, s')
    ensures s'.popped <= s'.pushed && s.pushed <= s'.pushed
  {
    if a.PopStore? {
      LongerPrefix(s.popped, s.pushed, s.consumer.seen, s.consumer.win.count, a.h);
    }
  }

  /** A slot of the consumer's window that is not handled holds the item it was shown, if the consumer left it so. */
  lemma {:induction false} UnhandledCell<T>(s: State<T>, h: nat, s': State<T>, i: nat)
    requires Inv(s) && Moves(s, PopStore(h), s') && Reports(s, PopStore(h)) && h <= i < s.consumer.win.count
    ensures |s'.data| == Slots(s') > 0 && |s.popped| + i < |s.pushed|
    ensures At(s', |s.popped| + i) == s.pushed[|s.popped| + i]
  {
    assert Unhandled(s, |s.popped| + i);
    if i < s.consumer.used {
      WindowCell(s, s.consumer.win, |s.popped|, s.seenW, i);
      assert s.consumer.seen[i] == s.pushed[|s.popped| + i];
    }
  }

  lemma {:induction false} WriteUnhandled<T>(s: State<T>, a: Action<T>, s': State<T>, p: nat)
    requires Inv(s) && Moves(s, a, s') && Safe(s') && (a.Fill? || a.Touch?) && |s.popped| <= p < |s.pushed|
    ensures Unhandled(s', p)
  {
    assert Unhandled(s, p);
    if a.Fill? {
      WindowWrite(s, s', s.producer.win, |s.pushed|, |s.freed| + Slots(s), a.i, a.x, p);
    } else if p != |s.popped| + a.i {
      WindowWrite(s, s', s.consumer.win, |s.popped|, s.seenW, a.i, a.x, p);
    }
  }

  lemma {:induction false} PushUnhandled<T>(s: State<T>, h: nat, s': State<T>, p: nat)
    requires Inv(s) && Moves(s, PushStore(h), s') && Safe(s') && |s.pushed| <= p < |s'.pushed|
    ensures Unhandled(s', p)
  {
    WindowCell(s, s.producer.win, |s.pushed|, |s.freed| + Slots(s), p - |s.pushed|);
    SliceItem(s.pushed, s.data, s.producer.win.start, h, p - |s.pushed|);
  }

  lemma {:induction false} StepUnhandled<T>(s: State<T>, a: Action<T>, s': State<T>, p: nat)
    requires Inv(s) && Moves(s, a, s') && Reports(s, a) && Safe(s') && |s'.popped| <= p < |s'.pushed| && |s.popped| <= |s'.popped|
    ensures Unhandled(s', p)
  {
    if a.Fill? || a.Touch? {
      WriteUnhandled(s, a, s', p);
    } else if a.PushStore? && |s.pushed| <= p {
      PushUnhandled(s, a.h, s', p);
    } else if a.PopStore? && p < |s.popped| + s.consumer.win.count {
      UnhandledCell(s, a.h, s', p - |s.popped|);
    } else {
      assert Unhandled(s, p);
      StaysUnhandled(s, s', p);
    }
  }

  lemma {:induction false} StaysUnhandled<T>(s: State<T>, s': State<T>, p: nat)
    requires |s.data| == Slots(s) > 0 && p < |s.pushed| && s'.data == s.data && s'.size == s.size && s.pushed <= s'.pushed
    requires Unhandled(s, p)
    requires s.consumer.Popping? && p < |s.popped| + s.consumer.used ==> s'.consumer == s.consumer && s'.popped == s.popped
    ensures Unhandled(s', p)
  {
  }

  lemma {:induction false} InvStep<T>(s: State<T>, a: Action<T>, s': State<T>)
    requires Inv(s) && Next(s, a, s') && Reports(s, a)
    ensures Inv(s')
  {
    SafeStep(s, a, s');
    NextMoves(s, a, s');
    StepOrder(s, a, s');
    StepShown(s, a, s');
    if s'.consumer.Popping? {
      StepSeen(s, a, s');
    }
    forall p | |s'.popped| <= p < |s'.pushed|
      ensures Unhandled(s', p)
    {
      StepUnhandled(s, a, s', p);
    }
  }

  lemma {:induction false} UnreportedKept<T>(s: State<T>, h: nat, s': State<T>, i: nat)
    requires Inv(s) && Moves(s, PopStore(h), s') && Inv(s') && h <= i < s.consumer.used
    ensures i < |s.consumer.seen| && s.consumer.win.start + i < |s.data|
    ensures s.data[s.consumer.win.start + i] == s.consumer.seen[i]
  {
    WindowCell(s, s.consumer.win, |s.popped|, s.seenW, i);
    assert s.consumer.seen[i] == s.pushed[|s.popped| + i];
    assert Unhandled(s', |s.popped| + i);
  }

  /** What the consumer is shown stays what was pushed exactly if it leaves alone the slots it does not report. */
  lemma {:induction false} IntactIffReports<T>(s: State<T>, a: Action<T>, s': State<T>)
    requires Inv(s) && Next(s, a, s')
    ensures Safe(s') && (Intact(s') <==> Reports(s, a))
  {
    SafeStep(s, a, s');
    NextMoves(s, a, s');
    if Reports(s, a) {
      InvStep(s, a, s');
    }
    if Intact(s') && a.PopStore? {
      forall i | a.h <= i < s.consumer.used
        ensures i < |s.consumer.seen| && s.consumer.win.start + i < |s.data|
        ensures s.data[s.consumer.win.start + i] == s.consumer.seen[i]
      {
        UnreportedKept(s, a.h, s', i);
      }
    }
  }

  lemma {:induction false} SameSlot(win: Window, win': Window, p: nat, h: nat, limit: nat, limit': nat, n: nat, i: nat)
    requires WindowAt(win, p, limit, n) && WindowAt(win', p + h, limit', n) && h <= i < win.count && i - h < win'.count
    ensures win'.start + (i - h) == win.start + i < n
  {
    SlotAhead(p, i, n);
    SlotAhead(p + h, i - h, n);
  }

  lemma {:induction false} LoadShows<T>(s: State<T>, to: nat, s': State<T>)
    requires Positions(s) && Next(s, PopLoad(to), s') && s'.consumer.Popping?
    ensures var win := s'.consumer.win;
            WindowAt(win, |s.popped|, to, Slots(s)) && Fits(s, win) && s'.consumer.seen == s.data[win.start..win.start + win.count]
  {
    LoadedWindows(s, to);
  }

  lemma {:induction false} StoreLeaves<T>(s: State<T>, h: nat, s': State<T>)
    requires Safe(s) && Next(s, PopStore(h), s')
    ensures s'.data == s.data && s'.size == s.size && |s'.popped| == |s.popped| + h && s'.pushed == s.pushed
    ensures Safe(s') && WindowAt(s.consumer.win, |s.popped|, s.seenW, Slots(s)) && |s.data| == Slots(s)
    ensures s'.consumer.Waiting? && s'.seenW == s.seenW && s.consumer.used <= s.consumer.win.count == |s.consumer.seen|
  {
    SafeStep(s, PopStore(h), s');
  }

  lemma {:induction false} LoadShowsAt<T>(s: State<T>, win: Window, p: nat, h: nat, limit: nat, to: nat, s': State<T>, i: nat)
    requires Positions(s) && Next(s, PopLoad(to), s') && s'.consumer.Popping? && |s.popped| == p + h && |s.data| == Slots(s)
    requires WindowAt(win, p, limit, Slots(s)) && h <= i < win.count && i - h < s'.consumer.win.count
    ensures win.start + i < |s.data| && i - h < |s'.consumer.seen| && s'.consumer.seen[i - h] == s.data[win.start + i]
  {
    LoadShows(s, to, s');
    ShownAt(win, s'.consumer.win, s.data, s'.consumer.seen, p, h, limit, to, i);
  }

  lemma {:induction false} ShownAt<T>(win: Window, win': Window, data: seq<T>, seen: seq<T>, p: nat, h: nat, limit: nat, limit': nat, i: nat)
    requires WindowAt(win, p, limit, |data|) && WindowAt(win', p + h, limit', |data|) && h <= i < win.count && i - h < win'.count
    requires seen == data[win'.start..win'.start + win'.count]
    ensures win.start + i < |data| && i - h < |seen| && seen[i - h] == data[win.start + i]
  {
    SameSlot(win, win', p, h, limit, limit', |data|, i);
  }

  /** A call right after the store is shown all that the one before was shown and did not report. */
  lemma {:induction false} RestShown<T>(s: State<T>, win: Window, p: nat, h: nat, limit: nat, i: nat)
    requires Positions(s) && |s.popped| == p + h && limit == s.seenW && WindowAt(win, p, limit, Slots(s)) && h <= i < win.count
    ensures PopWindow(s, limit).count > i - h
  {
    RingDivides(s.size);
    ClipExact(p + h, limit, Slots(s), Pow2(64 - s.size), 0);
    SlotAhead(p, h, Slots(s));
  }

  lemma {:induction false} ChangedSlot<T>(s: State<T>, h: nat) returns (i: nat)
    requires Inv(s) && s.consumer.Popping? && !Reports(s, PopStore(h))
    ensures h <= i < s.consumer.used <= s.consumer.win.count == |s.consumer.seen| && s.consumer.win.start + i < |s.data|
    ensures |s.popped| + i < |s.pushed| && s.data[s.consumer.win.start + i] != s.pushed[|s.popped| + i]
  {
    i :| h <= i < s.consumer.used && i < s.consumer.win.count && s.data[s.consumer.win.start + i] != s.consumer.seen[i];
    assert s.consumer.seen[i] == s.pushed[|s.popped| + i];
  }

  /** What the consumer leaves in a slot it does not report, it is shown and handles within its next call. */
  lemma {:induction false} UnreportedShown<T>(s: State<T>, h: nat, s1: State<T>, i: nat) returns (s2: State<T>, n: nat, s3: State<T>)
    requires Safe(s) && Next(s, PopStore(h), s1) && h <= i < s.consumer.used
    ensures Next(s1, PopLoad(s.seenW), s2) && Next(s2, PopStore(n), s3) && s3.pushed == s.pushed
    ensures s.consumer.win.start + i < |s.data| && |s.popped| + i < |s3.popped|
    ensures s3.popped[|s.popped| + i] == s.data[s.consumer.win.start + i]
  {
    StoreLeaves(s, h, s1);
    RestShown(s1, s.consumer.win, |s.popped|, h, s.seenW, i);
    s2, n, s3 := ShownAgain(s1, s.seenW, i - h);
    LoadShowsAt(s1, s.consumer.win, |s.popped|, h, s.seenW, s.seenW, s2, i);
  }

  /** If that is not the item pushed, the items it was shown are then no longer a prefix of the items pushed. */
  lemma {:induction false} UnreportedBreaks<T>(s: State<T>, h: nat, s1: State<T>) returns (s2: State<T>, n: nat, s3: State<T>)
    requires Inv(s) && Next(s, PopStore(h), s1) && !Reports(s, PopStore(h))
    ensures Next(s1, PopLoad(s.seenW), s2) && Next(s2, PopStore(n), s3) && !(s3.popped <= s3.pushed)
  {
    var i := ChangedSlot(s, h);
    s2, n, s3 := UnreportedShown(s, h, s1, i);
    assert s3.popped[|s.popped| + i] != s3.pushed[|s.popped| + i];
  }

  lemma {:induction false} CanLoad<T>(s: State<T>, to: nat, win: Window) returns (s1: State<T>)
    requires Positions(s) && s.consumer.Waiting? && to == s.seenW && win == PopWindow(s, to) && win.count > 0
    ensures Fits(s, win) && s1 == s.(consumer := Popping(win, s.data[win.start..win.start + win.count], 0))
    ensures Next(s, PopLoad(to), s1)
  {
    LoadedWindows(s, to);
    s1 := s.(consumer := Popping(win, s.data[win.start..win.start + win.count], 0));
  }

  lemma {:induction false} CanStore<T>(s: State<T>, n: nat) returns (s1: State<T>)
    requires s.consumer.Popping? && Fits(s, s.consumer.win) && n <= s.consumer.win.count == |s.consumer.seen|
    ensures Next(s, PopStore(n), s1) && s1.popped == s.popped + s.consumer.seen[..n] && s1.pushed == s.pushed
  {
    var win := s.consumer.win;
    s1 := s.(r := Word(s.r + n), consumer := Waiting, popped := s.popped + s.consumer.seen[..n],
             results := s.results + s.data[win.start..win.start + n]);
  }

  lemma {:induction false} ShownAgain<T>(s: State<T>, to: nat, i: nat) returns (s1: State<T>, n: nat, s2: State<T>)
    requires Safe(s) && s.consumer.Waiting? && to == s.seenW && i < PopWindow(s, to).count
    ensures Next(s, PopLoad(to), s1) && s1.consumer.Popping? && s1.consumer.win == PopWindow(s, to) && Next(s1, PopStore(n), s2)
    ensures i < |s1.consumer.seen| && |s2.popped| > |s.popped| + i && s2.popped[|s.popped| + i] == s1.consumer.seen[i]
    ensures s2.pushed == s.pushed
  {
    s1 := CanLoad(s, to, PopWindow(s, to));
    n := i + 1;
    s2 := CanStore(s1, n);
  }

  // ---- runs ----

  ghost predicate Run<T>(ss: seq<State<T>>, steps: seq<Action<T>>) {
    && |ss| == |steps| + 1 && Init(ss[0])
    && forall i | 0 <= i < |steps| :: Next(ss[i], steps[i], ss[i + 1])
  }

  /**
   In every interleaving, whatever the consumer does, the positions stay in order and at most a ring apart, and
   what the producer got back is a prefix of what the consumer left.
   */
  lemma {:induction false} RingSafety<T>(ss: seq<State<T>>, steps: seq<Action<T>>, n: nat)
    requires Run(ss, steps) && n <= |steps|
    ensures Safe(ss[n])
    ensures |ss[n].freed| <= |ss[n].popped| <= |ss[n].pushed| <= |ss[n].freed| + Slots(ss[n])
    ensures ss[n].freed <= ss[n].results && |ss[n].results| == |ss[n].popped|
  {
    if n == 0 {
      InitInv(ss[0]);
    } else {
      RingSafety(ss, steps, n - 1);
      assert Next(ss[n - 1], steps[n - 1], ss[n]);
      SafeStep(ss[n - 1], steps[n - 1], ss[n]);
    }
  }

  ghost predicate AllReport<T>(ss: seq<State<T>>, steps: seq<Action<T>>, n: nat)
    requires n <= |steps| <= |ss|
  {
    forall i {:trigger Reports(ss[i], steps[i])} | 0 <= i < n :: Reports(ss[i], steps[i])
  }

  /** If the consumer leaves alone what it does not report, what it was shown is a prefix of what was pushed. */
  lemma {:induction false} ShownInOrder<T>(ss: seq<State<T>>, steps: seq<Action<T>>, n: nat)
    requires Run(ss, steps) && n <= |steps| && AllReport(ss, steps, n)
    ensures Inv(ss[n]) && ss[n].popped <= ss[n].pushed
  {
    if n == 0 {
      InitInv(ss[0]);
    } else {
      ShownInOrder(ss, steps, n - 1);
      assert Next(ss[n - 1], steps[n - 1], ss[n]) && Reports(ss[n - 1], steps[n - 1]);
      InvStep(ss[n - 1], steps[n - 1], ss[n]);
    }
  }

  /** Producer and consumer never have the same slot in hand, and both stay in bounds. */
  lemma {:induction false} WindowsApart<T>(ss: seq<State<T>>, steps: seq<Action<T>>, n: nat, i: nat, j: nat)
    requires Run(ss, steps) && n <= |steps| && !ss[n].producer.Quiet? && ss[n].consumer.Popping?
    requires i < ss[n].producer.win.count && j < ss[n].consumer.win.count
    ensures ss[n].producer.win.start + i < |ss[n].data| && ss[n].consumer.win.start + j < |ss[n].data|
    ensures ss[n].producer.win.start + i != ss[n].consumer.win.start + j
  {
    RingSafety(ss, steps, n);
    var s := ss[n];
    if s.producer.Pushing? {
      SlotsApart(|s.popped|, j, |s.pushed|, i, Slots(s));
    } else {
      SlotsApart(|s.freed|, i, |s.popped|, j, Slots(s));
    }
  }

  /** A call never finds fewer slots than there are before the end of the ring, nor goes past it. */
  lemma {:induction false} NothingWithheld<T>(s: State<T>)
    requires Positions(s)
    ensures PushWindow(s).count == 0 <==> |s.pushed| == |s.freed| + Slots(s)
    ensures PopWindow(s, |s.pushed|).count == 0 <==> |s.popped| == |s.pushed|
    ensures FreeWindow(s, |s.popped|).count == 0 <==> |s.freed| == |s.popped|
  {
    RingDivides(s.size);
    ClipExact(|s.pushed|, |s.freed|, Slots(s), Pow2(64 - s.size), Slots(s));
    ClipExact(|s.popped|, |s.pushed|, Slots(s), Pow2(64 - s.size), 0);
    ClipExact(|s.freed|, |s.popped|, Slots(s), Pow2(64 - s.size), 0);
  }

  // ---- a consumer that does not report what it changed ----

  lemma {:induction false} AtStart(n: nat)
    requires n > 0
    ensures 0 % n == 0
  {
  }

  lemma {:induction false} FirstPush<T>(s: State<T>)
    requires Positions(s) && |s.pushed| == 0 == |s.freed|
    ensures PushWindow(s) == Window(0, Slots(s)) && |s.data| == Slots(s) > 0
  {
    RingDivides(s.size);
    ClipExact(0, 0, Slots(s), Pow2(64 - s.size), Slots(s));
    AtStart(Slots(s));
  }

  lemma {:induction false} FirstPop<T>(s: State<T>)
    requires Positions(s) && |s.popped| == 0 && |s.pushed| == 1
    ensures PopWindow(s, 1) == Window(0, 1) && |s.data| == Slots(s) > 0
  {
    RingDivides(s.size);
    ClipExact(0, 1, Slots(s), Pow2(64 - s.size), 0);
    AtStart(Slots(s));
  }

  /** The first item goes into a ring of any size. */
  lemma {:induction false} PushOne<T>(s: State<T>, x: T) returns (s1: State<T>, s2: State<T>, s3: State<T>)
    requires Safe(s) && s.producer.Quiet? && s.pushed == [] == s.freed
    ensures Next(s, PushLoad, s1) && Next(s1, Fill(0, x), s2) && Next(s2, PushStore(1), s3)
    ensures s3 == s.(w := Word(s.w + 1), data := s.data[0 := x], pushed := [x])
  {
    FirstPush(s);
    s1 := s.(producer := Pushing(PushWindow(s)));
    s2 := s1.(data := s.data[0 := x]);
    s3 := s2.(w := Word(s.w + 1), producer := Quiet, pushed := [x]);
    assert s2.data[0..1] == [x];
  }

  /** The consumer looks at it, changes it, and reports nothing handled. */
  lemma {:induction false} SpoilOne<T>(s: State<T>, y: T) returns (s1: State<T>, s2: State<T>, s3: State<T>)
    requires Safe(s) && s.consumer.Waiting? && s.popped == [] && |s.pushed| == 1 && s.seenW <= 1
    ensures Next(s, PopLoad(1), s1) && Next(s1, Touch(0, y), s2) && Next(s2, PopStore(0), s3)
    ensures |s.data| > 0 && s3 == s.(r := Word(s.r), data := s.data[0 := y], seenW := 1)
  {
    FirstPop(s);
    s1 := s.(seenW := 1, consumer := Popping(Window(0, 1), s.data[0..1], 0));
    s2 := s1.(data := s.data[0 := y], consumer := Popping(Window(0, 1), s.data[0..1], 1));
    s3 := s2.(r := Word(s.r), consumer := Waiting);
    assert s.popped + s.data[0..1][..0] == s.popped && s.results + s2.data[0..0] == s.results;
  }

  lemma {:induction false} ShowOne<T>(s: State<T>) returns (s1: State<T>)
    requires Safe(s) && s.consumer.Waiting? && s.popped == [] && |s.pushed| == 1 && s.seenW <= 1
    ensures Next(s, PopLoad(1), s1) && s1.pushed == s.pushed && s1.consumer.Popping?
    ensures |s.data| > 0 && s1.consumer.seen == s.data[0..1]
  {
    FirstPop(s);
    s1 := s.(seenW := 1, consumer := Popping(Window(0, 1), s.data[0..1], 0));
  }

  /** A run with one more step, which keeps what always holds. */
  lemma {:induction false} RunOn<T>(ss: seq<State<T>>, steps: seq<Action<T>>, a: Action<T>, s': State<T>)
    returns (ss': seq<State<T>>, steps': seq<Action<T>>)
    requires Run(ss, steps) && Next(ss[|steps|], a, s') && Safe(ss[|steps|])
    ensures Run(ss', steps') && steps' == steps + [a] && ss'[0] == ss[0] && ss'[|steps'|] == s' && Safe(s')
  {
    ss', steps' := ss + [s'], steps + [a];
    SafeStep(ss[|steps|], a, s');
    forall i | 0 <= i < |steps'|
      ensures Next(ss'[i], steps'[i], ss'[i + 1])
    {
      if i < |steps| {
        assert Next(ss[i], steps[i], ss[i + 1]);
      }
    }
  }

  /** So a consumer that changes the item and reports nothing is shown, in its next call, what was never pushed. */
  lemma {:induction false} UnreportedHappens<T>(s0: State<T>, x: T, y: T) returns (ss: seq<State<T>>, steps: seq<Action<T>>)
    requires Init(s0)
    ensures Run(ss, steps) && ss[0] == s0
    ensures steps == [PushLoad, Fill(0, x), PushStore(1), PopLoad(1), Touch(0, y), PopStore(0), PopLoad(1)]
    ensures ss[7].pushed == [x] && ss[7].consumer.Popping? && ss[7].consumer.seen == [y]
  {
    InitInv(s0);
    var s1, s2, s3 := PushOne(s0, x);
    ss, steps := RunOn([s0], [], PushLoad, s1);
    ss, steps := RunOn(ss, steps, Fill(0, x), s2);
    ss, steps := RunOn(ss, steps, PushStore(1), s3);
    var s4, s5, s6 := SpoilOne(s3, y);
    ss, steps := RunOn(ss, steps, PopLoad(1), s4);
    ss, steps := RunOn(ss, steps, Touch(0, y), s5);
    ss, steps := RunOn(ss, steps, PopStore(0), s6);
    var s7 := ShowOne(s6);
    ss, steps := RunOn(ss, steps, PopLoad(1), s7);
    assert s6.data[0..1] == [y];
  }
}
