/**
 Backend leases of controlplane/gateway/registry.go as a state machine. What happens under the registry
 lock is one step; dropping a lease takes three: the atomic decrement, the clean-up under the lock, and
 the close. Backends and services are numbers; `endpoint` gives the address a backend dials.
 */
module Leases {
  datatype Entry = Entry(backend: nat, external: bool, seen: nat)

  /** One shared reference count. */
  datatype Ref = Ref(backend: nat, count: nat)

  /** How far the release of a lease has come. */
  datatype Stage = Active | Zero | Unlisted | Done

  datatype Lease = Lease(ref: nat, backend: nat, stage: Stage)

  /**
   Entries and reference counts of the registry, all counts ever made, all leases, and the backends that a
   finished registration or eviction is about to close, or that have been closed, each as often as it was.
   */
  datatype State = State(backends: map<nat, Entry>, refs: map<nat, nat>, heap: seq<Ref>, leases: seq<Lease>,
                         pending: multiset<nat>, closed: multiset<nat>)

  datatype Action = Get(service: nat) | Decrement(l: nat) | Unlist(l: nat) | CloseLeased(l: nat)
                  | Register(service: nat, backend: nat, external: bool, now: nat)
                  | Renew(service: nat, address: nat, now: nat) | Evict(service: nat, before: nat) | ClosePending(backend: nat)

  function Bump(heap: seq<Ref>, i: nat): seq<Ref>
    requires i < |heap|
  {
    heap[i := heap[i].(count := heap[i].count + 1)]
  }

  function Drop(heap: seq<Ref>, i: nat): seq<Ref>
    requires i < |heap| && heap[i].count > 0
  {
    heap[i := heap[i].(count := heap[i].count - 1)]
  }

  /** The registry's references are usable: what its code relies on. */
  predicate Listed(s: State, b: nat) {
    b in s.refs && s.refs[b] < |s.heap|
  }

  /** retainLocked. */
  function Retain(s: State, b: nat): State
    requires b in s.refs ==> Listed(s, b)
  {
    if b in s.refs then s.(heap := Bump(s.heap, s.refs[b]))
    else s.(refs := s.refs[b := |s.heap|], heap := s.heap + [Ref(b, 1)])
  }

  /** releaseLocked; the backend to close afterwards goes to `pending`. */
  function Release(s: State, b: nat): State
    requires Listed(s, b) && s.heap[s.refs[b]].count > 0
  {
    var heap := Drop(s.heap, s.refs[b]);
    if heap[s.refs[b]].count > 0 then s.(heap := heap)
    else s.(heap := heap, refs := s.refs - {b}, pending := s.pending + multiset{b})
  }

  /** releaseLocked, which does nothing for a backend it does not track. */
  function ReleaseIfListed(s: State, b: nat): State {
    if Listed(s, b) && s.heap[s.refs[b]].count > 0 then Release(s, b) else s
  }

  /** One step. `endpoint` tells where a backend is. */
  ghost predicate Next(endpoint: nat -> nat, s: State, a: Action, s': State) {
    match a
    case Get(service) =>
      && service in s.backends && Listed(s, s.backends[service].backend)
      && var b := s.backends[service].backend; var i := s.refs[b];
        s' == s.(heap := Bump(s.heap, i), leases := s.leases + [Lease(i, b, Active)])
    case Decrement(l) =>
      && l < |s.leases| && s.leases[l].stage.Active? && s.leases[l].ref < |s.heap| && s.heap[s.leases[l].ref].count > 0
      && var i := s.leases[l].ref;
        s' == s.(heap := Drop(s.heap, i),
                 leases := s.leases[l := s.leases[l].(stage := if s.heap[i].count == 1 then Zero else Done)])
    case Unlist(l) =>
      && l < |s.leases| && s.leases[l].stage.Zero?
      && var b := s.leases[l].backend;
        s' == s.(refs := if b in s.refs && s.refs[b] == s.leases[l].ref then s.refs - {b} else s.refs,
                 leases := s.leases[l := s.leases[l].(stage := Unlisted)])
    case CloseLeased(l) =>
      && l < |s.leases| && s.leases[l].stage.Unlisted?
      && s' == s.(closed := s.closed + multiset{s.leases[l].backend},
                  leases := s.leases[l := s.leases[l].(stage := Done)])
    case Register(service, b, external, now) =>
      && (b in s.refs ==> Listed(s, b))
      && if service !in s.backends then
           s' == Retain(s.(backends := s.backends[service := Entry(b, external, now)]), b)
         else if endpoint(s.backends[service].backend) == endpoint(b) then
           s' == s.(backends := s.backends[service := s.backends[service].(seen := now)],
                    pending := if b in s.refs then s.pending else s.pending + multiset{b})
         else
           s' == ReleaseIfListed(Retain(s.(backends := s.backends[service := Entry(b, external, now)]), b),
                                 s.backends[service].backend)
    case Renew(service, address, now) =>
      s' == if service in s.backends && endpoint(s.backends[service].backend) == address
            then s.(backends := s.backends[service := s.backends[service].(seen := now)]) else s
    case Evict(service, before) =>
      && service in s.backends && s.backends[service].external && s.backends[service].seen < before
      && s' == ReleaseIfListed(s.(backends := s.backends - {service}), s.backends[service].backend)
    case ClosePending(b) =>
      b in s.pending && s' == s.(pending := s.pending - multiset{b}, closed := s.closed + multiset{b})
  }

  // ---- counting ----

  ghost function EntrySet(m: map<nat, Entry>, b: nat): set<nat> {
    set s | s in m && m[s].backend == b
  }

  /** Registry entries that resolve to `b`. */
  ghost function Entries(m: map<nat, Entry>, b: nat): nat {
    |EntrySet(m, b)|
  }

  function One(c: bool): nat {
    if c then 1 else 0
  }

  lemma {:induction false} EntriesPut(m: map<nat, Entry>, s: nat, e: Entry, b: nat)
    ensures Entries(m[s := e], b) + One(s in m && m[s].backend == b) == Entries(m, b) + One(e.backend == b)
    ensures s in m && m[s].backend == b ==> Entries(m, b) > 0
  {
    var rest := EntrySet(m, b) - {s};
    assert EntrySet(m, b) == if s in m && m[s].backend == b then rest + {s} else rest;
    assert EntrySet(m[s := e], b) == if e.backend == b then rest + {s} else rest;
  }

  lemma {:induction false} EntriesCut(m: map<nat, Entry>, s: nat, b: nat)
    requires s in m
    ensures Entries(m - {s}, b) + One(m[s].backend == b) == Entries(m, b)
  {
    var rest := EntrySet(m, b) - {s};
    assert EntrySet(m, b) == if m[s].backend == b then rest + {s} else rest;
    assert EntrySet(m - {s}, b) == rest;
  }

  /** Leases not yet dropped on a count, or on their way to close a backend. */
  datatype Which = ActiveOn(i: nat) | ClosingFor(b: nat)

  predicate Is(l: Lease, w: Which) {
    match w
    case ActiveOn(i) => l.ref == i && l.stage.Active?
    case ClosingFor(b) => l.backend == b && (l.stage.Zero? || l.stage.Unlisted?)
  }

  ghost function Count(ls: seq<Lease>, w: Which): nat {
    if |ls| == 0 then 0 else Count(ls[..|ls| - 1], w) + One(Is(ls[|ls| - 1], w))
  }

  lemma {:induction false} CountSet(ls: seq<Lease>, l: nat, x: Lease, w: Which)
    requires l < |ls|
    ensures Count(ls[l := x], w) + One(Is(ls[l], w)) == Count(ls, w) + One(Is(x, w))
    ensures Is(ls[l], w) ==> Count(ls, w) > 0
    decreases |ls|
  {
    var n := |ls| - 1;
    if l == n {
      assert ls[l := x][..n] == ls[..n];
    } else {
      assert ls[l := x][..n] == ls[..n][l := x];
      CountSet(ls[..n], l, x, w);
    }
  }

  lemma {:induction false} CountPush(ls: seq<Lease>, x: Lease, w: Which)
    ensures Count(ls + [x], w) == Count(ls, w) + One(Is(x, w))
  {
    assert (ls + [x])[..|ls|] == ls;
  }

  lemma {:induction false} CountNone(ls: seq<Lease>, w: Which)
    requires forall l | 0 <= l < |ls| :: !Is(ls[l], w)
    ensures Count(ls, w) == 0
    decreases |ls|
  {
    if |ls| > 0 {
      CountNone(ls[..|ls| - 1], w);
    }
  }

  // ---- the invariant ----

  /** How often `b` has been closed or is bound to be. */
  ghost function Fate(s: State, b: nat): nat {
    Count(s.leases, ClosingFor(b)) + s.pending[b] + s.closed[b]
  }

  /** The count that the registry has listed for its backend. */
  ghost predicate Current(s: State, i: nat)
    requires i < |s.heap|
  {
    s.heap[i].backend in s.refs && s.refs[s.heap[i].backend] == i
  }

  /** A count is its entries plus its leases; one that is no longer listed has neither. */
  ghost predicate Counted(s: State, held: nat -> nat, i: nat)
    requires i < |s.heap|
  {
    if Current(s, i) then s.heap[i].count == held(s.heap[i].backend) + Count(s.leases, ActiveOn(i))
    else s.heap[i].count == 0 == Count(s.leases, ActiveOn(i))
  }

  /** A backend in use is not bound to be closed; one whose count is zero is, exactly once. */
  ghost predicate Fated(s: State, b: nat)
    requires b in s.refs ==> Listed(s, b)
  {
    if b in s.refs then Fate(s, b) == One(s.heap[s.refs[b]].count == 0) else Fate(s, b) <= 1
  }

  ghost predicate Linked(s: State) {
    && (forall b | b in s.refs :: s.refs[b] < |s.heap| && s.heap[s.refs[b]].backend == b)
    && forall l | 0 <= l < |s.leases| :: s.leases[l].ref < |s.heap| && s.heap[s.leases[l].ref].backend == s.leases[l].backend
  }

  /** The invariant when `held(b)` entries are charged to each backend. */
  ghost predicate Balanced(s: State, held: nat -> nat) {
    && Linked(s)
    && (forall b: nat {:trigger held(b)} :: held(b) > 0 ==> b in s.refs)
    && (forall i {:trigger Counted(s, held, i)} | 0 <= i < |s.heap| :: Counted(s, held, i))
    && forall b: nat {:trigger Fated(s, b)} :: Fated(s, b)
  }

  ghost function Charged(s: State): nat -> nat {
    (b: nat) => Entries(s.backends, b)
  }

  ghost predicate Inv(s: State) {
    Balanced(s, Charged(s))
  }

  ghost function Plus(held: nat -> nat, b: nat): nat -> nat {
    (c: nat) => held(c) + One(c == b)
  }

  ghost function Minus(held: nat -> nat, b: nat): nat -> nat {
    (c: nat) => if c == b && held(c) > 0 then held(c) - 1 else held(c)
  }

  lemma {:induction false} SameCharge(s: State, s': State, held: nat -> nat, held': nat -> nat)
    requires Balanced(s, held) && s' == s.(backends := s'.backends) && forall b: nat :: held'(b) == held(b)
    ensures Balanced(s', held')
  {
    forall i | 0 <= i < |s'.heap|
      ensures Counted(s', held', i)
    {
      assert Counted(s, held, i);
    }
    forall b: nat
      ensures Fated(s', b)
    {
      assert Fated(s, b);
    }
    forall b: nat | held'(b) > 0
      ensures b in s'.refs
    {
      assert held(b) > 0;
    }
  }

  lemma {:induction false} RetainKeeps(s: State, held: nat -> nat, b: nat)
    requires Balanced(s, held) && Fate(s, b) == 0
    ensures Balanced(Retain(s, b), Plus(held, b))
  {
    var s' := Retain(s, b);
    forall i | 0 <= i < |s'.heap|
      ensures Counted(s', Plus(held, b), i)
    {
      if i < |s.heap| {
        assert Counted(s, held, i);
      } else {
        CountNone(s.leases, ActiveOn(i));
        assert held(b) == 0;
      }
    }
    forall c: nat
      ensures Fated(s', c)
    {
      assert Fated(s, c);
    }
    forall c: nat | Plus(held, b)(c) > 0
      ensures c in s'.refs
    {
      assert c != b ==> held(c) > 0;
    }
  }

  lemma {:induction false} ReleaseKeeps(s: State, held: nat -> nat, b: nat)
    requires Balanced(s, held) && held(b) > 0
    ensures Listed(s, b) && s.heap[s.refs[b]].count > 0
    ensures Balanced(ReleaseIfListed(s, b), Minus(held, b))
  {
    assert b in s.refs;
    var s' := ReleaseIfListed(s, b);
    assert Counted(s, held, s.refs[b]);
    forall i | 0 <= i < |s'.heap|
      ensures Counted(s', Minus(held, b), i)
    {
      assert Counted(s, held, i);
    }
    forall c: nat
      ensures Fated(s', c)
    {
      assert Fated(s, c);
    }
    forall c: nat | Minus(held, b)(c) > 0
      ensures c in s'.refs
    {
      assert held(c) > 0;
    }
  }

  // ---- every step ----

  lemma {:induction false} GetKeeps(endpoint: nat -> nat, s: State, service: nat, s': State)
    requires Inv(s) && Next(endpoint, s, Get(service), s')
    ensures Inv(s')
  {
    var b := s.backends[service].backend;
    var l := Lease(s.refs[b], b, Active);
    EntriesPut(s.backends, service, s.backends[service], b);
    assert Charged(s)(b) > 0 && Counted(s, Charged(s), s.refs[b]) && Fated(s, b);
    forall i | 0 <= i < |s'.heap|
      ensures Counted(s', Charged(s'), i)
    {
      assert Counted(s, Charged(s), i);
      CountPush(s.leases, l, ActiveOn(i));
    }
    forall c: nat
      ensures Fated(s', c)
    {
      assert Fated(s, c);
      CountPush(s.leases, l, ClosingFor(c));
    }
    forall c: nat | Charged(s')(c) > 0
      ensures c in s'.refs
    {
      assert Charged(s)(c) > 0;
    }
  }

  lemma {:induction false} DecrementKeeps(endpoint: nat -> nat, s: State, l: nat, s': State)
    requires Inv(s) && Next(endpoint, s, Decrement(l), s')
    ensures Inv(s')
  {
    var i, b := s.leases[l].ref, s.leases[l].backend;
    var x := s'.leases[l];
    CountSet(s.leases, l, x, ActiveOn(i));
    assert Counted(s, Charged(s), i) && Fated(s, b);
    forall j | 0 <= j < |s'.heap|
      ensures Counted(s', Charged(s'), j)
    {
      assert Counted(s, Charged(s), j);
      CountSet(s.leases, l, x, ActiveOn(j));
    }
    forall c: nat
      ensures Fated(s', c)
    {
      assert Fated(s, c);
      CountSet(s.leases, l, x, ClosingFor(c));
    }
    forall c: nat | Charged(s')(c) > 0
      ensures c in s'.refs
    {
      assert Charged(s)(c) > 0;
    }
  }

  lemma {:induction false} UnlistCounted(endpoint: nat -> nat, s: State, l: nat, s': State, j: nat)
    requires Inv(s) && Next(endpoint, s, Unlist(l), s') && j < |s.heap|
    ensures Counted(s', Charged(s'), j)
  {
    var b := s.leases[l].backend;
    CountSet(s.leases, l, s'.leases[l], ClosingFor(b));
    CountSet(s.leases, l, s'.leases[l], ActiveOn(j));
    assert Counted(s, Charged(s), j) && Fated(s, b);
  }

  lemma {:induction false} UnlistFated(endpoint: nat -> nat, s: State, l: nat, s': State, c: nat)
    requires Inv(s) && Next(endpoint, s, Unlist(l), s')
    ensures Linked(s') && Fated(s', c)
  {
    assert Fated(s, c);
    CountSet(s.leases, l, s'.leases[l], ClosingFor(c));
  }

  lemma {:induction false} UnlistKeeps(endpoint: nat -> nat, s: State, l: nat, s': State)
    requires Inv(s) && Next(endpoint, s, Unlist(l), s')
    ensures Inv(s')
  {
    var i, b := s.leases[l].ref, s.leases[l].backend;
    CountSet(s.leases, l, s'.leases[l], ClosingFor(b));
    assert Counted(s, Charged(s), i) && Fated(s, b);
    forall j | 0 <= j < |s'.heap|
      ensures Counted(s', Charged(s'), j)
    {
      UnlistCounted(endpoint, s, l, s', j);
    }
    forall c: nat
      ensures Linked(s') && Fated(s', c)
    {
      UnlistFated(endpoint, s, l, s', c);
    }
    forall c: nat | Charged(s')(c) > 0
      ensures c in s'.refs
    {
      assert Charged(s)(c) > 0;
    }
  }

  lemma {:induction false} CloseKeeps(endpoint: nat -> nat, s: State, a: Action, s': State)
    requires Inv(s) && Next(endpoint, s, a, s') && (a.CloseLeased? || a.ClosePending?)
    ensures Inv(s')
  {
    forall j | 0 <= j < |s'.heap|
      ensures Counted(s', Charged(s'), j)
    {
      assert Counted(s, Charged(s), j);
      if a.CloseLeased? {
        CountSet(s.leases, a.l, s'.leases[a.l], ActiveOn(j));
      }
    }
    forall c: nat
      ensures Fated(s', c)
    {
      assert Fated(s, c);
      if a.CloseLeased? {
        CountSet(s.leases, a.l, s'.leases[a.l], ClosingFor(c));
      }
    }
    forall c: nat | Charged(s')(c) > 0
      ensures c in s'.refs
    {
      assert Charged(s)(c) > 0;
    }
  }

  lemma {:induction false} EvictKeeps(endpoint: nat -> nat, s: State, service: nat, before: nat, s': State)
    requires Inv(s) && Next(endpoint, s, Evict(service, before), s')
    ensures Inv(s')
  {
    var b := s.backends[service].backend;
    var mid := s.(backends := s.backends - {service});
    SameCharge(s, mid, Charged(s), Charged(s));
    EntriesCut(s.backends, service, b);
    ReleaseKeeps(mid, Charged(s), b);
    forall c: nat
      ensures Charged(s')(c) == Minus(Charged(s), b)(c)
    {
      EntriesCut(s.backends, service, c);
    }
    SameCharge(s', s', Minus(Charged(s), b), Charged(s'));
  }

  lemma {:induction false} RenewKeeps(s: State, service: nat, now: nat)
    requires Inv(s) && service in s.backends
    ensures Inv(s.(backends := s.backends[service := s.backends[service].(seen := now)]))
  {
    var e := s.backends[service].(seen := now);
    var s' := s.(backends := s.backends[service := e]);
    forall c: nat
      ensures Charged(s')(c) == Charged(s)(c)
    {
      EntriesPut(s.backends, service, e, c);
    }
    SameCharge(s, s', Charged(s), Charged(s'));
  }

  lemma {:induction false} AddKeeps(s: State, service: nat, e: Entry)
    requires Inv(s) && service !in s.backends && Fate(s, e.backend) == 0
    ensures Inv(Retain(s.(backends := s.backends[service := e]), e.backend))
  {
    var mid := s.(backends := s.backends[service := e]);
    SameCharge(s, mid, Charged(s), Charged(s));
    RetainKeeps(mid, Charged(s), e.backend);
    var s' := Retain(mid, e.backend);
    forall c: nat
      ensures Charged(s')(c) == Plus(Charged(s), e.backend)(c)
    {
      EntriesPut(s.backends, service, e, c);
    }
    SameCharge(s', s', Plus(Charged(s), e.backend), Charged(s'));
  }

  lemma {:induction false} ReplaceKeeps(s: State, service: nat, e: Entry)
    requires Inv(s) && service in s.backends && Fate(s, e.backend) == 0 && s.backends[service].backend != e.backend
    ensures Inv(ReleaseIfListed(Retain(s.(backends := s.backends[service := e]), e.backend), s.backends[service].backend))
  {
    var b, d := e.backend, s.backends[service].backend;
    var mid := s.(backends := s.backends[service := e]);
    SameCharge(s, mid, Charged(s), Charged(s));
    RetainKeeps(mid, Charged(s), b);
    EntriesPut(s.backends, service, e, d);
    ReleaseKeeps(Retain(mid, b), Plus(Charged(s), b), d);
    var s' := ReleaseIfListed(Retain(mid, b), d);
    forall c: nat
      ensures Charged(s')(c) == Minus(Plus(Charged(s), b), d)(c)
    {
      EntriesPut(s.backends, service, e, c);
    }
    SameCharge(s', s', Minus(Plus(Charged(s), b), d), Charged(s'));
  }

  lemma {:induction false} DiscardKeeps(s: State, b: nat)
    requires Inv(s) && b !in s.refs && Fate(s, b) == 0
    ensures Inv(s.(pending := s.pending + multiset{b}))
  {
    var s' := s.(pending := s.pending + multiset{b});
    forall j | 0 <= j < |s'.heap|
      ensures Counted(s', Charged(s'), j)
    {
      assert Counted(s, Charged(s), j);
    }
    forall c: nat
      ensures Fated(s', c)
    {
      assert Fated(s, c);
    }
    forall c: nat | Charged(s')(c) > 0
      ensures c in s'.refs
    {
      assert Charged(s)(c) > 0;
    }
  }

  /** The registration leaves a renewed entry as it is and does not take the backend. */
  ghost predicate Renews(endpoint: nat -> nat, s: State, a: Action) {
    a.Register? && a.service in s.backends && endpoint(s.backends[a.service].backend) == endpoint(a.backend)
  }

  /** A registration of a backend that was closed, or that some thread is already on its way to close. */
  ghost predicate Revives(endpoint: nat -> nat, s: State, a: Action) {
    a.Register? && Fate(s, a.backend) > 0 && !(Renews(endpoint, s, a) && a.backend in s.refs)
  }

  lemma {:induction false} RegisterKeeps(endpoint: nat -> nat, s: State, a: Action, s': State)
    requires Inv(s) && Next(endpoint, s, a, s') && a.Register? && !Revives(endpoint, s, a)
    ensures Inv(s')
  {
    var b := a.backend;
    if a.service !in s.backends {
      AddKeeps(s, a.service, Entry(b, a.external, a.now));
    } else if Renews(endpoint, s, a) {
      if b in s.refs {
        RenewKeeps(s, a.service, a.now);
      } else {
        DiscardKeeps(s, b);
        RenewKeeps(s.(pending := s.pending + multiset{b}), a.service, a.now);
      }
    } else {
      ReplaceKeeps(s, a.service, Entry(b, a.external, a.now));
    }
  }

  lemma {:induction false} InvStep(endpoint: nat -> nat, s: State, a: Action, s': State)
    requires Inv(s) && Next(endpoint, s, a, s') && !Revives(endpoint, s, a)
    ensures Inv(s')
  {
    match a
    case Get(service) => GetKeeps(endpoint, s, service, s');
    case Decrement(l) => DecrementKeeps(endpoint, s, l, s');
    case Unlist(l) => UnlistKeeps(endpoint, s, l, s');
    case CloseLeased(l) => CloseKeeps(endpoint, s, a, s');
    case Register(service, backend, external, now) => RegisterKeeps(endpoint, s, a, s');
    case Renew(service, address, now) =>
      if s' != s {
        RenewKeeps(s, service, now);
      }
    case Evict(service, before) => EvictKeeps(endpoint, s, service, before, s');
    case ClosePending(backend) => CloseKeeps(endpoint, s, a, s');
  }

  // ---- runs ----

  const START := State(map[], map[], [], [], multiset{}, multiset{})

  lemma {:induction false} StartInv()
    ensures Inv(START)
  {
    forall b: nat
      ensures Charged(START)(b) == 0 && Fated(START, b)
    {
      assert EntrySet(map[], b) == {};
    }
  }

  ghost predicate Run(endpoint: nat -> nat, ss: seq<State>, steps: seq<Action>) {
    && |ss| == |steps| + 1 && ss[0] == START
    && forall i | 0 <= i < |steps| :: Next(endpoint, ss[i], steps[i], ss[i + 1])
  }

  /** Some registration before step `n` used the backend. */
  ghost predicate Named(steps: seq<Action>, n: nat, b: nat)
    requires n <= |steps|
  {
    exists i | 0 <= i < n :: steps[i].Register? && steps[i].backend == b
  }

  /** A backend that an entry or a lease refers to. */
  ghost predicate InUse(s: State, b: nat) {
    Entries(s.backends, b) > 0 || exists l | 0 <= l < |s.leases| :: s.leases[l].backend == b && s.leases[l].stage.Active?
  }

  lemma {:induction false} InUseCount(s: State, b: nat)
    requires Inv(s)
    ensures InUse(s, b) <==> b in s.refs && s.heap[s.refs[b]].count > 0
    ensures b in s.refs ==> s.heap[s.refs[b]].count == Entries(s.backends, b) + Count(s.leases, ActiveOn(s.refs[b]))
  {
    if b in s.refs {
      assert Counted(s, Charged(s), s.refs[b]);
    }
    if Entries(s.backends, b) > 0 {
      assert Charged(s)(b) > 0;
    }
    if l :| 0 <= l < |s.leases| && s.leases[l].backend == b && s.leases[l].stage.Active? {
      var i := s.leases[l].ref;
      assert Counted(s, Charged(s), i);
      CountSet(s.leases, l, s.leases[l], ActiveOn(i));
    } else if b in s.refs {
      CountNone(s.leases, ActiveOn(s.refs[b]));
    }
  }

  /** What is bound to be closed stays so. */
  lemma {:induction false} FateGrows(endpoint: nat -> nat, s: State, a: Action, s': State, b: nat)
    requires Next(endpoint, s, a, s')
    ensures Fate(s, b) <= Fate(s', b)
  {
    match a
    case Get(service) => CountPush(s.leases, s'.leases[|s.leases|], ClosingFor(b));
    case Decrement(l) => CountSet(s.leases, l, s'.leases[l], ClosingFor(b));
    case Unlist(l) => CountSet(s.leases, l, s'.leases[l], ClosingFor(b));
    case CloseLeased(l) => CountSet(s.leases, l, s'.leases[l], ClosingFor(b));
    case _ =>
  }

  /** A backend leaves the registry's counts only when someone is about to close it. */
  lemma {:induction false} LeavesToClose(endpoint: nat -> nat, s: State, a: Action, s': State, b: nat)
    requires Next(endpoint, s, a, s') && b in s.refs && b !in s'.refs
    ensures Fate(s', b) > 0
  {
    if a.Unlist? {
      CountSet(s.leases, a.l, s'.leases[a.l], ClosingFor(b));
    }
  }

  lemma {:induction false} RunTracked(endpoint: nat -> nat, ss: seq<State>, steps: seq<Action>, m: nat, n: nat, b: nat)
    requires Run(endpoint, ss, steps) && m <= n <= |steps|
    requires b in ss[m].refs || Fate(ss[m], b) > 0
    ensures b in ss[n].refs || Fate(ss[n], b) > 0
  {
    if m < n {
      RunTracked(endpoint, ss, steps, m, n - 1, b);
      var s, s' := ss[n - 1], ss[n];
      assert Next(endpoint, ss[n - 1], steps[n - 1], ss[n]);
      FateGrows(endpoint, s, steps[n - 1], s', b);
      if b in s.refs && b !in s'.refs {
        LeavesToClose(endpoint, s, steps[n - 1], s', b);
      }
    }
  }

  /** Nothing refers to the backend, and nobody has closed it or is about to. */
  ghost predicate Untouched(s: State, b: nat) {
    && b !in s.refs && b !in s.pending && b !in s.closed
    && (forall service | service in s.backends :: s.backends[service].backend != b)
    && forall l | 0 <= l < |s.leases| :: s.leases[l].backend != b
  }

  lemma {:induction false} RetainUntouched(s: State, c: nat, b: nat)
    requires Untouched(s, b) && c != b && (c in s.refs ==> Listed(s, c))
    ensures Untouched(Retain(s, c), b)
  {
  }

  lemma {:induction false} ReleaseUntouched(s: State, c: nat, b: nat)
    requires Untouched(s, b) && c != b
    ensures Untouched(ReleaseIfListed(s, c), b)
  {
  }

  lemma {:induction false} UntouchedRegister(endpoint: nat -> nat, s: State, a: Action, s': State, b: nat)
    requires Untouched(s, b) && Next(endpoint, s, a, s') && a.Register? && a.backend != b
    ensures Untouched(s', b)
  {
    if !Renews(endpoint, s, a) {
      var mid := s.(backends := s.backends[a.service := Entry(a.backend, a.external, a.now)]);
      RetainUntouched(mid, a.backend, b);
      if a.service in s.backends {
        ReleaseUntouched(Retain(mid, a.backend), s.backends[a.service].backend, b);
      }
    }
  }

  lemma {:induction false} UntouchedStep(endpoint: nat -> nat, s: State, a: Action, s': State, b: nat)
    requires Untouched(s, b) && Next(endpoint, s, a, s') && !(a.Register? && a.backend == b)
    ensures Untouched(s', b)
  {
    if a.Register? {
      UntouchedRegister(endpoint, s, a, s', b);
    } else if a.Evict? {
      ReleaseUntouched(s.(backends := s.backends - {a.service}), s.backends[a.service].backend, b);
    }
  }

  lemma {:induction false} NewIsUntouched(endpoint: nat -> nat, ss: seq<State>, steps: seq<Action>, n: nat, b: nat)
    requires Run(endpoint, ss, steps) && n <= |steps| && !Named(steps, n, b)
    ensures Untouched(ss[n], b)
  {
    if n > 0 {
      NewIsUntouched(endpoint, ss, steps, n - 1, b);
      assert Next(endpoint, ss[n - 1], steps[n - 1], ss[n]);
      UntouchedStep(endpoint, ss[n - 1], steps[n - 1], ss[n], b);
    }
  }

  lemma {:induction false} UntouchedFate(s: State, b: nat)
    requires Untouched(s, b)
    ensures Fate(s, b) == 0
  {
    CountNone(s.leases, ClosingFor(b));
  }

  /** A registration makes the registry track its backend, or close it. */
  lemma {:induction false} RegisterTracks(endpoint: nat -> nat, s: State, a: Action, s': State)
    requires Next(endpoint, s, a, s') && a.Register?
    ensures a.backend in s'.refs || Fate(s', a.backend) > 0
  {
  }

  lemma {:induction false} NamedTracked(endpoint: nat -> nat, ss: seq<State>, steps: seq<Action>, n: nat, b: nat)
    requires Run(endpoint, ss, steps) && n <= |steps| && Named(steps, n, b)
    ensures b in ss[n].refs || Fate(ss[n], b) > 0
  {
    var i :| 0 <= i < n && steps[i].Register? && steps[i].backend == b;
    assert Next(endpoint, ss[i], steps[i], ss[i + 1]);
    RegisterTracks(endpoint, ss[i], steps[i], ss[i + 1]);
    RunTracked(endpoint, ss, steps, i + 1, n, b);
  }

  /**
   What a caller can tell of a backend: it is neither closed nor bound to be, exactly when it was never
   registered or an entry or an unreleased lease still refers to it.
   */
  lemma {:induction false} GivenUpIffNamedAndUnused(endpoint: nat -> nat, ss: seq<State>, steps: seq<Action>, n: nat, b: nat)
    requires Run(endpoint, ss, steps) && n <= |steps| && Inv(ss[n])
    ensures Fate(ss[n], b) == 0 <==> !Named(steps, n, b) || InUse(ss[n], b)
    ensures Fate(ss[n], b) <= 1
  {
    InUseCount(ss[n], b);
    assert Fated(ss[n], b);
    if !Named(steps, n, b) {
      NewIsUntouched(endpoint, ss, steps, n, b);
      UntouchedFate(ss[n], b);
    } else {
      NamedTracked(endpoint, ss, steps, n, b);
    }
  }

  /**
   What a registration has to observe: its backend is new, or an entry or an unreleased lease refers to it, or
   the service already has an entry at that address and the registry tracks the backend.
   */
  ghost predicate MayRegister(endpoint: nat -> nat, ss: seq<State>, steps: seq<Action>, i: nat)
    requires i < |steps| <= |ss|
  {
    steps[i].Register? ==>
      var b := steps[i].backend;
      !Named(steps, i, b) || InUse(ss[i], b) || (Renews(endpoint, ss[i], steps[i]) && b in ss[i].refs)
  }

  ghost predicate Observed(endpoint: nat -> nat, ss: seq<State>, steps: seq<Action>, n: nat)
    requires n <= |steps| <= |ss|
  {
    forall i {:trigger MayRegister(endpoint, ss, steps, i)} | 0 <= i < n :: MayRegister(endpoint, ss, steps, i)
  }

  lemma {:induction false} RunInv(endpoint: nat -> nat, ss: seq<State>, steps: seq<Action>, n: nat)
    requires Run(endpoint, ss, steps) && n <= |steps| && Observed(endpoint, ss, steps, n)
    ensures Inv(ss[n])
  {
    if n == 0 {
      StartInv();
    } else {
      var a := steps[n - 1];
      RunInv(endpoint, ss, steps, n - 1);
      assert Next(endpoint, ss[n - 1], steps[n - 1], ss[n]) && MayRegister(endpoint, ss, steps, n - 1);
      if a.Register? {
        GivenUpIffNamedAndUnused(endpoint, ss, steps, n - 1, a.backend);
      }
      InvStep(endpoint, ss[n - 1], a, ss[n]);
    }
  }

  /**
   In every interleaving whose registrations observe that: a backend in use has not been closed, no thread is
   about to close it, and it is listed with a positive count, which is entries plus leases; so every entry
   resolves. No backend is ever closed twice.
   */
  lemma {:induction false} LeaseSafety(endpoint: nat -> nat, ss: seq<State>, steps: seq<Action>, n: nat, b: nat)
    requires Run(endpoint, ss, steps) && n <= |steps| && Observed(endpoint, ss, steps, n)
    ensures InUse(ss[n], b) ==> Fate(ss[n], b) == 0 && b !in ss[n].closed
    ensures ss[n].closed[b] <= 1
    ensures b in ss[n].refs ==> Listed(ss[n], b)
    ensures InUse(ss[n], b) <==> Listed(ss[n], b) && ss[n].heap[ss[n].refs[b]].count > 0
    ensures forall service | service in ss[n].backends && ss[n].backends[service].backend == b :: Listed(ss[n], b)
    ensures b in ss[n].refs ==>
              ss[n].heap[ss[n].refs[b]].count == Entries(ss[n].backends, b) + Count(ss[n].leases, ActiveOn(ss[n].refs[b]))
  {
    RunInv(endpoint, ss, steps, n);
    InUseCount(ss[n], b);
    assert Fated(ss[n], b);
    forall service | service in ss[n].backends && ss[n].backends[service].backend == b
      ensures InUse(ss[n], b)
    {
      assert service in EntrySet(ss[n].backends, b);
    }
  }

  /**
   Once a backend that was registered is out of use, exactly one close of it has happened or is on its way;
   when no release or registration is in the middle of its work, it has been closed, once.
   */
  lemma {:induction false} ClosedOnceUnused(endpoint: nat -> nat, ss: seq<State>, steps: seq<Action>, n: nat, b: nat)
    requires Run(endpoint, ss, steps) && n <= |steps| && Observed(endpoint, ss, steps, n)
    requires Named(steps, n, b) && !InUse(ss[n], b)
    ensures Fate(ss[n], b) == 1
    ensures ss[n].pending == multiset{} &&
            (forall l | 0 <= l < |ss[n].leases| :: !ss[n].leases[l].stage.Zero? && !ss[n].leases[l].stage.Unlisted?) ==>
              ss[n].closed[b] == 1
  {
    RunInv(endpoint, ss, steps, n);
    GivenUpIffNamedAndUnused(endpoint, ss, steps, n, b);
    if forall l | 0 <= l < |ss[n].leases| :: !ss[n].leases[l].stage.Zero? && !ss[n].leases[l].stage.Unlisted? {
      CountNone(ss[n].leases, ClosingFor(b));
    }
  }

  // ---- when the condition fails ----

  ghost predicate StepOrStay(endpoint: nat -> nat, s: State, s': State) {
    s' == s || exists a :: Next(endpoint, s, a, s')
  }

  lemma {:induction false} CountWitness(ls: seq<Lease>, w: Which) returns (l: nat)
    requires Count(ls, w) > 0
    ensures l < |ls| && Is(ls[l], w)
    decreases |ls|
  {
    var n := |ls| - 1;
    if Is(ls[n], w) {
      l := n;
    } else {
      l := CountWitness(ls[..n], w);
    }
  }

  /** A thread on its way to close `b` gets there within two steps. */
  lemma {:induction false} LeaseCloses(endpoint: nat -> nat, s: State, b: nat, l: nat) returns (mid: State, last: State)
    requires l < |s.leases| && Is(s.leases[l], ClosingFor(b))
    ensures StepOrStay(endpoint, s, mid) && StepOrStay(endpoint, mid, last)
    ensures last.backends == s.backends && last.pending == s.pending && last.closed == s.closed + multiset{b}
    ensures last.leases == s.leases[l := s.leases[l].(stage := Done)]
  {
    mid := s;
    if s.leases[l].stage.Zero? {
      mid := s.(refs := if b in s.refs && s.refs[b] == s.leases[l].ref then s.refs - {b} else s.refs,
                leases := s.leases[l := s.leases[l].(stage := Unlisted)]);
      assert Next(endpoint, s, Unlist(l), mid);
    }
    last := mid.(closed := mid.closed + multiset{b}, leases := mid.leases[l := mid.leases[l].(stage := Done)]);
    assert Next(endpoint, mid, CloseLeased(l), last);
  }

  /** A close that is bound to happen can happen within two steps, with the entries still there. */
  lemma {:induction false} DoomedCloses(endpoint: nat -> nat, s: State, b: nat) returns (mid: State, last: State)
    ensures StepOrStay(endpoint, s, mid) && StepOrStay(endpoint, mid, last)
    ensures last.backends == s.backends && Fate(last, b) == Fate(s, b)
    ensures last.closed[b] == if s.closed[b] < Fate(s, b) then s.closed[b] + 1 else s.closed[b]
  {
    mid, last := s, s;
    if b in s.pending {
      last := s.(pending := s.pending - multiset{b}, closed := s.closed + multiset{b});
      assert Next(endpoint, s, ClosePending(b), last);
    } else if Count(s.leases, ClosingFor(b)) > 0 {
      var l := CountWitness(s.leases, ClosingFor(b));
      mid, last := LeaseCloses(endpoint, s, b, l);
      CountSet(s.leases, l, last.leases[l], ClosingFor(b));
    }
  }

  /**
   A registration that records a backend already closed or bound to be closed leads, within two steps of
   threads already under way, to a closed backend that the registry still resolves to.
   */
  lemma {:induction false} RevivalCloses(endpoint: nat -> nat, s: State, a: Action, s': State) returns (mid: State, last: State)
    requires Next(endpoint, s, a, s') && Revives(endpoint, s, a) && !Renews(endpoint, s, a)
    ensures StepOrStay(endpoint, s', mid) && StepOrStay(endpoint, mid, last)
    ensures a.backend in last.closed && InUse(last, a.backend)
    ensures InUse(s', a.backend) && Fate(s', a.backend) > 0
  {
    FateGrows(endpoint, s, a, s', a.backend);
    assert a.service in EntrySet(s'.backends, a.backend);
    mid, last := DoomedCloses(endpoint, s', a.backend);
  }

  /** One that renews an entry instead, with such a backend that is no longer tracked, closes it a second time. */
  lemma {:induction false} RenewalClosesTwice(endpoint: nat -> nat, s: State, a: Action, s': State)
    returns (s1: State, s2: State, s3: State, last: State)
    requires Next(endpoint, s, a, s') && Revives(endpoint, s, a) && Renews(endpoint, s, a)
    ensures StepOrStay(endpoint, s', s1) && StepOrStay(endpoint, s1, s2)
    ensures StepOrStay(endpoint, s2, s3) && StepOrStay(endpoint, s3, last)
    ensures last.closed[a.backend] >= 2 && Fate(s', a.backend) >= 2
  {
    s1, s2 := DoomedCloses(endpoint, s', a.backend);
    s3, last := DoomedCloses(endpoint, s2, a.backend);
  }

  /** The promise in one state: what is in use is not given up, and nothing is given up twice. */
  ghost predicate Safe(s: State) {
    forall b: nat {:trigger Fate(s, b)} :: Fate(s, b) <= 1 && (InUse(s, b) ==> Fate(s, b) == 0)
  }

  /** The condition on registrations is exact: the first one that does not observe it breaks the promise. */
  lemma {:induction false} SafeIffMayRegister(endpoint: nat -> nat, ss: seq<State>, steps: seq<Action>, n: nat)
    requires Run(endpoint, ss, steps) && n < |steps| && Observed(endpoint, ss, steps, n)
    ensures Safe(ss[n + 1]) <==> MayRegister(endpoint, ss, steps, n)
  {
    var a, s' := steps[n], ss[n + 1];
    assert Next(endpoint, ss[n], steps[n], ss[n + 1]);
    if MayRegister(endpoint, ss, steps, n) {
      assert Observed(endpoint, ss, steps, n + 1);
      RunInv(endpoint, ss, steps, n + 1);
      forall b: nat
        ensures Fate(s', b) <= 1 && (InUse(s', b) ==> Fate(s', b) == 0)
      {
        GivenUpIffNamedAndUnused(endpoint, ss, steps, n + 1, b);
      }
    } else {
      RunInv(endpoint, ss, steps, n);
      GivenUpIffNamedAndUnused(endpoint, ss, steps, n, a.backend);
      if Renews(endpoint, ss[n], a) {
        var s1, s2, s3, last := RenewalClosesTwice(endpoint, ss[n], a, s');
        assert Fate(s', a.backend) >= 2;
      } else {
        var mid, last := RevivalCloses(endpoint, ss[n], a, s');
        assert Fate(s', a.backend) > 0;
      }
    }
  }

  /** A run with one more step. */
  lemma {:induction false} RunOn(endpoint: nat -> nat, ss: seq<State>, steps: seq<Action>, a: Action, s': State)
    returns (ss': seq<State>, steps': seq<Action>)
    requires Run(endpoint, ss, steps) && Next(endpoint, ss[|steps|], a, s')
    ensures Run(endpoint, ss', steps') && |steps'| == |steps| + 1 && ss'[|steps'|] == s'
  {
    ss', steps' := ss + [s'], steps + [a];
    forall i | 0 <= i < |steps'|
      ensures Next(endpoint, ss'[i], steps'[i], ss'[i + 1])
    {
      if i < |steps| {
        assert Next(endpoint, ss[i], steps[i], ss[i + 1]);
      }
    }
  }

  lemma {:induction false} FirstHalf(endpoint: nat -> nat, e: Entry, s1: State, s2: State, s3: State, s4: State)
    requires e == Entry(7, true, 0)
    requires s1 == State(map[1 := e], map[7 := 0], [Ref(7, 1)], [], multiset{}, multiset{})
    requires s2 == State(map[1 := e], map[7 := 0], [Ref(7, 2)], [Lease(0, 7, Active)], multiset{}, multiset{})
    requires s3 == State(map[], map[7 := 0], [Ref(7, 1)], [Lease(0, 7, Active)], multiset{}, multiset{})
    requires s4 == State(map[], map[7 := 0], [Ref(7, 0)], [Lease(0, 7, Zero)], multiset{}, multiset{})
    ensures Next(endpoint, START, Register(1, 7, true, 0), s1) && Next(endpoint, s1, Get(1), s2)
    ensures Next(endpoint, s2, Evict(1, 3), s3) && Next(endpoint, s3, Decrement(0), s4)
  {
    assert map[1 := e] - {1} == map[];
  }

  /**
   Such a run exists: a backend is evicted under a lease, the lease is dropped, and before the clean-up takes
   the lock the backend is registered again.
   */
  lemma {:induction false} RevivalHappens(endpoint: nat -> nat) returns (ss: seq<State>, steps: seq<Action>)
    ensures Run(endpoint, ss, steps) && |steps| == 7
    ensures 7 in ss[7].closed && 1 in ss[7].backends && ss[7].backends[1].backend == 7
  {
    var e, f := Entry(7, true, 0), Entry(7, true, 5);
    var s1 := State(map[1 := e], map[7 := 0], [Ref(7, 1)], [], multiset{}, multiset{});
    var s2 := State(map[1 := e], map[7 := 0], [Ref(7, 2)], [Lease(0, 7, Active)], multiset{}, multiset{});
    var s3 := State(map[], map[7 := 0], [Ref(7, 1)], [Lease(0, 7, Active)], multiset{}, multiset{});
    var s4 := State(map[], map[7 := 0], [Ref(7, 0)], [Lease(0, 7, Zero)], multiset{}, multiset{});
    var s5 := State(map[1 := f], map[7 := 0], [Ref(7, 1)], [Lease(0, 7, Zero)], multiset{}, multiset{});
    var s6 := State(map[1 := f], map[], [Ref(7, 1)], [Lease(0, 7, Unlisted)], multiset{}, multiset{});
    var s7 := State(map[1 := f], map[], [Ref(7, 1)], [Lease(0, 7, Done)], multiset{}, multiset{7});
    FirstHalf(endpoint, e, s1, s2, s3, s4);
    assert map[7 := 0] - {7} == map[];
    assert Next(endpoint, s4, Register(1, 7, true, 5), s5);
    assert Next(endpoint, s5, Unlist(0), s6);
    assert Next(endpoint, s6, CloseLeased(0), s7);
    ss, steps := RunOn(endpoint, [START], [], Register(1, 7, true, 0), s1);
    ss, steps := RunOn(endpoint, ss, steps, Get(1), s2);
    ss, steps := RunOn(endpoint, ss, steps, Evict(1, 3), s3);
    ss, steps := RunOn(endpoint, ss, steps, Decrement(0), s4);
    ss, steps := RunOn(endpoint, ss, steps, Register(1, 7, true, 5), s5);
    ss, steps := RunOn(endpoint, ss, steps, Unlist(0), s6);
    ss, steps := RunOn(endpoint, ss, steps, CloseLeased(0), s7);
  }

  lemma {:induction false} TwoRegistered(endpoint: nat -> nat, e: Entry, f: Entry, s1: State, s2: State, s3: State)
    requires e == Entry(7, true, 0) && f == Entry(8, true, 5)
    requires s1 == State(map[1 := e], map[7 := 0], [Ref(7, 1)], [], multiset{}, multiset{})
    requires s2 == State(map[1 := e][2 := f], map[7 := 0][8 := 1], [Ref(7, 1), Ref(8, 1)], [], multiset{}, multiset{})
    requires s3 == State(map[2 := f], map[8 := 1], [Ref(7, 0), Ref(8, 1)], [], multiset{7}, multiset{})
    ensures Next(endpoint, START, Register(1, 7, true, 0), s1)
    ensures Next(endpoint, s1, Register(2, 8, true, 5), s2) && Next(endpoint, s2, Evict(1, 3), s3)
  {
    assert s2.backends - {1} == s3.backends && s2.refs - {7} == s3.refs;
  }

  lemma {:induction false} OfferedAgain(endpoint: nat -> nat, s: State, service: nat, b: nat)
    returns (s1: State, s2: State, s3: State)
    requires service in s.backends && endpoint(s.backends[service].backend) == endpoint(b)
    requires b !in s.refs && s.pending[b] == 1 && s.closed[b] == 0
    ensures Next(endpoint, s, Register(service, b, true, 6), s1)
    ensures Next(endpoint, s1, ClosePending(b), s2) && Next(endpoint, s2, ClosePending(b), s3)
    ensures s3.closed[b] == 2
  {
    s1 := s.(backends := s.backends[service := s.backends[service].(seen := 6)], pending := s.pending + multiset{b});
    s2 := s1.(pending := s1.pending - multiset{b}, closed := s1.closed + multiset{b});
    s3 := s2.(pending := s2.pending - multiset{b}, closed := s2.closed + multiset{b});
  }

  /**
   So does one of the other kind: a service keeps its entry, and a backend evicted from another service is
   offered for it at the same address.
   */
  lemma {:induction false} SecondCloseHappens(endpoint: nat -> nat) returns (ss: seq<State>, steps: seq<Action>)
    requires endpoint(7) == endpoint(8)
    ensures Run(endpoint, ss, steps) && |steps| == 6 && ss[6].closed[7] == 2
  {
    var e, f := Entry(7, true, 0), Entry(8, true, 5);
    var s1 := State(map[1 := e], map[7 := 0], [Ref(7, 1)], [], multiset{}, multiset{});
    var s2 := State(map[1 := e][2 := f], map[7 := 0][8 := 1], [Ref(7, 1), Ref(8, 1)], [], multiset{}, multiset{});
    var s3 := State(map[2 := f], map[8 := 1], [Ref(7, 0), Ref(8, 1)], [], multiset{7}, multiset{});
    TwoRegistered(endpoint, e, f, s1, s2, s3);
    var s4, s5, s6 := OfferedAgain(endpoint, s3, 2, 7);
    ss, steps := RunOn(endpoint, [START], [], Register(1, 7, true, 0), s1);
    ss, steps := RunOn(endpoint, ss, steps, Register(2, 8, true, 5), s2);
    ss, steps := RunOn(endpoint, ss, steps, Evict(1, 3), s3);
    ss, steps := RunOn(endpoint, ss, steps, Register(2, 7, true, 6), s4);
    ss, steps := RunOn(endpoint, ss, steps, ClosePending(7), s5);
    ss, steps := RunOn(endpoint, ss, steps, ClosePending(7), s6);
  }
}
