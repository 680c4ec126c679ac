/** Maximal constant runs of a function on `0 .. n-1`, and the merging of blocks into runs. */
module RunList {
  import opened Trie

  datatype Run = Run(from: nat, to: nat, value: nat)

  /** A run of a valid value that can be extended in neither direction. */
  ghost predicate RunAt(f: nat -> nat, n: nat, r: Run) {
    && r.from <= r.to < n && r.value != VALUE_INVALID
    && (forall x: nat {:trigger f(x)} | r.from <= x <= r.to :: f(x) == r.value)
    && (r.from > 0 ==> f(r.from - 1) != r.value)
    && (r.to + 1 < n ==> f(r.to + 1) != r.value)
  }

  ghost predicate Within(r: Run, x: nat) {
    r.from <= x <= r.to
  }

  ghost predicate Ascending(runs: seq<Run>) {
    forall i, j | 0 <= i < j < |runs| :: runs[i].to < runs[j].from
  }

  ghost predicate Listed(runs: seq<Run>, x: nat) {
    exists i | 0 <= i < |runs| :: Within(runs[i], x)
  }

  /** All the maximal runs, in ascending order. */
  ghost predicate IsRunList(f: nat -> nat, n: nat, runs: seq<Run>) {
    && (forall i | 0 <= i < |runs| :: RunAt(f, n, runs[i])) && Ascending(runs)
    && forall x: nat {:trigger Listed(runs, x)} | x < n && f(x) != VALUE_INVALID :: Listed(runs, x)
  }

  // ---- there is only one such list ----

  lemma {:induction false} SameRun(f: nat -> nat, n: nat, r: Run, s: Run, x: nat)
    requires RunAt(f, n, r) && RunAt(f, n, s) && Within(r, x) && Within(s, x)
    ensures r == s
  {
    assert f(x) == r.value && f(x) == s.value;
  }

  lemma {:induction false} NextRunSame(f: nat -> nat, n: nat, rs: seq<Run>, ss: seq<Run>, i: nat) returns (j: nat)
    requires IsRunList(f, n, rs) && IsRunList(f, n, ss) && i < |rs| && i <= |ss| && rs[..i] == ss[..i]
    ensures i <= j < |ss| && ss[j] == rs[i]
  {
    var x := rs[i].from;
    assert f(x) == rs[i].value;
    assert Listed(ss, x);
    j :| 0 <= j < |ss| && Within(ss[j], x);
    SameRun(f, n, rs[i], ss[j], x);
    assert forall k | 0 <= k < i :: ss[k] == ss[..i][k] && rs[k] == rs[..i][k];
  }

  lemma {:induction false} RunListUnique(f: nat -> nat, n: nat, rs: seq<Run>, ss: seq<Run>, i: nat)
    requires IsRunList(f, n, rs) && IsRunList(f, n, ss) && i <= |rs| && i <= |ss| && rs[..i] == ss[..i]
    ensures rs == ss
    decreases |rs| - i
  {
    if i < |rs| {
      var j := NextRunSame(f, n, rs, ss, i);
      var k := NextRunSame(f, n, ss, rs, i);
      assert rs[i] == ss[i];
      assert rs[..i + 1] == rs[..i] + [rs[i]] && ss[..i + 1] == ss[..i] + [ss[i]];
      RunListUnique(f, n, rs, ss, i + 1);
    } else if i < |ss| {
      var k := NextRunSame(f, n, ss, rs, i);
    } else {
      assert rs == rs[..i] && ss == ss[..i];
    }
  }

  // ---- merging blocks ----

  /** Runs of everything before `start`; from there up to `pos` the value is `v`, and before it it is not. */
  ghost predicate Sofar(f: nat -> nat, n: nat, runs: seq<Run>, v: nat, start: nat, pos: nat) {
    && start <= pos <= n && (start == pos ==> pos == 0 && v == VALUE_INVALID)
    && (forall x: nat {:trigger f(x)} | start <= x < pos :: f(x) == v)
    && (start > 0 ==> f(start - 1) != v)
    && Before(f, n, runs, start)
  }

  ghost function Close(runs: seq<Run>, v: nat, start: nat, pos: nat): seq<Run> {
    if v != VALUE_INVALID && pos > 0 then runs + [Run(start, pos - 1, v)] else runs
  }

  /** `runs` are all the runs of what lies before `pos`. */
  ghost predicate Before(f: nat -> nat, n: nat, runs: seq<Run>, pos: nat) {
    && (forall i | 0 <= i < |runs| :: RunAt(f, n, runs[i]) && runs[i].to < pos) && Ascending(runs)
    && forall x: nat {:trigger Listed(runs, x)} | x < pos && f(x) != VALUE_INVALID :: Listed(runs, x)
  }

  lemma {:induction false} ListedAppend(runs: seq<Run>, r: Run, x: nat)
    ensures Listed(runs + [r], x) <==> Listed(runs, x) || Within(r, x)
  {
    var runs' := runs + [r];
    if i :| 0 <= i < |runs| && Within(runs[i], x) {
      assert Within(runs'[i], x);
    }
    assert runs'[|runs|] == r;
  }

  lemma {:induction false} AppendRun(f: nat -> nat, n: nat, runs: seq<Run>, r: Run)
    requires Before(f, n, runs, r.from) && RunAt(f, n, r)
    ensures Before(f, n, runs + [r], r.to + 1)
  {
    var runs' := runs + [r];
    forall x: nat | x < r.to + 1 && f(x) != VALUE_INVALID
      ensures Listed(runs', x)
    {
      ListedAppend(runs, r, x);
      assert x < r.from ==> Listed(runs, x);
    }
  }

  lemma {:induction false} CloseRuns(f: nat -> nat, n: nat, runs: seq<Run>, v: nat, start: nat, pos: nat)
    requires Sofar(f, n, runs, v, start, pos) && (pos < n ==> f(pos) != v)
    ensures Before(f, n, Close(runs, v, start, pos), pos)
  {
    if v != VALUE_INVALID && pos > 0 {
      AppendRun(f, n, runs, Run(start, pos - 1, v));
    }
  }

  /** A block of the same value extends the run; one of another value closes it and starts a new one. */
  lemma {:induction false} AddBlock(f: nat -> nat, n: nat, runs: seq<Run>, v: nat, start: nat, pos: nat, end: nat, c: nat)
    requires Sofar(f, n, runs, v, start, pos) && pos < end <= n
    requires forall x: nat {:trigger f(x)} | pos <= x < end :: f(x) == c
    ensures c == v ==> Sofar(f, n, runs, v, start, end)
    ensures c != v ==> Sofar(f, n, Close(runs, v, start, pos), c, pos, end)
  {
    if c != v {
      assert f(pos) == c;
      CloseRuns(f, n, runs, v, start, pos);
    }
  }

  lemma {:induction false} Finish(f: nat -> nat, n: nat, runs: seq<Run>, v: nat, start: nat)
    requires Sofar(f, n, runs, v, start, n)
    ensures IsRunList(f, n, Close(runs, v, start, n))
  {
    CloseRuns(f, n, runs, v, start, n);
  }
}
