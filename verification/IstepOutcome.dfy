/** How the three ways to run isteps agree, and what automatic boot mode rules out. */
module IstepOutcome {
  import opened Base
  import opened Istep

  /** The steps among the events, without the pre functions. */
  function Steps(events: seq<Event>): seq<Event> {
    if events == [] then [] else (if events[0].Step? then [events[0]] else []) + Steps(events[1..])
  }

  lemma {:induction false} StepsConcat(a: seq<Event>, b: seq<Event>)
    ensures Steps(a + b) == Steps(a) + Steps(b)
  {
    if a == [] {
      assert a + b == b;
    } else {
      assert (a + b)[1..] == a[1..] + b;
      StepsConcat(a[1..], b);
      Regroup(if a[0].Step? then [a[0]] else [], Steps(a[1..]), Steps(b));
    }
  }

  lemma StepsOfPair(m: nat, i: nat)
    ensures Steps([Pre(m), Step(m, i)]) == [Step(m, i)] && Steps([Pre(m)]) == [] && Steps([Step(m, i)]) == [Step(m, i)]
  {
    assert [Step(m, i)][1..] == [] && [Pre(m)][1..] == [];
    StepsConcat([Pre(m)], [Step(m, i)]);
    assert [Pre(m)] + [Step(m, i)] == [Pre(m), Step(m, i)];
  }

  // ---------- a whole major against its rows one by one ----------

  /** Run the rows from i on through the single-step entry point, until one returns non-zero. */
  function RowByRow(ts: Tables, mode: Mode, env: Env, major: nat, i: nat, n: nat): Run
    requires major <= MAX_ISTEP
    decreases |ts[major]| - i
  {
    if i >= |ts[major]| || ts[major][i].major == -1 then Run([], 0)
    else
      var r := RunMajorMinor(ts, mode, env, major, ts[major][i].minor, n);
      if r.rc != 0 then r
      else
        var rest := RowByRow(ts, mode, env, major, i + 1, n + 1);
        Run(r.events + rest.events, rest.rc)
  }

  lemma {:induction false} FindOwnMinor(t: seq<Row>, major: int, i: nat, j: nat)
    requires WellFormed(t, major) && j <= i < |t| - 1
    ensures FindMinorFrom(t, t[i].minor, j) == Some(i)
    decreases i - j
  {
    if j < i {
      FindOwnMinor(t, major, i, j + 1);
    }
  }

  lemma {:induction false} RowsAgree(ts: Tables, mode: Mode, env: Env, major: nat, i: nat, rc: int, n: nat)
    requires !Rejected(mode, major) && WellFormed(ts[major], major) && i < |ts[major]|
    requires rc == 0 || rc == -1
    ensures var whole, single := RowsFrom(ts[major], major, env, i, rc, n), RowByRow(ts, mode, env, major, i, n);
            Steps(whole.events) == Steps(single.events) && Implemented(whole.rc) == single.rc
    decreases |ts[major]| - i
  {
    var t := ts[major];
    if t[i].major != -1 {
      FindOwnMinor(t, major, i, 0);
      StepsOfPair(major, i);
      var r := Result(env, n);
      if r == 0 || r == -1 {
        RowsAgree(ts, mode, env, major, i + 1, r, n + 1);
        StepsConcat([Step(major, i)], RowsFrom(t, major, env, i + 1, r, n + 1).events);
        StepsConcat([Pre(major), Step(major, i)], RowByRow(ts, mode, env, major, i + 1, n + 1).events);
      }
    }
  }

  /**
   * Running a major step executes the same steps with the same result as
   * running its rows one by one until the first failure.
   */
  lemma MajorIsRowByRow(ts: Tables, mode: Mode, env: Env, major: nat, n: nat)
    requires !Rejected(mode, major) && WellFormed(ts[major], major)
    ensures var whole, single := RunMajor(ts, mode, env, major, n), RowByRow(ts, mode, env, major, 0, n);
            Steps(whole.events) == Steps(single.events) && whole.rc == single.rc
  {
    RowsAgree(ts, mode, env, major, 0, 0, n);
    StepsOfPair(major, 0);
    StepsConcat([Pre(major)], RowsFrom(ts[major], major, env, 0, 0, n).events);
  }

  function PreCount(events: seq<Event>): nat {
    if events == [] then 0 else (if events[0].Pre? then 1 else 0) + PreCount(events[1..])
  }

  /** The two ways differ in the pre function alone: run one by one, every row brings its own. */
  lemma {:induction false} RowByRowPres(ts: Tables, mode: Mode, env: Env, major: nat, i: nat, n: nat)
    requires !Rejected(mode, major) && WellFormed(ts[major], major) && i < |ts[major]|
    ensures var single := RowByRow(ts, mode, env, major, i, n).events;
            |single| == 2 * PreCount(single) && PreCount(single) == |Steps(single)|
    decreases |ts[major]| - i
  {
    var t := ts[major];
    if t[i].major != -1 {
      FindOwnMinor(t, major, i, 0);
      RowByRowPres(ts, mode, env, major, i + 1, n + 1);
      var rest := RowByRow(ts, mode, env, major, i + 1, n + 1).events;
      PairCounts(major, i, rest);
      PairCounts(major, i, []);
      assert [Pre(major), Step(major, i)] + [] == [Pre(major), Step(major, i)];
    }
  }

  lemma PairCounts(m: nat, i: nat, rest: seq<Event>)
    ensures var es := [Pre(m), Step(m, i)] + rest;
            PreCount(es) == 1 + PreCount(rest) && |Steps(es)| == 1 + |Steps(rest)|
  {
    StepsOfPair(m, i);
    StepsConcat([Pre(m), Step(m, i)], rest);
    var es := [Pre(m), Step(m, i)] + rest;
    assert es[1..] == [Step(m, i)] + rest && es[1..][1..] == rest;
  }

  predicate Fails(rc: int) { rc != 0 && rc != -1 }

  /** The rows from i on are executed in order, up to and including the first failure. */
  lemma {:induction false} RowsExecuted(t: seq<Row>, major: nat, env: Env, i: nat, rc: int, n: nat) returns (k: nat)
    requires WellFormed(t, major) && i < |t|
    ensures i + k < |t|
    ensures RowsFrom(t, major, env, i, rc, n).events == seq(k, j requires 0 <= j < k => Step(major, i + j))
    ensures forall j: nat :: n <= j < n + k - 1 ==> !Fails(Result(env, j))
    ensures k == |t| - 1 - i || (k > 0 && Fails(Result(env, n + k - 1)))
    ensures RowsFrom(t, major, env, i, rc, n).rc == if k == 0 then rc else Result(env, n + k - 1)
    decreases |t| - i
  {
    k := 0;
    if t[i].major != -1 {
      var r := Result(env, n);
      if Fails(r) {
        k := 1;
      } else {
        var rest := RowsExecuted(t, major, env, i + 1, r, n + 1);
        k := rest + 1;
      }
    }
  }

  /** A major step runs its pre function once, then its rows in order up to the first result other than 0 and -1. */
  lemma MajorExecuted(ts: Tables, mode: Mode, env: Env, major: nat, n: nat) returns (k: nat)
    requires !Rejected(mode, major) && WellFormed(ts[major], major)
    ensures k < |ts[major]|
    ensures RunMajor(ts, mode, env, major, n).events == [Pre(major)] + seq(k, j requires 0 <= j < k => Step(major, j))
    ensures forall j: nat :: n <= j < n + k - 1 ==> !Fails(Result(env, j))
    ensures k == |ts[major]| - 1 || (k > 0 && Fails(Result(env, n + k - 1)))
    ensures RunMajor(ts, mode, env, major, n).rc ==
            if k > 0 && Fails(Result(env, n + k - 1)) then Result(env, n + k - 1) else 0
  {
    k := RowsExecuted(ts[major], major, env, 0, 0, n);
    assert seq(k, j requires 0 <= j < k => Step(major, 0 + j)) == seq(k, j requires 0 <= j < k => Step(major, j));
  }

  // ---------- what is rejected ----------

  /** Majors run from 0 to 21, and in automatic boot mode 0 is the only one. */
  predicate OutOfRange(mode: Mode, major: int) {
    major < 0 || major > 21 || (mode == Autoboot && major != 0)
  }

  /** A major step is rejected with 22, without any event, iff its number is out of range. */
  lemma MajorRejected(ts: Tables, mode: Mode, env: Env, major: int, n: nat)
    ensures RunMajor(ts, mode, env, major, n) == Run([], 22) <==> OutOfRange(mode, major)
    ensures !OutOfRange(mode, major) ==>
              && |RunMajor(ts, mode, env, major, n).events| > 0
              && RunMajor(ts, mode, env, major, n).events[0] == Pre(major)
  {
  }

  /**
   * A single step is rejected likewise iff its major is out of range or its
   * table has no such minor in front of the sentinel; else its pre function and
   * the first row of this minor run, and -1 counts as success.
   */
  lemma MinorRejected(ts: Tables, mode: Mode, env: Env, major: int, minor: int, n: nat)
    ensures RunMajorMinor(ts, mode, env, major, minor, n) == Run([], 22) <==>
            || OutOfRange(mode, major) || minor < 0
            || forall f: nat :: !FirstMinor(ts[major], minor, 0, f)
    ensures !OutOfRange(mode, major) && minor >= 0 ==>
              forall f: nat :: FirstMinor(ts[major], minor, 0, f) ==>
                RunMajorMinor(ts, mode, env, major, minor, n) ==
                Run([Pre(major), Step(major, f)], if Result(env, n) == -1 then 0 else Result(env, n))
  {
    if !OutOfRange(mode, major) {
      FindMinorFirst(ts[major], minor, 0);
    }
  }

  /** The result of the n-th step: the one given, and 0 behind the list or in test mode. */
  lemma StepResults(env: Env, n: nat)
    ensures env.testMode ==> Result(env, n) == 0
    ensures !env.testMode && n < |env.results| ==> Result(env, n) == env.results[n]
    ensures !env.testMode && n >= |env.results| ==> Result(env, n) == 0
  {
  }

  // ---------- by name and by number ----------

  predicate AllWellFormed(ts: Tables) {
    forall m :: 0 <= m <= MAX_ISTEP ==> WellFormed(ts[m], m)
  }

  /** Row i of table m has this name, and no row before it, in (major, index) order, has. */
  predicate FirstNamed(ts: Tables, name: string, m: nat, i: nat) {
    && m <= MAX_ISTEP && i < |ts[m]| - 1 && ts[m][i].name == name
    && (forall k :: 0 <= k < i ==> ts[m][k].name != name)
    && (forall l, k :: 0 <= l < m && 0 <= k < |ts[l]| - 1 ==> ts[l][k].name != name)
  }

  lemma {:induction false} NameFound(t: seq<Row>, major: int, name: string, i: nat)
    requires WellFormed(t, major) && major >= 0 && i < |t|
    ensures FindNameFrom(t, name, i).None? <==> forall k :: i <= k < |t| - 1 ==> t[k].name != name
    decreases |t| - i
  {
    if i < |t| - 1 && t[i].name != name {
      NameFound(t, major, name, i + 1);
    }
  }

  /** A step name runs the first row that carries it, exactly as its number would; an unknown name runs nothing. */
  lemma NameIsNumber(ts: Tables, mode: Mode, env: Env, name: string, n: nat)
    requires AllWellFormed(ts)
    ensures forall m: nat, i: nat :: FirstNamed(ts, name, m, i) ==>
              RunStep(ts, mode, env, name, n) == RunMajorMinor(ts, mode, env, m, ts[m][i].minor, n)
    ensures (forall m: nat, i: nat :: !FirstNamed(ts, name, m, i)) ==>
              RunStep(ts, mode, env, name, n) == Run([], EINVAL)
  {
    FindTableFirst(ts, name, 0);
    forall l | 0 <= l <= MAX_ISTEP
      ensures FindNameFrom(ts[l], name, 0).None? <==> forall k :: 0 <= k < |ts[l]| - 1 ==> ts[l][k].name != name
    {
      NameFound(ts[l], l, name, 0);
    }
    if FindTable(ts, name, 0).Some? {
      var m := FindTable(ts, name, 0).value;
      FindNameFirst(ts[m], name, 0);
      var i := FindNameFrom(ts[m], name, 0).value;
      FindOwnMinor(ts[m], m, i, 0);
      FirstIsFound(ts, name, m, i);
    } else {
      assert forall l :: 0 <= l <= MAX_ISTEP ==> FindNameFrom(ts[l], name, 0).None?;
      assert forall l, k :: 0 <= l <= MAX_ISTEP && 0 <= k < |ts[l]| - 1 ==> ts[l][k].name != name;
    }
  }

  /** There is at most one first row of a name. */
  lemma FirstIsFound(ts: Tables, name: string, m: nat, i: nat)
    requires FirstNamed(ts, name, m, i)
    ensures forall m2: nat, i2: nat :: FirstNamed(ts, name, m2, i2) ==> m2 == m && i2 == i
  {
  }

  // ---------- sequences of calls ----------

  datatype Command = Major(major: int) | MajorMinor(major: int, minor: int) | Name(name: string)

  function Execute(ts: Tables, mode: Mode, env: Env, c: Command, n: nat): Run {
    match c
    case Major(m) => RunMajor(ts, mode, env, m, n)
    case MajorMinor(m, k) => RunMajorMinor(ts, mode, env, m, k, n)
    case Name(s) => RunStep(ts, mode, env, s, n)
  }

  /** Everything a sequence of calls executes, and the result of each call. */
  function ExecuteAll(ts: Tables, mode: Mode, env: Env, cs: seq<Command>, n: nat): (seq<Event>, seq<int>) {
    if cs == [] then ([], [])
    else
      var r := Execute(ts, mode, env, cs[0], n);
      var (events, rcs) := ExecuteAll(ts, mode, env, cs[1..], n + StepCount(r.events));
      (r.events + events, [r.rc] + rcs)
  }

  predicate OnlyMajorZero(events: seq<Event>) {
    forall k :: 0 <= k < |events| ==> events[k].major == 0
  }

  lemma {:induction false} RowsOfMajor(t: seq<Row>, major: nat, env: Env, i: nat, rc: int, n: nat)
    ensures forall e :: e in RowsFrom(t, major, env, i, rc, n).events ==> e.major == major
    decreases |t| - i
  {
    if i < |t| && t[i].major != -1 && !Fails(Result(env, n)) {
      RowsOfMajor(t, major, env, i + 1, Result(env, n), n + 1);
    }
  }

  /** In automatic boot mode nothing of another major than 0 ever runs; in no mode does a call return -1. */
  lemma {:induction false} AutobootConfined(ts: Tables, mode: Mode, env: Env, cs: seq<Command>, n: nat)
    requires AllWellFormed(ts)
    ensures mode == Autoboot ==> OnlyMajorZero(ExecuteAll(ts, mode, env, cs, n).0)
    ensures forall k :: 0 <= k < |ExecuteAll(ts, mode, env, cs, n).1| ==> ExecuteAll(ts, mode, env, cs, n).1[k] != -1
    decreases |cs|
  {
    if cs != [] {
      var r := Execute(ts, mode, env, cs[0], n);
      AutobootConfined(ts, mode, env, cs[1..], n + StepCount(r.events));
      OneConfined(ts, mode, env, cs[0], n);
    }
  }

  lemma OneConfined(ts: Tables, mode: Mode, env: Env, c: Command, n: nat)
    requires AllWellFormed(ts)
    ensures mode == Autoboot ==> OnlyMajorZero(Execute(ts, mode, env, c, n).events)
    ensures Execute(ts, mode, env, c, n).rc != -1
  {
    match c
    case Major(m) =>
      if !Rejected(mode, m) {
        RowsOfMajor(ts[m], m, env, 0, 0, n);
      }
    case MajorMinor(_, _) =>
    case Name(s) =>
      FindTableFirst(ts, s, 0);
      if FindTable(ts, s, 0).Some? {
        FindNameFirst(ts[FindTable(ts, s, 0).value], s, 0);
      }
  }
}
