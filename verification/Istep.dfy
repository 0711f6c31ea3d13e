/** The istep engine: sentinel-terminated step tables and the three ways to run them. */
module Istep {
  import opened Base

  const MAX_ISTEP := 21
  const EINVAL := 22

  datatype Row = Row(name: string, major: int, minor: int)

  /** Walking a table by minor or by major meets a sentinel. */
  predicate Terminated(t: seq<Row>) {
    && (exists i :: 0 <= i < |t| && t[i].minor == -1)
    && (exists i :: 0 <= i < |t| && t[i].major == -1)
  }

  /** As the steps are declared: one sentinel at the end, rows of this major number, minors distinct. */
  predicate WellFormed(t: seq<Row>, major: int) {
    && |t| > 0 && t[|t| - 1].major == -1 && t[|t| - 1].minor == -1
    && (forall i :: 0 <= i < |t| - 1 ==> t[i].major == major && t[i].minor >= 0)
    && (forall i, j :: 0 <= i < j < |t| - 1 ==> t[i].minor != t[j].minor)
  }

  datatype Event = Pre(major: nat) | Step(major: nat, index: nat)

  datatype Run = Run(events: seq<Event>, rc: int)

  /**
   * The result of the n-th step executed since the start. Results are fixed by
   * the position in the history, so two runs with the same steps see the same
   * results; in test mode steps are only named.
   */
  datatype Env = Env(results: seq<int>, testMode: bool)

  function Result(env: Env, n: nat): int {
    if env.testMode || n >= |env.results| then 0 else env.results[n]
  }

  /** -1 stands for a step that is not implemented, which counts as success. */
  function Implemented(rc: int): int { if rc == -1 then 0 else rc }

  // ---------- lookups ----------

  function FindMinorFrom(t: seq<Row>, minor: int, i: nat): Option<nat>
    decreases |t| - i
  {
    if i >= |t| || t[i].minor == -1 then None
    else if t[i].minor == minor then Some(i)
    else FindMinorFrom(t, minor, i + 1)
  }

  function FindNameFrom(t: seq<Row>, name: string, i: nat): Option<nat>
    decreases |t| - i
  {
    if i >= |t| || t[i].major == -1 then None
    else if t[i].name == name then Some(i)
    else FindNameFrom(t, name, i + 1)
  }

  // ---------- runs as functions of the history ----------

  predicate Rejected(mode: Mode, major: int) {
    major < 0 || major > MAX_ISTEP || (mode == Autoboot && major != 0)
  }

  type Tables = ts: seq<seq<Row>> | |ts| == MAX_ISTEP + 1 && forall i :: 0 <= i < |ts| ==> Terminated(ts[i])
    witness seq(MAX_ISTEP + 1, _ => EmptyTable())

  /** A table with no step. */
  function EmptyTable(): (t: seq<Row>)
    ensures Terminated(t)
  {
    var t := [Row("", -1, -1)];
    assert t[0].minor == -1 && t[0].major == -1;
    t
  }

  function RowsFrom(t: seq<Row>, major: nat, env: Env, i: nat, rc: int, n: nat): Run
    decreases |t| - i
  {
    if i >= |t| || t[i].major == -1 then Run([], rc)
    else
      var r := Result(env, n);
      if r != 0 && r != -1 then Run([Step(major, i)], r)
      else
        var rest := RowsFrom(t, major, env, i + 1, r, n + 1);
        Run([Step(major, i)] + rest.events, rest.rc)
  }

  function RunMajor(ts: Tables, mode: Mode, env: Env, major: int, n: nat): Run {
    if Rejected(mode, major) then Run([], EINVAL)
    else
      var rows := RowsFrom(ts[major], major, env, 0, 0, n);
      Run([Pre(major)] + rows.events, Implemented(rows.rc))
  }

  function RunMajorMinor(ts: Tables, mode: Mode, env: Env, major: int, minor: int, n: nat): Run {
    if minor < 0 || Rejected(mode, major) then Run([], EINVAL)
    else match FindMinorFrom(ts[major], minor, 0)
      case None => Run([], EINVAL)
      case Some(i) => Run([Pre(major), Step(major, i)], Implemented(Result(env, n)))
  }

  /** The lowest major from m on whose table has a row of this name. */
  function FindTable(ts: Tables, name: string, m: nat): Option<nat>
    requires m <= |ts|
    decreases |ts| - m
  {
    if m == |ts| then None
    else if FindNameFrom(ts[m], name, 0).Some? then Some(m)
    else FindTable(ts, name, m + 1)
  }

  lemma {:induction false} FindTableFirst(ts: Tables, name: string, m: nat)
    requires m <= |ts|
    ensures match FindTable(ts, name, m)
            case None => forall k :: m <= k < |ts| ==> FindNameFrom(ts[k], name, 0).None?
            case Some(f) => m <= f < |ts| && FindNameFrom(ts[f], name, 0).Some?
                            && forall k :: m <= k < f ==> FindNameFrom(ts[k], name, 0).None?
    decreases |ts| - m
  {
    if m < |ts| && FindNameFrom(ts[m], name, 0).None? {
      FindTableFirst(ts, name, m + 1);
    }
  }

  /** Row f is the first from i on with this name, and no sentinel comes before it. */
  predicate FirstName(t: seq<Row>, name: string, i: nat, f: nat) {
    && i <= f < |t| && t[f].name == name
    && (forall k :: i <= k < f ==> t[k].name != name)
    && (forall k :: i <= k <= f ==> t[k].major != -1)
  }

  /** Row f is the first from i on with this minor number, and no sentinel comes before it. */
  predicate FirstMinor(t: seq<Row>, minor: int, i: nat, f: nat) {
    && i <= f < |t| && t[f].minor == minor
    && (forall k :: i <= k < f ==> t[k].minor != minor)
    && (forall k :: i <= k <= f ==> t[k].minor != -1)
  }

  /** The lookup by name likewise, with the sentinel of the major numbers. */
  lemma {:induction false} FindNameFirst(t: seq<Row>, name: string, i: nat)
    ensures match FindNameFrom(t, name, i)
            case None => forall f: nat :: !FirstName(t, name, i, f)
            case Some(f) => FirstName(t, name, i, f)
    decreases |t| - i
  {
    if i < |t| && t[i].major != -1 && t[i].name != name {
      FindNameFirst(t, name, i + 1);
      assert forall f: nat :: FirstName(t, name, i, f) ==> FirstName(t, name, i + 1, f);
    }
  }

  /** The lookup by number finds the first row before the sentinel, in any table, and nothing when there is none. */
  lemma {:induction false} FindMinorFirst(t: seq<Row>, minor: int, i: nat)
    ensures match FindMinorFrom(t, minor, i)
            case None => forall f: nat :: !FirstMinor(t, minor, i, f)
            case Some(f) => FirstMinor(t, minor, i, f)
    decreases |t| - i
  {
    if i < |t| && t[i].minor != -1 && t[i].minor != minor {
      FindMinorFirst(t, minor, i + 1);
      assert forall f: nat :: FirstMinor(t, minor, i, f) ==> FirstMinor(t, minor, i + 1, f);
    }
  }

  function RunStep(ts: Tables, mode: Mode, env: Env, name: string, n: nat): Run {
    FindTableFirst(ts, name, 0);
    match FindTable(ts, name, 0)
    case None => Run([], EINVAL)
    case Some(m) =>
      FindNameFirst(ts[m], name, 0);
      var i := FindNameFrom(ts[m], name, 0).value;
      if mode == Autoboot && ts[m][i].major != 0 then Run([], EINVAL)
      else Run([Pre(m), Step(m, i)], Implemented(Result(env, n)))
  }

  function Prepend(events: seq<Event>, r: Run): Run { Run(events + r.events, r.rc) }

  lemma RowsTurn(t: seq<Row>, major: nat, env: Env, i: nat, rc: int, n: nat, done: seq<Event>)
    requires i < |t| && t[i].major != -1
    ensures var r, now := Result(env, n), done + [Step(major, i)];
            && StepCount(now) == StepCount(done) + 1
            && Prepend(done, RowsFrom(t, major, env, i, rc, n)) ==
               if r != 0 && r != -1 then Run(now, r) else Prepend(now, RowsFrom(t, major, env, i + 1, r, n + 1))
  {
    CountAppend(done, Step(major, i));
    var rest := RowsFrom(t, major, env, i + 1, Result(env, n), n + 1).events;
    assert done + ([Step(major, i)] + rest) == done + [Step(major, i)] + rest;
  }

  /** A single step behind its pre function. */
  lemma CountOne(m: nat, i: nat)
    ensures StepCount([Pre(m), Step(m, i)]) == 1
  {
    CountAppend([Pre(m)], Step(m, i));
    assert [Pre(m)] + [Step(m, i)] == [Pre(m), Step(m, i)];
    CountAppend([], Pre(m));
    assert [] + [Pre(m)] == [Pre(m)];
  }

  lemma BehindPre(events: seq<Event>, m: nat, rows: seq<Event>)
    ensures StepCount([Pre(m)] + rows) == StepCount(rows)
    ensures events + ([Pre(m)] + rows) == events + [Pre(m)] + rows
  {
    assert ([Pre(m)] + rows)[1..] == rows;
  }

  // ---------- the imperative engine ----------

  method FindMinor(t: seq<Row>, minor: int) returns (r: Option<nat>)
    requires Terminated(t)
    ensures r == FindMinorFrom(t, minor, 0)
    ensures match r case None => forall f: nat :: !FirstMinor(t, minor, 0, f) case Some(f) => FirstMinor(t, minor, 0, f)
  {
    FindMinorFirst(t, minor, 0);
    var i := 0;
    while t[i].minor != -1
      invariant i < |t| && forall k :: 0 <= k < i ==> t[k].minor != -1
      invariant FindMinorFrom(t, minor, 0) == FindMinorFrom(t, minor, i)
      decreases |t| - i
    {
      if t[i].minor == minor {
        return Some(i);
      }
      i := i + 1;
    }
    return None;
  }

  method FindStep(t: seq<Row>, name: string) returns (r: Option<nat>)
    requires Terminated(t)
    ensures r == FindNameFrom(t, name, 0)
    ensures match r case None => forall f: nat :: !FirstName(t, name, 0, f) case Some(f) => FirstName(t, name, 0, f)
  {
    FindNameFirst(t, name, 0);
    var i := 0;
    while t[i].major != -1
      invariant i < |t| && forall k :: 0 <= k < i ==> t[k].major != -1
      invariant FindNameFrom(t, name, 0) == FindNameFrom(t, name, i)
      decreases |t| - i
    {
      if t[i].name == name {
        return Some(i);
      }
      i := i + 1;
    }
    return None;
  }

  class Engine {
    var tables: Tables
    var mode: Mode
    const env: Env
    var events: seq<Event>
    var executed: nat

    constructor (tables: Tables, mode: Mode, env: Env)
      ensures this.tables == tables && this.mode == mode && this.env == env && events == [] && executed == 0
    {
      this.tables, this.mode, this.env, events, executed := tables, mode, env, [], 0;
    }

    /** The call appended the events of the run and ended with its result; settings are untouched. */
    twostate predicate Did(r: Run, rc: int)
      reads this
    {
      && events == old(events) + r.events && rc == r.rc
      && executed == old(executed) + StepCount(r.events)
      && tables == old(tables) && mode == old(mode)
    }

    method Register(major: nat, steps: seq<Row>)
      requires major <= MAX_ISTEP && Terminated(steps)
      modifies this`tables
      ensures tables == old(tables)[major := steps]
    {
      tables := tables[major := steps];
    }

    method ExecutePre(major: nat)
      modifies this`events
      ensures events == old(events) + [Pre(major)]
    {
      events := events + [Pre(major)];
    }

    method ExecuteIstep(major: nat, i: nat) returns (rc: int)
      modifies this`events, this`executed
      ensures events == old(events) + [Step(major, i)] && executed == old(executed) + 1
      ensures rc == Result(env, old(executed))
    {
      events := events + [Step(major, i)];
      rc := 0;
      if !env.testMode && executed < |env.results| {
        rc := env.results[executed];
      }
      executed := executed + 1;
    }

    method IplRunMajorMinor(major: int, minor: int) returns (rc: int)
      modifies this`events, this`executed
      ensures Did(RunMajorMinor(tables, mode, env, major, minor, old(executed)), rc)
    {
      if major < 0 || major > MAX_ISTEP || minor < 0 {
        return EINVAL;
      }
      if mode == Autoboot && major != 0 {
        return EINVAL;
      }
      var step := FindMinor(tables[major], minor);
      if step.None? {
        return EINVAL;
      }
      CountOne(major, step.value);
      ExecutePre(major);
      rc := ExecuteIstep(major, step.value);
      if rc == -1 {
        rc := 0;
      }
    }

    method ExecuteRows(major: nat) returns (rc: int)
      requires major <= MAX_ISTEP
      modifies this`events, this`executed
      ensures Did(RowsFrom(tables[major], major, env, 0, 0, old(executed)), rc)
    {
      var t := tables[major];
      rc := 0;
      ghost var done: seq<Event> := [];
      var i := 0;
      while t[i].major != -1
        invariant i < |t| && forall k :: 0 <= k < i ==> t[k].major != -1
        invariant events == old(events) + done && executed == old(executed) + StepCount(done)
        invariant RowsFrom(t, major, env, 0, 0, old(executed)) ==
                  Prepend(done, RowsFrom(t, major, env, i, rc, executed))
        decreases |t| - i
      {
        RowsTurn(t, major, env, i, rc, executed, done);
        rc := ExecuteIstep(major, i);
        done := done + [Step(major, i)];
        if rc != 0 && rc != -1 {
          return;
        }
        i := i + 1;
      }
      assert done + [] == done;
    }

    method IplRunMajor(major: int) returns (rc: int)
      modifies this`events, this`executed
      ensures Did(RunMajor(tables, mode, env, major, old(executed)), rc)
    {
      if major < 0 || major > MAX_ISTEP {
        return EINVAL;
      }
      if mode == Autoboot && major != 0 {
        return EINVAL;
      }
      ghost var rows := RowsFrom(tables[major], major, env, 0, 0, executed).events;
      BehindPre(events, major, rows);
      ExecutePre(major);
      rc := ExecuteRows(major);
      if rc == -1 {
        rc := 0;
      }
    }

    method IplRunStep(name: string) returns (rc: int)
      modifies this`events, this`executed
      ensures Did(RunStep(tables, mode, env, name, old(executed)), rc)
    {
      var step: Option<nat> := None;
      var i := 0;
      while i <= MAX_ISTEP
        invariant i <= MAX_ISTEP + 1 && step.None?
        invariant events == old(events) && executed == old(executed)
        invariant FindTable(tables, name, 0) == FindTable(tables, name, i)
      {
        step := FindStep(tables[i], name);
        if step.Some? {
          break;
        }
        i := i + 1;
      }
      if step.None? {
        return EINVAL;
      }
      FindNameFirst(tables[i], name, 0);
      if mode == Autoboot && tables[i][step.value].major != 0 {
        return EINVAL;
      }
      CountOne(i, step.value);
      ExecutePre(i);
      rc := ExecuteIstep(i, step.value);
      if rc == -1 {
        rc := 0;
      }
    }
  }

  function StepCount(events: seq<Event>): nat {
    if events == [] then 0 else (if events[0].Step? then 1 else 0) + StepCount(events[1..])
  }

  lemma {:induction false} CountAppend(events: seq<Event>, e: Event)
    ensures StepCount(events + [e]) == StepCount(events) + (if e.Step? then 1 else 0)
  {
    if events == [] {
      assert [e][1..] == [];
    } else {
      assert (events + [e])[1..] == events[1..] + [e];
      CountAppend(events[1..], e);
    }
  }
}
