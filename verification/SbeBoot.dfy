/** Istep 0.14: starting the SBE of the master processor, and polling it until it has booted. */
module SbeBoot {
  import opened Base
  import opened Hwas
  import opened DeviceTree

  /** One read of the SBE message register. */
  datatype Reading = ReadFailed | InProgress | SeenBooted

  datatype MpiplAnswer = MpiplAnswer(state: Option<SbeState>, continueOk: bool)

  /** How the hardware answers during one run: which starts succeed, what the registers of each processor read. */
  datatype Answers = Answers(startOk: set<nat>, polls: map<nat, seq<Reading>>, mpipl: map<nat, MpiplAnswer>)

  const DEFAULT_WAIT := 25

  /** Reads beyond the given list fail. */
  function ReadingAt(rs: seq<Reading>, k: nat): Reading {
    if k < |rs| then rs[k] else ReadFailed
  }

  predicate BootsWithin(rs: seq<Reading>, n: nat) {
    exists k :: 0 <= k < n && ReadingAt(rs, k) == SeenBooted
  }

  /** How many of at most n reads are made, k of them already without success: up to the first that succeeds. */
  function ReadCount(rs: seq<Reading>, k: nat, n: nat): (c: nat)
    requires k <= n
    ensures k <= c <= n
    ensures c < n ==> c > k && ReadingAt(rs, c - 1) == SeenBooted
    decreases n - k
  {
    if k == n then n else if ReadingAt(rs, k) == SeenBooted then k + 1 else ReadCount(rs, k + 1, n)
  }

  function Limit(wait: nat): nat { if wait > 0 then wait else DEFAULT_WAIT }

  /** Poll once a second until a read sees the SBE booted, at most wait times (25 times for 0). */
  method SbeBooted(rs: seq<Reading>, wait: nat) returns (booted: bool, tries: nat, sleeps: nat)
    ensures booted <==> BootsWithin(rs, if wait == 0 then 25 else wait)
    ensures booted ==> tries == sleeps + 1 && ReadingAt(rs, sleeps) == SeenBooted && !BootsWithin(rs, sleeps)
    ensures !booted ==> tries == sleeps == Limit(wait)
    ensures tries == ReadCount(rs, 0, Limit(wait))
  {
    var loopCount: nat := if wait > 0 then wait else DEFAULT_WAIT;
    tries, sleeps := 0, 0;
    while loopCount > 0
      invariant tries == sleeps && tries + loopCount == Limit(wait)
      invariant forall k :: 0 <= k < tries ==> ReadingAt(rs, k) != SeenBooted
      invariant ReadCount(rs, 0, Limit(wait)) == ReadCount(rs, tries, Limit(wait))
    {
      var r := ReadingAt(rs, tries);
      tries := tries + 1;
      if r == SeenBooted {
        return true, tries, sleeps;
      }
      loopCount := loopCount - 1;
      sleeps := sleeps + 1;
    }
    return false, tries, sleeps;
  }

  // ---------- the istep as a function of its start ----------

  datatype Event =
    | Start(proc: nat, ok: bool)
    | Poll(proc: nat, reading: Reading)
    | SetState(proc: nat, state: SbeState, ok: bool)
    | Continue(proc: nat, err: int)

  const ERR_OK := 0
  const ERR_SBE_CHIPOP := 2
  const ERR_FSI_REG := 6
  const ERR_PIB_TGT_NOT_FOUND := 7

  function PollsOf(ans: Answers, p: nat): seq<Reading> {
    if p in ans.polls then ans.polls[p] else []
  }

  function PollEvents(ans: Answers, p: nat, n: nat): (r: seq<Event>)
    ensures |r| == n
  {
    seq(n, k requires 0 <= k < n => Poll(p, ReadingAt(PollsOf(ans, p), k)))
  }

  predicate Writable(t: Target) { t.pibPresent && t.sbeWritable }

  predicate Boots(ans: Answers, p: nat) {
    p in ans.startOk && BootsWithin(PollsOf(ans, p), DEFAULT_WAIT)
  }

  /** What follows a successful start: CHECK_CFAM, the polls, and BOOTED if one of them saw it. */
  function StartedEvents(ts: Targets, ans: Answers, p: nat): seq<Event>
    requires p < |ts|
  {
    [SetState(p, CheckCfam, Writable(ts[p]))]
    + PollEvents(ans, p, ReadCount(PollsOf(ans, p), 0, DEFAULT_WAIT))
    + (if BootsWithin(PollsOf(ans, p), DEFAULT_WAIT) then [SetState(p, Booted, Writable(ts[p]))] else [])
  }

  /** A normal boot of master processor p. */
  function BootEvents(ts: Targets, ans: Answers, p: nat): seq<Event>
    requires p < |ts|
  {
    [Start(p, p in ans.startOk)] + (if p in ans.startOk then StartedEvents(ts, ans, p) else [])
  }

  function ContinueError(ts: Targets, ans: Answers, p: nat): int
    requires p < |ts|
  {
    if !ts[p].pibPresent then ERR_PIB_TGT_NOT_FOUND
    else if p !in ans.mpipl || ans.mpipl[p].state.None? then ERR_FSI_REG
    else if ans.mpipl[p].state.value != Booted || !ans.mpipl[p].continueOk then ERR_SBE_CHIPOP
    else ERR_OK
  }

  datatype Loop = Loop(events: seq<Event>, rc: int)

  /** The processor loop from p on, with the return value and the failure count so far. */
  function LoopFrom(ts: Targets, hw: seq<State>, mode: Mode, bt: BootType, ans: Answers, p: nat, rc: int, ret: int)
    : Loop
    requires |hw| == |ts| && p <= |ts|
    decreases |ts| - p
  {
    if p == |ts| then Loop([], rc)
    else if ts[p].cls != Proc || !IsTargetFunctional(ts[p], hw[p]) then LoopFrom(ts, hw, mode, bt, ans, p + 1, rc, ret)
    else if mode == Cronus then
      var failed := if p in ans.startOk then ret else ret + 1;
      Prepend([Start(p, p in ans.startOk)], LoopFrom(ts, hw, mode, bt, ans, p + 1, failed, failed))
    else if !IsMaster(ts[p]) then LoopFrom(ts, hw, mode, bt, ans, p + 1, rc, ret)
    else if bt == Mpipl then
      var err := ContinueError(ts, ans, p);
      Prepend([Continue(p, err)], LoopFrom(ts, hw, mode, bt, ans, p + 1, err, ret))
    else Loop(BootEvents(ts, ans, p), if Boots(ans, p) then 0 else rc)
  }

  function Prepend(events: seq<Event>, l: Loop): Loop { Loop(events + l.events, l.rc) }

  /** The soft SBE states after the successful writes among the events. */
  function AfterEvents(sbe: seq<SbeState>, events: seq<Event>): (r: seq<SbeState>)
    ensures |r| == |sbe|
  {
    if events == [] then sbe
    else
      var before, e := AfterEvents(sbe, events[..|events| - 1]), events[|events| - 1];
      if e.SetState? && e.ok && e.proc < |sbe| then before[e.proc := e.state] else before
  }

  datatype Outcome = Outcome(events: seq<Event>, sbe: seq<SbeState>, rc: int)

  function StartRun(ts: Targets, hw: seq<State>, sbe: seq<SbeState>, mode: Mode, bt: BootType, ans: Answers): Outcome
    requires |hw| == |sbe| == |ts|
  {
    var l := LoopFrom(ts, hw, mode, bt, ans, 0, 1, 0);
    var sbe1 := AfterEvents(sbe, l.events);
    if l.rc != 0 then Outcome(l.events, sbe1, l.rc)
    else Outcome(
      l.events,
      SbeAfterSetAll(ts, hw, sbe1, CheckCfam, true, |ts|),
      if MastersFunctional(ts, hw) then 0 else 1)
  }

  // ---------- the imperative istep ----------

  /** The hardware of one run, with the log of what was asked of it. */
  class Hardware {
    const answers: Answers
    var trace: seq<Event>

    constructor (answers: Answers)
      ensures this.answers == answers && trace == []
    {
      this.answers, trace := answers, [];
    }
  }

  lemma {:induction false} AfterConcat(sbe: seq<SbeState>, a: seq<Event>, b: seq<Event>)
    ensures AfterEvents(sbe, a + b) == AfterEvents(AfterEvents(sbe, a), b)
  {
    if b == [] {
      assert a + b == a;
    } else {
      AfterConcat(sbe, a, b[..|b| - 1]);
      assert (a + b)[..|a + b| - 1] == a + b[..|b| - 1];
    }
  }

  lemma AfterSet(sbe: seq<SbeState>, p: nat, s: SbeState, ok: bool)
    requires p < |sbe|
    ensures AfterEvents(sbe, [SetState(p, s, ok)]) == if ok then sbe[p := s] else sbe
  {
    assert [SetState(p, s, ok)][..0] == [];
    assert AfterEvents(sbe, []) == sbe;
  }

  lemma {:induction false} AfterOther(sbe: seq<SbeState>, events: seq<Event>)
    requires forall k :: 0 <= k < |events| ==> !events[k].SetState?
    ensures AfterEvents(sbe, events) == sbe
  {
    if events != [] {
      AfterOther(sbe, events[..|events| - 1]);
    }
  }

  method SetSbe(dt: Tree, hwd: Hardware, p: nat, s: SbeState)
    requires dt.Valid() && p < |dt.targets|
    modifies dt`sbe, hwd
    ensures dt.Valid()
    ensures hwd.trace == old(hwd.trace) + [SetState(p, s, Writable(dt.targets[p]))]
    ensures dt.sbe == AfterEvents(old(dt.sbe), [SetState(p, s, Writable(dt.targets[p]))])
  {
    AfterSet(dt.sbe, p, s, Writable(dt.targets[p]));
    var rc := dt.SetSbeState(p, s);
    hwd.trace := hwd.trace + [SetState(p, s, rc == 0)];
  }

  method PollUntilBooted(hwd: Hardware, p: nat) returns (booted: bool)
    modifies hwd
    ensures booted <==> BootsWithin(PollsOf(hwd.answers, p), DEFAULT_WAIT)
    ensures hwd.trace ==
            old(hwd.trace) + PollEvents(hwd.answers, p, ReadCount(PollsOf(hwd.answers, p), 0, DEFAULT_WAIT))
  {
    var tries, sleeps;
    booted, tries, sleeps := SbeBooted(PollsOf(hwd.answers, p), 25);
    hwd.trace := hwd.trace + PollEvents(hwd.answers, p, tries);
  }

  lemma StartedStates(sbe: seq<SbeState>, check: seq<Event>, polls: seq<Event>, last: seq<Event>)
    requires forall k :: 0 <= k < |polls| ==> !polls[k].SetState?
    ensures AfterEvents(sbe, check + polls + last) == AfterEvents(AfterEvents(sbe, check), last)
  {
    AfterConcat(sbe, check + polls, last);
    AfterConcat(sbe, check, polls);
    AfterOther(AfterEvents(sbe, check), polls);
  }

  /** The soft states after the events of a successful start. */
  lemma StartedSbe(ts: Targets, ans: Answers, p: nat, sbe: seq<SbeState>)
    requires p < |ts|
    ensures var checked := AfterEvents(sbe, [SetState(p, CheckCfam, Writable(ts[p]))]);
            AfterEvents(sbe, StartedEvents(ts, ans, p)) ==
            if BootsWithin(PollsOf(ans, p), DEFAULT_WAIT) then
              AfterEvents(checked, [SetState(p, Booted, Writable(ts[p]))])
            else checked
  {
    var check, last := [SetState(p, CheckCfam, Writable(ts[p]))], [SetState(p, Booted, Writable(ts[p]))];
    var polls := PollEvents(ans, p, ReadCount(PollsOf(ans, p), 0, DEFAULT_WAIT));
    StartedStates(sbe, check, polls, if BootsWithin(PollsOf(ans, p), DEFAULT_WAIT) then last else []);
  }

  lemma Join(t: seq<Event>, a: seq<Event>, b: seq<Event>, c: seq<Event>)
    ensures t + (a + b + c) == t + a + b + c
  {
  }

  lemma StartedTrace(ts: Targets, ans: Answers, p: nat, trace: seq<Event>, polled: seq<Event>)
    requires p < |ts|
    requires polled == trace + [SetState(p, CheckCfam, Writable(ts[p]))]
                       + PollEvents(ans, p, ReadCount(PollsOf(ans, p), 0, DEFAULT_WAIT))
    ensures trace + StartedEvents(ts, ans, p) ==
            if BootsWithin(PollsOf(ans, p), DEFAULT_WAIT) then polled + [SetState(p, Booted, Writable(ts[p]))]
            else polled
  {
    var booted := BootsWithin(PollsOf(ans, p), DEFAULT_WAIT);
    Join(trace, [SetState(p, CheckCfam, Writable(ts[p]))],
         PollEvents(ans, p, ReadCount(PollsOf(ans, p), 0, DEFAULT_WAIT)),
         if booted then [SetState(p, Booted, Writable(ts[p]))] else []);
    assert polled + [] == polled;
  }

  method FinishStart(dt: Tree, hwd: Hardware, p: nat) returns (booted: bool)
    requires dt.Valid() && p < |dt.targets|
    modifies dt`sbe, hwd
    ensures dt.Valid()
    ensures booted <==> BootsWithin(PollsOf(hwd.answers, p), DEFAULT_WAIT)
    ensures hwd.trace == old(hwd.trace) + StartedEvents(dt.targets, hwd.answers, p)
    ensures dt.sbe == AfterEvents(old(dt.sbe), StartedEvents(dt.targets, hwd.answers, p))
  {
    StartedSbe(dt.targets, hwd.answers, p, dt.sbe);
    SetSbe(dt, hwd, p, CheckCfam);
    booted := PollUntilBooted(hwd, p);
    ghost var polled := hwd.trace;
    if booted {
      SetSbe(dt, hwd, p, Booted);
    }
    StartedTrace(dt.targets, hwd.answers, p, old(hwd.trace), polled);
  }

  method BootMaster(dt: Tree, hwd: Hardware, p: nat) returns (booted: bool)
    requires dt.Valid() && p < |dt.targets|
    modifies dt`sbe, hwd
    ensures dt.Valid()
    ensures booted <==> Boots(hwd.answers, p)
    ensures hwd.trace == old(hwd.trace) + BootEvents(dt.targets, hwd.answers, p)
    ensures dt.sbe == AfterEvents(old(dt.sbe), BootEvents(dt.targets, hwd.answers, p))
  {
    var ok := p in hwd.answers.startOk;
    AfterOther(dt.sbe, [Start(p, ok)]);
    hwd.trace := hwd.trace + [Start(p, ok)];
    if !ok {
      return false;
    }
    AfterConcat(dt.sbe, [Start(p, ok)], StartedEvents(dt.targets, hwd.answers, p));
    booted := FinishStart(dt, hwd, p);
  }

  lemma PrependTwice(a: seq<Event>, b: seq<Event>, l: Loop)
    ensures Prepend(a, Prepend(b, l)) == Prepend(a + b, l)
  {
    assert a + (b + l.events) == a + b + l.events;
  }

  /** One turn of the loop, for a processor that is functional; stop means that the loop ends here. */
  method VisitProc(dt: Tree, hwd: Hardware, mode: Mode, bt: BootType, p: nat, rc: int, ret: int)
    returns (rc': int, ret': int, stop: bool, ghost events: seq<Event>)
    requires dt.Valid() && p < |dt.targets|
    requires dt.targets[p].cls == Proc && IsTargetFunctional(dt.targets[p], dt.hwas[p])
    modifies dt`sbe, hwd
    ensures dt.Valid()
    ensures hwd.trace == old(hwd.trace) + events && dt.sbe == AfterEvents(old(dt.sbe), events)
    ensures LoopFrom(dt.targets, dt.hwas, mode, bt, hwd.answers, p, rc, ret) ==
            if stop then Loop(events, rc')
            else Prepend(events, LoopFrom(dt.targets, dt.hwas, mode, bt, hwd.answers, p + 1, rc', ret'))
  {
    rc', ret', stop, events := rc, ret, false, [];
    if mode == Cronus {
      var ok := p in hwd.answers.startOk;
      events := [Start(p, ok)];
      AfterOther(dt.sbe, events);
      hwd.trace := hwd.trace + [Start(p, ok)];
      if !ok {
        ret' := ret' + 1;
      }
      rc' := ret';
    } else if IsMaster(dt.targets[p]) {
      if bt == Mpipl {
        rc' := ContinueError(dt.targets, hwd.answers, p);
        events := [Continue(p, rc')];
        AfterOther(dt.sbe, events);
        hwd.trace := hwd.trace + [Continue(p, rc')];
      } else {
        events := BootEvents(dt.targets, hwd.answers, p);
        var booted := BootMaster(dt, hwd, p);
        if booted {
          rc' := 0;
        }
        stop := true;
      }
    }
  }

  /** The same turn, seen from the start of the loop: done are the events since then. */
  method LoopTurn(dt: Tree, hwd: Hardware, mode: Mode, bt: BootType, p: nat, rc: int, ret: int,
                  ghost trace0: seq<Event>, ghost sbe0: seq<SbeState>, ghost done: seq<Event>)
    returns (rc': int, ret': int, stop: bool, ghost done': seq<Event>)
    requires dt.Valid() && p < |dt.targets|
    requires dt.targets[p].cls == Proc && IsTargetFunctional(dt.targets[p], dt.hwas[p])
    requires hwd.trace == trace0 + done && dt.sbe == AfterEvents(sbe0, done)
    modifies dt`sbe, hwd
    ensures dt.Valid()
    ensures hwd.trace == trace0 + done' && dt.sbe == AfterEvents(sbe0, done')
    ensures Prepend(done, LoopFrom(dt.targets, dt.hwas, mode, bt, hwd.answers, p, rc, ret)) ==
            if stop then Loop(done', rc')
            else Prepend(done', LoopFrom(dt.targets, dt.hwas, mode, bt, hwd.answers, p + 1, rc', ret'))
  {
    ghost var events;
    rc', ret', stop, events := VisitProc(dt, hwd, mode, bt, p, rc, ret);
    done' := done + events;
    assert trace0 + done + events == trace0 + done';
    AfterConcat(sbe0, done, events);
    if !stop {
      PrependTwice(done, events, LoopFrom(dt.targets, dt.hwas, mode, bt, hwd.answers, p + 1, rc', ret'));
    }
  }

  /** The processor loop; it stops behind the first functional master of a normal boot. */
  method StartLoop(dt: Tree, hwd: Hardware, mode: Mode, bt: BootType) returns (rc: int)
    requires dt.Valid()
    modifies dt`sbe, hwd
    ensures dt.Valid()
    ensures var l := LoopFrom(dt.targets, dt.hwas, mode, bt, hwd.answers, 0, 1, 0);
            && hwd.trace == old(hwd.trace) + l.events && rc == l.rc
            && dt.sbe == AfterEvents(old(dt.sbe), l.events)
  {
    var ret, p := 0, 0;
    rc := 1;
    ghost var ts, hw, ans, done := dt.targets, dt.hwas, hwd.answers, [];
    while p < |dt.targets|
      invariant p <= |ts| && dt.Valid()
      invariant LoopFrom(ts, hw, mode, bt, ans, 0, 1, 0) == Prepend(done, LoopFrom(ts, hw, mode, bt, ans, p, rc, ret))
      invariant hwd.trace == old(hwd.trace) + done
      invariant dt.sbe == AfterEvents(old(dt.sbe), done)
    {
      if dt.targets[p].cls == Proc && IsTargetFunctional(dt.targets[p], dt.hwas[p]) {
        var stop;
        rc, ret, stop, done := LoopTurn(dt, hwd, mode, bt, p, rc, ret, old(hwd.trace), old(dt.sbe), done);
        if stop {
          return;
        }
      }
      p := p + 1;
    }
    assert done + [] == done;
  }

  method SbeStart(dt: Tree, hwd: Hardware, mode: Mode, bt: BootType) returns (rc: int)
    requires dt.Valid()
    modifies dt`sbe, hwd
    ensures dt.Valid()
    ensures var out := StartRun(dt.targets, dt.hwas, old(dt.sbe), mode, bt, hwd.answers);
            && hwd.trace == old(hwd.trace) + out.events && rc == out.rc && dt.sbe == out.sbe
  {
    rc := StartLoop(dt, hwd, mode, bt);
    if rc == 0 {
      var ret := dt.SetSbeStateAll(CheckCfam, true);
      var functional := dt.CheckFunctionalMaster();
      if !functional {
        return 1;
      }
    }
  }
}
