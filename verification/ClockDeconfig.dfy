/** Reference clocks that Hostboot reported as failed are taken away on a reboot. */
module ClockDeconfig {
  import opened Base
  import opened Hwas
  import opened DeviceTree

  /** ATTR_SYS_CLOCK_DECONFIG_STATE of the root target. */
  datatype Report = NoDeconfig | ADeconfig | BDeconfig | AllDeconfig

  /** Clock A sits at position 0, clock B at position 1. */
  predicate Reported(rep: Report, position: Byte) {
    rep == AllDeconfig || (rep == ADeconfig && position == 0) || (rep == BDeconfig && position == 1)
  }

  predicate TakenAway(rep: Report, t: Target) {
    rep == AllDeconfig || (t.position.Some? && Reported(rep, t.position.value))
  }

  function ClockAction(ts: Targets, rep: Report, i: nat): Action
    requires i < |ts|
  {
    if rep == AllDeconfig then Update(i, false)
    else if ts[i].position.None? then Require(false)
    else if Reported(rep, ts[i].position.value) then Update(i, false)
    else Require(true)
  }

  function ClocksFrom(ts: Targets, rep: Report, i: nat): seq<Action>
    requires i <= |ts|
    decreases |ts| - i
  {
    if i == |ts| then []
    else if ts[i].cls == OscRefClk then [ClockAction(ts, rep, i)] + ClocksFrom(ts, rep, i + 1)
    else ClocksFrom(ts, rep, i + 1)
  }

  function ClockPlan(ts: Targets, report: Option<Report>): seq<Action> {
    match report
    case None => [Require(false)]
    case Some(NoDeconfig) => []
    case Some(rep) => ClocksFrom(ts, rep, 0)
  }

  method UpdateClock(dt: Tree, rep: Report, i: nat) returns (ok: bool)
    requires dt.Valid() && i < |dt.targets|
    modifies dt`hwas
    ensures dt.Valid()
    ensures ok == Completes(dt.targets, [ClockAction(dt.targets, rep, i)])
    ensures dt.hwas == ApplyLog(old(dt.hwas), Executed(dt.targets, [ClockAction(dt.targets, rep, i)]))
  {
    SingleAction(dt.targets, dt.hwas, ClockAction(dt.targets, rep, i));
    if rep == AllDeconfig {
      ok := dt.SetOrClearState(i, false);
      return;
    }
    if dt.targets[i].position.None? {
      return false;
    }
    var pos := dt.targets[i].position.value;
    if (pos == 0 && rep == ADeconfig) || (pos == 1 && rep == BDeconfig) {
      ok := dt.SetOrClearState(i, false);
      return;
    }
    return true;
  }

  method UpdateClockFuncState(dt: Tree, report: Option<Report>) returns (ok: bool)
    requires dt.Valid()
    modifies dt`hwas
    ensures dt.Valid()
    ensures ok == Completes(dt.targets, ClockPlan(dt.targets, report))
    ensures dt.hwas == ApplyLog(old(dt.hwas), Executed(dt.targets, ClockPlan(dt.targets, report)))
  {
    if report.None? {
      return false;
    }
    var rep := report.value;
    if rep == NoDeconfig {
      return true;
    }
    ghost var ts, hw, plan, written := dt.targets, dt.hwas, ClockPlan(dt.targets, report), [];
    var i := 0;
    while i < |dt.targets|
      invariant i <= |ts| && dt.Valid()
      invariant dt.hwas == ApplyLog(hw, written)
      invariant Doing(ts, plan, written, ClocksFrom(ts, rep, i))
    {
      if dt.targets[i].cls == OscRefClk {
        ghost var next := [ClockAction(ts, rep, i)];
        Advance(ts, hw, plan, written, next, ClocksFrom(ts, rep, i + 1));
        ok := UpdateClock(dt, rep, i);
        if !ok {
          return;
        }
        written := written + Executed(ts, next);
      }
      i := i + 1;
    }
    assert written + [] == written;
    return true;
  }

  /** From clock j on the pass reaches clock i and takes it away: no clock at or before it stops the pass. */
  predicate TakenFrom(ts: Targets, rep: Report, j: nat, i: nat)
    requires i < |ts|
  {
    && j <= i && ts[i].cls == OscRefClk && TakenAway(rep, ts[i])
    && forall c :: j <= c <= i && ts[c].cls == OscRefClk ==> Ok(ts, ClockAction(ts, rep, c))
  }

  /** The pass takes target i away, whether it completes or stops behind it. */
  predicate ClockTaken(ts: Targets, report: Option<Report>, i: nat)
    requires i < |ts|
  {
    report.Some? && TakenFrom(ts, report.value, 0, i)
  }

  lemma TakenStep(ts: Targets, rep: Report, j: nat, i: nat)
    requires j < |ts| && i < |ts|
    ensures TakenFrom(ts, rep, j, i) <==>
            if ts[j].cls == OscRefClk then
              && Ok(ts, ClockAction(ts, rep, j))
              && (if i == j then TakenAway(rep, ts[i]) else TakenFrom(ts, rep, j + 1, i))
            else TakenFrom(ts, rep, j + 1, i)
  {
    if TakenFrom(ts, rep, j + 1, i) && (ts[j].cls == OscRefClk ==> Ok(ts, ClockAction(ts, rep, j))) {
      assert TakenFrom(ts, rep, j, i);
    }
  }

  /** The last value of the clock plan, by its first target and its rest. */
  lemma ClocksSplit(ts: Targets, rep: Report, j: nat, i: nat)
    requires j < |ts| && i < |ts|
    ensures var a, rest := ClockAction(ts, rep, j), LastValue(Executed(ts, ClocksFrom(ts, rep, j + 1)), i);
            LastValue(Executed(ts, ClocksFrom(ts, rep, j)), i) ==
            if ts[j].cls != OscRefClk then rest
            else if !Ok(ts, a) then None
            else if rest.None? && i == j && a.Update? then Some(false)
            else rest
  {
    if ts[j].cls == OscRefClk {
      var a, rest := ClockAction(ts, rep, j), ClocksFrom(ts, rep, j + 1);
      ExecutedCons(ts, a, rest);
      LastConcat(Head(ts, a), Executed(ts, rest), i);
      assert Head(ts, a) != [] ==> Head(ts, a)[..0] == [];
    }
  }

  lemma {:induction false} ClocksLast(ts: Targets, rep: Report, j: nat, i: nat)
    requires j <= |ts| && i < |ts|
    ensures LastValue(Executed(ts, ClocksFrom(ts, rep, j)), i) ==
            if TakenFrom(ts, rep, j, i) then Some(false) else None
    decreases |ts| - j
  {
    if j < |ts| {
      ClocksLast(ts, rep, j + 1, i);
      ClocksSplit(ts, rep, j, i);
      TakenStep(ts, rep, j, i);
    }
  }

  lemma CompletesStep(ts: Targets, rep: Report, j: nat)
    requires j < |ts|
    ensures Completes(ts, ClocksFrom(ts, rep, j)) <==>
            (ts[j].cls == OscRefClk ==> Ok(ts, ClockAction(ts, rep, j))) && Completes(ts, ClocksFrom(ts, rep, j + 1))
  {
    if ts[j].cls == OscRefClk {
      ExecutedCons(ts, ClockAction(ts, rep, j), ClocksFrom(ts, rep, j + 1));
    }
  }

  lemma {:induction false} CompletesAll(ts: Targets, rep: Report, j: nat)
    requires j <= |ts|
    ensures Completes(ts, ClocksFrom(ts, rep, j)) <==>
            forall c :: j <= c < |ts| && ts[c].cls == OscRefClk ==> Ok(ts, ClockAction(ts, rep, c))
    decreases |ts| - j
  {
    if j < |ts| {
      CompletesAll(ts, rep, j + 1);
      CompletesStep(ts, rep, j);
    }
  }

  /**
   * The pass takes away the reported clocks that it reaches, restores none and
   * touches no other target; when it completes these are all the reported ones.
   */
  lemma ClockOutcome(ts: Targets, report: Option<Report>, hw: seq<State>, i: nat)
    requires i < |ts| == |hw|
    ensures var h := ApplyLog(hw, Executed(ts, ClockPlan(ts, report)))[i];
            && IsFunctional(h) == (IsFunctional(hw[i]) && !ClockTaken(ts, report, i))
            && (!ClockTaken(ts, report, i) ==> h == hw[i])
            && SameElsewhere(hw[i], h)
    ensures Completes(ts, ClockPlan(ts, report)) ==>
              report.Some? && (ClockTaken(ts, report, i) <==> ts[i].cls == OscRefClk && TakenAway(report.value, ts[i]))
  {
    LogEffect(hw, Executed(ts, ClockPlan(ts, report)), i);
    if report.Some? && report.value != NoDeconfig {
      ClocksLast(ts, report.value, 0, i);
      CompletesAll(ts, report.value, 0);
    }
  }

  // ---------- the same by position ----------

  /** The report names this clock: clock A sits at position 0, clock B at position 1. */
  predicate Listed(rep: Report, t: Target) {
    match rep
    case NoDeconfig => false
    case ADeconfig => t.position == Some(0)
    case BDeconfig => t.position == Some(1)
    case AllDeconfig => true
  }

  /** The pass gets behind this clock: its position is read unless all clocks go, and a named clock is accessible. */
  predicate Passable(rep: Report, t: Target) {
    && (rep != AllDeconfig ==> t.position.Some?)
    && (Listed(rep, t) ==> t.hwasReadable && t.hwasWritable)
  }

  /** A named clock, and neither it nor a clock before it stops the pass. */
  predicate ClockLost(ts: Targets, report: Option<Report>, i: nat)
    requires i < |ts|
  {
    && report.Some? && ts[i].cls == OscRefClk && Listed(report.value, ts[i])
    && forall c :: 0 <= c <= i && ts[c].cls == OscRefClk ==> Passable(report.value, ts[c])
  }

  lemma PassableIs(ts: Targets, rep: Report, c: nat)
    requires c < |ts| && rep != NoDeconfig
    ensures Ok(ts, ClockAction(ts, rep, c)) <==> Passable(rep, ts[c])
    ensures Passable(rep, ts[c]) ==> (TakenAway(rep, ts[c]) <==> Listed(rep, ts[c]))
  {
  }

  lemma ClockTakenIs(ts: Targets, report: Option<Report>, i: nat)
    requires i < |ts|
    ensures ClockTaken(ts, report, i) <==> ClockLost(ts, report, i)
  {
    if report.Some? && report.value != NoDeconfig {
      forall c | 0 <= c < |ts|
        ensures Ok(ts, ClockAction(ts, report.value, c)) <==> Passable(report.value, ts[c])
        ensures Passable(report.value, ts[c]) ==> (TakenAway(report.value, ts[c]) <==> Listed(report.value, ts[c]))
      {
        PassableIs(ts, report.value, c);
      }
    }
  }

  /** The pass completes iff the report can be read and every clock is passable, unless there is nothing to do. */
  lemma ClockPassesIff(ts: Targets, report: Option<Report>)
    ensures Completes(ts, ClockPlan(ts, report)) <==>
            && report.Some?
            && (report.value != NoDeconfig ==>
                  forall c :: 0 <= c < |ts| && ts[c].cls == OscRefClk ==> Passable(report.value, ts[c]))
  {
    if report.Some? && report.value != NoDeconfig {
      CompletesAll(ts, report.value, 0);
      forall c | 0 <= c < |ts| ensures Ok(ts, ClockAction(ts, report.value, c)) <==> Passable(report.value, ts[c]) {
        PassableIs(ts, report.value, c);
      }
    }
  }

  /** The functional bit goes exactly at the clocks lost, and no other target changes. */
  lemma ClockByPosition(ts: Targets, report: Option<Report>, hw: seq<State>, i: nat)
    requires i < |ts| == |hw|
    ensures var h := ApplyLog(hw, Executed(ts, ClockPlan(ts, report)))[i];
            if ClockLost(ts, report, i) then h[4] & 0x20 == 0 && h[4] & 0x9F == hw[i][4] & 0x9F && h[..4] == hw[i][..4]
            else h == hw[i]
  {
    ClockOutcome(ts, report, hw, i);
    ClockTakenIs(ts, report, i);
  }
}
