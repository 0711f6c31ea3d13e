/** Istep 0.4: genesis setup, functional override, guard records, SBE reset and clock deconfiguration in one run. */
module UpdateHwModel {
  import opened Base
  import opened Hwas
  import opened DeviceTree
  import opened GuardKey
  import opened GuardRecords
  import opened FcoOverride
  import Genesis
  import GuardOutcome
  import ClockDeconfig

  /** The settings of one boot, and how the file system and the root target answer it. */
  datatype Boot = Boot(pol: Policy, dirCreatable: bool, markerCreatable: bool, report: Option<ClockDeconfig.Report>)

  /** Whether the genesis marker, its directory and the boot-time guard indicator exist. */
  datatype Files = Files(marker: bool, markerDir: bool, indicator: bool)

  class MarkerFiles {
    var files: Files

    constructor (files: Files)
      ensures this.files == files
    {
      this.files := files;
    }
  }

  // ---------- the run as a function of its start ----------

  datatype Outcome = Outcome(hw: seq<State>, sbe: seq<SbeState>, files: Files, cleared: seq<nat>, rc: int)

  predicate GenesisPasses(ts: Targets, f: Files, b: Boot) {
    f.marker || (Completes(ts, Genesis.GenesisPlan(ts)) && (f.markerDir || b.dirCreatable))
  }

  function AfterGenesis(ts: Targets, f: Files, hw: seq<State>): (r: seq<State>)
    ensures |r| == |hw|
  {
    if f.marker then hw else ApplyLog(hw, Executed(ts, Genesis.GenesisPlan(ts)))
  }

  predicate FcoRuns(f: Files, b: Boot) { b.pol.bootType == Mpipl || !f.indicator }

  predicate GuardRuns(f: Files, b: Boot) { b.pol.bootType == Mpipl || f.indicator }

  ghost function AfterFco(ts: Targets, f: Files, b: Boot, hw: seq<State>): (r: seq<State>)
    requires |hw| == |ts|
    ensures |r| == |hw|
  {
    if FcoRuns(f, b) then FcoApplied(ts, hw) else hw
  }

  function AfterGuard(ts: Targets, f: Files, b: Boot, ans: Answer, hw: seq<State>): (r: seq<State>)
    requires ValidAnswer(ans)
    ensures |r| == |hw|
  {
    if GuardRuns(f, b) then ApplyLog(hw, GuardLog(ts, b.pol, ProcessedRecords(b.pol, ans))) else hw
  }

  /** A normal boot that found the genesis marker. */
  predicate IsReboot(f: Files, b: Boot) { f.marker && b.pol.bootType == Normal }

  function AfterClocks(ts: Targets, f: Files, b: Boot, hw: seq<State>): (r: seq<State>)
    ensures |r| == |hw|
  {
    if IsReboot(f, b) then ApplyLog(hw, Executed(ts, ClockDeconfig.ClockPlan(ts, b.report))) else hw
  }

  predicate ClocksPass(ts: Targets, f: Files, b: Boot) {
    IsReboot(f, b) ==> Completes(ts, ClockDeconfig.ClockPlan(ts, b.report))
  }

  function FilesAfter(ts: Targets, f: Files, b: Boot): Files {
    if !GenesisPasses(ts, f, b) then f
    else Files(f.marker || b.markerCreatable, f.markerDir || !f.marker, b.pol.bootType == Mpipl && f.indicator)
  }

  ghost function Run(ts: Targets, f: Files, b: Boot, ans: Answer, hw: seq<State>, sbe: seq<SbeState>): Outcome
    requires |hw| == |sbe| == |ts| && ValidAnswer(ans)
  {
    var hw1 := AfterGenesis(ts, f, hw);
    if !GenesisPasses(ts, f, b) then Outcome(hw1, sbe, f, [], 1)
    else
      var hw3 := AfterGuard(ts, f, b, ans, AfterFco(ts, f, b, hw1));
      var hw4 := AfterClocks(ts, f, b, hw3);
      Outcome(
        hw4,
        if IsReboot(f, b) then SbeAfterSetAll(ts, hw3, sbe, NotUsable, false, |ts|) else sbe,
        FilesAfter(ts, f, b),
        if GuardRuns(f, b) then ClearedIds(b.pol, ProcessedRecords(b.pol, ans)) else [],
        if ClocksPass(ts, f, b) && MastersFunctional(ts, hw4) then 0 else 1)
  }

  // ---------- the imperative run ----------

  /** Guard actions are allowed in a memory-preserving boot, or once per indicator file. */
  method GuardActionAllowed(mf: MarkerFiles, b: Boot) returns (allowed: bool)
    modifies mf
    ensures allowed == GuardRuns(old(mf.files), b)
    ensures mf.files == if b.pol.bootType == Mpipl then old(mf.files) else old(mf.files).(indicator := false)
  {
    if b.pol.bootType == Mpipl {
      return true;
    }
    if mf.files.indicator {
      mf.files := mf.files.(indicator := false);
      return true;
    } else {
      return false;
    }
  }

  method ProcessGuardRecords(dt: Tree, store: GuardStore, mf: MarkerFiles, b: Boot)
    requires dt.Valid() && ValidAnswer(store.answer)
    modifies dt`hwas, store`cleared, mf
    ensures dt.Valid()
    ensures dt.hwas == AfterGuard(dt.targets, old(mf.files), b, store.answer, old(dt.hwas))
    ensures store.cleared == old(store.cleared) +
            (if GuardRuns(old(mf.files), b) then ClearedIds(b.pol, ProcessedRecords(b.pol, store.answer)) else [])
    ensures mf.files == if b.pol.bootType == Mpipl then old(mf.files) else old(mf.files).(indicator := false)
  {
    var allowed := GuardActionAllowed(mf, b);
    if !allowed {
      return;
    }
    ApplyRecords(dt, store, b.pol);
  }

  /** Genesis setup and its marker; false when the step has to fail. */
  method GenesisSetup(dt: Tree, mf: MarkerFiles, b: Boot) returns (ok: bool)
    requires dt.Valid() && !mf.files.marker
    modifies dt`hwas, mf
    ensures dt.Valid()
    ensures ok == GenesisPasses(dt.targets, old(mf.files), b)
    ensures dt.hwas == AfterGenesis(dt.targets, old(mf.files), old(dt.hwas))
    ensures mf.files == if ok then old(mf.files).(marker := b.markerCreatable, markerDir := true) else old(mf.files)
  {
    ok := Genesis.UpdateGenesisHwasState(dt);
    if !ok {
      return;
    }
    if !mf.files.markerDir {
      if !b.dirCreatable {
        return false;
      }
      mf.files := mf.files.(markerDir := true);
    }
    if b.markerCreatable {
      mf.files := mf.files.(marker := true);
    }
  }

  method UpdateHwModel(dt: Tree, store: GuardStore, mf: MarkerFiles, b: Boot) returns (rc: int)
    requires dt.Valid() && ValidAnswer(store.answer)
    modifies dt, store`cleared, mf
    ensures dt.Valid()
    ensures var out := Run(dt.targets, old(mf.files), b, store.answer, old(dt.hwas), old(dt.sbe));
            && dt.hwas == out.hw && dt.sbe == out.sbe && mf.files == out.files
            && store.cleared == old(store.cleared) + out.cleared && rc == out.rc
  {
    var bootFileAbsent := false;
    if !mf.files.marker {
      var ok := GenesisSetup(dt, mf, b);
      if !ok {
        return 1;
      }
      bootFileAbsent := true;
    }
    if b.pol.bootType == Mpipl || !mf.files.indicator {
      ApplyFcoOverride(dt);
    }
    ProcessGuardRecords(dt, store, mf, b);
    if !bootFileAbsent && b.pol.bootType != Mpipl {
      var ret := dt.SetSbeStateAll(NotUsable, false);
      var ok := ClockDeconfig.UpdateClockFuncState(dt, b.report);
      if !ok {
        return 1;
      }
    }
    var functional := dt.CheckFunctionalMaster();
    if !functional {
      return 1;
    }
    return 0;
  }

  // ---------- what holds of every run ----------

  /** How one target may change over a run: outside the two bits not at all, and presence is never lost. */
  predicate Preserved(h: State, h2: State) {
    && SameElsewhere(h, h2)
    && (IsPresent(h) ==> IsPresent(h2))
    && ((IsFunctional(h) ==> IsPresent(h)) ==> (IsFunctional(h2) ==> IsPresent(h2)))
  }

  lemma {:induction false} LogPreserves(hw: seq<State>, log: seq<Write>, i: nat)
    requires i < |hw|
    ensures Preserved(hw[i], ApplyLog(hw, log)[i])
  {
    if log != [] {
      var n := |log| - 1;
      LogPreserves(hw, log[..n], i);
      SetOrClearBits(ApplyLog(hw, log[..n])[i], log[n].value);
    }
  }

  lemma PreservedTrans(h: State, h2: State, h3: State)
    requires Preserved(h, h2) && Preserved(h2, h3)
    ensures Preserved(h, h3)
  {
  }

  lemma StagesPreserve(ts: Targets, f: Files, b: Boot, ans: Answer, hw: seq<State>, i: nat)
    requires i < |ts| == |hw| && ValidAnswer(ans)
    ensures Preserved(hw[i], AfterGenesis(ts, f, hw)[i])
    ensures Preserved(hw[i], AfterFco(ts, f, b, hw)[i])
    ensures Preserved(hw[i], AfterGuard(ts, f, b, ans, hw)[i])
    ensures Preserved(hw[i], AfterClocks(ts, f, b, hw)[i])
  {
    LogPreserves(hw, Executed(ts, Genesis.GenesisPlan(ts)), i);
    FcoOutcome(ts, hw, i);
    LogPreserves(hw, GuardLog(ts, b.pol, ProcessedRecords(b.pol, ans)), i);
    LogPreserves(hw, Executed(ts, ClockDeconfig.ClockPlan(ts, b.report)), i);
  }

  /** Every run, failing early or not, keeps every target as Preserved says. */
  lemma RunPreserves(ts: Targets, f: Files, b: Boot, ans: Answer, hw: seq<State>, sbe: seq<SbeState>, i: nat)
    requires |hw| == |sbe| == |ts| && ValidAnswer(ans) && i < |ts|
    ensures Preserved(hw[i], Run(ts, f, b, ans, hw, sbe).hw[i])
  {
    var hw1 := AfterGenesis(ts, f, hw);
    var hw2 := AfterFco(ts, f, b, hw1);
    var hw3 := AfterGuard(ts, f, b, ans, hw2);
    StagesPreserve(ts, f, b, ans, hw, i);
    StagesPreserve(ts, f, b, ans, hw1, i);
    StagesPreserve(ts, f, b, ans, hw2, i);
    StagesPreserve(ts, f, b, ans, hw3, i);
    PreservedTrans(hw[i], hw1[i], hw2[i]);
    PreservedTrans(hw[i], hw2[i], hw3[i]);
    PreservedTrans(hw[i], hw3[i], AfterClocks(ts, f, b, hw3)[i]);
  }

  /** The clock pass moves clocks only. */
  lemma ClocksOnly(ts: Targets, f: Files, b: Boot, hw: seq<State>, i: nat)
    requires i < |ts| == |hw| && ts[i].cls != OscRefClk
    ensures AfterClocks(ts, f, b, hw)[i] == hw[i]
  {
    ClockDeconfig.ClockOutcome(ts, b.report, hw, i);
  }

  /** Some record that was worked through writes target i. */
  ghost predicate Guarded(ts: Targets, b: Boot, ans: Answer, i: nat)
    requires ValidAnswer(ans) && i < |ts|
  {
    var records := ProcessedRecords(b.pol, ans);
    exists k :: 0 <= k < |records| && GuardOutcome.Hits(ts, b.pol, records[k], i)
  }

  /** Target i carries a functional override that the pass can apply. */
  ghost predicate FcoSet(ts: Targets, hw: seq<State>, i: nat)
    requires i < |ts| == |hw|
  {
    HasMaster(ts, i) && Overridden(ts[i], hw[i])
  }

  /** The clock pass of a reboot takes target i away. */
  predicate ClockGone(ts: Targets, f: Files, b: Boot, i: nat)
    requires i < |ts|
  {
    IsReboot(f, b) && ClockDeconfig.ClockTaken(ts, b.report, i)
  }

  lemma ClocksDecide(ts: Targets, f: Files, b: Boot, hw: seq<State>, i: nat)
    requires i < |ts| == |hw|
    ensures var h := AfterClocks(ts, f, b, hw)[i];
            && IsFunctional(h) == (IsFunctional(hw[i]) && !ClockGone(ts, f, b, i))
            && (!ClockGone(ts, f, b, i) ==> h == hw[i])
  {
    ClockDeconfig.ClockOutcome(ts, b.report, hw, i);
  }

  /**
   * A normal boot applies either the functional override or the guard records,
   * never both, and leaves no indicator behind: without the indicator only the
   * override counts and nothing is cleared in libguard, with it only the last
   * record that hits the target counts. On a reboot the clocks that the clock
   * pass reaches are taken away after that.
   */
  lemma NormalRunDecides(ts: Targets, f: Files, b: Boot, ans: Answer, hw: seq<State>, sbe: seq<SbeState>, i: nat)
    requires |hw| == |sbe| == |ts| && ValidAnswer(ans) && i < |ts|
    requires b.pol.bootType == Normal && GenesisPasses(ts, f, b)
    ensures var out, hw1, records := Run(ts, f, b, ans, hw, sbe), AfterGenesis(ts, f, hw), ProcessedRecords(b.pol, ans);
            var gone := ClockGone(ts, f, b, i);
            && !out.files.indicator
            && (!f.indicator ==> out.cleared == [])
            && (!f.indicator ==>
                  IsFunctional(out.hw[i]) == ((IsFunctional(hw1[i]) || FcoSet(ts, hw1, i)) && !gone))
            && (f.indicator && !Guarded(ts, b, ans, i) ==>
                  IsFunctional(out.hw[i]) == (IsFunctional(hw1[i]) && !gone) && (!gone ==> out.hw[i] == hw1[i]))
            && (f.indicator ==>
                  forall k | 0 <= k < |records| && GuardOutcome.LastHitAt(ts, b.pol, records, i, k) ::
                    IsFunctional(out.hw[i]) == (Restores(b.pol, records[k]) && !gone))
  {
    var hw1, records := AfterGenesis(ts, f, hw), ProcessedRecords(b.pol, ans);
    FcoOutcome(ts, hw1, i);
    GuardOutcome.LastHitDecides(ts, b.pol, records, hw1, i);
    ClocksDecide(ts, f, b, AfterGuard(ts, f, b, ans, AfterFco(ts, f, b, hw1)), i);
  }

  /**
   * A memory-preserving boot applies the override first and the guard records
   * last: a target ends functional iff it was or is overridden, and no record
   * hits it. A guarded target stays away however its FCO bit is set.
   */
  lemma MpiplGuardWins(ts: Targets, f: Files, b: Boot, ans: Answer, hw: seq<State>, sbe: seq<SbeState>, i: nat)
    requires |hw| == |sbe| == |ts| && ValidAnswer(ans) && i < |ts|
    requires b.pol.bootType == Mpipl && GenesisPasses(ts, f, b)
    ensures var out, hw1 := Run(ts, f, b, ans, hw, sbe), AfterGenesis(ts, f, hw);
            && IsFunctional(out.hw[i]) == ((IsFunctional(hw1[i]) || FcoSet(ts, hw1, i)) && !Guarded(ts, b, ans, i))
            && out.sbe == sbe && out.cleared == [] && out.files.indicator == f.indicator
  {
    var hw1, records := AfterGenesis(ts, f, hw), ProcessedRecords(b.pol, ans);
    var hw2 := AfterFco(ts, f, b, hw1);
    FcoOutcome(ts, hw1, i);
    GuardOutcome.LastHitDecides(ts, b.pol, records, hw2, i);
    var k := GuardOutcome.LastHit(ts, b.pol, records, i);
    assert k >= 0 ==> !Restores(b.pol, records[k]);
    NothingCleared(b.pol, records);
  }

  lemma {:induction false} NothingCleared(pol: Policy, records: seq<Record>)
    requires pol.bootType == Mpipl
    ensures ClearedIds(pol, records) == []
  {
    if records != [] {
      NothingCleared(pol, records[..|records| - 1]);
    }
  }

  /** An unresolved record for an accessible core or FC reaches its target in a memory-preserving boot with guard on. */
  lemma MpiplRecordApplies(ts: Targets, b: Boot, ans: Answer, k: nat, i: nat)
    requires ans.Available? && ValidAnswer(ans) && k < |ans.records| && i < |ts|
    requires b.pol.bootType == Mpipl && b.pol.guardOn && ans.records[k].recordId != GUARD_RESOLVED
    requires Named(ts, ans.records[k]) == Some(i) && Accessible(ts[i]) && ts[i].devPathReadable
    requires ts[i].fruType in {Some(TYPE_CORE), Some(TYPE_FC)}
    ensures Guarded(ts, b, ans, i)
  {
    AllProcessed(b.pol, ans, 0);
    assert ProcessedRecords(b.pol, ans)[k] == ans.records[k];
    assert GuardOutcome.Hits(ts, b.pol, ans.records[k], i);
  }

  lemma {:induction false} AllProcessed(pol: Policy, ans: Answer, k: nat)
    requires ans.Available? && k <= |ans.records| && pol.bootType == Mpipl
    ensures Processed(pol, ans, k) == |ans.records|
    decreases |ans.records| - k
  {
    if k < |ans.records| {
      AllProcessed(pol, ans, k + 1);
    }
  }

  /** Master processors are typed as processors. */
  predicate MastersTyped(ts: Targets) {
    forall i :: 0 <= i < |ts| && ts[i].cls == Proc && IsMaster(ts[i]) ==> ts[i].fruType == Some(TYPE_PROC)
  }

  /** No pass behind genesis takes the functional bit of a master processor away. */
  lemma MasterBitKept(ts: Targets, f: Files, b: Boot, ans: Answer, hw: seq<State>, sbe: seq<SbeState>, i: nat)
    requires |hw| == |sbe| == |ts| && ValidAnswer(ans) && GenesisPasses(ts, f, b)
    requires i < |ts| && ts[i].cls == Proc && IsMaster(ts[i]) && ts[i].fruType == Some(TYPE_PROC)
    ensures IsFunctional(AfterGenesis(ts, f, hw)[i]) ==> IsFunctional(Run(ts, f, b, ans, hw, sbe).hw[i])
  {
    var hw1 := AfterGenesis(ts, f, hw);
    var hw2 := AfterFco(ts, f, b, hw1);
    FcoOutcome(ts, hw1, i);
    GuardOutcome.MasterProtected(ts, b.pol, ProcessedRecords(b.pol, ans), hw2, i);
    ClocksOnly(ts, f, b, AfterGuard(ts, f, b, ans, hw2), i);
  }

  /**
   * Neither pass can take a working master processor away, so once the masters
   * are functional the step fails for its clocks alone.
   */
  lemma MastersKept(ts: Targets, f: Files, b: Boot, ans: Answer, hw: seq<State>, sbe: seq<SbeState>)
    requires |hw| == |sbe| == |ts| && ValidAnswer(ans) && MastersTyped(ts)
    requires GenesisPasses(ts, f, b) && MastersFunctional(ts, AfterGenesis(ts, f, hw))
    ensures MastersFunctional(ts, Run(ts, f, b, ans, hw, sbe).hw)
    ensures Run(ts, f, b, ans, hw, sbe).rc == 0 <==> ClocksPass(ts, f, b)
  {
    forall i | 0 <= i < |ts| && ts[i].cls == Proc && IsMaster(ts[i])
      ensures IsTargetFunctional(ts[i], Run(ts, f, b, ans, hw, sbe).hw[i])
    {
      MasterBitKept(ts, f, b, ans, hw, sbe, i);
    }
  }

  /** A first boot that passes genesis with every master enabled succeeds. */
  lemma FirstBootSucceeds(ts: Targets, f: Files, b: Boot, ans: Answer, hw: seq<State>, sbe: seq<SbeState>)
    requires |hw| == |sbe| == |ts| && ValidAnswer(ans) && MastersTyped(ts)
    requires !f.marker && GenesisPasses(ts, f, b)
    requires forall i :: 0 <= i < |ts| && ts[i].cls == Proc && IsMaster(ts[i]) ==> ts[i].statusEnabled
    ensures Run(ts, f, b, ans, hw, sbe).rc == 0
  {
    forall i | 0 <= i < |ts| && ts[i].cls == Proc && IsMaster(ts[i])
      ensures IsTargetFunctional(ts[i], AfterGenesis(ts, f, hw)[i])
    {
      Genesis.GenesisOutcome(ts, hw, i);
    }
    MastersKept(ts, f, b, ans, hw, sbe);
  }

  // ---------- the run by what it is given: result, files, SBE states, and every target ----------

  lemma MastersWork(ts: Targets, hw: seq<State>)
    requires |hw| == |ts|
    ensures MastersFunctional(ts, hw) <==>
            forall i :: 0 <= i < |ts| && MasterProc(ts[i]) ==> Works(ts[i], hw[i])
  {
    forall i | 0 <= i < |ts|
      ensures IsTargetFunctional(ts[i], hw[i]) <==> Works(ts[i], hw[i])
      ensures ts[i].cls == Proc && IsMaster(ts[i]) <==> MasterProc(ts[i])
    {
      FlagBits(hw[i]);
    }
  }

  /** The marker is there, or setup can handle every target it concerns and the directory of the marker is there. */
  ghost predicate PastGenesis(ts: Targets, f: Files, b: Boot) {
    || f.marker
    || (&& (forall i :: 0 <= i < |ts| && Genesis.Concerned(ts, i) ==> Genesis.Handled(ts[i]))
        && (f.markerDir || b.dirCreatable))
  }

  /** The report can be read, and unless it names nothing every clock lets the pass by. */
  predicate PastClocks(ts: Targets, report: Option<ClockDeconfig.Report>) {
    && report.Some?
    && (report.value != ClockDeconfig.NoDeconfig ==>
          forall c :: 0 <= c < |ts| && ts[c].cls == OscRefClk ==> ClockDeconfig.Passable(report.value, ts[c]))
  }

  lemma PastGenesisIs(ts: Targets, f: Files, b: Boot)
    ensures GenesisPasses(ts, f, b) <==> PastGenesis(ts, f, b)
  {
    Genesis.GenesisCompletesIff(ts);
  }

  /**
   * Every run, of every boot: the step returns 0 iff it gets past genesis, a
   * normal boot that found the marker gets past its clocks, and every master
   * processor works in the state the step leaves. Otherwise it returns 1.
   */
  lemma RunResult(ts: Targets, f: Files, b: Boot, ans: Answer, hw: seq<State>, sbe: seq<SbeState>)
    requires |hw| == |sbe| == |ts| && ValidAnswer(ans)
    ensures var out := Run(ts, f, b, ans, hw, sbe);
            && (out.rc == 0 <==>
                  && PastGenesis(ts, f, b)
                  && (f.marker && b.pol.bootType == Normal ==> PastClocks(ts, b.report))
                  && forall i :: 0 <= i < |ts| && MasterProc(ts[i]) ==> Works(ts[i], out.hw[i]))
            && (out.rc == 0 || out.rc == 1)
  {
    PastGenesisIs(ts, f, b);
    ClockDeconfig.ClockPassesIff(ts, b.report);
    MastersWork(ts, Run(ts, f, b, ans, hw, sbe).hw);
  }

  /** A master processor that does not work in the end fails the step, on a first, memory-preserving or normal boot. */
  lemma LostMasterFails(ts: Targets, f: Files, b: Boot, ans: Answer, hw: seq<State>, sbe: seq<SbeState>, i: nat)
    requires |hw| == |sbe| == |ts| && ValidAnswer(ans) && i < |ts|
    requires ts[i].cls == Proc && IsMaster(ts[i])
    requires !IsTargetFunctional(ts[i], Run(ts, f, b, ans, hw, sbe).hw[i])
    ensures Run(ts, f, b, ans, hw, sbe).rc == 1
  {
    RunResult(ts, f, b, ans, hw, sbe);
    FlagBits(Run(ts, f, b, ans, hw, sbe).hw[i]);
  }

  /** A run that does not get past genesis keeps what setup wrote before it failed, and does nothing else. */
  lemma StoppedAtGenesis(ts: Targets, f: Files, b: Boot, ans: Answer, hw: seq<State>, sbe: seq<SbeState>)
    requires |hw| == |sbe| == |ts| && ValidAnswer(ans) && !PastGenesis(ts, f, b)
    ensures Run(ts, f, b, ans, hw, sbe) == Outcome(ApplyLog(hw, Executed(ts, Genesis.GenesisPlan(ts))), sbe, f, [], 1)
  {
    PastGenesisIs(ts, f, b);
  }

  /** Files and SBE states behind genesis: only a normal boot that found the marker resets the SBEs. */
  lemma FilesAndStates(ts: Targets, f: Files, b: Boot, ans: Answer, hw: seq<State>, sbe: seq<SbeState>)
    requires |hw| == |sbe| == |ts| && ValidAnswer(ans) && PastGenesis(ts, f, b)
    ensures var out := Run(ts, f, b, ans, hw, sbe);
            && out.files.marker == (f.marker || b.markerCreatable)
            && out.files.markerDir == (f.markerDir || !f.marker)
            && out.files.indicator == (f.indicator && b.pol.bootType == Mpipl)
            && forall i :: 0 <= i < |ts| ==>
                 out.sbe[i] == if f.marker && b.pol.bootType == Normal && ts[i].cls == Proc && Seen(ts[i], out.hw[i])
                                  && ts[i].pibPresent && ts[i].sbeWritable then NotUsable
                               else sbe[i]
  {
    PastGenesisIs(ts, f, b);
    var out := Run(ts, f, b, ans, hw, sbe);
    var hw3 := AfterGuard(ts, f, b, ans, AfterFco(ts, f, b, AfterGenesis(ts, f, hw)));
    forall i | 0 <= i < |ts| && ts[i].cls == Proc
      ensures SbeSelected(ts[i], hw3[i], false) <==> Seen(ts[i], out.hw[i])
    {
      ClocksOnly(ts, f, b, hw3, i);
      FlagBits(hw3[i]);
    }
  }

  /** What is cleared in libguard: the records of an ephemeral type, in a normal boot that found the indicator. */
  lemma ClearedInRun(ts: Targets, f: Files, b: Boot, ans: Answer, hw: seq<State>, sbe: seq<SbeState>, id: nat)
    requires |hw| == |sbe| == |ts| && ValidAnswer(ans) && PastGenesis(ts, f, b)
    ensures id in Run(ts, f, b, ans, hw, sbe).cleared <==>
            && b.pol.bootType == Normal && f.indicator
            && exists k: nat :: GuardOutcome.TurnComes(b.pol, ans, k) && ans.records[k].recordId == id
                                && id != 0xFFFF_FFFF && ans.records[k].errType in b.pol.ephemeralTypes
  {
    PastGenesisIs(ts, f, b);
    GuardOutcome.ClearedIff(b.pol, ans, id);
  }

  /** The hardware state behind genesis: as found with the marker, as setup wrote it without. */
  function BehindGenesis(ts: Targets, f: Files, hw: seq<State>): (r: seq<State>)
    ensures |r| == |hw|
  {
    if f.marker then hw else ApplyLog(hw, Executed(ts, Genesis.GenesisPlan(ts)))
  }

  /** The functional bit that overrides and records leave, before the clocks. */
  lemma SettledBit(ts: Targets, f: Files, b: Boot, ans: Answer, hw1: seq<State>, i: nat)
    requires |hw1| == |ts| && ValidAnswer(ans) && i < |ts|
    ensures var up := AfterGuard(ts, f, b, ans, AfterFco(ts, f, b, hw1))[i][4] & 0x20 == 0x20;
            var guard := b.pol.bootType == Mpipl || f.indicator;
            && (guard ==>
                  forall k: nat :: GuardOutcome.LastStrike(ts, b.pol, ans, i, k) ==>
                    (up <==> b.pol.bootType == Normal && ans.records[k].errType in b.pol.ephemeralTypes))
            && (!guard || (forall k: nat :: !GuardOutcome.StrikesAt(ts, b.pol, ans, i, k)) ==>
                  (up <==> hw1[i][4] & 0x20 == 0x20
                           || ((b.pol.bootType == Mpipl || !f.indicator) && FcoUnit(ts, hw1, i))))
  {
    var hw2 := AfterFco(ts, f, b, hw1);
    FcoByClass(ts, hw1, i);
    if b.pol.bootType == Mpipl || f.indicator {
      forall k: nat | GuardOutcome.LastStrike(ts, b.pol, ans, i, k)
        ensures AfterGuard(ts, f, b, ans, hw2)[i][4] & 0x20 == 0x20 <==>
                b.pol.bootType == Normal && ans.records[k].errType in b.pol.ephemeralTypes
      {
        GuardOutcome.LastStrikeDecides(ts, b.pol, ans, hw2, i, k);
      }
      if forall k: nat :: !GuardOutcome.StrikesAt(ts, b.pol, ans, i, k) {
        GuardOutcome.NoStrikeKeeps(ts, b.pol, ans, hw2, i);
      }
    }
  }

  /**
   * The functional bit of every target after a run that got past genesis. Guard
   * records count in a memory-preserving boot or with the indicator, and then
   * the last one that strikes the target decides; overrides count in a
   * memory-preserving boot or without the indicator, where no record strikes;
   * on a normal boot that found the marker the reported clocks go last.
   */
  lemma RunDecides(ts: Targets, f: Files, b: Boot, ans: Answer, hw: seq<State>, sbe: seq<SbeState>, i: nat)
    requires |hw| == |sbe| == |ts| && ValidAnswer(ans) && i < |ts| && PastGenesis(ts, f, b)
    ensures var up, hw1 := Run(ts, f, b, ans, hw, sbe).hw[i][4] & 0x20 == 0x20, BehindGenesis(ts, f, hw);
            var guard := b.pol.bootType == Mpipl || f.indicator;
            var gone := f.marker && b.pol.bootType == Normal && ClockDeconfig.ClockLost(ts, b.report, i);
            && (guard ==>
                  forall k: nat :: GuardOutcome.LastStrike(ts, b.pol, ans, i, k) ==>
                    (up <==> b.pol.bootType == Normal && ans.records[k].errType in b.pol.ephemeralTypes && !gone))
            && (!guard || (forall k: nat :: !GuardOutcome.StrikesAt(ts, b.pol, ans, i, k)) ==>
                  (up <==> !gone && (hw1[i][4] & 0x20 == 0x20
                                     || ((b.pol.bootType == Mpipl || !f.indicator) && FcoUnit(ts, hw1, i)))))
  {
    PastGenesisIs(ts, f, b);
    var hw1 := BehindGenesis(ts, f, hw);
    assert hw1 == AfterGenesis(ts, f, hw);
    SettledBit(ts, f, b, ans, hw1, i);
    ClockDeconfig.ClockByPosition(ts, b.report, AfterGuard(ts, f, b, ans, AfterFco(ts, f, b, hw1)), i);
  }

  /**
   * A normal boot with guard on and the indicator: an unresolved record of a
   * lasting type whose turn comes takes the first target with its path away,
   * unless that is a master of type 0x05 or a later record strikes it.
   */
  lemma NormalRecordApplies(ts: Targets, f: Files, b: Boot, ans: Answer, hw: seq<State>, sbe: seq<SbeState>,
                            k: nat, i: nat)
    requires |hw| == |sbe| == |ts| && ValidAnswer(ans) && i < |ts| && PastGenesis(ts, f, b)
    requires b.pol.bootType == Normal && b.pol.guardOn && f.indicator && GuardOutcome.TurnComes(b.pol, ans, k)
    requires ans.records[k].recordId != 0xFFFF_FFFF && ans.records[k].errType !in b.pol.ephemeralTypes
    requires Named(ts, ans.records[k]) == Some(i)
    requires ts[i].hwasReadable && ts[i].hwasWritable && ts[i].devPathReadable && ts[i].fruType.Some?
    requires !(ts[i].fruType == Some(0x05) && IsMaster(ts[i]))
    ensures Guarded(ts, b, ans, i)
    ensures (forall j: nat :: k < j ==> !GuardOutcome.StrikesAt(ts, b.pol, ans, i, j)) ==>
              !IsFunctional(Run(ts, f, b, ans, hw, sbe).hw[i])
  {
    NamedIffSamePath(ts, ans.records[k], i);
    assert GuardOutcome.ActsThrough(ts, b.pol, ans.records[k], i, i);
    assert GuardOutcome.StrikesAt(ts, b.pol, ans, i, k);
    GuardOutcome.StrikesAtIs(ts, b.pol, ans, i, k);
    RunDecides(ts, f, b, ans, hw, sbe, i);
    FlagBits(Run(ts, f, b, ans, hw, sbe).hw[i]);
  }

  /** A resolved record, and with guard off a record of a lasting type, hits nothing. */
  lemma SwitchedOff(ts: Targets, pol: Policy, r: Record, i: nat)
    requires ValidStored(r.path) && i < |ts|
    requires r.recordId == 0xFFFF_FFFF || (!pol.guardOn && r.errType !in pol.ephemeralTypes)
    ensures !GuardOutcome.Hits(ts, pol, r, i) && StepLog(ts, pol, r) == []
  {
    GuardOutcome.StrikesIff(ts, pol, r, i);
  }
}
