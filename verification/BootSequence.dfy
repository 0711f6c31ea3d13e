/** Istep 0.4 followed by istep 0.14 on the state it leaves behind. */
module BootSequence {
  import opened Base
  import opened Hwas
  import opened DeviceTree
  import opened GuardRecords
  import ClockDeconfig
  import UpdateHwModel
  import BootSeries
  import SbeBoot
  import opened SbeBootOutcome

  /** The first master processor of the tree, functional or not. */
  predicate IsFirstMaster(ts: Targets, m: nat) {
    && m < |ts| && ts[m].cls == Proc && IsMaster(ts[m])
    && forall q :: 0 <= q < m && ts[q].cls == Proc ==> !IsMaster(ts[q])
  }

  /** The SBE state a processor ends with by its role. */
  function RoleState(ts: Targets, i: nat): SbeState
    requires i < |ts|
  {
    if IsFirstMaster(ts, i) then Booted else if IsMaster(ts[i]) then NotUsable else CheckCfam
  }

  /** When every master is functional, the first functional master is the first master. */
  lemma FirstIsFirst(ts: Targets, hw: seq<State>, m: nat)
    requires |hw| == |ts| && MastersFunctional(ts, hw)
    ensures FirstMaster(ts, hw, m, 0) <==> IsFirstMaster(ts, m)
  {
    if IsFirstMaster(ts, m) {
      assert FunctionalMaster(ts, hw, m);
    }
    if FirstMaster(ts, hw, m, 0) {
      forall q | 0 <= q < m && ts[q].cls == Proc ensures !IsMaster(ts[q]) {
        assert !FunctionalMaster(ts, hw, q);
      }
    }
  }

  /** The SBE state of a processor after the reset of a reboot, as seen with the hardware state the step leaves. */
  lemma ResetStates(ts: Targets, f: UpdateHwModel.Files, b: UpdateHwModel.Boot, ans: Answer, hw: seq<State>,
                    sbe: seq<SbeState>, i: nat)
    requires |hw| == |sbe| == |ts| && ValidAnswer(ans) && i < |ts|
    requires UpdateHwModel.IsReboot(f, b)
    ensures var out := UpdateHwModel.Run(ts, f, b, ans, hw, sbe);
            out.sbe[i] == if SbeSelected(ts[i], out.hw[i], false) && SbeBoot.Writable(ts[i]) then NotUsable else sbe[i]
  {
    var hw1 := UpdateHwModel.AfterGenesis(ts, f, hw);
    var hw3 := UpdateHwModel.AfterGuard(ts, f, b, ans, UpdateHwModel.AfterFco(ts, f, b, hw1));
    if ts[i].cls == Proc {
      UpdateHwModel.ClocksOnly(ts, f, b, hw3, i);
    }
  }

  /** Istep 0.14 on this state succeeds iff the first master boots; every present processor then stands by its role. */
  ghost predicate StartsByRole(ts: Targets, hw: seq<State>, sbe: seq<SbeState>, mode: Mode, hardware: SbeBoot.Answers)
    requires |hw| == |sbe| == |ts|
  {
    var start := SbeBoot.StartRun(ts, hw, sbe, mode, Normal, hardware);
    && (start.rc == 0 <==> exists m: nat :: IsFirstMaster(ts, m) && SbeBoot.Boots(hardware, m))
    && (start.rc == 0 ==>
          forall i: nat | i < |ts| && SbeSelected(ts[i], hw[i], false) && SbeBoot.Writable(ts[i]) ::
            start.sbe[i] == RoleState(ts, i))
  }

  /**
   * A reboot whose hardware update succeeded starts iff its first master
   * processor starts and is seen booted. Every present processor then stands
   * as the protocol wants it: the first master BOOTED, the secondaries
   * CHECK_CFAM, any further master still NOT_USABLE.
   */
  lemma RebootThenStart(ts: Targets, f: UpdateHwModel.Files, b: UpdateHwModel.Boot, ans: Answer, hw: seq<State>,
                        sbe: seq<SbeState>, mode: Mode, hardware: SbeBoot.Answers)
    requires |hw| == |sbe| == |ts| && ValidAnswer(ans) && mode != Cronus
    requires UpdateHwModel.IsReboot(f, b) && UpdateHwModel.Run(ts, f, b, ans, hw, sbe).rc == 0
    ensures var out := UpdateHwModel.Run(ts, f, b, ans, hw, sbe);
            StartsByRole(ts, out.hw, out.sbe, mode, hardware)
  {
    var out := UpdateHwModel.Run(ts, f, b, ans, hw, sbe);
    var start := SbeBoot.StartRun(ts, out.hw, out.sbe, mode, Normal, hardware);
    NormalSucceedsIff(ts, out.hw, out.sbe, mode, hardware);
    forall m: nat ensures FirstMaster(ts, out.hw, m, 0) <==> IsFirstMaster(ts, m) {
      FirstIsFirst(ts, out.hw, m);
    }
    if start.rc == 0 {
      var m: nat :| FirstMaster(ts, out.hw, m, 0) && SbeBoot.Boots(hardware, m);
      forall i: nat | i < |ts| && SbeSelected(ts[i], out.hw[i], false) && SbeBoot.Writable(ts[i])
        ensures start.sbe[i] == RoleState(ts, i)
      {
        NormalStates(ts, out.hw, out.sbe, mode, hardware, m, i);
        ResetStates(ts, f, b, ans, hw, sbe, i);
        OnlyOneFirst(ts, m, i);
      }
    }
  }

  lemma OnlyOneFirst(ts: Targets, m: nat, i: nat)
    requires IsFirstMaster(ts, m)
    ensures IsFirstMaster(ts, i) <==> i == m
  {
  }

  /**
   * Every reboot of every series of boots with sound masters, whatever guard
   * records and overrides came before: when its clocks pass, the start that
   * follows it succeeds iff the first master boots, and sorts the processors
   * by their role.
   */
  lemma EveryRebootStarts(ms: set<nat>, r: BootSeries.Series, k: nat, mode: Mode, hardware: SbeBoot.Answers)
    requires BootSeries.IsSeries(r) && k < |r.boots| && mode != Cronus
    requires forall j :: 0 <= j < |r.boots| ==> BootSeries.SoundBoot(ms, r.boots[j])
    requires forall i :: i in ms ==> BootSeries.Stands(r.states[0], i)
    requires r.states[k].marker && r.boots[k].boot.pol.bootType == Normal
    requires Completes(r.boots[k].ts, ClockDeconfig.ClockPlan(r.boots[k].ts, r.boots[k].boot.report))
    ensures r.results[k] == 0
    ensures |r.states[k + 1].hw| == |r.states[k + 1].sbe| == |r.boots[k].ts|
    ensures StartsByRole(r.boots[k].ts, r.states[k + 1].hw, r.states[k + 1].sbe, mode, hardware)
  {
    BootSeries.SeriesSucceeds(ms, r, k);
    BootSeries.MarkerHistory(r, k);
    assert BootSeries.StepAt(r, k);
    var x, s := r.boots[k], r.states[k];
    RebootThenStart(x.ts, BootSeries.FilesFound(x, s.marker), x.boot, x.ans, s.hw, s.sbe, mode, hardware);
  }
}
