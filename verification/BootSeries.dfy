/** Istep 0.4 boot after boot: what holds of every state that any series of boots can reach. */
module BootSeries {
  import opened Base
  import opened Hwas
  import opened DeviceTree
  import opened GuardRecords
  import opened UpdateHwModel
  import ClockDeconfig
  import Genesis

  /** One boot of a series: the tree as it answers then, the files found, the settings and the guard records. */
  datatype BootInput = BootInput(ts: Targets, markerDir: bool, indicator: bool, boot: Boot, ans: Answer)

  /** What one boot hands on to the next. */
  datatype System = System(hw: seq<State>, sbe: seq<SbeState>, marker: bool, cleared: seq<nat>)

  predicate Fits(x: BootInput, s: System) {
    |x.ts| == |s.hw| == |s.sbe| && ValidAnswer(x.ans)
  }

  function FilesFound(x: BootInput, marker: bool): Files { Files(marker, x.markerDir, x.indicator) }

  ghost function RunOn(x: BootInput, s: System): Outcome
    requires Fits(x, s)
  {
    Run(x.ts, FilesFound(x, s.marker), x.boot, x.ans, s.hw, s.sbe)
  }

  /** One boot takes the system from s to t and returns rc. */
  ghost predicate Step(x: BootInput, s: System, t: System, rc: int) {
    && Fits(x, s)
    && var out := RunOn(x, s);
       t == System(out.hw, out.sbe, out.files.marker, s.cleared + out.cleared) && rc == out.rc
  }

  /** A series of boots: the system before, between and behind them, and what each of them returns. */
  datatype Series = Series(boots: seq<BootInput>, states: seq<System>, results: seq<int>)

  ghost predicate StepAt(r: Series, k: nat)
    requires k < |r.boots| == |r.results| && |r.states| == |r.boots| + 1
  {
    Step(r.boots[k], r.states[k], r.states[k + 1], r.results[k])
  }

  ghost predicate IsSeries(r: Series) {
    && |r.states| == |r.boots| + 1 && |r.results| == |r.boots|
    && forall k :: 0 <= k < |r.boots| ==> StepAt(r, k)
  }

  lemma {:induction false} Extend(r: Series, x: BootInput) returns (r': Series)
    requires IsSeries(r) && Fits(x, r.states[|r.boots|])
    ensures IsSeries(r') && r'.boots == r.boots + [x] && r'.states[0] == r.states[0]
    ensures |r'.states[|r'.boots|].hw| == |r'.states[|r'.boots|].sbe| == |x.ts|
  {
    var s := r.states[|r.boots|];
    var out := RunOn(x, s);
    var t := System(out.hw, out.sbe, out.files.marker, s.cleared + out.cleared);
    r' := Series(r.boots + [x], r.states + [t], r.results + [out.rc]);
    assert Step(x, s, t, out.rc);
    forall k | 0 <= k < |r'.boots| ensures StepAt(r', k) {
      if k < |r.boots| {
        assert StepAt(r, k);
      }
    }
  }

  /** Any boots of one system can follow each other. */
  lemma {:induction false} SomeSeries(s0: System, boots: seq<BootInput>) returns (r: Series)
    requires forall k :: 0 <= k < |boots| ==> Fits(boots[k], s0)
    requires |s0.hw| == |s0.sbe|
    ensures IsSeries(r) && r.boots == boots && r.states[0] == s0
    ensures |r.states[|boots|].hw| == |r.states[|boots|].sbe| == |s0.hw|
  {
    if boots == [] {
      r := Series([], [s0], []);
    } else {
      var n := |boots| - 1;
      r := SomeSeries(s0, boots[..n]);
      r := Extend(r, boots[n]);
      assert boots[..n] + [boots[n]] == boots;
    }
  }

  // ---------- states ----------

  lemma BootPreserves(x: BootInput, s: System, t: System, rc: int, i: nat)
    requires Step(x, s, t, rc) && i < |s.hw|
    ensures |t.hw| == |s.hw| && Preserved(s.hw[i], t.hw[i])
  {
    RunPreserves(x.ts, FilesFound(x, s.marker), x.boot, x.ans, s.hw, s.sbe, i);
  }

  /** Over any series a target keeps all but its two bits, never loses presence, and stays present if functional. */
  lemma {:induction false} SeriesPreserves(r: Series, k: nat, i: nat)
    requires IsSeries(r) && k < |r.states| && i < |r.states[0].hw|
    ensures |r.states[k].hw| == |r.states[0].hw|
    ensures Preserved(r.states[0].hw[i], r.states[k].hw[i])
  {
    if k > 0 {
      SeriesPreserves(r, k - 1, i);
      assert StepAt(r, k - 1);
      BootPreserves(r.boots[k - 1], r.states[k - 1], r.states[k], r.results[k - 1], i);
      PreservedTrans(r.states[0].hw[i], r.states[k - 1].hw[i], r.states[k].hw[i]);
    }
  }

  // ---------- genesis ----------

  /** What a boot needs to complete genesis when it finds no marker. */
  predicate PassesFresh(x: BootInput) {
    GenesisPasses(x.ts, FilesFound(x, false), x.boot)
  }

  predicate LeavesMarker(x: BootInput) { PassesFresh(x) && x.boot.markerCreatable }

  /** Boot k runs genesis setup to the end. */
  predicate CompletesGenesis(r: Series, k: nat)
    requires k < |r.boots| && k < |r.states|
  {
    !r.states[k].marker && PassesFresh(r.boots[k])
  }

  lemma MarkerStep(x: BootInput, s: System, t: System, rc: int)
    requires Step(x, s, t, rc)
    ensures t.marker == (s.marker || LeavesMarker(x))
  {
    assert RunOn(x, s).files == FilesAfter(x.ts, FilesFound(x, s.marker), x.boot);
  }

  lemma MarkerStepAt(r: Series, k: nat)
    requires IsSeries(r) && k < |r.boots|
    ensures r.states[k + 1].marker == (r.states[k].marker || LeavesMarker(r.boots[k]))
  {
    assert StepAt(r, k);
    MarkerStep(r.boots[k], r.states[k], r.states[k + 1], r.results[k]);
  }

  /** The marker is there iff it was at the start or an earlier boot passes setup and can create it. */
  lemma {:induction false} MarkerHistory(r: Series, k: nat)
    requires IsSeries(r) && k < |r.states|
    ensures r.states[k].marker <==> r.states[0].marker || exists j :: 0 <= j < k && LeavesMarker(r.boots[j])
  {
    if k > 0 {
      MarkerHistory(r, k - 1);
      MarkerStepAt(r, k - 1);
    }
  }

  /**
   * A boot completes genesis iff it passes the setup, no marker was there at
   * first, and no earlier boot both passes the setup and can create the marker.
   */
  lemma GenesisRunsIff(r: Series, k: nat)
    requires IsSeries(r) && k < |r.boots|
    ensures CompletesGenesis(r, k) <==>
            && !r.states[0].marker && PassesFresh(r.boots[k])
            && forall j :: 0 <= j < k ==> !LeavesMarker(r.boots[j])
  {
    MarkerHistory(r, k);
  }

  /** A second completion means that the first could not create its marker. */
  lemma GenesisOnce(r: Series, j: nat, k: nat)
    requires IsSeries(r) && j < k < |r.boots|
    requires CompletesGenesis(r, j) && CompletesGenesis(r, k)
    ensures !r.boots[j].boot.markerCreatable
  {
    GenesisRunsIff(r, k);
    assert !LeavesMarker(r.boots[j]);
  }

  /**
   * Genesis completes at most once iff the marker was there at first, or of any
   * two boots that pass the setup the later one comes behind a boot that passes
   * it and can create the marker.
   */
  lemma GenesisOnceIff(r: Series)
    requires IsSeries(r)
    ensures (forall j, k :: 0 <= j < k < |r.boots| ==> !(CompletesGenesis(r, j) && CompletesGenesis(r, k))) <==>
            || r.states[0].marker
            || forall j, k :: 0 <= j < k < |r.boots| && PassesFresh(r.boots[j]) && PassesFresh(r.boots[k]) ==>
                 exists i :: 0 <= i < k && LeavesMarker(r.boots[i])
  {
    forall k | 0 <= k < |r.boots|
      ensures CompletesGenesis(r, k) <==>
              && !r.states[0].marker && PassesFresh(r.boots[k])
              && forall j :: 0 <= j < k ==> !LeavesMarker(r.boots[j])
    {
      GenesisRunsIff(r, k);
    }
  }

  /** A system of one enabled master processor, all of whose attributes can be accessed. */
  const ONE_PROC: Targets :=
    [Target(Proc, None, 0, true, true, None, true, Some(TYPE_PROC), Some(0), None, None, true, true, true, true)]

  /** A boot of it that cannot create the marker file. */
  const NO_MARKER: BootInput :=
    BootInput(ONE_PROC, true, false, Boot(Policy(Normal, true, false, {}), true, false, None), Available([], {}))

  /** The marker file is created without a check: when that fails, genesis completes again on the next boot. */
  lemma GenesisTwice(s0: System) returns (r: Series)
    requires |s0.hw| == |s0.sbe| == 1 && !s0.marker
    ensures IsSeries(r) && r.states[0] == s0 && r.boots == [NO_MARKER, NO_MARKER]
    ensures CompletesGenesis(r, 0) && CompletesGenesis(r, 1)
  {
    r := SomeSeries(s0, [NO_MARKER, NO_MARKER]);
    Genesis.GenesisSucceedsIff(ONE_PROC);
    GenesisRunsIff(r, 0);
    GenesisRunsIff(r, 1);
  }

  // ---------- masters ----------

  predicate Master(ts: Targets, i: nat) {
    i < |ts| && ts[i].cls == Proc && IsMaster(ts[i])
  }

  /** A master that is typed as a processor and enabled. */
  predicate SoundMaster(ts: Targets, i: nat) {
    Master(ts, i) && ts[i].fruType == Some(TYPE_PROC) && ts[i].statusEnabled
  }

  /** In this boot the masters are those in ms, and all of them are sound. */
  ghost predicate SoundBoot(ms: set<nat>, x: BootInput) {
    && (forall i: nat :: Master(x.ts, i) ==> i in ms)
    && (forall i :: i in ms ==> SoundMaster(x.ts, i))
  }

  /** With the marker, the bit of target i is set. */
  predicate Stands(s: System, i: nat) {
    i < |s.hw| && (s.marker ==> IsFunctional(s.hw[i]))
  }

  /** Behind genesis, completed or skipped, the bit of a master is set, and the passes leave it. */
  lemma BitBehindGenesis(x: BootInput, s: System, i: nat)
    requires Fits(x, s) && SoundMaster(x.ts, i) && Stands(s, i)
    requires GenesisPasses(x.ts, FilesFound(x, s.marker), x.boot)
    ensures IsFunctional(AfterGenesis(x.ts, FilesFound(x, s.marker), s.hw)[i])
    ensures IsFunctional(RunOn(x, s).hw[i])
  {
    if !s.marker {
      Genesis.GenesisOutcome(x.ts, s.hw, i);
    }
    MasterBitKept(x.ts, FilesFound(x, s.marker), x.boot, x.ans, s.hw, s.sbe, i);
  }

  lemma BitStep(x: BootInput, s: System, t: System, rc: int, i: nat)
    requires Step(x, s, t, rc) && SoundMaster(x.ts, i) && Stands(s, i)
    ensures Stands(t, i)
  {
    if GenesisPasses(x.ts, FilesFound(x, s.marker), x.boot) {
      BitBehindGenesis(x, s, i);
    }
  }

  lemma BitStepAt(r: Series, k: nat, i: nat)
    requires IsSeries(r) && k < |r.boots| && SoundMaster(r.boots[k].ts, i) && Stands(r.states[k], i)
    ensures Stands(r.states[k + 1], i)
  {
    assert StepAt(r, k);
    BitStep(r.boots[k], r.states[k], r.states[k + 1], r.results[k], i);
  }

  /** In every reachable state that has the marker, a master that is sound in every boot is functional. */
  lemma {:induction false} MasterStays(r: Series, k: nat, i: nat)
    requires IsSeries(r) && k < |r.states| && Stands(r.states[0], i)
    requires forall j :: 0 <= j < |r.boots| ==> SoundMaster(r.boots[j].ts, i)
    ensures Stands(r.states[k], i)
  {
    if k > 0 {
      MasterStays(r, k - 1, i);
      BitStepAt(r, k - 1, i);
    }
  }

  /** With sound masters that stand, every master is functional behind genesis. */
  lemma MastersReady(ms: set<nat>, x: BootInput, s: System)
    requires Fits(x, s) && SoundBoot(ms, x) && forall i :: i in ms ==> Stands(s, i)
    requires GenesisPasses(x.ts, FilesFound(x, s.marker), x.boot)
    ensures MastersTyped(x.ts) && MastersFunctional(x.ts, AfterGenesis(x.ts, FilesFound(x, s.marker), s.hw))
  {
    forall i | 0 <= i < |x.ts| && x.ts[i].cls == Proc && IsMaster(x.ts[i])
      ensures x.ts[i].fruType == Some(TYPE_PROC)
      ensures IsTargetFunctional(x.ts[i], AfterGenesis(x.ts, FilesFound(x, s.marker), s.hw)[i])
    {
      assert Master(x.ts, i);
      BitBehindGenesis(x, s, i);
    }
  }

  /** A boot in which the masters stand fails for genesis setup or for its clocks alone. */
  lemma StepResult(ms: set<nat>, x: BootInput, s: System, t: System, rc: int)
    requires Step(x, s, t, rc) && SoundBoot(ms, x) && forall i :: i in ms ==> Stands(s, i)
    ensures rc == 0 <==>
            GenesisPasses(x.ts, FilesFound(x, s.marker), x.boot) && ClocksPass(x.ts, FilesFound(x, s.marker), x.boot)
  {
    if GenesisPasses(x.ts, FilesFound(x, s.marker), x.boot) {
      MastersReady(ms, x, s);
      MastersKept(x.ts, FilesFound(x, s.marker), x.boot, x.ans, s.hw, s.sbe);
    }
  }

  /**
   * When a boot of a series succeeds, from its own input and what earlier boots
   * were able to do: without a marker it has to pass genesis setup, with one it
   * has to pass the clocks, unless it preserves memory. Guard records, overrides
   * and the states of all units play no part.
   */
  lemma SeriesSucceeds(ms: set<nat>, r: Series, k: nat)
    requires IsSeries(r) && k < |r.boots|
    requires forall j :: 0 <= j < |r.boots| ==> SoundBoot(ms, r.boots[j])
    requires forall i :: i in ms ==> Stands(r.states[0], i)
    ensures r.results[k] == 0 <==>
            if r.states[0].marker || exists j :: 0 <= j < k && LeavesMarker(r.boots[j]) then
              r.boots[k].boot.pol.bootType == Normal ==>
                Completes(r.boots[k].ts, ClockDeconfig.ClockPlan(r.boots[k].ts, r.boots[k].boot.report))
            else PassesFresh(r.boots[k])
  {
    forall i | i in ms ensures Stands(r.states[k], i) {
      MasterStays(r, k, i);
    }
    MarkerHistory(r, k);
    assert StepAt(r, k);
    StepResult(ms, r.boots[k], r.states[k], r.states[k + 1], r.results[k]);
  }
}
