/** Istep 0.6: reset and check every functional reference clock, and choose the clock source. */
module ClockInit {
  import opened Base
  import opened Hwas
  import opened DeviceTree

  const STATUS_ERROR: bv8 := 0x80
  const REDUNDANT_CLOCKS := 2

  datatype ClockSelect = Osc0 | Osc1 | BothOsc0

  /** The clocks whose reset command succeeds, and the status of those whose status register can be read. */
  datatype Answers = Answers(resetOk: set<nat>, status: map<nat, bv8>)

  predicate FunctionalClock(ts: Targets, hw: seq<State>, i: nat)
    requires i < |ts| == |hw|
  {
    ts[i].cls == OscRefClk && IsTargetFunctional(ts[i], hw[i])
  }

  predicate Passes(ts: Targets, ans: Answers, skipReset: bool, i: nat)
    requires i < |ts|
  {
    && ts[i].position.Some? && ts[i].probeEnabled
    && (skipReset || i in ans.resetOk)
    && i in ans.status && ans.status[i] & STATUS_ERROR == 0
  }

  predicate FailingClock(ts: Targets, hw: seq<State>, ans: Answers, skipReset: bool, i: nat)
    requires i < |ts| == |hw|
  {
    FunctionalClock(ts, hw, i) && !Passes(ts, ans, skipReset, i)
  }

  /** How many of the first n targets are functional clocks, and how many of these fail. */
  function ClockCount(ts: Targets, hw: seq<State>, n: nat): nat
    requires n <= |ts| == |hw|
  {
    if n == 0 then 0 else ClockCount(ts, hw, n - 1) + (if FunctionalClock(ts, hw, n - 1) then 1 else 0)
  }

  function FailCount(ts: Targets, hw: seq<State>, ans: Answers, skipReset: bool, n: nat): nat
    requires n <= |ts| == |hw|
  {
    if n == 0 then 0
    else FailCount(ts, hw, ans, skipReset, n - 1) + (if FailingClock(ts, hw, ans, skipReset, n - 1) then 1 else 0)
  }

  /** The source chosen by position: that of the last functional clock at position 0 or 1. */
  function ByPosition(ts: Targets, hw: seq<State>, n: nat, start: ClockSelect): ClockSelect
    requires n <= |ts| == |hw|
  {
    if n == 0 then start
    else if FunctionalClock(ts, hw, n - 1) && ts[n - 1].position == Some(0) then Osc0
    else if FunctionalClock(ts, hw, n - 1) && ts[n - 1].position == Some(1) then Osc1
    else ByPosition(ts, hw, n - 1, start)
  }

  /** The clock counters are eight bits wide. */
  function Counted(ts: Targets, hw: seq<State>): nat
    requires |ts| == |hw|
  {
    ClockCount(ts, hw, |ts|) % 256
  }

  predicate RedundancyEnabled(ts: Targets, hw: seq<State>)
    requires |ts| == |hw|
  {
    Counted(ts, hw) == REDUNDANT_CLOCKS
  }

  lemma CountStep(n: nat)
    ensures (n % 256 + 1) % 256 == (n + 1) % 256
  {
  }

  method ClockIsRedundancyEnabled(ts: Targets, hw: seq<State>) returns (enabled: bool)
    requires |ts| == |hw|
    ensures enabled == RedundancyEnabled(ts, hw)
  {
    var count: Byte := 0;
    var i := 0;
    while i < |ts|
      invariant i <= |ts| && count == ClockCount(ts, hw, i) % 256
    {
      if FunctionalClock(ts, hw, i) {
        CountStep(ClockCount(ts, hw, i));
        count := (count + 1) % 256;
      }
      i := i + 1;
    }
    if count != 1 && count != 2 {
      return false;
    }
    return count == REDUNDANT_CLOCKS;
  }

  /** One clock: its contribution to the source selection, and whether it passes every check. */
  method CheckClock(ts: Targets, ans: Answers, skipReset: bool, i: nat, sel: ClockSelect)
    returns (ok: bool, r: ClockSelect)
    requires i < |ts|
    ensures ok == Passes(ts, ans, skipReset, i)
    ensures r == if ts[i].position == Some(0) then Osc0 else if ts[i].position == Some(1) then Osc1 else sel
  {
    r := sel;
    if ts[i].position.None? {
      return false, r;
    }
    var pos := ts[i].position.value;
    if pos == 0 {
      r := Osc0;
    } else if pos == 1 {
      r := Osc1;
    }
    if !ts[i].probeEnabled {
      return false, r;
    }
    if !skipReset {
      if i !in ans.resetOk {
        return false, r;
      }
    }
    if i !in ans.status {
      return false, r;
    } else {
      if ans.status[i] & STATUS_ERROR != 0 {
        return false, r;
      }
    }
    return true, r;
  }

  method InitializeAndCheckClockChip(ts: Targets, hw: seq<State>, ans: Answers, skipReset: bool, start: ClockSelect)
    returns (rc: nat, sel: ClockSelect)
    requires |ts| == |hw|
    ensures rc == ResultOf(ts, hw, ans, skipReset) && sel == SourceOf(ts, hw, ans, skipReset, start)
  {
    rc, sel := 0, start;
    var count: Byte := 0;
    var i := 0;
    while i < |ts|
      invariant i <= |ts|
      invariant count == ClockCount(ts, hw, i) % 256
      invariant rc == FailCount(ts, hw, ans, skipReset, i)
      invariant sel == ByPosition(ts, hw, i, start)
    {
      if FunctionalClock(ts, hw, i) {
        CountStep(ClockCount(ts, hw, i));
        count := (count + 1) % 256;
        var ok;
        ok, sel := CheckClock(ts, ans, skipReset, i, sel);
        if !ok {
          rc := rc + 1;
        }
      }
      i := i + 1;
    }
    if rc == 0 && count != 1 && count != 2 {
      rc := rc + 1;
    }
    if rc == 0 && count == REDUNDANT_CLOCKS {
      sel := BothOsc0;
    }
  }

  // ---------- what the result means ----------

  /** The result and the source as the contract of the method fixes them. */
  function ResultOf(ts: Targets, hw: seq<State>, ans: Answers, skipReset: bool): nat
    requires |ts| == |hw|
  {
    var failed, count := FailCount(ts, hw, ans, skipReset, |ts|), Counted(ts, hw);
    if failed > 0 then failed else if count == 1 || count == 2 then 0 else 1
  }

  function SourceOf(ts: Targets, hw: seq<State>, ans: Answers, skipReset: bool, start: ClockSelect): ClockSelect
    requires |ts| == |hw|
  {
    if ResultOf(ts, hw, ans, skipReset) == 0 && Counted(ts, hw) == REDUNDANT_CLOCKS then BothOsc0
    else ByPosition(ts, hw, |ts|, start)
  }

  /** After a successful initialisation both clocks are selected exactly when the redundancy query says so. */
  lemma BothIffRedundant(ts: Targets, hw: seq<State>, ans: Answers, skipReset: bool, start: ClockSelect)
    requires |ts| == |hw| && start != BothOsc0 && ResultOf(ts, hw, ans, skipReset) == 0
    ensures SourceOf(ts, hw, ans, skipReset, start) == BothOsc0 <==> RedundancyEnabled(ts, hw)
  {
    SingleSource(ts, hw, |ts|, start);
  }

  lemma {:induction false} SingleSource(ts: Targets, hw: seq<State>, n: nat, start: ClockSelect)
    requires n <= |ts| == |hw| && start != BothOsc0
    ensures ByPosition(ts, hw, n, start) != BothOsc0
  {
    if n > 0 {
      SingleSource(ts, hw, n - 1, start);
    }
  }

  /** Initialisation succeeds iff the eight-bit count of functional clocks is one or two and each of them passes. */
  lemma SucceedsIff(ts: Targets, hw: seq<State>, ans: Answers, skipReset: bool)
    requires |ts| == |hw|
    ensures ResultOf(ts, hw, ans, skipReset) == 0 <==>
            && 1 <= ClockCount(ts, hw, |ts|) % 256 <= 2
            && forall i :: 0 <= i < |ts| && FunctionalClock(ts, hw, i) ==> Passes(ts, ans, skipReset, i)
    ensures ClockCount(ts, hw, |ts|) <= 255 ==> ClockCount(ts, hw, |ts|) % 256 == ClockCount(ts, hw, |ts|)
  {
    NoneFailing(ts, hw, ans, skipReset, |ts|);
  }

  lemma {:induction false} NoneFailing(ts: Targets, hw: seq<State>, ans: Answers, skipReset: bool, n: nat)
    requires n <= |ts| == |hw|
    ensures FailCount(ts, hw, ans, skipReset, n) == 0 <==>
            forall i :: 0 <= i < n && FunctionalClock(ts, hw, i) ==> Passes(ts, ans, skipReset, i)
  {
    if n > 0 {
      NoneFailing(ts, hw, ans, skipReset, n - 1);
    }
  }

  /** Readable, error-free status registers of the first n targets. */
  function NoErrors(n: nat): (r: map<nat, bv8>)
    ensures forall i: nat | i < n :: i in r && r[i] == 0
  {
    if n == 0 then map[] else NoErrors(n - 1)[n - 1 := 0]
  }

  /** The eight-bit counter wraps: 257 passing clocks are taken for one. */
  lemma CounterWraps(t: Target, h: State)
    requires t.cls == OscRefClk && IsTargetFunctional(t, h) && t.position.Some? && t.probeEnabled && t.parent.None?
    ensures var ts: Targets, hw := seq(257, _ => t), seq(257, _ => h);
            ResultOf(ts, hw, Answers({}, NoErrors(257)), true) == 0
  {
    var ts: Targets, hw := seq(257, _ => t), seq(257, _ => h);
    var ans := Answers({}, NoErrors(257));
    AllClocks(ts, hw, 257);
    NoneFailing(ts, hw, ans, true, 257);
  }

  lemma {:induction false} AllClocks(ts: Targets, hw: seq<State>, n: nat)
    requires n <= |ts| == |hw| && forall i :: 0 <= i < n ==> FunctionalClock(ts, hw, i)
    ensures ClockCount(ts, hw, n) == n
  {
    if n > 0 {
      AllClocks(ts, hw, n - 1);
    }
  }

  /** A single functional clock fixes the source: its position if that is 0 or 1, else the value passed in. */
  lemma SingleClockSelects(ts: Targets, hw: seq<State>, ans: Answers, skipReset: bool, start: ClockSelect, c: nat)
    requires c < |ts| == |hw|
    requires forall i: nat | i < |ts| :: FunctionalClock(ts, hw, i) <==> i == c
    ensures SourceOf(ts, hw, ans, skipReset, start) ==
            if ts[c].position == Some(0) then Osc0
            else if ts[c].position == Some(1) then Osc1
            else start
  {
    OneClock(ts, hw, |ts|, start, c);
  }

  lemma {:induction false} OneClock(ts: Targets, hw: seq<State>, n: nat, start: ClockSelect, c: nat)
    requires n <= |ts| == |hw| && c < |ts|
    requires forall i: nat | i < n :: FunctionalClock(ts, hw, i) <==> i == c
    ensures ClockCount(ts, hw, n) == if c < n then 1 else 0
    ensures ByPosition(ts, hw, n, start) ==
            if c < n && ts[c].position == Some(0) then Osc0
            else if c < n && ts[c].position == Some(1) then Osc1
            else start
  {
    if n > 0 {
      OneClock(ts, hw, n - 1, start, c);
    }
  }

  // ---------- result and source by the clocks themselves ----------

  /** A reference clock that works, among the first n targets. */
  predicate WorkingClock(ts: Targets, hw: seq<State>, i: nat)
    requires |hw| == |ts|
  {
    i < |ts| && ts[i].cls == OscRefClk && Works(ts[i], hw[i])
  }

  /** Position read, probe enabled, reset accepted unless skipped, status read and its error bit 0x80 clear. */
  predicate Healthy(ts: Targets, ans: Answers, skipReset: bool, i: nat) {
    && i < |ts| && ts[i].position.Some? && ts[i].probeEnabled
    && (skipReset || i in ans.resetOk)
    && i in ans.status && ans.status[i] & 0x80 == 0
  }

  predicate SickClock(ts: Targets, hw: seq<State>, ans: Answers, skipReset: bool, i: nat)
    requires |hw| == |ts|
  {
    WorkingClock(ts, hw, i) && !Healthy(ts, ans, skipReset, i)
  }

  ghost function WorkingClocks(ts: Targets, hw: seq<State>, n: nat): set<nat>
    requires |hw| == |ts|
  {
    set i: nat | i < n && WorkingClock(ts, hw, i)
  }

  ghost function SickClocks(ts: Targets, hw: seq<State>, ans: Answers, skipReset: bool, n: nat): set<nat>
    requires |hw| == |ts|
  {
    set i: nat | i < n && SickClock(ts, hw, ans, skipReset, i)
  }

  lemma ClockIs(ts: Targets, hw: seq<State>, ans: Answers, skipReset: bool, i: nat)
    requires i < |ts| == |hw|
    ensures FunctionalClock(ts, hw, i) <==> WorkingClock(ts, hw, i)
    ensures FailingClock(ts, hw, ans, skipReset, i) <==> SickClock(ts, hw, ans, skipReset, i)
  {
    FlagBits(hw[i]);
  }

  lemma ClocksStep(ts: Targets, hw: seq<State>, n: nat)
    requires n < |ts| == |hw|
    ensures |WorkingClocks(ts, hw, n + 1)| == |WorkingClocks(ts, hw, n)| + (if WorkingClock(ts, hw, n) then 1 else 0)
  {
    var before := WorkingClocks(ts, hw, n);
    assert WorkingClocks(ts, hw, n + 1) == before + (if WorkingClock(ts, hw, n) then {n} else {});
  }

  lemma {:induction false} ClocksCounted(ts: Targets, hw: seq<State>, n: nat)
    requires n <= |ts| == |hw|
    ensures ClockCount(ts, hw, n) == |WorkingClocks(ts, hw, n)|
  {
    if n > 0 {
      ClocksCounted(ts, hw, n - 1);
      ClockIs(ts, hw, Answers({}, map[]), true, n - 1);
      ClocksStep(ts, hw, n - 1);
    }
  }

  lemma SickStep(ts: Targets, hw: seq<State>, ans: Answers, skipReset: bool, n: nat)
    requires n < |ts| == |hw|
    ensures |SickClocks(ts, hw, ans, skipReset, n + 1)| ==
            |SickClocks(ts, hw, ans, skipReset, n)| + (if SickClock(ts, hw, ans, skipReset, n) then 1 else 0)
  {
    var before := SickClocks(ts, hw, ans, skipReset, n);
    assert SickClocks(ts, hw, ans, skipReset, n + 1) ==
           before + (if SickClock(ts, hw, ans, skipReset, n) then {n} else {});
  }

  lemma {:induction false} SickCounted(ts: Targets, hw: seq<State>, ans: Answers, skipReset: bool, n: nat)
    requires n <= |ts| == |hw|
    ensures FailCount(ts, hw, ans, skipReset, n) == |SickClocks(ts, hw, ans, skipReset, n)|
  {
    if n > 0 {
      SickCounted(ts, hw, ans, skipReset, n - 1);
      ClockIs(ts, hw, ans, skipReset, n - 1);
      SickStep(ts, hw, ans, skipReset, n - 1);
    }
  }

  /** The result is the number of working clocks that are not healthy; with none, 0 for one or two clocks, else 1. */
  lemma ResultIs(ts: Targets, hw: seq<State>, ans: Answers, skipReset: bool)
    requires |ts| == |hw|
    ensures var sick, count := |SickClocks(ts, hw, ans, skipReset, |ts|)|, |WorkingClocks(ts, hw, |ts|)| % 256;
            ResultOf(ts, hw, ans, skipReset) == if sick > 0 then sick else if 1 <= count <= 2 then 0 else 1
  {
    ClocksCounted(ts, hw, |ts|);
    SickCounted(ts, hw, ans, skipReset, |ts|);
  }

  /** One working clock that fails its probe, its reset, its status read or its error bit makes the step fail. */
  lemma SickClockFails(ts: Targets, hw: seq<State>, ans: Answers, skipReset: bool, i: nat)
    requires |ts| == |hw| && WorkingClock(ts, hw, i)
    requires || ts[i].position.None? || !ts[i].probeEnabled || (!skipReset && i !in ans.resetOk)
             || i !in ans.status || ans.status[i] & 0x80 != 0
    ensures ResultOf(ts, hw, ans, skipReset) > 0
  {
    SucceedsIff(ts, hw, ans, skipReset);
    ClockIs(ts, hw, ans, skipReset, i);
  }

  /** Redundancy is two working clocks, counted in eight bits. */
  lemma RedundancyIs(ts: Targets, hw: seq<State>)
    requires |ts| == |hw|
    ensures RedundancyEnabled(ts, hw) <==> |WorkingClocks(ts, hw, |ts|)| % 256 == 2
  {
    ClocksCounted(ts, hw, |ts|);
  }

  /** A working clock at position 0 or 1. */
  predicate Positioned(ts: Targets, hw: seq<State>, i: nat)
    requires |ts| == |hw|
  {
    WorkingClock(ts, hw, i) && (ts[i].position == Some(0) || ts[i].position == Some(1))
  }

  ghost predicate LastPositioned(ts: Targets, hw: seq<State>, n: nat, c: nat)
    requires |ts| == |hw|
  {
    c < n && Positioned(ts, hw, c) && forall j: nat :: c < j < n ==> !Positioned(ts, hw, j)
  }

  /** The last target decides if it is a working clock at position 0 or 1, and plays no part otherwise. */
  lemma PositionStep(ts: Targets, hw: seq<State>, n: nat, start: ClockSelect)
    requires n < |ts| == |hw|
    ensures ByPosition(ts, hw, n + 1, start) ==
            if !Positioned(ts, hw, n) then ByPosition(ts, hw, n, start)
            else if ts[n].position == Some(0) then Osc0 else Osc1
  {
    ClockIs(ts, hw, Answers({}, map[]), true, n);
  }

  lemma {:induction false} PositionIs(ts: Targets, hw: seq<State>, n: nat, start: ClockSelect, c: nat)
    requires n <= |ts| == |hw| && LastPositioned(ts, hw, n, c)
    ensures ByPosition(ts, hw, n, start) == if ts[c].position == Some(0) then Osc0 else Osc1
  {
    PositionStep(ts, hw, n - 1, start);
    if c < n - 1 {
      assert !Positioned(ts, hw, n - 1);
      PositionIs(ts, hw, n - 1, start, c);
    }
  }

  lemma {:induction false} NonePositioned(ts: Targets, hw: seq<State>, n: nat, start: ClockSelect)
    requires n <= |ts| == |hw| && forall j: nat :: j < n ==> !Positioned(ts, hw, j)
    ensures ByPosition(ts, hw, n, start) == start
  {
    if n > 0 {
      PositionStep(ts, hw, n - 1, start);
      NonePositioned(ts, hw, n - 1, start);
    }
  }

  /** The source: both with two healthy clocks, else by the last working clock at position 0 or 1, else as before. */
  lemma SourceIs(ts: Targets, hw: seq<State>, ans: Answers, skipReset: bool, start: ClockSelect)
    requires |ts| == |hw|
    ensures var both := |SickClocks(ts, hw, ans, skipReset, |ts|)| == 0 && |WorkingClocks(ts, hw, |ts|)| % 256 == 2;
            var sel := SourceOf(ts, hw, ans, skipReset, start);
            && (both ==> sel == BothOsc0)
            && (!both ==>
                  forall c: nat :: LastPositioned(ts, hw, |ts|, c) ==>
                    sel == if ts[c].position == Some(0) then Osc0 else Osc1)
            && (!both && (forall j: nat :: !Positioned(ts, hw, j)) ==> sel == start)
  {
    ResultIs(ts, hw, ans, skipReset);
    ClocksCounted(ts, hw, |ts|);
    if forall j: nat :: !Positioned(ts, hw, j) {
      NonePositioned(ts, hw, |ts|, start);
    }
    forall c: nat | LastPositioned(ts, hw, |ts|, c)
      ensures ByPosition(ts, hw, |ts|, start) == if ts[c].position == Some(0) then Osc0 else Osc1
    {
      PositionIs(ts, hw, |ts|, start, c);
    }
  }
}
