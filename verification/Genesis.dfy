/** Genesis setup: the first boot writes the HWAS state of processors, their units and the reference clocks. */
module Genesis {
  import opened Base
  import opened Hwas
  import opened DeviceTree

  /** Unused iohs units are lowered, every other unit follows its processor; an unreadable iohs mode fails. */
  function ChildAction(ts: Targets, i: nat, enabled: bool): Action
    requires i < |ts|
  {
    if ts[i].cls != Iohs then Update(i, enabled)
    else match ts[i].iohsMode
      case None => Require(false)
      case Some(Unused) => Update(i, false)
      case Some(InUse) => Update(i, enabled)
  }

  function ChildrenFrom(ts: Targets, p: nat, cls: Class, i: nat): seq<Action>
    requires p < |ts| && i <= |ts|
    decreases |ts| - i
  {
    if i == |ts| then []
    else if ts[i].cls == cls && Beneath(ts, i, p) then
      [ChildAction(ts, i, ts[p].statusEnabled)] + ChildrenFrom(ts, p, cls, i + 1)
    else ChildrenFrom(ts, p, cls, i + 1)
  }

  function ClassesFrom(ts: Targets, p: nat, classes: seq<Class>): seq<Action>
    requires p < |ts|
  {
    if classes == [] then [] else ChildrenFrom(ts, p, classes[0], 0) + ClassesFrom(ts, p, classes[1..])
  }

  function ProcPlan(ts: Targets, p: nat): seq<Action>
    requires p < |ts|
  {
    [Update(p, ts[p].statusEnabled)] + (if IsMaster(ts[p]) then ClassesFrom(ts, p, MASTER_CHILD_CLASSES) else [])
  }

  function ProcsFrom(ts: Targets, p: nat): seq<Action>
    requires p <= |ts|
    decreases |ts| - p
  {
    if p == |ts| then []
    else if ts[p].cls == Proc then ProcPlan(ts, p) + ProcsFrom(ts, p + 1)
    else ProcsFrom(ts, p + 1)
  }

  function ClockPlan(ts: Targets, i: nat): seq<Action>
    requires i < |ts|
  {
    [Require(ts[i].position.Some?), Require(ts[i].probeEnabled), Update(i, true)]
  }

  function ClocksFrom(ts: Targets, i: nat): seq<Action>
    requires i <= |ts|
    decreases |ts| - i
  {
    if i == |ts| then []
    else if ts[i].cls == OscRefClk then ClockPlan(ts, i) + ClocksFrom(ts, i + 1)
    else ClocksFrom(ts, i + 1)
  }

  function GenesisPlan(ts: Targets): seq<Action> {
    ProcsFrom(ts, 0) + ClocksFrom(ts, 0)
  }

  lemma ClockSteps(ts: Targets, i: nat)
    requires i < |ts|
    ensures Completes(ts, ClockPlan(ts, i)) <==> ClockReady(ts[i])
    ensures Executed(ts, ClockPlan(ts, i)) == if ClockReady(ts[i]) then [Write(i, true)] else []
  {
    var last := Update(i, true);
    SingleAction(ts, [], last);
    assert ClockPlan(ts, i)[1..] == [Require(ts[i].probeEnabled), last];
    assert ClockPlan(ts, i)[1..][1..] == [last];
  }

  predicate ClockReady(t: Target) { t.position.Some? && t.probeEnabled && Accessible(t) }

  // ---------- the in-place pass ----------

  method UpdateChild(dt: Tree, i: nat, enabled: bool) returns (ok: bool)
    requires dt.Valid() && i < |dt.targets|
    modifies dt`hwas
    ensures dt.Valid()
    ensures ok == Completes(dt.targets, [ChildAction(dt.targets, i, enabled)])
    ensures dt.hwas == ApplyLog(old(dt.hwas), Executed(dt.targets, [ChildAction(dt.targets, i, enabled)]))
  {
    SingleAction(dt.targets, dt.hwas, ChildAction(dt.targets, i, enabled));
    if dt.targets[i].cls == Iohs {
      if dt.targets[i].iohsMode.None? {
        return false;
      }
      if dt.targets[i].iohsMode.value == Unused {
        ok := dt.SetOrClearState(i, false);
      } else {
        ok := dt.SetOrClearState(i, enabled);
      }
    } else {
      ok := dt.SetOrClearState(i, enabled);
    }
  }

  /** The next unit of a plan under way: either its turn is done and the rest remains, or the plan has failed here. */
  method ChildTurn(dt: Tree, i: nat, enabled: bool, ghost hw: seq<State>, ghost plan: seq<Action>,
                   ghost written: seq<Write>, ghost rest: seq<Action>)
    returns (ok: bool, ghost written': seq<Write>)
    requires dt.Valid() && i < |dt.targets|
    requires dt.hwas == ApplyLog(hw, written)
    requires Doing(dt.targets, plan, written, [ChildAction(dt.targets, i, enabled)] + rest)
    modifies dt`hwas
    ensures dt.Valid()
    ensures dt.hwas == ApplyLog(hw, if ok then written' else Executed(dt.targets, plan))
    ensures if ok then Doing(dt.targets, plan, written', rest) else !Completes(dt.targets, plan)
  {
    ghost var next := [ChildAction(dt.targets, i, enabled)];
    Advance(dt.targets, hw, plan, written, next, rest);
    ok := UpdateChild(dt, i, enabled);
    written' := written + Executed(dt.targets, next);
  }

  method UpdateChildren(dt: Tree, p: nat, cls: Class) returns (ok: bool)
    requires dt.Valid() && p < |dt.targets|
    modifies dt`hwas
    ensures dt.Valid()
    ensures ok == Completes(dt.targets, ChildrenFrom(dt.targets, p, cls, 0))
    ensures dt.hwas == ApplyLog(old(dt.hwas), Executed(dt.targets, ChildrenFrom(dt.targets, p, cls, 0)))
  {
    ghost var ts, hw, plan, written := dt.targets, dt.hwas, ChildrenFrom(dt.targets, p, cls, 0), [];
    var i := 0;
    while i < |dt.targets|
      invariant i <= |ts| && dt.Valid()
      invariant dt.hwas == ApplyLog(hw, written)
      invariant Doing(ts, plan, written, ChildrenFrom(ts, p, cls, i))
    {
      if dt.targets[i].cls == cls && Beneath(dt.targets, i, p) {
        ghost var rest := ChildrenFrom(ts, p, cls, i + 1);
        ok, written := ChildTurn(dt, i, dt.targets[p].statusEnabled, hw, plan, written, rest);
        if !ok {
          return;
        }
      }
      i := i + 1;
    }
    assert written + [] == written;
    return true;
  }

  method UpdateUnits(dt: Tree, p: nat, classes: seq<Class>) returns (ok: bool)
    requires dt.Valid() && p < |dt.targets|
    modifies dt`hwas
    ensures dt.Valid()
    ensures ok == Completes(dt.targets, ClassesFrom(dt.targets, p, classes))
    ensures dt.hwas == ApplyLog(old(dt.hwas), Executed(dt.targets, ClassesFrom(dt.targets, p, classes)))
  {
    ghost var ts, hw, plan, written := dt.targets, dt.hwas, ClassesFrom(dt.targets, p, classes), [];
    var k := 0;
    while k < |classes|
      invariant k <= |classes| && dt.Valid()
      invariant dt.hwas == ApplyLog(hw, written)
      invariant Doing(ts, plan, written, ClassesFrom(ts, p, classes[k..]))
    {
      ghost var next := ChildrenFrom(ts, p, classes[k], 0);
      assert classes[k..][1..] == classes[k + 1..];
      Advance(ts, hw, plan, written, next, ClassesFrom(ts, p, classes[k + 1..]));
      ok := UpdateChildren(dt, p, classes[k]);
      if !ok {
        return;
      }
      written := written + Executed(ts, next);
      k := k + 1;
    }
    assert written + [] == written;
    return true;
  }

  method UpdateProc(dt: Tree, p: nat) returns (ok: bool)
    requires dt.Valid() && p < |dt.targets|
    modifies dt`hwas
    ensures dt.Valid()
    ensures ok == Completes(dt.targets, ProcPlan(dt.targets, p))
    ensures dt.hwas == ApplyLog(old(dt.hwas), Executed(dt.targets, ProcPlan(dt.targets, p)))
  {
    ghost var ts, first := dt.targets, Update(p, dt.targets[p].statusEnabled);
    SingleAction(ts, dt.hwas, first);
    ghost var units := if IsMaster(ts[p]) then ClassesFrom(ts, p, MASTER_CHILD_CLASSES) else [];
    ExecutedConcat(ts, [first], units);
    ApplyConcat(dt.hwas, Executed(ts, [first]), Executed(ts, units));
    ok := dt.SetOrClearState(p, dt.targets[p].statusEnabled);
    if !ok {
      return;
    }
    if IsMaster(dt.targets[p]) {
      ok := UpdateUnits(dt, p, MASTER_CHILD_CLASSES);
    }
  }

  method UpdateClock(dt: Tree, i: nat) returns (ok: bool)
    requires dt.Valid() && i < |dt.targets|
    modifies dt`hwas
    ensures dt.Valid()
    ensures ok == Completes(dt.targets, ClockPlan(dt.targets, i))
    ensures dt.hwas == ApplyLog(old(dt.hwas), Executed(dt.targets, ClockPlan(dt.targets, i)))
  {
    ClockSteps(dt.targets, i);
    SingleAction(dt.targets, dt.hwas, Update(i, true));
    assert ApplyLog(dt.hwas, []) == dt.hwas;
    if dt.targets[i].position.None? {
      return false;
    }
    if !dt.targets[i].probeEnabled {
      return false;
    }
    ok := dt.SetOrClearState(i, true);
  }

  method UpdateGenesisHwasState(dt: Tree) returns (ok: bool)
    requires dt.Valid()
    modifies dt`hwas
    ensures dt.Valid()
    ensures ok == Completes(dt.targets, GenesisPlan(dt.targets))
    ensures dt.hwas == ApplyLog(old(dt.hwas), Executed(dt.targets, GenesisPlan(dt.targets)))
  {
    ghost var ts, hw, plan, written := dt.targets, dt.hwas, GenesisPlan(dt.targets), [];
    var p := 0;
    while p < |dt.targets|
      invariant p <= |ts| && dt.Valid()
      invariant dt.hwas == ApplyLog(hw, written)
      invariant Doing(ts, plan, written, ProcsFrom(ts, p) + ClocksFrom(ts, 0))
    {
      if dt.targets[p].cls == Proc {
        ghost var next, rest := ProcPlan(ts, p), ProcsFrom(ts, p + 1) + ClocksFrom(ts, 0);
        assert ProcsFrom(ts, p) + ClocksFrom(ts, 0) == next + rest;
        Advance(ts, hw, plan, written, next, rest);
        ok := UpdateProc(dt, p);
        if !ok {
          return;
        }
        written := written + Executed(ts, next);
      }
      p := p + 1;
    }
    var i := 0;
    assert ProcsFrom(ts, p) + ClocksFrom(ts, 0) == ClocksFrom(ts, 0);
    while i < |dt.targets|
      invariant i <= |ts| && dt.Valid()
      invariant dt.hwas == ApplyLog(hw, written)
      invariant Doing(ts, plan, written, ClocksFrom(ts, i))
    {
      if dt.targets[i].cls == OscRefClk {
        Advance(ts, hw, plan, written, ClockPlan(ts, i), ClocksFrom(ts, i + 1));
        ok := UpdateClock(dt, i);
        if !ok {
          return;
        }
        written := written + Executed(ts, ClockPlan(ts, i));
      }
      i := i + 1;
    }
    assert written + [] == written;
    return true;
  }

  // ---------- what a completed setup has decided for every target ----------

  /** Target i is one of the units that setup rewrites on behalf of the master processor q. */
  predicate UnitOf(ts: Targets, i: nat, q: nat)
    requires i < |ts|
    ensures UnitOf(ts, i, q) ==> ts[i].cls != Proc && ts[i].cls != OscRefClk
  {
    && q < |ts| && ts[q].cls == Proc && IsMaster(ts[q])
    && ts[i].cls in MASTER_CHILD_CLASSES && Beneath(ts, i, q)
  }

  predicate UnitValue(ts: Targets, i: nat, enabled: bool)
    requires i < |ts|
  {
    enabled && !(ts[i].cls == Iohs && ts[i].iohsMode == Some(Unused))
  }

  lemma ChildrenSplit(ts: Targets, p: nat, cls: Class, j: nat, i: nat)
    requires p < |ts| && j < |ts| && i < |ts|
    requires Completes(ts, ChildrenFrom(ts, p, cls, j))
    ensures Completes(ts, ChildrenFrom(ts, p, cls, j + 1))
    ensures var rest := LastValue(Executed(ts, ChildrenFrom(ts, p, cls, j + 1)), i);
            LastValue(Executed(ts, ChildrenFrom(ts, p, cls, j)), i) ==
            if rest.None? && i == j && ts[j].cls == cls && Beneath(ts, j, p) then
              Some(UnitValue(ts, i, ts[p].statusEnabled))
            else rest
  {
    if ts[j].cls == cls && Beneath(ts, j, p) {
      var a, rest := ChildAction(ts, j, ts[p].statusEnabled), ChildrenFrom(ts, p, cls, j + 1);
      ExecutedConcat(ts, [a], rest);
      SingleAction(ts, [], a);
      LastConcat(Executed(ts, [a]), Executed(ts, rest), i);
    }
  }

  lemma {:induction false} ChildrenLast(ts: Targets, p: nat, cls: Class, j: nat, i: nat)
    requires p < |ts| && j <= |ts| && i < |ts|
    requires Completes(ts, ChildrenFrom(ts, p, cls, j))
    ensures LastValue(Executed(ts, ChildrenFrom(ts, p, cls, j)), i) ==
            if j <= i && ts[i].cls == cls && Beneath(ts, i, p) then Some(UnitValue(ts, i, ts[p].statusEnabled))
            else None
    decreases |ts| - j
  {
    if j < |ts| {
      ChildrenSplit(ts, p, cls, j, i);
      ChildrenLast(ts, p, cls, j + 1, i);
    }
  }

  lemma {:induction false} ClassesLast(ts: Targets, p: nat, classes: seq<Class>, i: nat)
    requires p < |ts| && i < |ts|
    requires Completes(ts, ClassesFrom(ts, p, classes))
    ensures LastValue(Executed(ts, ClassesFrom(ts, p, classes)), i) ==
            if ts[i].cls in classes && Beneath(ts, i, p) then Some(UnitValue(ts, i, ts[p].statusEnabled)) else None
  {
    if classes != [] {
      var a, rest := ChildrenFrom(ts, p, classes[0], 0), ClassesFrom(ts, p, classes[1..]);
      ExecutedConcat(ts, a, rest);
      LastConcat(Executed(ts, a), Executed(ts, rest), i);
      ChildrenLast(ts, p, classes[0], 0, i);
      ClassesLast(ts, p, classes[1..], i);
      assert ts[i].cls in classes <==> ts[i].cls == classes[0] || ts[i].cls in classes[1..];
    }
  }

  lemma ProcLast(ts: Targets, p: nat, i: nat)
    requires p < |ts| && i < |ts| && ts[p].cls == Proc
    requires Completes(ts, ProcPlan(ts, p))
    ensures LastValue(Executed(ts, ProcPlan(ts, p)), i) ==
            if UnitOf(ts, i, p) then Some(UnitValue(ts, i, ts[p].statusEnabled))
            else if i == p then Some(ts[p].statusEnabled)
            else None
  {
    var a := Update(p, ts[p].statusEnabled);
    var units := if IsMaster(ts[p]) then ClassesFrom(ts, p, MASTER_CHILD_CLASSES) else [];
    ExecutedConcat(ts, [a], units);
    SingleAction(ts, [], a);
    LastConcat(Executed(ts, [a]), Executed(ts, units), i);
    if IsMaster(ts[p]) {
      ClassesLast(ts, p, MASTER_CHILD_CLASSES, i);
    }
  }

  lemma ProcsSplit(ts: Targets, p: nat, i: nat)
    requires p < |ts| && i < |ts|
    requires Completes(ts, ProcsFrom(ts, p))
    ensures Completes(ts, ProcsFrom(ts, p + 1))
    ensures var rest := LastValue(Executed(ts, ProcsFrom(ts, p + 1)), i);
            LastValue(Executed(ts, ProcsFrom(ts, p)), i) ==
            if rest.Some? || ts[p].cls != Proc then rest
            else if UnitOf(ts, i, p) then Some(UnitValue(ts, i, ts[p].statusEnabled))
            else if i == p then Some(ts[p].statusEnabled)
            else None
  {
    if ts[p].cls == Proc {
      var a, b := ProcPlan(ts, p), ProcsFrom(ts, p + 1);
      ExecutedConcat(ts, a, b);
      LastConcat(Executed(ts, a), Executed(ts, b), i);
      ProcLast(ts, p, i);
    }
  }

  /** Target i is a unit of no master processor from p on. */
  ghost predicate NoMasterFrom(ts: Targets, i: nat, p: nat)
    requires i < |ts|
  {
    forall q: nat | p <= q :: !UnitOf(ts, i, q)
  }

  /** A target with no master processor above it is written once, if it is a processor itself. */
  lemma {:induction false} ProcsLastSelf(ts: Targets, p: nat, i: nat)
    requires p <= |ts| && i < |ts|
    requires Completes(ts, ProcsFrom(ts, p))
    requires NoMasterFrom(ts, i, p)
    ensures LastValue(Executed(ts, ProcsFrom(ts, p)), i) ==
            if ts[i].cls == Proc && p <= i then Some(ts[i].statusEnabled) else None
    decreases |ts| - p
  {
    if p < |ts| {
      ProcsSplit(ts, p, i);
      ProcsLastSelf(ts, p + 1, i);
    }
  }

  /** The last master processor above a unit writes it, and nothing after it does. */
  lemma ProcsLastAt(ts: Targets, q: nat, i: nat)
    requires q < |ts| && i < |ts| && UnitOf(ts, i, q) && NoMasterFrom(ts, i, q + 1)
    requires Completes(ts, ProcsFrom(ts, q))
    ensures LastValue(Executed(ts, ProcsFrom(ts, q)), i) == Some(UnitValue(ts, i, ts[q].statusEnabled))
  {
    ProcsSplit(ts, q, i);
    ProcsLastSelf(ts, q + 1, i);
  }

  /** A unit is decided by the last master processor above it. */
  lemma {:induction false} ProcsLastUnit(ts: Targets, p: nat, i: nat, q: nat)
    requires p <= q < |ts| && i < |ts| && UnitOf(ts, i, q) && NoMasterFrom(ts, i, q + 1)
    requires Completes(ts, ProcsFrom(ts, p))
    ensures LastValue(Executed(ts, ProcsFrom(ts, p)), i) == Some(UnitValue(ts, i, ts[q].statusEnabled))
    decreases q - p
  {
    if p == q {
      ProcsLastAt(ts, q, i);
    } else {
      ProcsSplit(ts, p, i);
      ProcsLastUnit(ts, p + 1, i, q);
    }
  }

  lemma {:induction false} ClocksLast(ts: Targets, j: nat, i: nat)
    requires j <= |ts| && i < |ts|
    requires Completes(ts, ClocksFrom(ts, j))
    ensures LastValue(Executed(ts, ClocksFrom(ts, j)), i) ==
            if j <= i && ts[i].cls == OscRefClk then Some(true) else None
    decreases |ts| - j
  {
    if j < |ts| {
      if ts[j].cls == OscRefClk {
        ExecutedConcat(ts, ClockPlan(ts, j), ClocksFrom(ts, j + 1));
        LastConcat(Executed(ts, ClockPlan(ts, j)), Executed(ts, ClocksFrom(ts, j + 1)), i);
        ClockSteps(ts, j);
      }
      ClocksLast(ts, j + 1, i);
    }
  }

  lemma GenesisLast(ts: Targets, i: nat)
    requires i < |ts| && Completes(ts, GenesisPlan(ts))
    ensures Completes(ts, ProcsFrom(ts, 0))
    ensures LastValue(Executed(ts, GenesisPlan(ts)), i) ==
            if ts[i].cls == OscRefClk then Some(true) else LastValue(Executed(ts, ProcsFrom(ts, 0)), i)
  {
    ExecutedConcat(ts, ProcsFrom(ts, 0), ClocksFrom(ts, 0));
    LastConcat(Executed(ts, ProcsFrom(ts, 0)), Executed(ts, ClocksFrom(ts, 0)), i);
    ClocksLast(ts, 0, i);
  }

  /**
   * After a completed setup a processor is functional iff it is enabled, a unit
   * iff the last master processor above it is enabled and it is not an unused
   * iohs, and every reference clock is functional; nothing else has changed.
   */
  lemma GenesisOutcome(ts: Targets, hw: seq<State>, i: nat)
    requires |hw| == |ts| && i < |ts|
    requires Completes(ts, GenesisPlan(ts))
    ensures var h := ApplyLog(hw, Executed(ts, GenesisPlan(ts)))[i];
            && (ts[i].cls == Proc ==> IsFunctional(h) == ts[i].statusEnabled)
            && (ts[i].cls == OscRefClk ==> IsFunctional(h))
            && (forall q: nat | UnitOf(ts, i, q) && NoMasterFrom(ts, i, q + 1) ::
                  IsFunctional(h) == UnitValue(ts, i, ts[q].statusEnabled))
            && (ts[i].cls != Proc && ts[i].cls != OscRefClk && NoMasterFrom(ts, i, 0) ==> h == hw[i])
  {
    GenesisLast(ts, i);
    LogEffect(hw, Executed(ts, GenesisPlan(ts)), i);
    if NoMasterFrom(ts, i, 0) {
      ProcsLastSelf(ts, 0, i);
    }
    forall q: nat | UnitOf(ts, i, q) && NoMasterFrom(ts, i, q + 1)
      ensures IsFunctional(ApplyLog(hw, Executed(ts, GenesisPlan(ts)))[i]) == UnitValue(ts, i, ts[q].statusEnabled)
    {
      ProcsLastUnit(ts, 0, i, q);
    }
  }

  // ---------- when setup completes ----------

  predicate UnitReady(t: Target) {
    Accessible(t) && (t.cls == Iohs ==> t.iohsMode.Some?)
  }

  /** Processor q, and every unit setup rewrites for it, can be accessed. */
  predicate ProcReady(ts: Targets, q: nat)
    requires q < |ts|
  {
    Accessible(ts[q]) && forall i :: 0 <= i < |ts| && UnitOf(ts, i, q) ==> UnitReady(ts[i])
  }

  lemma ChildrenCompleteStep(ts: Targets, p: nat, cls: Class, j: nat)
    requires p < |ts| && j < |ts|
    ensures Completes(ts, ChildrenFrom(ts, p, cls, j)) <==>
            && (ts[j].cls == cls && Beneath(ts, j, p) ==> UnitReady(ts[j]))
            && Completes(ts, ChildrenFrom(ts, p, cls, j + 1))
  {
    if ts[j].cls == cls && Beneath(ts, j, p) {
      var a := ChildAction(ts, j, ts[p].statusEnabled);
      ExecutedCons(ts, a, ChildrenFrom(ts, p, cls, j + 1));
      assert Ok(ts, a) <==> UnitReady(ts[j]);
    }
  }

  lemma {:induction false} ChildrenComplete(ts: Targets, p: nat, cls: Class, j: nat)
    requires p < |ts| && j <= |ts|
    ensures Completes(ts, ChildrenFrom(ts, p, cls, j)) <==>
            forall i :: j <= i < |ts| && ts[i].cls == cls && Beneath(ts, i, p) ==> UnitReady(ts[i])
    decreases |ts| - j
  {
    if j < |ts| {
      ChildrenComplete(ts, p, cls, j + 1);
      ChildrenCompleteStep(ts, p, cls, j);
    }
  }

  predicate ClassesReady(ts: Targets, p: nat, classes: seq<Class>) {
    forall i :: 0 <= i < |ts| && ts[i].cls in classes && Beneath(ts, i, p) ==> UnitReady(ts[i])
  }

  lemma {:induction false} ClassesComplete(ts: Targets, p: nat, classes: seq<Class>)
    requires p < |ts|
    ensures Completes(ts, ClassesFrom(ts, p, classes)) <==> ClassesReady(ts, p, classes)
  {
    if classes != [] {
      ClassesComplete(ts, p, classes[1..]);
      ChildrenComplete(ts, p, classes[0], 0);
      ExecutedConcat(ts, ChildrenFrom(ts, p, classes[0], 0), ClassesFrom(ts, p, classes[1..]));
      assert forall c :: c in classes <==> c == classes[0] || c in classes[1..];
    }
  }

  lemma ProcComplete(ts: Targets, p: nat)
    requires p < |ts| && ts[p].cls == Proc
    ensures Completes(ts, ProcPlan(ts, p)) <==> ProcReady(ts, p)
  {
    var a := Update(p, ts[p].statusEnabled);
    var units := if IsMaster(ts[p]) then ClassesFrom(ts, p, MASTER_CHILD_CLASSES) else [];
    ExecutedConcat(ts, [a], units);
    SingleAction(ts, [], a);
    ClassesComplete(ts, p, MASTER_CHILD_CLASSES);
  }

  predicate ProcsReady(ts: Targets, p: nat) {
    forall q :: p <= q < |ts| && ts[q].cls == Proc ==> ProcReady(ts, q)
  }

  lemma ProcsReadyFrom(ts: Targets, p: nat)
    requires p < |ts|
    ensures ProcsReady(ts, p) <==> (ts[p].cls == Proc ==> ProcReady(ts, p)) && ProcsReady(ts, p + 1)
  {
  }

  lemma {:induction false} ProcsComplete(ts: Targets, p: nat)
    requires p <= |ts|
    ensures Completes(ts, ProcsFrom(ts, p)) <==> ProcsReady(ts, p)
    decreases |ts| - p
  {
    if p < |ts| {
      ProcsComplete(ts, p + 1);
      ProcsReadyFrom(ts, p);
      if ts[p].cls == Proc {
        ExecutedConcat(ts, ProcPlan(ts, p), ProcsFrom(ts, p + 1));
        ProcComplete(ts, p);
      }
    }
  }

  predicate ClocksReady(ts: Targets, j: nat) {
    forall i :: j <= i < |ts| && ts[i].cls == OscRefClk ==> ClockReady(ts[i])
  }

  lemma ClocksCompleteStep(ts: Targets, j: nat)
    requires j < |ts|
    ensures Completes(ts, ClocksFrom(ts, j)) <==>
            (ts[j].cls == OscRefClk ==> ClockReady(ts[j])) && Completes(ts, ClocksFrom(ts, j + 1))
  {
    if ts[j].cls == OscRefClk {
      ExecutedConcat(ts, ClockPlan(ts, j), ClocksFrom(ts, j + 1));
      ClockSteps(ts, j);
    }
  }

  lemma {:induction false} ClocksComplete(ts: Targets, j: nat)
    requires j <= |ts|
    ensures Completes(ts, ClocksFrom(ts, j)) <==> ClocksReady(ts, j)
    decreases |ts| - j
  {
    if j < |ts| {
      ClocksComplete(ts, j + 1);
      ClocksCompleteStep(ts, j);
    }
  }

  /** Setup succeeds iff every processor, unit of a master and reference clock it has to handle is ready. */
  lemma GenesisSucceedsIff(ts: Targets)
    ensures Completes(ts, GenesisPlan(ts)) <==>
            && ProcsReady(ts, 0)
            && ClocksReady(ts, 0)
  {
    ExecutedConcat(ts, ProcsFrom(ts, 0), ClocksFrom(ts, 0));
    ProcsComplete(ts, 0);
    ClocksComplete(ts, 0);
  }

  // ---------- the same by class and by byte ----------

  /** The units setup rewrites are the targets of the eight classes beneath a master processor. */
  lemma UnitsAre(ts: Targets, i: nat, q: nat)
    requires i < |ts|
    ensures UnitOf(ts, i, q) <==> UnitUnder(ts, i, q)
  {
  }

  /** No master processor from p on has target i beneath it, as one of the eight classes. */
  ghost predicate NoneUnder(ts: Targets, i: nat, p: nat)
    requires i < |ts|
  {
    forall q: nat :: p <= q ==> !UnitUnder(ts, i, q)
  }

  lemma NoneUnderIs(ts: Targets, i: nat, p: nat)
    requires i < |ts|
    ensures NoneUnder(ts, i, p) <==> NoMasterFrom(ts, i, p)
  {
    forall q: nat ensures UnitOf(ts, i, q) <==> UnitUnder(ts, i, q) {
      UnitsAre(ts, i, q);
    }
  }

  /** Both bits are raised, or the functional bit is down. */
  predicate RaisedIff(h: State, up: bool) {
    if up then h[4] & 0x60 == 0x60 else h[4] & 0x20 == 0
  }

  lemma WrittenByte(hw: seq<State>, log: seq<Write>, i: nat)
    requires i < |hw|
    ensures match LastValue(log, i)
            case None => ApplyLog(hw, log)[i] == hw[i]
            case Some(v) => RaisedIff(ApplyLog(hw, log)[i], v)
  {
    LogBytes(hw, log, i);
  }

  /** The flag byte of every target after a completed setup, class by class. */
  lemma GenesisByClass(ts: Targets, hw: seq<State>, i: nat)
    requires |hw| == |ts| && i < |ts| && Completes(ts, GenesisPlan(ts))
    ensures var h := ApplyLog(hw, Executed(ts, GenesisPlan(ts)))[i];
            && (ts[i].cls == Proc ==> RaisedIff(h, ts[i].statusEnabled))
            && (ts[i].cls == OscRefClk ==> RaisedIff(h, true))
            && (forall q: nat :: UnitUnder(ts, i, q) && NoneUnder(ts, i, q + 1) ==>
                  RaisedIff(h, ts[q].statusEnabled && !(ts[i].cls == Iohs && ts[i].iohsMode == Some(Unused))))
            && (ts[i].cls != Proc && ts[i].cls != OscRefClk && NoneUnder(ts, i, 0) ==> h == hw[i])
  {
    GenesisLast(ts, i);
    WrittenByte(hw, Executed(ts, GenesisPlan(ts)), i);
    NoneUnderIs(ts, i, 0);
    if NoMasterFrom(ts, i, 0) {
      ProcsLastSelf(ts, 0, i);
    }
    forall q: nat | UnitUnder(ts, i, q) && NoneUnder(ts, i, q + 1)
      ensures LastValue(Executed(ts, ProcsFrom(ts, 0)), i) == Some(UnitValue(ts, i, ts[q].statusEnabled))
      ensures ts[i].cls != Proc && ts[i].cls != OscRefClk
    {
      UnitsAre(ts, i, q);
      NoneUnderIs(ts, i, q + 1);
      ProcsLastUnit(ts, 0, i, q);
    }
  }

  /** What setup needs of one target: access, and more of an iohs unit and of a clock. */
  predicate Handled(t: Target) {
    && t.hwasReadable && t.hwasWritable
    && (t.cls == Iohs ==> t.iohsMode.Some?)
    && (t.cls == OscRefClk ==> t.position.Some? && t.probeEnabled)
  }

  /** A processor, a reference clock, or a target of the eight classes beneath a master processor. */
  ghost predicate Concerned(ts: Targets, i: nat)
    requires i < |ts|
  {
    ts[i].cls == Proc || ts[i].cls == OscRefClk || exists q: nat :: UnitUnder(ts, i, q)
  }

  /** Setup completes iff every processor, every reference clock and every unit beneath a master can be handled. */
  lemma GenesisCompletesIff(ts: Targets)
    ensures Completes(ts, GenesisPlan(ts)) <==>
            forall i :: 0 <= i < |ts| && Concerned(ts, i) ==> Handled(ts[i])
  {
    GenesisSucceedsIff(ts);
    forall i: nat, q: nat | i < |ts| ensures UnitOf(ts, i, q) <==> UnitUnder(ts, i, q) {
      UnitsAre(ts, i, q);
    }
    UnitsReadyIff(ts);
  }

  lemma UnitsReadyIff(ts: Targets)
    ensures ProcsReady(ts, 0) <==>
            && (forall q :: 0 <= q < |ts| && ts[q].cls == Proc ==> Accessible(ts[q]))
            && (forall i: nat, q: nat :: i < |ts| && UnitOf(ts, i, q) ==> UnitReady(ts[i]))
  {
    if ProcsReady(ts, 0) {
      forall i: nat, q: nat | i < |ts| && UnitOf(ts, i, q) ensures UnitReady(ts[i]) {
        assert ProcReady(ts, q);
      }
    }
  }
}
