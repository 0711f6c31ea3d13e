/**
 * The device tree of one system: fixed target descriptions in traversal order,
 * and the two per-target values a boot rewrites, HWAS state and SBE state.
 */
module DeviceTree {
  import opened Base
  import opened GuardKey
  import opened Hwas

  datatype IohsMode = Unused | InUse

  /** The target classes the passes tell apart. */
  datatype Class = Proc | Core | Pauc | Pau | Iohs | Mc | Chiplet | Pec | Fc | OscRefClk | OtherClass

  datatype SbeState = NotUsable | Booted | CheckCfam | DebugMode

  /** ATTR_PHYS_BIN_PATH. */
  type BinPath = p: seq<Byte> | |p| == KEY_LENGTH
    witness [0, 0, 0, 0, 0, 0, 0, 0, 0, 0, 0, 0, 0, 0, 0, 0, 0, 0, 0, 0, 0]

  /** None and false fields are attributes whose access fails. */
  datatype Target = Target(
    cls: Class,
    parent: Option<nat>,
    index: nat,
    statusEnabled: bool,
    probeEnabled: bool,
    binPath: Option<BinPath>,
    devPathReadable: bool,
    fruType: Option<Byte>,
    masterType: Option<Byte>,
    iohsMode: Option<IohsMode>,
    position: Option<Byte>,
    hwasReadable: bool,
    hwasWritable: bool,
    pibPresent: bool,
    sbeWritable: bool)

  /** Targets in traversal order: a parent comes before what lies beneath it. */
  type Targets = ts: seq<Target> |
    forall i :: 0 <= i < |ts| && ts[i].parent.Some? ==> ts[i].parent.value < i
    witness []

  predicate Beneath(ts: Targets, i: nat, a: nat)
    requires i < |ts|
    decreases i
  {
    ts[i].parent.Some? && (ts[i].parent.value == a || Beneath(ts, ts[i].parent.value, a))
  }

  // ---------- vocabulary of the statements; no pass is defined through it ----------

  /** Master type 0, or index 0 when the type cannot be read. */
  predicate MarkedMaster(t: Target) { t.masterType == Some(0) || (t.masterType.None? && t.index == 0) }

  predicate MasterProc(t: Target) { t.cls == Proc && MarkedMaster(t) }

  /** The functional bit, or the pdbg status when the attribute cannot be read. */
  predicate Works(t: Target, h: State) {
    if t.hwasReadable then h[4] & 0x20 == 0x20 else t.statusEnabled
  }

  /** The present bit, or the pdbg status when the attribute cannot be read. */
  predicate Seen(t: Target, h: State) {
    if t.hwasReadable then h[4] & 0x40 == 0x40 else t.statusEnabled
  }

  /** The eight classes whose targets beneath a master processor belong to the boot. */
  predicate BootUnit(c: Class) {
    c == Core || c == Pauc || c == Pau || c == Iohs || c == Mc || c == Chiplet || c == Pec || c == Fc
  }

  /** Target i belongs to the boot on behalf of master processor q. */
  predicate UnitUnder(ts: Targets, i: nat, q: nat)
    requires i < |ts|
  {
    BootUnit(ts[i].cls) && q < |ts| && MasterProc(ts[q]) && Beneath(ts, i, q)
  }

  /** A chain of parents from i up to a. */
  predicate Chain(ts: Targets, path: seq<nat>, i: nat, a: nat) {
    && |path| >= 2 && path[0] == i && path[|path| - 1] == a
    && forall k :: 0 <= k < |path| - 1 ==> path[k] < |ts| && ts[path[k]].parent == Some(path[k + 1])
  }

  /** Beneath means that some chain of parents, of any length, leads up. */
  lemma {:induction false} BeneathIffChain(ts: Targets, i: nat, a: nat)
    requires i < |ts|
    ensures Beneath(ts, i, a) <==> exists path :: Chain(ts, path, i, a)
    decreases i
  {
    if ts[i].parent.Some? {
      var p := ts[i].parent.value;
      BeneathIffChain(ts, p, a);
      if p == a {
        assert Chain(ts, [i, a], i, a);
      } else if Beneath(ts, p, a) {
        var path :| Chain(ts, path, p, a);
        assert Chain(ts, [i] + path, i, a);
      }
    }
    if path :| Chain(ts, path, i, a) {
      if |path| > 2 {
        assert Chain(ts, path[1..], path[1], a);
      }
    }
  }

  predicate Accessible(t: Target) { t.hwasReadable && t.hwasWritable }

  /** Master type 0 is the master; an unreadable type falls back on index 0. */
  predicate IsMaster(t: Target) {
    if t.masterType.None? then t.index == 0 else t.masterType.value == 0
  }

  predicate IsTargetPresent(t: Target, h: State) {
    if t.hwasReadable then IsPresent(h) else t.statusEnabled
  }

  predicate IsTargetFunctional(t: Target, h: State) {
    if t.hwasReadable then IsFunctional(h) else t.statusEnabled
  }

  /** What ipl_check_functional_master decides. */
  predicate MastersFunctional(ts: Targets, hw: seq<State>)
    requires |hw| == |ts|
  {
    forall i :: 0 <= i < |ts| && ts[i].cls == Proc && IsMaster(ts[i]) ==> IsTargetFunctional(ts[i], hw[i])
  }

  /** The SBE states after writing s to every present processor, or to every present secondary. */
  function SbeAfterSetAll(ts: Targets, hw: seq<State>, sbe: seq<SbeState>, s: SbeState, secondaryOnly: bool, n: nat)
    : (r: seq<SbeState>)
    requires |hw| == |ts| == |sbe|
    ensures |r| == |sbe|
  {
    seq(|sbe|, i requires 0 <= i < |sbe| =>
      if i < n && SbeSelected(ts[i], hw[i], secondaryOnly) && ts[i].pibPresent && ts[i].sbeWritable then s else sbe[i])
  }

  predicate SbeSelected(t: Target, h: State, secondaryOnly: bool) {
    t.cls == Proc && !(secondaryOnly && IsMaster(t)) && IsTargetPresent(t, h)
  }

  class Tree {
    const targets: Targets
    var hwas: seq<State>
    var sbe: seq<SbeState>

    ghost predicate Valid()
      reads this
    {
      |hwas| == |sbe| == |targets|
    }

    constructor (targets: Targets, hwas: seq<State>, sbe: seq<SbeState>)
      requires |hwas| == |sbe| == |targets|
      ensures Valid()
      ensures this.targets == targets && this.hwas == hwas && this.sbe == sbe
    {
      this.targets, this.hwas, this.sbe := targets, hwas, sbe;
    }

    /** Read, change and write back one HWAS attribute; false when an access fails. */
    method SetOrClearState(i: nat, doSet: bool) returns (ok: bool)
      requires Valid() && i < |targets|
      modifies this`hwas
      ensures Valid()
      ensures ok == Accessible(targets[i])
      ensures hwas == if ok then ApplyWrite(old(hwas), Write(i, doSet)) else old(hwas)
    {
      if !targets[i].hwasReadable {
        return false;
      }
      var buf: State := hwas[i];
      if doSet {
        buf := buf[4 := buf[4] | (PRESENT | FUNCTIONAL)];
      } else {
        buf := buf[4 := buf[4] & !FUNCTIONAL];
      }
      if !targets[i].hwasWritable {
        return false;
      }
      hwas := hwas[i := buf];
      return true;
    }

    method CheckFunctionalMaster() returns (ok: bool)
      requires Valid()
      ensures ok == MastersFunctional(targets, hwas)
      ensures ok <==> forall i :: 0 <= i < |targets| && MasterProc(targets[i]) ==> Works(targets[i], hwas[i])
    {
      var i := 0;
      while i < |targets|
        invariant i <= |targets|
        invariant forall k :: 0 <= k < i && targets[k].cls == Proc && IsMaster(targets[k])
                    ==> IsTargetFunctional(targets[k], hwas[k])
      {
        if targets[i].cls == Proc && IsMaster(targets[i]) {
          if !IsTargetFunctional(targets[i], hwas[i]) {
            return false;
          }
        }
        i := i + 1;
      }
      return true;
    }

    /** Write the soft SBE state of one processor through its PIB target. */
    method SetSbeState(i: nat, s: SbeState) returns (rc: int)
      requires Valid() && i < |targets|
      modifies this`sbe
      ensures Valid()
      ensures rc == if targets[i].pibPresent && targets[i].sbeWritable then 0 else 1
      ensures sbe == if rc == 0 then old(sbe)[i := s] else old(sbe)
    {
      if !targets[i].pibPresent {
        return 1;
      }
      if !targets[i].sbeWritable {
        return 1;
      }
      sbe := sbe[i := s];
      return 0;
    }

    /** All present processors, continuing past failures; any failure shows in the result. */
    method SetSbeStateAll(s: SbeState, secondaryOnly: bool) returns (ret: int)
      requires Valid()
      modifies this`sbe
      ensures Valid()
      ensures sbe == SbeAfterSetAll(targets, hwas, old(sbe), s, secondaryOnly, |targets|)
      ensures forall i :: 0 <= i < |targets| ==>
                sbe[i] == if targets[i].cls == Proc && !(secondaryOnly && MasterProc(targets[i]))
                             && Seen(targets[i], hwas[i]) && targets[i].pibPresent && targets[i].sbeWritable then s
                          else old(sbe)[i]
      ensures ret == 0 <==> forall i :: 0 <= i < |targets| && SbeSelected(targets[i], hwas[i], secondaryOnly)
                              ==> targets[i].pibPresent && targets[i].sbeWritable
      ensures ret == 0 || ret == 1
    {
      ret := 0;
      var i := 0;
      while i < |targets|
        invariant i <= |targets| && Valid()
        invariant sbe == SbeAfterSetAll(targets, hwas, old(sbe), s, secondaryOnly, i)
        invariant ret == 0 || ret == 1
        invariant ret == 0 <==> forall k :: 0 <= k < i && SbeSelected(targets[k], hwas[k], secondaryOnly)
                                  ==> targets[k].pibPresent && targets[k].sbeWritable
      {
        if SbeSelected(targets[i], hwas[i], secondaryOnly) {
          var rc := SetSbeState(i, s);
          if rc != 0 {
            ret := 1;
          }
        }
        i := i + 1;
      }
    }
  }

  // ---------- plans: what a pass does until its first failing access ----------

  datatype Action = Update(target: nat, value: bool) | Require(ok: bool)

  predicate Ok(ts: Targets, a: Action) {
    match a
    case Update(i, _) => i < |ts| && Accessible(ts[i])
    case Require(ok) => ok
  }

  predicate Completes(ts: Targets, plan: seq<Action>) {
    plan == [] || (Ok(ts, plan[0]) && Completes(ts, plan[1..]))
  }

  /** The writes made before the first failure. */
  function Executed(ts: Targets, plan: seq<Action>): seq<Write> {
    if plan == [] || !Ok(ts, plan[0]) then []
    else (if plan[0].Update? then [Write(plan[0].target, plan[0].value)] else []) + Executed(ts, plan[1..])
  }

  /** What the first action contributes. */
  function Head(ts: Targets, a: Action): seq<Write> {
    if Ok(ts, a) && a.Update? then [Write(a.target, a.value)] else []
  }

  lemma ExecutedCons(ts: Targets, a: Action, rest: seq<Action>)
    ensures Completes(ts, [a] + rest) <==> Ok(ts, a) && Completes(ts, rest)
    ensures Executed(ts, [a] + rest) == Head(ts, a) + (if Ok(ts, a) then Executed(ts, rest) else [])
  {
    assert ([a] + rest)[1..] == rest;
  }

  lemma ConcatStep(ts: Targets, x: Action, a: seq<Action>, b: seq<Action>)
    requires Completes(ts, a + b) <==> Completes(ts, a) && Completes(ts, b)
    requires Executed(ts, a + b) == Executed(ts, a) + (if Completes(ts, a) then Executed(ts, b) else [])
    ensures Completes(ts, [x] + (a + b)) <==> Completes(ts, [x] + a) && Completes(ts, b)
    ensures Executed(ts, [x] + (a + b)) ==
            Executed(ts, [x] + a) + (if Completes(ts, [x] + a) then Executed(ts, b) else [])
  {
    ExecutedCons(ts, x, a);
    ExecutedCons(ts, x, a + b);
    Regroup(Head(ts, x), Executed(ts, a), if Completes(ts, a) then Executed(ts, b) else []);
  }

  lemma {:induction false} ExecutedConcat(ts: Targets, a: seq<Action>, b: seq<Action>)
    ensures Completes(ts, a + b) <==> Completes(ts, a) && Completes(ts, b)
    ensures Executed(ts, a + b) == Executed(ts, a) + (if Completes(ts, a) then Executed(ts, b) else [])
  {
    if a == [] {
      assert a + b == b;
    } else {
      var x, tail := a[0], a[1..];
      assert a == [x] + tail;
      Regroup([x], tail, b);
      ExecutedConcat(ts, tail, b);
      ConcatStep(ts, x, tail, b);
    }
  }

  /** Part of the plan is done: its writes are in written, rest is still to do. */
  predicate Doing(ts: Targets, plan: seq<Action>, written: seq<Write>, rest: seq<Action>) {
    && Executed(ts, plan) == written + Executed(ts, rest)
    && (Completes(ts, plan) <==> Completes(ts, rest))
  }

  /** Doing the next stretch of a plan: it either completes, and the rest remains, or ends the whole plan. */
  lemma Advance(ts: Targets, hw: seq<State>, plan: seq<Action>, written: seq<Write>,
                next: seq<Action>, rest: seq<Action>)
    requires Doing(ts, plan, written, next + rest)
    ensures ApplyLog(hw, written + Executed(ts, next)) == ApplyLog(ApplyLog(hw, written), Executed(ts, next))
    ensures Completes(ts, next) ==> Doing(ts, plan, written + Executed(ts, next), rest)
    ensures !Completes(ts, next) ==> Executed(ts, plan) == written + Executed(ts, next) && !Completes(ts, plan)
  {
    var a, b := Executed(ts, next), Executed(ts, rest);
    ApplyConcat(hw, written, a);
    ExecutedConcat(ts, next, rest);
    if Completes(ts, next) {
      assert written + (a + b) == written + a + b;
    } else {
      assert a + [] == a;
    }
  }

  lemma SingleAction(ts: Targets, hw: seq<State>, a: Action)
    ensures Completes(ts, [a]) <==> Ok(ts, a)
    ensures Executed(ts, [a]) == if Ok(ts, a) && a.Update? then [Write(a.target, a.value)] else []
    ensures ApplyLog(hw, Executed(ts, [a])) ==
            if Ok(ts, a) && a.Update? then ApplyWrite(hw, Write(a.target, a.value)) else hw
  {
    assert [a][1..] == [];
    if Ok(ts, a) && a.Update? {
      ApplyAppend(hw, [], Write(a.target, a.value));
      assert [] + [Write(a.target, a.value)] == [Write(a.target, a.value)];
    }
  }

  /** The classes beneath a master processor that the boot passes rewrite. */
  const MASTER_CHILD_CLASSES: seq<Class> := [Core, Pauc, Pau, Iohs, Mc, Chiplet, Pec, Fc]
}
