/** The functional-override pass: units whose FCO bit is set become present and functional. */
module FcoOverride {
  import opened Hwas
  import opened DeviceTree
  import opened Genesis

  predicate Overridden(t: Target, h: State) { Accessible(t) && HasFco(h) }

  /** The pass restricted to the targets in s. */
  ghost function OverrideOn(ts: Targets, hw: seq<State>, s: set<nat>): (r: seq<State>)
    requires |hw| == |ts|
    ensures |r| == |hw|
  {
    seq(|hw|, i requires 0 <= i < |hw| => if i in s && Overridden(ts[i], hw[i]) then SetOrClear(hw[i], true) else hw[i])
  }

  ghost predicate HasMaster(ts: Targets, i: nat)
    requires i < |ts|
  {
    exists q: nat :: UnitOf(ts, i, q)
  }

  /** Every unit of every master processor. */
  ghost function MasterUnits(ts: Targets): set<nat> {
    set i: nat | i < |ts| && HasMaster(ts, i)
  }

  ghost function FcoApplied(ts: Targets, hw: seq<State>): (r: seq<State>)
    requires |hw| == |ts|
    ensures |r| == |hw|
  {
    OverrideOn(ts, hw, MasterUnits(ts))
  }

  /** A target that is visited again keeps the value the first visit gave it. */
  lemma OverrideUnion(ts: Targets, hw: seq<State>, s: set<nat>, t: set<nat>)
    requires |hw| == |ts|
    ensures OverrideOn(ts, OverrideOn(ts, hw, s), t) == OverrideOn(ts, hw, s + t)
  {
    forall i | 0 <= i < |ts| ensures OverrideOn(ts, OverrideOn(ts, hw, s), t)[i] == OverrideOn(ts, hw, s + t)[i] {
      SetOrClearBits(hw[i], true);
      SetTwice(hw[i]);
    }
  }

  lemma SetTwice(h: State)
    ensures SetOrClear(SetOrClear(h, true), true) == SetOrClear(h, true)
  {
    SetOrClearBits(h, true);
    SetOrClearBits(SetOrClear(h, true), true);
    SameBits(SetOrClear(h, true), SetOrClear(SetOrClear(h, true), true));
  }

  lemma FcoIdempotent(ts: Targets, hw: seq<State>)
    requires |hw| == |ts|
    ensures FcoApplied(ts, FcoApplied(ts, hw)) == FcoApplied(ts, hw)
  {
    OverrideUnion(ts, hw, MasterUnits(ts), MasterUnits(ts));
    assert MasterUnits(ts) + MasterUnits(ts) == MasterUnits(ts);
  }

  /** A target ends functional iff it was, or it is an accessible master unit with its FCO bit set. */
  lemma FcoOutcome(ts: Targets, hw: seq<State>, i: nat)
    requires |hw| == |ts| && i < |ts|
    ensures var h, hit := FcoApplied(ts, hw)[i], HasMaster(ts, i) && Overridden(ts[i], hw[i]);
            && IsFunctional(h) == (IsFunctional(hw[i]) || hit)
            && IsPresent(h) == (IsPresent(hw[i]) || hit)
            && SameElsewhere(hw[i], h) && HasFco(h) == HasFco(hw[i])
  {
    SetOrClearBits(hw[i], true);
  }

  ghost function ClassUnits(ts: Targets, p: nat, cls: Class, n: nat): set<nat>
    requires n <= |ts|
  {
    set i: nat | i < n && ts[i].cls == cls && Beneath(ts, i, p)
  }

  /** Visiting one more target writes it if it is to be overridden. */
  lemma OverrideStep(ts: Targets, hw: seq<State>, s: set<nat>, i: nat)
    requires |hw| == |ts| && i < |ts| && i !in s
    ensures var now := OverrideOn(ts, hw, s);
            && now[i] == hw[i]
            && OverrideOn(ts, hw, s + {i}) == if Overridden(ts[i], hw[i]) then ApplyWrite(now, Write(i, true)) else now
  {
    assert OverrideOn(ts, hw, s)[i] == hw[i];
  }

  /** One unit: an unreadable one is passed over, and so is a failing write. */
  method OverrideUnit(dt: Tree, i: nat)
    requires dt.Valid() && i < |dt.targets|
    modifies dt`hwas
    ensures dt.Valid()
    ensures dt.hwas == if Overridden(dt.targets[i], old(dt.hwas)[i]) then ApplyWrite(old(dt.hwas), Write(i, true))
                       else old(dt.hwas)
  {
    if !dt.targets[i].hwasReadable {
      return;
    }
    if dt.hwas[i][4] & FCO != 0 {
      var ok := dt.SetOrClearState(i, true);
    }
  }

  lemma ClassUnitsStep(ts: Targets, p: nat, cls: Class, i: nat)
    requires i < |ts|
    ensures i !in ClassUnits(ts, p, cls, i)
    ensures ClassUnits(ts, p, cls, i + 1) ==
            ClassUnits(ts, p, cls, i) + (if ts[i].cls == cls && Beneath(ts, i, p) then {i} else {})
  {
  }

  /** Visiting target i in the walk over one class. */
  lemma VisitStep(ts: Targets, hw: seq<State>, p: nat, cls: Class, i: nat)
    requires |hw| == |ts| && i < |ts|
    ensures var now := OverrideOn(ts, hw, ClassUnits(ts, p, cls, i));
            && now[i] == hw[i]
            && OverrideOn(ts, hw, ClassUnits(ts, p, cls, i + 1)) ==
               if ts[i].cls == cls && Beneath(ts, i, p) && Overridden(ts[i], hw[i]) then ApplyWrite(now, Write(i, true))
               else now
  {
    ClassUnitsStep(ts, p, cls, i);
    OverrideStep(ts, hw, ClassUnits(ts, p, cls, i), i);
  }

  method OverrideClass(dt: Tree, p: nat, cls: Class)
    requires dt.Valid() && p < |dt.targets|
    modifies dt`hwas
    ensures dt.Valid()
    ensures dt.hwas == OverrideOn(dt.targets, old(dt.hwas), ClassUnits(dt.targets, p, cls, |dt.targets|))
  {
    ghost var ts, hw := dt.targets, dt.hwas;
    var i := 0;
    assert ClassUnits(ts, p, cls, 0) == {};
    while i < |dt.targets|
      invariant i <= |dt.targets| && dt.Valid()
      invariant dt.hwas == OverrideOn(ts, hw, ClassUnits(ts, p, cls, i))
    {
      VisitStep(ts, hw, p, cls, i);
      if dt.targets[i].cls == cls && Beneath(dt.targets, i, p) {
        OverrideUnit(dt, i);
      }
      i := i + 1;
    }
  }

  ghost function ProcUnits(ts: Targets, p: nat, k: nat): set<nat>
    requires k <= |MASTER_CHILD_CLASSES|
  {
    set i: nat | i < |ts| && ts[i].cls in MASTER_CHILD_CLASSES[..k] && Beneath(ts, i, p)
  }

  lemma ProcUnitsStep(ts: Targets, p: nat, k: nat)
    requires k < |MASTER_CHILD_CLASSES|
    ensures ProcUnits(ts, p, k + 1) == ProcUnits(ts, p, k) + ClassUnits(ts, p, MASTER_CHILD_CLASSES[k], |ts|)
  {
    assert MASTER_CHILD_CLASSES[..k + 1] == MASTER_CHILD_CLASSES[..k] + [MASTER_CHILD_CLASSES[k]];
  }

  method OverrideProc(dt: Tree, p: nat)
    requires dt.Valid() && p < |dt.targets|
    modifies dt`hwas
    ensures dt.Valid()
    ensures dt.hwas == OverrideOn(dt.targets, old(dt.hwas), ProcUnits(dt.targets, p, |MASTER_CHILD_CLASSES|))
  {
    var k := 0;
    while k < |MASTER_CHILD_CLASSES|
      invariant k <= |MASTER_CHILD_CLASSES| && dt.Valid()
      invariant dt.hwas == OverrideOn(dt.targets, old(dt.hwas), ProcUnits(dt.targets, p, k))
    {
      ProcUnitsStep(dt.targets, p, k);
      OverrideUnion(dt.targets, old(dt.hwas), ProcUnits(dt.targets, p, k),
                    ClassUnits(dt.targets, p, MASTER_CHILD_CLASSES[k], |dt.targets|));
      OverrideClass(dt, p, MASTER_CHILD_CLASSES[k]);
      k := k + 1;
    }
  }

  ghost predicate HasMasterBefore(ts: Targets, i: nat, p: nat)
    requires i < |ts|
  {
    exists q: nat :: q < p && UnitOf(ts, i, q)
  }

  ghost function UnitsBefore(ts: Targets, p: nat): set<nat> {
    set i: nat | i < |ts| && HasMasterBefore(ts, i, p)
  }

  method ApplyFcoOverride(dt: Tree)
    requires dt.Valid()
    modifies dt`hwas
    ensures dt.Valid()
    ensures dt.hwas == FcoApplied(dt.targets, old(dt.hwas))
  {
    var p := 0;
    while p < |dt.targets|
      invariant p <= |dt.targets| && dt.Valid()
      invariant dt.hwas == OverrideOn(dt.targets, old(dt.hwas), UnitsBefore(dt.targets, p))
    {
      if dt.targets[p].cls == Proc && IsMaster(dt.targets[p]) {
        ghost var done, next := UnitsBefore(dt.targets, p), ProcUnits(dt.targets, p, |MASTER_CHILD_CLASSES|);
        OverrideUnion(dt.targets, old(dt.hwas), done, next);
        UnitsStep(dt.targets, p);
        OverrideProc(dt, p);
      } else {
        assert forall i: nat | i < |dt.targets| ::
            HasMasterBefore(dt.targets, i, p + 1) == HasMasterBefore(dt.targets, i, p);
        assert UnitsBefore(dt.targets, p + 1) == UnitsBefore(dt.targets, p);
      }
      p := p + 1;
    }
    assert forall i: nat | i < |dt.targets| :: HasMasterBefore(dt.targets, i, p) == HasMaster(dt.targets, i);
    assert UnitsBefore(dt.targets, p) == MasterUnits(dt.targets);
  }

  lemma UnitsStep(ts: Targets, p: nat)
    requires p < |ts| && ts[p].cls == Proc && IsMaster(ts[p])
    ensures UnitsBefore(ts, p + 1) == UnitsBefore(ts, p) + ProcUnits(ts, p, |MASTER_CHILD_CLASSES|)
  {
    assert MASTER_CHILD_CLASSES[..|MASTER_CHILD_CLASSES|] == MASTER_CHILD_CLASSES;
    forall i: nat | i < |ts|
      ensures HasMasterBefore(ts, i, p + 1) <==> HasMasterBefore(ts, i, p) || UnitOf(ts, i, p)
    {
      MasterStep(ts, i, p);
    }
    assert forall i: nat | i < |ts| :: i in ProcUnits(ts, p, |MASTER_CHILD_CLASSES|) <==> UnitOf(ts, i, p);
  }

  lemma MasterStep(ts: Targets, i: nat, p: nat)
    requires i < |ts|
    ensures HasMasterBefore(ts, i, p + 1) <==> HasMasterBefore(ts, i, p) || UnitOf(ts, i, p)
  {
    if HasMasterBefore(ts, i, p + 1) {
      var q: nat :| q < p + 1 && UnitOf(ts, i, q);
      assert q == p || q < p;
    }
    if UnitOf(ts, i, p) {
      assert p < p + 1;
    }
  }

  /** An accessible target of the eight classes beneath a master processor, with the override bit. */
  ghost predicate FcoUnit(ts: Targets, hw: seq<State>, i: nat)
    requires i < |ts| == |hw|
  {
    ts[i].hwasReadable && ts[i].hwasWritable && hw[i][4] & 0x04 == 0x04 && exists q: nat :: UnitUnder(ts, i, q)
  }

  /**
   * The flag byte of every target after the pass: both bits raised for an
   * accessible target of the eight classes beneath a master processor whose
   * byte carries 0x04, and no change for any other.
   */
  lemma FcoByClass(ts: Targets, hw: seq<State>, i: nat)
    requires |hw| == |ts| && i < |ts|
    ensures FcoApplied(ts, hw)[i] == if FcoUnit(ts, hw, i) then hw[i][4 := hw[i][4] | 0x60] else hw[i]
  {
    forall q: nat ensures UnitOf(ts, i, q) <==> UnitUnder(ts, i, q) {
      UnitsAre(ts, i, q);
    }
  }
}
