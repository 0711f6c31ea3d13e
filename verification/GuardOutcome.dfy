/** What guard processing has decided for every target, and what each policy rules out. */
module GuardOutcome {
  import opened Base
  import opened Hwas
  import opened GuardKey
  import opened DeviceTree
  import opened GuardRecords

  /** Core i lies beneath the FC t, and so does no inaccessible core at or before it. */
  predicate ReachesCore(ts: Targets, t: nat, i: nat)
    requires i < |ts|
  {
    && ts[i].cls == Core && Beneath(ts, i, t)
    && forall c :: 0 <= c <= i && ts[c].cls == Core && Beneath(ts, c, t) ==> Accessible(ts[c])
  }

  /** Acting on target t writes target i: t itself, or a core beneath an FC outside small-core mode. */
  predicate Touches(ts: Targets, pol: Policy, t: nat, i: nat)
    requires t < |ts| && i < |ts|
  {
    && Accessible(ts[t])
    && (i == t || (ts[t].fruType == Some(TYPE_FC) && !pol.smallCore && ReachesCore(ts, t, i)))
  }

  /** An effective record that writes target i. */
  predicate Hits(ts: Targets, pol: Policy, r: Record, i: nat)
    requires i < |ts| && ValidStored(r.path)
  {
    && Effective(pol, r)
    && Named(ts, r).Some? && Named(ts, r).value < |ts|
    && Readable(ts[Named(ts, r).value]) && Allowed(pol, r, ts[Named(ts, r).value])
    && Touches(ts, pol, Named(ts, r).value, i)
  }

  /** Record k hits target i, and no later record does. */
  predicate LastHitAt(ts: Targets, pol: Policy, records: seq<Record>, i: nat, k: nat)
    requires ValidRecords(records) && i < |ts| && k < |records|
  {
    Hits(ts, pol, records[k], i) && forall j :: k < j < |records| ==> !Hits(ts, pol, records[j], i)
  }

  predicate CoreFrom(ts: Targets, fc: nat, j: nat, i: nat)
    requires i < |ts|
  {
    && j <= i && ts[i].cls == Core && Beneath(ts, i, fc)
    && forall c :: j <= c <= i && ts[c].cls == Core && Beneath(ts, c, fc) ==> Accessible(ts[c])
  }

  /** Taking one more target in front: a core of the FC has to be accessible, any other target plays no part. */
  lemma CoreStep(ts: Targets, fc: nat, j: nat, i: nat)
    requires j < |ts| && i < |ts|
    ensures CoreFrom(ts, fc, j, i) <==>
            if ts[j].cls == Core && Beneath(ts, j, fc) then Accessible(ts[j]) && (i == j || CoreFrom(ts, fc, j + 1, i))
            else CoreFrom(ts, fc, j + 1, i)
  {
    if CoreFrom(ts, fc, j + 1, i) && (ts[j].cls == Core && Beneath(ts, j, fc) ==> Accessible(ts[j])) {
      assert CoreFrom(ts, fc, j, i);
    }
  }

  /** The last value of the core plan, by its first target and its rest. */
  lemma CoresSplit(ts: Targets, fc: nat, value: bool, j: nat, i: nat)
    requires j < |ts| && i < |ts|
    ensures var rest := LastValue(Executed(ts, CoresFrom(ts, fc, value, j + 1)), i);
            LastValue(Executed(ts, CoresFrom(ts, fc, value, j)), i) ==
            if !(ts[j].cls == Core && Beneath(ts, j, fc)) then rest
            else if !Accessible(ts[j]) then None
            else if rest.None? && i == j then Some(value)
            else rest
  {
    if ts[j].cls == Core && Beneath(ts, j, fc) {
      var rest := CoresFrom(ts, fc, value, j + 1);
      ExecutedCons(ts, Update(j, value), rest);
      LastConcat([Write(j, value)], Executed(ts, rest), i);
      assert [Write(j, value)][..0] == [];
    }
  }

  lemma {:induction false} CoresLast(ts: Targets, fc: nat, value: bool, j: nat, i: nat)
    requires j <= |ts| && i < |ts|
    ensures LastValue(Executed(ts, CoresFrom(ts, fc, value, j)), i) ==
            if CoreFrom(ts, fc, j, i) then Some(value) else None
    decreases |ts| - j
  {
    if j < |ts| {
      CoresLast(ts, fc, value, j + 1, i);
      CoresSplit(ts, fc, value, j, i);
      CoreStep(ts, fc, j, i);
    }
  }

  lemma UpdateLast(ts: Targets, pol: Policy, t: nat, value: bool, i: nat)
    requires t < |ts| && i < |ts|
    ensures LastValue(Executed(ts, UpdatePlan(ts, pol, t, value)), i) ==
            if Touches(ts, pol, t, i) then Some(value) else None
  {
    var cores := if ts[t].fruType == Some(TYPE_FC) && !pol.smallCore then CoresFrom(ts, t, value, 0) else [];
    SingleAction(ts, [], Update(t, value));
    ExecutedConcat(ts, [Update(t, value)], cores);
    LastConcat(Executed(ts, [Update(t, value)]), Executed(ts, cores), i);
    CoresLast(ts, t, value, 0, i);
    assert CoreFrom(ts, t, 0, i) <==> ReachesCore(ts, t, i);
  }

  lemma StepLast(ts: Targets, pol: Policy, r: Record, i: nat)
    requires ValidStored(r.path) && i < |ts|
    ensures LastValue(StepLog(ts, pol, r), i) == if Hits(ts, pol, r, i) then Some(Restores(pol, r)) else None
  {
    FindFromIsFirst(ts, KeyOf(PathOf(r.path)), 0);
    if Named(ts, r).Some? {
      UpdateLast(ts, pol, Named(ts, r).value, Restores(pol, r), i);
    }
  }

  /** The last value of a log of records, by its last record and those before it. */
  lemma GuardSplit(ts: Targets, pol: Policy, records: seq<Record>, i: nat)
    requires ValidRecords(records) && records != [] && i < |ts|
    ensures var n := |records| - 1;
            LastValue(GuardLog(ts, pol, records), i) ==
            if Hits(ts, pol, records[n], i) then Some(Restores(pol, records[n]))
            else LastValue(GuardLog(ts, pol, records[..n]), i)
  {
    var n := |records| - 1;
    LastConcat(GuardLog(ts, pol, records[..n]), StepLog(ts, pol, records[n]), i);
    StepLast(ts, pol, records[n], i);
  }

  /** A target no record hits is not written. */
  lemma {:induction false} GuardUntouched(ts: Targets, pol: Policy, records: seq<Record>, i: nat)
    requires ValidRecords(records) && i < |ts|
    requires forall k :: 0 <= k < |records| ==> !Hits(ts, pol, records[k], i)
    ensures LastValue(GuardLog(ts, pol, records), i) == None
  {
    if records != [] {
      GuardUntouched(ts, pol, records[..|records| - 1], i);
      GuardSplit(ts, pol, records, i);
    }
  }

  /** The last record that hits a target decides it. */
  lemma {:induction false} GuardLast(ts: Targets, pol: Policy, records: seq<Record>, i: nat, k: nat)
    requires ValidRecords(records) && i < |ts| && k < |records|
    requires LastHitAt(ts, pol, records, i, k)
    ensures LastValue(GuardLog(ts, pol, records), i) == Some(Restores(pol, records[k]))
  {
    GuardSplit(ts, pol, records, i);
    if k < |records| - 1 {
      GuardLast(ts, pol, records[..|records| - 1], i, k);
    }
  }

  /**
   * The functional bit of every target after the pass: the value written by
   * the last record that hits it, or what it was. Faults are included: Hits
   * asks for exactly the accesses that have to succeed.
   */
  lemma LastHitDecides(ts: Targets, pol: Policy, records: seq<Record>, hw: seq<State>, i: nat)
    requires ValidRecords(records) && i < |ts| == |hw|
    ensures var h := ApplyLog(hw, GuardLog(ts, pol, records))[i];
            && ((forall k :: 0 <= k < |records| ==> !Hits(ts, pol, records[k], i)) ==> h == hw[i])
            && (forall k | 0 <= k < |records| && LastHitAt(ts, pol, records, i, k) ::
                  IsFunctional(h) == Restores(pol, records[k]))
  {
    LogEffect(hw, GuardLog(ts, pol, records), i);
    if forall k :: 0 <= k < |records| ==> !Hits(ts, pol, records[k], i) {
      GuardUntouched(ts, pol, records, i);
    }
    forall k | 0 <= k < |records| && LastHitAt(ts, pol, records, i, k)
      ensures LastValue(GuardLog(ts, pol, records), i) == Some(Restores(pol, records[k]))
    {
      GuardLast(ts, pol, records, i, k);
    }
  }

  /** Some record hits the target, or none does; if some does, there is a last one. */
  lemma {:induction false} LastHit(ts: Targets, pol: Policy, records: seq<Record>, i: nat) returns (k: int)
    requires ValidRecords(records) && i < |ts|
    ensures -1 <= k < |records|
    ensures k >= 0 ==> LastHitAt(ts, pol, records, i, k)
    ensures forall j :: k < j < |records| ==> !Hits(ts, pol, records[j], i)
  {
    k := |records| - 1;
    while k >= 0 && !Hits(ts, pol, records[k], i)
      invariant -1 <= k < |records|
      invariant forall j :: k < j < |records| ==> !Hits(ts, pol, records[j], i)
    {
      k := k - 1;
    }
  }

  // ---------- policies ----------

  /** A memory-preserving boot only takes cores and FCs away. */
  lemma MpiplOnlyRemoves(ts: Targets, pol: Policy, records: seq<Record>, hw: seq<State>, i: nat)
    requires ValidRecords(records) && i < |ts| == |hw| && pol.bootType == Mpipl
    ensures var h := ApplyLog(hw, GuardLog(ts, pol, records))[i];
            && (IsFunctional(h) ==> IsFunctional(hw[i]))
            && (h != hw[i] ==> ts[i].fruType in {Some(TYPE_CORE), Some(TYPE_FC)} || ts[i].cls == Core)
  {
    var k := LastHit(ts, pol, records, i);
    LastHitDecides(ts, pol, records, hw, i);
    if k >= 0 {
      assert !Restores(pol, records[k]);
    }
  }

  /** With guard disabled a normal boot only restores. */
  lemma DisabledOnlyRestores(ts: Targets, pol: Policy, records: seq<Record>, hw: seq<State>, i: nat)
    requires ValidRecords(records) && i < |ts| == |hw| && pol.bootType == Normal && !pol.guardOn
    ensures IsFunctional(hw[i]) ==> IsFunctional(ApplyLog(hw, GuardLog(ts, pol, records))[i])
  {
    var k := LastHit(ts, pol, records, i);
    LastHitDecides(ts, pol, records, hw, i);
    if k >= 0 {
      assert Restores(pol, records[k]);
    }
  }

  /** No boot type and no guard setting takes a master processor away. */
  lemma MasterProtected(ts: Targets, pol: Policy, records: seq<Record>, hw: seq<State>, i: nat)
    requires ValidRecords(records) && i < |ts| == |hw|
    requires ts[i].cls == Proc && ts[i].fruType == Some(TYPE_PROC) && IsMaster(ts[i])
    ensures IsFunctional(hw[i]) ==> IsFunctional(ApplyLog(hw, GuardLog(ts, pol, records))[i])
  {
    var k := LastHit(ts, pol, records, i);
    LastHitDecides(ts, pol, records, hw, i);
    if k >= 0 {
      assert Restores(pol, records[k]);
    }
  }

  /** The identifiers cleared in libguard are those of the effective restoring records, and no others. */
  lemma {:induction false} ClearedExactly(pol: Policy, records: seq<Record>, id: nat)
    ensures id in ClearedIds(pol, records) <==>
            exists k :: 0 <= k < |records| && records[k].recordId == id
                        && Effective(pol, records[k]) && Restores(pol, records[k])
  {
    if records != [] {
      var n := |records| - 1;
      ClearedExactly(pol, records[..n], id);
      assert records == records[..n] + [records[n]];
    }
  }

  // ---------- the same by record, type and path ----------

  /** Neither resolved nor switched off: guard is on, or the error type is an ephemeral one. */
  predicate InForce(pol: Policy, r: Record) {
    r.recordId != 0xFFFF_FFFF && (pol.guardOn || r.errType in pol.ephemeralTypes)
  }

  /** Target t is the first that carries the entity path of the record. */
  predicate FirstWithPath(ts: Targets, r: Record, t: nat)
    requires ValidStored(r.path)
  {
    && t < |ts| && ts[t].binPath.Some? && Decode(ts[t].binPath.value) == Some(PathOf(r.path))
    && forall k :: 0 <= k < t && ts[k].binPath.Some? ==> Decode(ts[k].binPath.value) != Some(PathOf(r.path))
  }

  /**
   * The boot type admits the record at this target: a memory-preserving boot for
   * the types 0x07 and 0x53 alone, a normal boot for all but a non-ephemeral
   * record of a master of type 0x05.
   */
  predicate Admitted(pol: Policy, r: Record, t: Target) {
    && t.devPathReadable && t.fruType.Some?
    && match pol.bootType
       case Mpipl => t.fruType == Some(0x07) || t.fruType == Some(0x53)
       case Normal => r.errType in pol.ephemeralTypes || !(t.fruType == Some(0x05) && MarkedMaster(t))
  }

  /** Acting on t gets as far as i: t itself, or outside small-core mode a core beneath t when t has type 0x53. */
  predicate Spreads(ts: Targets, pol: Policy, t: nat, i: nat)
    requires t < |ts| && i < |ts|
  {
    && ts[t].hwasReadable && ts[t].hwasWritable
    && (i == t
        || (&& ts[t].fruType == Some(0x53) && !pol.smallCore && ts[i].cls == Core && Beneath(ts, i, t)
            && forall c :: 0 <= c <= i && ts[c].cls == Core && Beneath(ts, c, t) ==>
                 ts[c].hwasReadable && ts[c].hwasWritable))
  }

  predicate ActsThrough(ts: Targets, pol: Policy, r: Record, t: nat, i: nat)
    requires ValidStored(r.path) && i < |ts|
  {
    FirstWithPath(ts, r, t) && Admitted(pol, r, ts[t]) && Spreads(ts, pol, t, i)
  }

  /** The record, once its turn comes, writes target i. */
  ghost predicate Strikes(ts: Targets, pol: Policy, r: Record, i: nat)
    requires ValidStored(r.path) && i < |ts|
  {
    InForce(pol, r) && exists t: nat :: ActsThrough(ts, pol, r, t, i)
  }

  lemma ThroughNamed(ts: Targets, pol: Policy, r: Record, t: nat, i: nat)
    requires ValidStored(r.path) && i < |ts|
    ensures ActsThrough(ts, pol, r, t, i) <==>
            && Named(ts, r) == Some(t) && t < |ts| && Readable(ts[t]) && Allowed(pol, r, ts[t])
            && Touches(ts, pol, t, i)
  {
    NamedIffSamePath(ts, r, t);
  }

  lemma StrikesIff(ts: Targets, pol: Policy, r: Record, i: nat)
    requires ValidStored(r.path) && i < |ts|
    ensures Hits(ts, pol, r, i) <==> Strikes(ts, pol, r, i)
  {
    forall t: nat
      ensures ActsThrough(ts, pol, r, t, i) <==>
              && Named(ts, r) == Some(t) && t < |ts| && Readable(ts[t]) && Allowed(pol, r, ts[t])
              && Touches(ts, pol, t, i)
    {
      ThroughNamed(ts, pol, r, t, i);
    }
    if Hits(ts, pol, r, i) {
      assert ActsThrough(ts, pol, r, Named(ts, r).value, i);
    }
  }

  /** A normal boot clears this record in libguard, and the clear throws. */
  predicate ClearThrows(pol: Policy, ans: Answer, r: Record)
    requires ans.Available?
  {
    && pol.bootType == Normal && r.errType in pol.ephemeralTypes && r.recordId != 0xFFFF_FFFF
    && r.recordId in ans.clearThrows
  }

  /** The pass works through record k: no clear up to and including its own throws. */
  predicate TurnComes(pol: Policy, ans: Answer, k: nat) {
    ans.Available? && k < |ans.records| && forall j :: 0 <= j <= k ==> !ClearThrows(pol, ans, ans.records[j])
  }

  lemma {:induction false} ProcessedIff(pol: Policy, ans: Answer, n: nat, k: nat)
    requires ans.Available? && n <= k < |ans.records|
    ensures k < Processed(pol, ans, n) <==>
            forall j :: n <= j <= k ==> !ClearThrows(pol, ans, ans.records[j])
    decreases |ans.records| - n
  {
    assert Aborts(pol, ans, ans.records[n]) <==> ClearThrows(pol, ans, ans.records[n]);
    if n < k && !Aborts(pol, ans, ans.records[n]) {
      ProcessedIff(pol, ans, n + 1, k);
    }
  }

  /** The records worked through are those whose turn comes. */
  lemma TurnComesIff(pol: Policy, ans: Answer, k: nat)
    ensures TurnComes(pol, ans, k) <==> k < |ProcessedRecords(pol, ans)|
    ensures TurnComes(pol, ans, k) ==> ProcessedRecords(pol, ans)[k] == ans.records[k]
  {
    if ans.Available? && k < |ans.records| {
      ProcessedIff(pol, ans, 0, k);
    }
  }

  /** The turn of record k comes, and it writes target i. */
  ghost predicate StrikesAt(ts: Targets, pol: Policy, ans: Answer, i: nat, k: nat)
    requires ValidAnswer(ans) && i < |ts|
  {
    TurnComes(pol, ans, k) && Strikes(ts, pol, ans.records[k], i)
  }

  /** Record k writes target i, and no later record does. */
  ghost predicate LastStrike(ts: Targets, pol: Policy, ans: Answer, i: nat, k: nat)
    requires ValidAnswer(ans) && i < |ts|
  {
    StrikesAt(ts, pol, ans, i, k) && forall j: nat :: k < j ==> !StrikesAt(ts, pol, ans, i, j)
  }

  lemma StrikesAtIs(ts: Targets, pol: Policy, ans: Answer, i: nat, k: nat)
    requires ValidAnswer(ans) && i < |ts|
    ensures StrikesAt(ts, pol, ans, i, k) <==>
            k < |ProcessedRecords(pol, ans)| && Hits(ts, pol, ProcessedRecords(pol, ans)[k], i)
  {
    TurnComesIff(pol, ans, k);
    if k < |ProcessedRecords(pol, ans)| {
      StrikesIff(ts, pol, ans.records[k], i);
    }
  }

  lemma LastStrikeIs(ts: Targets, pol: Policy, ans: Answer, i: nat, k: nat)
    requires ValidAnswer(ans) && i < |ts|
    ensures LastStrike(ts, pol, ans, i, k) <==>
            k < |ProcessedRecords(pol, ans)| && LastHitAt(ts, pol, ProcessedRecords(pol, ans), i, k)
  {
    forall j: nat
      ensures StrikesAt(ts, pol, ans, i, j) <==>
              j < |ProcessedRecords(pol, ans)| && Hits(ts, pol, ProcessedRecords(pol, ans)[j], i)
    {
      StrikesAtIs(ts, pol, ans, i, j);
    }
  }

  lemma LastStrikeRecord(ts: Targets, pol: Policy, ans: Answer, i: nat, k: nat)
    requires ValidAnswer(ans) && i < |ts| && LastStrike(ts, pol, ans, i, k)
    ensures k < |ProcessedRecords(pol, ans)| && LastHitAt(ts, pol, ProcessedRecords(pol, ans), i, k)
    ensures ans.Available? && k < |ans.records| && ProcessedRecords(pol, ans)[k] == ans.records[k]
  {
    LastStrikeIs(ts, pol, ans, i, k);
    TurnComesIff(pol, ans, k);
  }

  lemma BitOfLastHit(ts: Targets, pol: Policy, records: seq<Record>, hw: seq<State>, i: nat, k: nat)
    requires ValidRecords(records) && i < |ts| == |hw| && k < |records| && LastHitAt(ts, pol, records, i, k)
    ensures ApplyLog(hw, GuardLog(ts, pol, records))[i][4] & 0x20 == 0x20 <==> Restores(pol, records[k])
  {
    GuardLast(ts, pol, records, i, k);
    LogEffect(hw, GuardLog(ts, pol, records), i);
    FlagBits(ApplyLog(hw, GuardLog(ts, pol, records))[i]);
  }

  /** The last record that strikes a target takes it away, or restores it in a normal boot if its type is ephemeral. */
  lemma LastStrikeDecides(ts: Targets, pol: Policy, ans: Answer, hw: seq<State>, i: nat, k: nat)
    requires ValidAnswer(ans) && i < |ts| == |hw| && LastStrike(ts, pol, ans, i, k)
    ensures ApplyLog(hw, GuardLog(ts, pol, ProcessedRecords(pol, ans)))[i][4] & 0x20 == 0x20 <==>
            pol.bootType == Normal && ans.records[k].errType in pol.ephemeralTypes
  {
    LastStrikeRecord(ts, pol, ans, i, k);
    BitOfLastHit(ts, pol, ProcessedRecords(pol, ans), hw, i, k);
  }

  /** A target that no record strikes is unchanged. */
  lemma NoStrikeKeeps(ts: Targets, pol: Policy, ans: Answer, hw: seq<State>, i: nat)
    requires ValidAnswer(ans) && i < |ts| == |hw|
    requires forall k: nat :: !StrikesAt(ts, pol, ans, i, k)
    ensures ApplyLog(hw, GuardLog(ts, pol, ProcessedRecords(pol, ans)))[i] == hw[i]
  {
    var records := ProcessedRecords(pol, ans);
    forall k | 0 <= k < |records| ensures !Hits(ts, pol, records[k], i) {
      StrikesAtIs(ts, pol, ans, i, k);
    }
    GuardUntouched(ts, pol, records, i);
    LogEffect(hw, GuardLog(ts, pol, records), i);
  }

  /** If some record strikes the target, there is a last one. */
  lemma SomeLastStrike(ts: Targets, pol: Policy, ans: Answer, i: nat, j: nat) returns (k: nat)
    requires ValidAnswer(ans) && i < |ts| && StrikesAt(ts, pol, ans, i, j)
    ensures j <= k && LastStrike(ts, pol, ans, i, k)
  {
    StrikesAtIs(ts, pol, ans, i, j);
    k := LastHit(ts, pol, ProcessedRecords(pol, ans), i);
    LastStrikeIs(ts, pol, ans, i, k);
  }

  /** What libguard is told to clear: in a normal boot the unresolved records of an ephemeral type whose turn comes. */
  lemma ClearedIff(pol: Policy, ans: Answer, id: nat)
    requires ValidAnswer(ans)
    ensures id in ClearedIds(pol, ProcessedRecords(pol, ans)) <==>
            exists k: nat :: TurnComes(pol, ans, k) && ans.records[k].recordId == id && id != 0xFFFF_FFFF
                             && pol.bootType == Normal && ans.records[k].errType in pol.ephemeralTypes
  {
    var records := ProcessedRecords(pol, ans);
    ClearedExactly(pol, records, id);
    forall k: nat
      ensures TurnComes(pol, ans, k) <==> k < |records|
      ensures k < |records| ==> records[k] == ans.records[k]
    {
      TurnComesIff(pol, ans, k);
    }
  }
}
