/** Guard-record processing: each effective record rewrites the functional state of the target it names. */
module GuardRecords {
  import opened Base
  import opened Hwas
  import opened GuardKey
  import opened DeviceTree

  const TYPE_PROC: Byte := 0x05
  const TYPE_CORE: Byte := 0x07
  const TYPE_FC: Byte := 0x53

  /** The record identifier libguard uses for resolved records. */
  const GUARD_RESOLVED: nat := 0xFFFF_FFFF

  const CONTINUE_TRAVERSAL := 0
  const TARGET_FOUND := 1
  const TARGET_NOT_FOUND := 2
  const PRIMARY_NOT_APPLIED := 3

  datatype Record = Record(recordId: nat, path: StoredPath, errType: Byte)

  /** Small-core mode and the set of error types libguard calls ephemeral are inputs. */
  datatype Policy = Policy(bootType: BootType, guardOn: bool, smallCore: bool, ephemeralTypes: set<Byte>)

  /** What libguard answers: no records at all, or a list, some of whose entries cannot be cleared. */
  datatype Answer = Unavailable | Available(records: seq<Record>, clearThrows: set<nat>)

  predicate Ephemeral(pol: Policy, r: Record) { r.errType in pol.ephemeralTypes }

  /** Records skipped: non-ephemeral ones while guard is off, and resolved ones. */
  predicate Effective(pol: Policy, r: Record) {
    (pol.guardOn || Ephemeral(pol, r)) && r.recordId != GUARD_RESOLVED
  }

  /** Only ephemeral records of a normal boot restore a target; all others take it away. */
  predicate Restores(pol: Policy, r: Record) {
    pol.bootType == Normal && Ephemeral(pol, r)
  }

  predicate ValidRecords(records: seq<Record>) {
    forall k :: 0 <= k < |records| ==> ValidStored(records[k].path)
  }

  // ---------- one record ----------

  /** The first target, in traversal order from i on, whose path equals the key. */
  function FindFrom(ts: Targets, key: BinPath, i: nat): Option<nat>
    requires i <= |ts|
    decreases |ts| - i
  {
    if i == |ts| then None
    else if ts[i].binPath == Some(key) then Some(i)
    else FindFrom(ts, key, i + 1)
  }

  function Named(ts: Targets, r: Record): Option<nat>
    requires ValidStored(r.path)
  {
    FindFrom(ts, KeyOf(PathOf(r.path)), 0)
  }

  /** Cores follow their FC unless the system boots in small-core mode. */
  function CoresFrom(ts: Targets, fc: nat, value: bool, i: nat): seq<Action>
    requires i <= |ts|
    decreases |ts| - i
  {
    if i == |ts| then []
    else if ts[i].cls == Core && Beneath(ts, i, fc) then [Update(i, value)] + CoresFrom(ts, fc, value, i + 1)
    else CoresFrom(ts, fc, value, i + 1)
  }

  function UpdatePlan(ts: Targets, pol: Policy, t: nat, value: bool): seq<Action>
    requires t < |ts|
  {
    [Update(t, value)] +
    (if ts[t].fruType == Some(TYPE_FC) && !pol.smallCore then CoresFrom(ts, t, value, 0) else [])
  }

  predicate SkipsPrimary(pol: Policy, r: Record, t: Target) {
    pol.bootType == Normal && !Ephemeral(pol, r) && t.fruType == Some(TYPE_PROC) && IsMaster(t)
  }

  /** Whether the boot type lets the record act on target t. */
  predicate Allowed(pol: Policy, r: Record, t: Target) {
    match pol.bootType
    case Mpipl => t.fruType == Some(TYPE_CORE) || t.fruType == Some(TYPE_FC)
    case Normal => !SkipsPrimary(pol, r, t)
  }

  predicate Readable(t: Target) { t.devPathReadable && t.fruType.Some? }

  function RecordPlan(ts: Targets, pol: Policy, r: Record, t: nat): seq<Action>
    requires t < |ts|
  {
    if !Readable(ts[t]) then [Require(false)]
    else if Allowed(pol, r, ts[t]) then UpdatePlan(ts, pol, t, Restores(pol, r))
    else []
  }

  lemma {:induction false} FindFromIsFirst(ts: Targets, key: BinPath, i: nat)
    requires i <= |ts|
    ensures match FindFrom(ts, key, i)
            case None => forall k :: i <= k < |ts| ==> ts[k].binPath != Some(key)
            case Some(t) => i <= t < |ts| && ts[t].binPath == Some(key)
                            && forall k :: i <= k < t ==> ts[k].binPath != Some(key)
    decreases |ts| - i
  {
    if i < |ts| && ts[i].binPath != Some(key) {
      FindFromIsFirst(ts, key, i + 1);
    }
  }

  /** The record acts on the first target that carries the same entity path, and on no other. */
  lemma NamedIffSamePath(ts: Targets, r: Record, t: nat)
    requires ValidStored(r.path)
    ensures Named(ts, r) == Some(t) <==>
            && t < |ts| && ts[t].binPath.Some? && Decode(ts[t].binPath.value) == Some(PathOf(r.path))
            && forall k :: 0 <= k < t && ts[k].binPath.Some? ==> Decode(ts[k].binPath.value) != Some(PathOf(r.path))
  {
    FindFromIsFirst(ts, KeyOf(PathOf(r.path)), 0);
    forall k | 0 <= k < |ts| && ts[k].binPath.Some?
      ensures ts[k].binPath == Some(KeyOf(PathOf(r.path))) <==> Decode(ts[k].binPath.value) == Some(PathOf(r.path))
    {
      KeyMatch(r.path, ts[k].binPath.value);
    }
  }

  function RecordLog(ts: Targets, pol: Policy, r: Record): seq<Write>
    requires ValidStored(r.path)
  {
    FindFromIsFirst(ts, KeyOf(PathOf(r.path)), 0);
    match Named(ts, r)
    case None => []
    case Some(t) => Executed(ts, RecordPlan(ts, pol, r, t))
  }

  // ---------- all records ----------

  function GuardLog(ts: Targets, pol: Policy, records: seq<Record>): seq<Write>
    requires ValidRecords(records)
  {
    if records == [] then []
    else
      var n := |records| - 1;
      GuardLog(ts, pol, records[..n]) + StepLog(ts, pol, records[n])
  }

  function StepLog(ts: Targets, pol: Policy, r: Record): seq<Write>
    requires ValidStored(r.path)
  {
    if Effective(pol, r) then RecordLog(ts, pol, r) else []
  }

  /** Clearing the record in libguard throws, which ends the whole pass. */
  predicate Aborts(pol: Policy, ans: Answer, r: Record)
    requires ans.Available?
  {
    Effective(pol, r) && Restores(pol, r) && r.recordId in ans.clearThrows
  }

  /** How many records are worked through before the pass ends. */
  function Processed(pol: Policy, ans: Answer, k: nat): (n: nat)
    requires ans.Available? && k <= |ans.records|
    ensures k <= n <= |ans.records|
    decreases |ans.records| - k
  {
    if k == |ans.records| || Aborts(pol, ans, ans.records[k]) then k else Processed(pol, ans, k + 1)
  }

  function ProcessedRecords(pol: Policy, ans: Answer): seq<Record> {
    if ans.Unavailable? then [] else ans.records[..Processed(pol, ans, 0)]
  }

  /** Identifiers cleared in libguard, in order. */
  function ClearedIds(pol: Policy, records: seq<Record>): seq<nat> {
    if records == [] then []
    else
      var n := |records| - 1;
      ClearedIds(pol, records[..n]) + StepCleared(pol, records[n])
  }

  function StepCleared(pol: Policy, r: Record): seq<nat> {
    if Effective(pol, r) && Restores(pol, r) then [r.recordId] else []
  }

  predicate ValidAnswer(ans: Answer) { ans.Available? ==> ValidRecords(ans.records) }

  class GuardStore {
    const answer: Answer
    var cleared: seq<nat>

    constructor (answer: Answer)
      ensures this.answer == answer && cleared == []
    {
      this.answer, cleared := answer, [];
    }

    /** False stands for a GuardException. */
    method Clear(id: nat) returns (ok: bool)
      requires answer.Available?
      modifies this`cleared
      ensures ok == (id !in answer.clearThrows)
      ensures cleared == if ok then old(cleared) + [id] else old(cleared)
    {
      ok := id !in answer.clearThrows;
      if ok {
        cleared := cleared + [id];
      }
    }
  }

  // ---------- the in-place pass ----------

  method UpdateCores(dt: Tree, fc: nat, value: bool) returns (ok: bool)
    requires dt.Valid() && fc < |dt.targets|
    modifies dt`hwas
    ensures dt.Valid()
    ensures ok == Completes(dt.targets, CoresFrom(dt.targets, fc, value, 0))
    ensures dt.hwas == ApplyLog(old(dt.hwas), Executed(dt.targets, CoresFrom(dt.targets, fc, value, 0)))
  {
    ghost var ts, hw, plan, written := dt.targets, dt.hwas, CoresFrom(dt.targets, fc, value, 0), [];
    var i := 0;
    while i < |dt.targets|
      invariant i <= |ts| && dt.Valid()
      invariant dt.hwas == ApplyLog(hw, written)
      invariant Doing(ts, plan, written, CoresFrom(ts, fc, value, i))
    {
      if dt.targets[i].cls == Core && Beneath(dt.targets, i, fc) {
        Advance(ts, hw, plan, written, [Update(i, value)], CoresFrom(ts, fc, value, i + 1));
        SingleAction(ts, dt.hwas, Update(i, value));
        ok := dt.SetOrClearState(i, value);
        if !ok {
          return;
        }
        written := written + Executed(ts, [Update(i, value)]);
      }
      i := i + 1;
    }
    assert written + [] == written;
    return true;
  }

  method UpdateTarget(dt: Tree, pol: Policy, t: nat, value: bool) returns (ok: bool)
    requires dt.Valid() && t < |dt.targets|
    modifies dt`hwas
    ensures dt.Valid()
    ensures ok == Completes(dt.targets, UpdatePlan(dt.targets, pol, t, value))
    ensures dt.hwas == ApplyLog(old(dt.hwas), Executed(dt.targets, UpdatePlan(dt.targets, pol, t, value)))
  {
    ghost var ts := dt.targets;
    ghost var cores := if ts[t].fruType == Some(TYPE_FC) && !pol.smallCore then CoresFrom(ts, t, value, 0) else [];
    SingleAction(ts, dt.hwas, Update(t, value));
    ExecutedConcat(ts, [Update(t, value)], cores);
    ApplyConcat(dt.hwas, Executed(ts, [Update(t, value)]), Executed(ts, cores));
    ok := dt.SetOrClearState(t, value);
    if !ok {
      return;
    }
    if dt.targets[t].fruType == Some(TYPE_FC) && !pol.smallCore {
      ok := UpdateCores(dt, t, value);
    }
  }

  /** The traversal callback: what it does at target i, and the code that ends or continues the traversal. */
  method UpdateCallback(dt: Tree, pol: Policy, r: Record, key: BinPath, value: bool, i: nat) returns (code: int)
    requires dt.Valid() && i < |dt.targets|
    requires value == Restores(pol, r)
    modifies dt`hwas
    ensures dt.Valid()
    ensures code == CONTINUE_TRAVERSAL <==> dt.targets[i].binPath != Some(key)
    ensures code == CONTINUE_TRAVERSAL ==> dt.hwas == old(dt.hwas)
    ensures code != CONTINUE_TRAVERSAL ==>
              && dt.hwas == ApplyLog(old(dt.hwas), Executed(dt.targets, RecordPlan(dt.targets, pol, r, i)))
              && code == if !Completes(dt.targets, RecordPlan(dt.targets, pol, r, i)) then TARGET_NOT_FOUND
                         else if SkipsPrimary(pol, r, dt.targets[i]) then PRIMARY_NOT_APPLIED
                         else TARGET_FOUND
  {
    var t := dt.targets[i];
    if t.binPath != Some(key) {
      return CONTINUE_TRAVERSAL;
    }
    if !t.devPathReadable {
      return TARGET_NOT_FOUND;
    }
    if t.fruType.None? {
      return TARGET_NOT_FOUND;
    }
    var fru := t.fruType.value;
    if pol.bootType == Mpipl && (fru == TYPE_CORE || fru == TYPE_FC) {
      var ok := UpdateTarget(dt, pol, i, value);
      if !ok {
        return TARGET_NOT_FOUND;
      }
    } else if pol.bootType == Normal {
      if !Ephemeral(pol, r) && fru == TYPE_PROC && IsMaster(t) {
        return PRIMARY_NOT_APPLIED;
      }
      var ok := UpdateTarget(dt, pol, i, value);
      if !ok {
        return TARGET_NOT_FOUND;
      }
    }
    return TARGET_FOUND;
  }

  method ApplyRecord(dt: Tree, pol: Policy, r: Record, value: bool) returns (code: int)
    requires dt.Valid() && ValidStored(r.path) && value == Restores(pol, r)
    modifies dt`hwas
    ensures dt.Valid()
    ensures dt.hwas == ApplyLog(old(dt.hwas), RecordLog(dt.targets, pol, r))
    ensures code == CONTINUE_TRAVERSAL <==> Named(dt.targets, r).None?
  {
    var path := BuildKey(r.path);
    var key: BinPath := path[..];
    FindFromIsFirst(dt.targets, key, 0);
    var i := 0;
    while i < |dt.targets|
      invariant i <= |dt.targets| && dt.Valid()
      invariant dt.hwas == old(dt.hwas)
      invariant forall k :: 0 <= k < i ==> dt.targets[k].binPath != Some(key)
    {
      code := UpdateCallback(dt, pol, r, key, value, i);
      if code != CONTINUE_TRAVERSAL {
        return;
      }
      i := i + 1;
    }
    return CONTINUE_TRAVERSAL;
  }

  /** One turn of the record loop; false stands for the exception that ends it. */
  method ProcessRecord(dt: Tree, store: GuardStore, pol: Policy, r: Record) returns (ok: bool)
    requires dt.Valid() && ValidStored(r.path) && store.answer.Available?
    modifies dt`hwas, store`cleared
    ensures dt.Valid()
    ensures ok == !Aborts(pol, store.answer, r)
    ensures ok ==> dt.hwas == ApplyLog(old(dt.hwas), StepLog(dt.targets, pol, r))
    ensures ok ==> store.cleared == old(store.cleared) + StepCleared(pol, r)
    ensures !ok ==> dt.hwas == old(dt.hwas) && store.cleared == old(store.cleared)
  {
    if !pol.guardOn && !Ephemeral(pol, r) {
      return true;
    } else if r.recordId == GUARD_RESOLVED {
      return true;
    }
    var value := false;
    if pol.bootType == Normal && Ephemeral(pol, r) {
      ok := store.Clear(r.recordId);
      if !ok {
        return;
      }
      value := true;
    }
    var code := ApplyRecord(dt, pol, r, value);
    ok := true;
  }

  lemma LogSteps(ts: Targets, pol: Policy, records: seq<Record>, k: nat)
    requires ValidRecords(records) && k < |records|
    ensures GuardLog(ts, pol, records[..k + 1]) == GuardLog(ts, pol, records[..k]) + StepLog(ts, pol, records[k])
    ensures ClearedIds(pol, records[..k + 1]) == ClearedIds(pol, records[..k]) + StepCleared(pol, records[k])
  {
    assert records[..k + 1][..k] == records[..k];
  }

  /** One turn, seen from the start of the loop: log and ids are what has been written and cleared since then. */
  method RecordTurn(dt: Tree, store: GuardStore, pol: Policy, r: Record,
                    ghost hw: seq<State>, ghost log: seq<Write>, ghost cleared: seq<nat>, ghost ids: seq<nat>)
    returns (ok: bool)
    requires dt.Valid() && ValidStored(r.path) && store.answer.Available?
    requires dt.hwas == ApplyLog(hw, log) && store.cleared == cleared + ids
    modifies dt`hwas, store`cleared
    ensures dt.Valid()
    ensures ok == !Aborts(pol, store.answer, r)
    ensures ok ==> dt.hwas == ApplyLog(hw, log + StepLog(dt.targets, pol, r))
    ensures ok ==> store.cleared == cleared + (ids + StepCleared(pol, r))
    ensures !ok ==> dt.hwas == old(dt.hwas) && store.cleared == old(store.cleared)
  {
    ok := ProcessRecord(dt, store, pol, r);
    ApplyConcat(hw, log, StepLog(dt.targets, pol, r));
  }

  /** The record loop; a throwing clear leaves the remaining records unprocessed. */
  method ApplyRecords(dt: Tree, store: GuardStore, pol: Policy)
    requires dt.Valid() && ValidAnswer(store.answer)
    modifies dt`hwas, store`cleared
    ensures dt.Valid()
    ensures dt.hwas == ApplyLog(old(dt.hwas), GuardLog(dt.targets, pol, ProcessedRecords(pol, store.answer)))
    ensures store.cleared == old(store.cleared) + ClearedIds(pol, ProcessedRecords(pol, store.answer))
  {
    if store.answer.Unavailable? {
      return;
    }
    var records := store.answer.records;
    ghost var log: seq<Write>, ids: seq<nat> := [], [];
    var k := 0;
    while k < |records|
      invariant k <= |records| && dt.Valid()
      invariant Processed(pol, store.answer, 0) == Processed(pol, store.answer, k)
      invariant log == GuardLog(dt.targets, pol, records[..k]) && dt.hwas == ApplyLog(old(dt.hwas), log)
      invariant ids == ClearedIds(pol, records[..k]) && store.cleared == old(store.cleared) + ids
    {
      LogSteps(dt.targets, pol, records, k);
      var ok := RecordTurn(dt, store, pol, records[k], old(dt.hwas), log, old(store.cleared), ids);
      if !ok {
        return;
      }
      log, ids := log + StepLog(dt.targets, pol, records[k]), ids + StepCleared(pol, records[k]);
      k := k + 1;
    }
  }
}
