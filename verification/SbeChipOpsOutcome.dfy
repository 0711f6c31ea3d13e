/** What holds over every sequence of chip operations, whatever the hardware answers. */
module SbeChipOpsOutcome {
  import opened Base
  import opened DeviceTree
  import opened SbeChipOps
  import Ffdc

  /**
   * The order rules of a trace. An operation directly follows a state check
   * that answered BOOTED for its chip; a reset directly follows the write of
   * CHECK_CFAM, which follows a read that saw the SBE halted; BOOTED is written
   * only behind a successful reset and a read that saw the runtime state.
   */
  predicate Ordered(events: seq<Event>) {
    forall k :: 0 <= k < |events| ==> OrderedAt(events, k)
  }

  predicate OrderedAt(events: seq<Event>, k: nat)
    requires k < |events|
  {
    match events[k]
    case ChipOp(c, _, _) => k >= 1 && events[k - 1] == GetState(c, Booted)
    case Hreset(c, _) =>
      k >= 2 && events[k - 1] == SetState(c, CheckCfam, true) && events[k - 2] == ReadMsg(c, Some(Halt))
    case SetState(c, s, _) =>
      if s == Booted then k >= 2 && events[k - 1] == ReadMsg(c, Some(Runtime)) && events[k - 2] == Hreset(c, true)
      else s == CheckCfam && k >= 1 && events[k - 1] == ReadMsg(c, Some(Halt))
    case _ => true
  }

  lemma OrderedConcat(a: seq<Event>, b: seq<Event>)
    requires Ordered(a) && Ordered(b)
    ensures Ordered(a + b)
  {
    forall k | 0 <= k < |a + b| ensures OrderedAt(a + b, k) {
      if k < |a| {
        assert OrderedAt(a, k);
      } else {
        assert OrderedAt(b, k - |a|);
      }
    }
  }

  /** The events of halt recovery, written out by how far it gets. */
  lemma RecoveryEvents(chip: nat, a: Answers, ignorePrimary: bool)
    ensures var e := RecoveryStep(chip, a, ignorePrimary).events;
            && e <= [ReadMsg(chip, a.firstRead), SetState(chip, CheckCfam, a.checkSet), Hreset(chip, a.hresetOk),
                     ReadMsg(chip, a.secondRead), SetState(chip, Booted, a.bootSet)]
            && (|e| >= 2 ==> a.firstRead == Some(Halt))
            && (|e| >= 3 ==> a.checkSet)
            && (|e| >= 4 ==> a.hresetOk)
            && (|e| >= 5 ==> a.secondRead == Some(Runtime))
            && (e != [] ==> !Skipped(a, ignorePrimary))
  {
    RecoveryIs(chip, a, ignorePrimary);
  }

  lemma RecoveryOrdered(chip: nat, a: Answers, ignorePrimary: bool)
    ensures Ordered(RecoveryStep(chip, a, ignorePrimary).events)
  {
    RecoveryEvents(chip, a, ignorePrimary);
  }

  /** The soft state after a recovery that returns, and what an exception can leave behind. */
  lemma RecoverySoft(chip: nat, a: Answers, ignorePrimary: bool, soft: map<nat, SbeState>)
    ensures var r := RecoveryStep(chip, a, ignorePrimary);
            var now := SoftAfter(soft, r.events);
            && (r.outcome.Returned? ==>
                  now == if Skipped(a, ignorePrimary) || a.firstRead != Some(Halt) then soft
                         else if a.secondRead == Some(Runtime) then soft[chip := Booted]
                         else soft[chip := CheckCfam])
            && (!r.outcome.Returned? ==> now == soft || (now == soft[chip := CheckCfam] && a.firstRead == Some(Halt)))
  {
    var e := RecoveryStep(chip, a, ignorePrimary).events;
    RecoveryEvents(chip, a, ignorePrimary);
    SoftOfPrefix(chip, a, e, soft);
    RecoveryLength(chip, a, ignorePrimary);
  }

  /** A recovery that returns has got as far as the readings say. */
  lemma RecoveryLength(chip: nat, a: Answers, ignorePrimary: bool)
    ensures var r := RecoveryStep(chip, a, ignorePrimary);
            && (r.outcome.Returned? ==>
                  |r.events| == (if Skipped(a, ignorePrimary) then 0
                                 else if a.firstRead != Some(Halt) then 1
                                 else if a.secondRead == Some(Runtime) then 5 else 4)
                  && (|r.events| >= 2 ==> a.checkSet) && (|r.events| == 5 ==> a.bootSet))
            && (!r.outcome.Returned? && |r.events| == 5 ==> !a.bootSet)
  {
    RecoveryIs(chip, a, ignorePrimary);
  }

  lemma SoftOfPrefix(chip: nat, a: Answers, e: seq<Event>, soft: map<nat, SbeState>)
    requires e <= [ReadMsg(chip, a.firstRead), SetState(chip, CheckCfam, a.checkSet), Hreset(chip, a.hresetOk),
                   ReadMsg(chip, a.secondRead), SetState(chip, Booted, a.bootSet)]
    ensures SoftAfter(soft, e) ==
            if |e| >= 5 && a.bootSet then soft[chip := Booted]
            else if |e| >= 2 && a.checkSet then soft[chip := CheckCfam]
            else soft
  {
    if e != [] {
      SoftOfPrefix(chip, a, e[..|e| - 1], soft);
    }
  }

  // ---------- one call ----------

  lemma PrepareEvents(chip: nat, op: Op, a: Answers)
    ensures PrepareStep(chip, op, a).events == [] ||
            PrepareStep(chip, op, a).events == RecoveryStep(chip, a, op == ThreadStop).events
  {
    var rec := RecoveryStep(chip, a, op == ThreadStop);
    assert [] + rec.events == rec.events;
  }

  lemma PrepareOrdered(chip: nat, op: Op, a: Answers)
    ensures Ordered(PrepareStep(chip, op, a).events)
    ensures forall k :: 0 <= k < |PrepareStep(chip, op, a).events| ==> !PrepareStep(chip, op, a).events[k].ChipOp?
  {
    PrepareEvents(chip, op, a);
    RecoveryOrdered(chip, a, op == ThreadStop);
    RecoveryEvents(chip, a, op == ThreadStop);
  }

  /** The end of a call: a state check, and the operation only if it answered BOOTED. */
  lemma FinishEvents(chip: nat, op: Op, a: Answers, good: Option<nat>)
    ensures var s := FinishStep(chip, op, a, good);
            || s.events <= [GetState(chip, Booted), ChipOp(chip, op, a.opOk)]
            || (|s.events| == 1 && s.events[0].GetState?)
  {
  }

  lemma RunOrdered(chip: nat, op: Op, a: Answers, good: Option<nat>)
    ensures Ordered(Run(chip, op, a, good).events)
  {
    PrepareOrdered(chip, op, a);
    FinishEvents(chip, op, a, good);
    OrderedConcat(PrepareStep(chip, op, a).events, FinishStep(chip, op, a, good).events);
  }

  /** Stopping the threads of a primary processor neither reads its halt state nor resets nor rewrites its SBE. */
  lemma PrimaryUntouched(chip: nat, a: Answers, good: Option<nat>)
    requires a.isProcClass && a.primary == Some(true)
    ensures forall e :: e in Run(chip, ThreadStop, a, good).events ==> e.GetState? || e.ChipOp?
  {
    FinishEvents(chip, ThreadStop, a, good);
    var finish := FinishStep(chip, ThreadStop, a, good);
    assert PrepareStep(chip, ThreadStop, a) == Step([], Returned);
    assert [] + finish.events == finish.events;
  }

  predicate NoFfdcData(a: Answers) {
    a.ffdcTarget && a.ffdc.Got? && !a.ffdc.timeout && a.ffdc.data == []
  }

  // ---------- one call, by the answers it gets ----------

  /** Operations on a processor that may be halted, unless threads are stopped on the primary one. */
  predicate RecoveryDue(op: Op, a: Answers) {
    match op
    case GetDump => !a.isOcmb && a.isProcClass && a.present.Some?
    case GetTiInfo => a.isProcClass && a.present.Some?
    case ThreadStop => a.isProcClass && a.primary == Some(false)
    case MpiplEnter => false
    case MpiplContinue => false
  }

  /** What recovery asks and writes, up to where it ends. */
  function RecoveryLog(chip: nat, a: Answers): seq<Event> {
    if !a.fsiUsable then []
    else if a.firstRead != Some(Halt) || !(a.isOcmb || a.checkPib) then [ReadMsg(chip, a.firstRead)]
    else if !a.checkSet then [ReadMsg(chip, a.firstRead), SetState(chip, CheckCfam, false)]
    else if !a.hresetOk then [ReadMsg(chip, a.firstRead), SetState(chip, CheckCfam, true), Hreset(chip, false)]
    else
      [ReadMsg(chip, a.firstRead), SetState(chip, CheckCfam, true), Hreset(chip, true), ReadMsg(chip, a.secondRead)]
      + (if a.secondRead == Some(Runtime) && (a.isOcmb || a.bootPib) then [SetState(chip, Booted, a.bootSet)] else [])
  }

  /** The first thing that ends recovery by an exception. */
  function RecoveryFailure(a: Answers): Option<Outcome> {
    if !a.fsiUsable then Some(ThrewPdbg(TargetNotOperational))
    else if a.firstRead.None? then Some(ThrewSbe(StateReadFail))
    else if a.firstRead != Some(Halt) then None
    else if !a.isOcmb && !a.checkPib then Some(ThrewPdbg(TargetNotOperational))
    else if !a.checkSet then Some(ThrewSbe(StateWriteFail))
    else if !a.hresetOk then Some(ThrewSbe(HwpExecutionFailed))
    else if a.secondRead.None? then Some(ThrewSbe(StateReadFail))
    else if a.secondRead != Some(Runtime) then None
    else if !a.isOcmb && !a.bootPib then Some(ThrewPdbg(TargetNotOperational))
    else if !a.bootSet then Some(ThrewSbe(StateWriteFail))
    else None
  }

  /** The first thing that ends a call by an exception in front of its state check. */
  function PrepareFailure(op: Op, a: Answers): Option<Outcome> {
    if (op == GetTiInfo || op == ThreadStop) && !a.isProcClass then Some(ThrewPdbg(TargetInvalid))
    else if (op == GetTiInfo || op == GetDump) && a.present.None? then Some(ThrewPdbg(AttrReadFail))
    else if op == GetDump && !a.isOcmb && !a.isProcClass then Some(ThrewPdbg(TargetInvalid))
    else if op == ThreadStop && a.primary.None? then Some(ThrewPdbg(AttrReadFail))
    else if RecoveryDue(op, a) then RecoveryFailure(a)
    else None
  }

  /** The first thing that ends a call by an exception between preparation and operation. */
  function CheckFailure(op: Op, a: Answers): Option<Outcome> {
    if !a.isOcmb && !a.statePib then Some(ThrewPdbg(TargetNotOperational))
    else if !a.isOcmb && a.state.None? then Some(ThrewSbe(StateReadFail))
    else if a.state != Some(Booted) then Some(ThrewSbe(ChipopNotAllowed))
    else if !a.opPib && !(op == GetDump && a.isOcmb) then Some(ThrewPdbg(TargetNotOperational))
    else None
  }

  lemma AfterHresetIs(chip: nat, a: Answers)
    ensures AfterHresetStep(chip, a).events ==
            [ReadMsg(chip, a.secondRead)]
            + (if a.secondRead == Some(Runtime) && (a.isOcmb || a.bootPib) then [SetState(chip, Booted, a.bootSet)]
               else [])
    ensures AfterHresetStep(chip, a).outcome ==
            if a.secondRead.None? then ThrewSbe(StateReadFail)
            else if a.secondRead != Some(Runtime) then Returned
            else if !a.isOcmb && !a.bootPib then ThrewPdbg(TargetNotOperational)
            else if !a.bootSet then ThrewSbe(StateWriteFail)
            else Returned
  {
  }

  lemma ResetIs(chip: nat, a: Answers)
    requires a.isOcmb || a.checkPib
    ensures ResetStep(chip, a).events ==
            [SetState(chip, CheckCfam, a.checkSet)]
            + (if !a.checkSet then []
               else [Hreset(chip, a.hresetOk)] + (if !a.hresetOk then [] else AfterHresetStep(chip, a).events))
    ensures ResetStep(chip, a).outcome ==
            if !a.checkSet then ThrewSbe(StateWriteFail)
            else if !a.hresetOk then ThrewSbe(HwpExecutionFailed)
            else AfterHresetStep(chip, a).outcome
  {
  }

  lemma RecoveryWithoutSkip(chip: nat, a: Answers)
    ensures RecoveryStep(chip, a, false) ==
            Step(RecoveryLog(chip, a), if RecoveryFailure(a).Some? then RecoveryFailure(a).value else Returned)
  {
    AfterHresetIs(chip, a);
    if a.isOcmb || a.checkPib {
      ResetIs(chip, a);
    }
  }

  /** Halt recovery called on its own; passing over the primary takes a processor whose type can be read. */
  lemma RecoveryIs(chip: nat, a: Answers, ignorePrimary: bool)
    ensures RecoveryStep(chip, a, ignorePrimary) ==
            if ignorePrimary && !a.isProcClass then Step([], ThrewPdbg(TargetInvalid))
            else if ignorePrimary && a.primary.None? then Step([], ThrewPdbg(AttrReadFail))
            else if ignorePrimary && a.primary == Some(true) then Step([], Returned)
            else Step(RecoveryLog(chip, a), if RecoveryFailure(a).Some? then RecoveryFailure(a).value else Returned)
  {
    RecoveryWithoutSkip(chip, a);
    if !ignorePrimary || (a.isProcClass && a.primary == Some(false)) {
      assert RecoveryStep(chip, a, ignorePrimary) == RecoveryStep(chip, a, false);
    }
  }

  /** Preparation performs recovery exactly when it is due, and ends with the first failure. */
  lemma PrepareIs(chip: nat, op: Op, a: Answers)
    ensures PrepareStep(chip, op, a) ==
            Step(if RecoveryDue(op, a) then RecoveryLog(chip, a) else [],
                 if PrepareFailure(op, a).Some? then PrepareFailure(op, a).value else Returned)
  {
    RecoveryIs(chip, a, false);
    RecoveryIs(chip, a, true);
    var rec := RecoveryStep(chip, a, false);
    var nothing := Step([], Returned);
    assert Then(nothing, rec) == rec && Then(nothing, nothing) == nothing;
    match op
    case ThreadStop =>
      var skipping := RecoveryStep(chip, a, true);
      assert Then(nothing, skipping) == skipping;
      if a.isProcClass && a.primary.Some? {
        if a.primary.value {
          assert PrepareStep(chip, op, a) == nothing;
        } else {
          assert PrepareStep(chip, op, a) == rec;
        }
      }
    case GetTiInfo =>
      assert Then(nothing, Then(nothing, rec)) == rec;
    case _ =>
  }

  /** The state check, with an unreadable state of an OCMB taken for not usable, and the operation behind BOOTED. */
  function CheckLog(chip: nat, op: Op, a: Answers): seq<Event> {
    if !a.isOcmb && (!a.statePib || a.state.None?) then []
    else if a.state.None? then [GetState(chip, NotUsable)]
    else if CheckFailure(op, a).Some? then [GetState(chip, a.state.value)]
    else [GetState(chip, Booted), ChipOp(chip, op, a.opOk)]
  }

  lemma ValidateIs(chip: nat, a: Answers)
    ensures ValidateStep(chip, a) ==
            if !a.isOcmb && !a.statePib then Step([], ThrewPdbg(TargetNotOperational))
            else if !a.isOcmb && a.state.None? then Step([], ThrewSbe(StateReadFail))
            else if a.state == Some(Booted) then Step([GetState(chip, Booted)], Returned)
            else Step([GetState(chip, if a.state.Some? then a.state.value else NotUsable)], ThrewSbe(ChipopNotAllowed))
  {
  }

  lemma FinishIs(chip: nat, op: Op, a: Answers, good: Option<nat>)
    ensures FinishStep(chip, op, a, good) ==
            Step(CheckLog(chip, op, a),
                 if CheckFailure(op, a).Some? then CheckFailure(op, a).value else OpStep(chip, op, a, good).outcome)
  {
    ValidateIs(chip, a);
    var get, op1 := [GetState(chip, Booted)], OpStep(chip, op, a, good);
    assert get + [] == get && [] + op1.events == op1.events;
  }

  /** Everything a call asks of the hardware: recovery when due, then the state check, then the operation. */
  lemma RunEvents(chip: nat, op: Op, a: Answers, good: Option<nat>)
    ensures Run(chip, op, a, good).events ==
            (if RecoveryDue(op, a) then RecoveryLog(chip, a) else [])
            + (if PrepareFailure(op, a).None? then CheckLog(chip, op, a) else [])
  {
    PrepareIs(chip, op, a);
    FinishIs(chip, op, a, good);
  }

  /**
   * A halted SBE is reset before the operation: a dump of a processor and the
   * reading of termination information begin with a read of its state, and so
   * does stopping threads on a processor that is not the primary one. Behind
   * HALT comes the CHECK_CFAM write, behind that the reset, behind that another
   * read, and behind RUNTIME the BOOTED write.
   */
  lemma HaltedIsReset(chip: nat, op: Op, a: Answers, good: Option<nat>)
    requires a.isProcClass && a.fsiUsable && !a.isOcmb
    requires op == GetDump || op == GetTiInfo || op == ThreadStop
    requires if op == ThreadStop then a.primary == Some(false) else a.present.Some?
    ensures var e := Run(chip, op, a, good).events;
            && |e| >= 1 && e[0] == ReadMsg(chip, a.firstRead)
            && (a.firstRead == Some(Halt) && a.checkPib ==> |e| >= 2 && e[1] == SetState(chip, CheckCfam, a.checkSet))
            && (a.firstRead == Some(Halt) && a.checkPib && a.checkSet ==> |e| >= 3 && e[2] == Hreset(chip, a.hresetOk))
            && (a.firstRead == Some(Halt) && a.checkPib && a.checkSet && a.hresetOk ==>
                  && |e| >= 4 && e[3] == ReadMsg(chip, a.secondRead)
                  && (a.secondRead == Some(Runtime) && a.bootPib ==>
                        |e| >= 5 && e[4] == SetState(chip, Booted, a.bootSet)))
  {
    RunEvents(chip, op, a, good);
    RecoveryLogShape(chip, a);
    assert RecoveryLog(chip, a) <= Run(chip, op, a, good).events;
  }

  lemma RecoveryLogShape(chip: nat, a: Answers)
    requires a.fsiUsable
    ensures var e := RecoveryLog(chip, a);
            && |e| >= 1 && e[0] == ReadMsg(chip, a.firstRead)
            && (a.firstRead == Some(Halt) && a.checkPib ==> |e| >= 2 && e[1] == SetState(chip, CheckCfam, a.checkSet))
            && (a.firstRead == Some(Halt) && a.checkPib && a.checkSet ==> |e| >= 3 && e[2] == Hreset(chip, a.hresetOk))
            && (a.firstRead == Some(Halt) && a.checkPib && a.checkSet && a.hresetOk ==>
                  && |e| >= 4 && e[3] == ReadMsg(chip, a.secondRead)
                  && (a.secondRead == Some(Runtime) && a.bootPib ==>
                        |e| >= 5 && e[4] == SetState(chip, Booted, a.bootSet)))
  {
  }

  /** The outcome of a capture that reports the given error with its data, by the bytes of the buffer. */
  function Captured(a: Answers, err: Error, good: Option<nat>): Outcome {
    if !a.ffdcTarget then (if a.isOcmb then ThrewSbe(TargetInvalid) else ThrewPdbg(TargetNotOperational))
    else
      match a.ffdc
      case GetFailed => ThrewSbe(FfdcGetFailed)
      case Got(timeout, data) =>
        if timeout then ThrewSbe(CmdTimeout)
        else if |data| == 0 then ThrewSbe(FfdcNoData)
        else if |data| == 1 then ReadPast
        else if data[0] == 0xFF && data[1] == 0xDC then (if good == Some(0) then ThrewRuntime else ThrewSbe(err))
        else if data[0] == 0xFB && data[1] == 0xAD then
          match Ffdc.EndOf(data, 0, good)
          case Finished => ThrewSbe(err)
          case Failed(_) => ThrewRuntime
          case OutOfBounds => ReadPast
          case Never => NeverEnds
        else ThrewRuntime
  }

  lemma MagicBytes(data: seq<Byte>)
    requires |data| >= 2
    ensures Ffdc.U16(data, 0) == 0xFFDC <==> data[0] == 0xFF && data[1] == 0xDC
    ensures Ffdc.U16(data, 0) == 0xFBAD <==> data[0] == 0xFB && data[1] == 0xAD
  {
  }

  lemma CapturedIs(a: Answers, coSuccess: bool, good: Option<nat>)
    ensures CaptureOutcome(a, coSuccess, good) == Captured(a, if coSuccess then InternalData else CmdFailed, good)
  {
    if a.ffdc.Got? && |a.ffdc.data| >= 2 {
      MagicBytes(a.ffdc.data);
    }
  }

  /**
   * How every call ends: with its first failure in front of the operation; with
   * the captured command error if the operation fails; for a dump that succeeds
   * with the captured internal data, unless there is none; else normally.
   */
  lemma RunOutcome(chip: nat, op: Op, a: Answers, good: Option<nat>)
    ensures Run(chip, op, a, good).outcome ==
            if PrepareFailure(op, a).Some? then PrepareFailure(op, a).value
            else if CheckFailure(op, a).Some? then CheckFailure(op, a).value
            else if !a.opOk then Captured(a, CmdFailed, good)
            else if op == GetDump && !NoFfdcData(a) then Captured(a, InternalData, good)
            else Returned
  {
    PrepareIs(chip, op, a);
    FinishIs(chip, op, a, good);
    CapturedIs(a, false, good);
    CapturedIs(a, true, good);
  }

  /** Recovery comes back normally. */
  predicate Recovers(a: Answers) {
    && a.fsiUsable && a.firstRead.Some?
    && (a.firstRead == Some(Halt) ==>
          && (a.isOcmb || a.checkPib) && a.checkSet && a.hresetOk && a.secondRead.Some?
          && (a.secondRead == Some(Runtime) ==> (a.isOcmb || a.bootPib) && a.bootSet))
  }

  /** Preparation comes back normally. */
  predicate Prepared(op: Op, a: Answers) {
    match op
    case MpiplEnter => true
    case MpiplContinue => true
    case GetTiInfo => a.isProcClass && a.present.Some? && Recovers(a)
    case GetDump => a.present.Some? && (a.isOcmb || (a.isProcClass && Recovers(a)))
    case ThreadStop => a.isProcClass && (a.primary == Some(true) || (a.primary == Some(false) && Recovers(a)))
  }

  lemma RecoversIs(a: Answers)
    ensures RecoveryFailure(a).None? <==> Recovers(a)
    ensures RecoveryFailure(a) != Some(Returned)
  {
  }

  lemma PreparedIs(op: Op, a: Answers)
    ensures PrepareFailure(op, a).None? <==> Prepared(op, a)
    ensures PrepareFailure(op, a) != Some(Returned)
  {
    RecoversIs(a);
    if a.primary.Some? {
      assert a.primary == if a.primary.value then Some(true) else Some(false);
    }
  }

  /**
   * A call returns normally iff it got through its preparation, the state check
   * answered BOOTED, the operation succeeded and, for a dump, FFDC capture
   * reported that there is no data. Every other end is an exception.
   */
  lemma ReturnsIff(chip: nat, op: Op, a: Answers, good: Option<nat>)
    ensures Run(chip, op, a, good).outcome == Returned <==>
            && Prepared(op, a)
            && (a.isOcmb || a.statePib) && a.state == Some(Booted)
            && (a.opPib || (op == GetDump && a.isOcmb))
            && a.opOk && (op == GetDump ==> NoFfdcData(a))
    ensures PrepareStep(chip, op, a).outcome == Returned <==> Prepared(op, a)
  {
    PrepareIs(chip, op, a);
    RunOutcome(chip, op, a, good);
    PreparedIs(op, a);
  }

  /** A call that issued a failing operation ends as the capture of its error does, and so never returns normally. */
  lemma FailedOpThrows(chip: nat, op: Op, a: Answers, good: Option<nat>, k: nat)
    requires k < |Run(chip, op, a, good).events| && Run(chip, op, a, good).events[k].ChipOp?
    ensures Run(chip, op, a, good).events[k] == ChipOp(chip, op, a.opOk)
    ensures !a.opOk ==>
              && Run(chip, op, a, good).outcome == CaptureOutcome(a, false, good)
              && CaptureOutcome(a, false, good) != Returned
  {
    PrepareOrdered(chip, op, a);
    FinishEvents(chip, op, a, good);
  }

  // ---------- sequences of calls ----------

  datatype Call = Call(chip: nat, op: Op, answers: Answers, good: Option<nat>)

  /** What the hardware sees of a sequence of calls, each with answers of its own. */
  function Trace(calls: seq<Call>): seq<Event>
  {
    if calls == [] then []
    else
      var n := |calls| - 1;
      Trace(calls[..n]) + Run(calls[n].chip, calls[n].op, calls[n].answers, calls[n].good).events
  }

  /** Every trace of every sequence of calls keeps the order rules. */
  lemma {:induction false} TraceOrdered(calls: seq<Call>)
    ensures Ordered(Trace(calls))
  {
    if calls != [] {
      var n := |calls| - 1;
      TraceOrdered(calls[..n]);
      RunOrdered(calls[n].chip, calls[n].op, calls[n].answers, calls[n].good);
      OrderedConcat(Trace(calls[..n]), Run(calls[n].chip, calls[n].op, calls[n].answers, calls[n].good).events);
    }
  }

  /** The answer of the last state check of a chip. */
  function LastCheck(events: seq<Event>, chip: nat): Option<SbeState> {
    if events == [] then None
    else
      var n := |events| - 1;
      if events[n].GetState? && events[n].chip == chip then Some(events[n].answer) else LastCheck(events[..n], chip)
  }

  lemma CheckedAt(events: seq<Event>, k: nat)
    requires Ordered(events) && k < |events| && events[k].ChipOp?
    ensures LastCheck(events[..k], events[k].chip) == Some(Booted)
  {
    assert OrderedAt(events, k);
    assert events[..k][k - 1] == GetState(events[k].chip, Booted);
  }

  /** Before every operation, the last state check of its chip answered BOOTED. */
  lemma OperationsChecked(calls: seq<Call>, k: nat)
    requires k < |Trace(calls)| && Trace(calls)[k].ChipOp?
    ensures LastCheck(Trace(calls)[..k], Trace(calls)[k].chip) == Some(Booted)
  {
    TraceOrdered(calls);
    CheckedAt(Trace(calls), k);
  }
}
