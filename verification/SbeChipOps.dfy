/** The chip operations of the PHAL library: halt recovery, state check, operation, and FFDC capture on failure. */
module SbeChipOps {
  import opened Base
  import opened Ffdc
  import opened DeviceTree

  const PROC_MAGIC := 0xFFDC

  /** currState of the SBE message register, as far as halt recovery tells its values apart. */
  datatype RegState = Halt | Runtime | Other

  /** sbe_ffdc_get: failure, or a status and a buffer. */
  datatype FfdcAnswer = GetFailed | Got(timeout: bool, data: seq<Byte>)

  /** Everything the environment answers during one call; None and false are failures. */
  datatype Answers = Answers(
    isOcmb: bool,
    isProcClass: bool,
    present: Option<bool>,
    primary: Option<bool>,
    fsiUsable: bool,
    firstRead: Option<RegState>,
    checkPib: bool,
    checkSet: bool,
    hresetOk: bool,
    secondRead: Option<RegState>,
    bootPib: bool,
    bootSet: bool,
    statePib: bool,
    state: Option<SbeState>,
    opPib: bool,
    opOk: bool,
    ffdcTarget: bool,
    ffdc: FfdcAnswer)

  datatype Error =
    | TargetNotOperational | TargetInvalid | StateReadFail | StateWriteFail | ChipopNotAllowed | FfdcGetFailed
    | CmdFailed | CmdTimeout | FfdcNoData | HwpExecutionFailed | AttrReadFail | InternalData

  /** ReadPast: the source reads beyond a first-failure buffer. NeverEnds: its packet loop goes on for ever. */
  datatype Outcome = Returned | ThrewSbe(err: Error) | ThrewPdbg(err: Error) | ThrewRuntime | ReadPast | NeverEnds

  /** The call comes back, normally or by an exception. */
  predicate ComesBack(o: Outcome) {
    !o.ReadPast? && !o.NeverEnds?
  }

  datatype Op = MpiplEnter | MpiplContinue | GetTiInfo | GetDump | ThreadStop

  datatype Event =
    | ReadMsg(chip: nat, reading: Option<RegState>)
    | SetState(chip: nat, state: SbeState, ok: bool)
    | Hreset(chip: nat, ok: bool)
    | GetState(chip: nat, answer: SbeState)
    | ChipOp(chip: nat, op: Op, ok: bool)

  // ---------- the calls as functions of the answers ----------

  datatype Step = Step(events: seq<Event>, outcome: Outcome)

  /** Go on unless an exception is on its way. */
  function Then(a: Step, b: Step): Step {
    if a.outcome.Returned? then Step(a.events + b.events, b.outcome) else a
  }

  function Check(ok: bool, failure: Outcome): Step {
    Step([], if ok then Returned else failure)
  }

  function PibCheck(ok: bool): Step { Check(ok, ThrewPdbg(TargetNotOperational)) }

  function SetStep(chip: nat, s: SbeState, isOcmb: bool, pib: bool, ok: bool): Step {
    Then(PibCheck(isOcmb || pib), Step([SetState(chip, s, ok)], if ok then Returned else ThrewSbe(StateWriteFail)))
  }

  function ReadStep(chip: nat, r: Option<RegState>): Step {
    Step([ReadMsg(chip, r)], if r.Some? then Returned else ThrewSbe(StateReadFail))
  }

  function HresetStep(chip: nat, ok: bool): Step {
    Step([Hreset(chip, ok)], if ok then Returned else ThrewSbe(HwpExecutionFailed))
  }

  function BackStep(chip: nat, a: Answers): Step {
    if a.secondRead == Some(Runtime) then SetStep(chip, Booted, a.isOcmb, a.bootPib, a.bootSet)
    else Step([], Returned)
  }

  function AfterHresetStep(chip: nat, a: Answers): Step {
    Then(ReadStep(chip, a.secondRead), BackStep(chip, a))
  }

  /** Reset a halted SBE and see whether it comes back. */
  function ResetStep(chip: nat, a: Answers): Step {
    Then(SetStep(chip, CheckCfam, a.isOcmb, a.checkPib, a.checkSet),
    Then(HresetStep(chip, a.hresetOk), AfterHresetStep(chip, a)))
  }

  predicate Skipped(a: Answers, ignorePrimary: bool) {
    ignorePrimary && a.isProcClass && a.primary == Some(true)
  }

  function RecoveryStep(chip: nat, a: Answers, ignorePrimary: bool): Step {
    if ignorePrimary && !a.isProcClass then Step([], ThrewPdbg(TargetInvalid))
    else if ignorePrimary && a.primary.None? then Step([], ThrewPdbg(AttrReadFail))
    else if Skipped(a, ignorePrimary) then Step([], Returned)
    else
      Then(PibCheck(a.fsiUsable),
      Then(ReadStep(chip, a.firstRead),
           if a.firstRead == Some(Halt) then ResetStep(chip, a) else Step([], Returned)))
  }

  /** Only an OCMB may fail to answer; it then counts as not usable. */
  function ValidateStep(chip: nat, a: Answers): Step {
    var state := if a.state.Some? then a.state.value else NotUsable;
    Then(PibCheck(a.isOcmb || a.statePib),
    Then(Check(a.state.Some? || a.isOcmb, ThrewSbe(StateReadFail)),
         Step([GetState(chip, state)], if state == Booted then Returned else ThrewSbe(ChipopNotAllowed))))
  }

  /** The end of the packet loop, seen from the capture. */
  function PozOutcome(end: End, withData: Outcome): Outcome {
    match end
    case Finished => withData
    case Failed(_) => ThrewRuntime
    case OutOfBounds => ReadPast
    case Never => NeverEnds
  }

  /** A captured error object of the given type, or an exception thrown while capturing; for any buffer. */
  function CaptureOutcome(a: Answers, coSuccess: bool, good: Option<nat>): Outcome {
    var withData := ThrewSbe(if coSuccess then InternalData else CmdFailed);
    if !a.ffdcTarget then (if a.isOcmb then ThrewSbe(TargetInvalid) else ThrewPdbg(TargetNotOperational))
    else if a.ffdc.GetFailed? then ThrewSbe(FfdcGetFailed)
    else if a.ffdc.timeout then ThrewSbe(CmdTimeout)
    else if a.ffdc.data == [] then ThrewSbe(FfdcNoData)
    else if |a.ffdc.data| < 2 then ReadPast
    else if U16(a.ffdc.data, 0) == PROC_MAGIC then (if good == Some(0) then ThrewRuntime else withData)
    else if U16(a.ffdc.data, 0) == POZ_MAGIC then PozOutcome(EndOf(a.ffdc.data, 0, good), withData)
    else ThrewRuntime
  }

  /** After a failed operation the captured error is thrown. */
  function OpStep(chip: nat, op: Op, a: Answers, good: Option<nat>): Step
  {
    Step([ChipOp(chip, op, a.opOk)],
         if !a.opOk then CaptureOutcome(a, false, good)
         else if op != Op.GetDump then Returned
         else if CaptureOutcome(a, true, good) == ThrewSbe(FfdcNoData) then Returned
         else CaptureOutcome(a, true, good))
  }

  /** Target checks and halt recovery before the state check. */
  function PrepareStep(chip: nat, op: Op, a: Answers): Step {
    match op
    case MpiplEnter => Step([], Returned)
    case MpiplContinue => Step([], Returned)
    case ThreadStop => Then(Check(a.isProcClass, ThrewPdbg(TargetInvalid)), RecoveryStep(chip, a, true))
    case GetTiInfo =>
      Then(Check(a.isProcClass, ThrewPdbg(TargetInvalid)),
      Then(Check(a.present.Some?, ThrewPdbg(AttrReadFail)), RecoveryStep(chip, a, false)))
    case GetDump =>
      Then(Check(a.present.Some?, ThrewPdbg(AttrReadFail)),
           if a.isOcmb then Step([], Returned)
           else Then(Check(a.isProcClass, ThrewPdbg(TargetInvalid)), RecoveryStep(chip, a, false)))
  }

  function PibOpStep(chip: nat, op: Op, a: Answers, good: Option<nat>): Step
  {
    Then(PibCheck(a.opPib || (op == Op.GetDump && a.isOcmb)), OpStep(chip, op, a, good))
  }

  function FinishStep(chip: nat, op: Op, a: Answers, good: Option<nat>): Step
  {
    Then(ValidateStep(chip, a), PibOpStep(chip, op, a, good))
  }

  function Run(chip: nat, op: Op, a: Answers, good: Option<nat>): Step
  {
    Then(PrepareStep(chip, op, a), FinishStep(chip, op, a, good))
  }

  /** The soft states after the successful writes among the events. */
  function SoftAfter(soft: map<nat, SbeState>, events: seq<Event>): map<nat, SbeState> {
    if events == [] then soft
    else
      var before, e := SoftAfter(soft, events[..|events| - 1]), events[|events| - 1];
      if e.SetState? && e.ok then before[e.chip := e.state] else before
  }

  lemma {:induction false} SoftConcat(soft: map<nat, SbeState>, a: seq<Event>, b: seq<Event>)
    ensures SoftAfter(soft, a + b) == SoftAfter(SoftAfter(soft, a), b)
  {
    if b == [] {
      assert a + b == a;
    } else {
      SoftConcat(soft, a, b[..|b| - 1]);
      assert (a + b)[..|a + b| - 1] == a + b[..|b| - 1];
    }
  }

  // ---------- the imperative library ----------

  lemma Compose(trace: seq<Event>, soft: map<nat, SbeState>, a: Step, b: Step)
    requires a.outcome.Returned?
    ensures trace + a.events + b.events == trace + Then(a, b).events
    ensures SoftAfter(SoftAfter(soft, a.events), b.events) == SoftAfter(soft, Then(a, b).events)
  {
    SoftConcat(soft, a.events, b.events);
  }

  /** The log of what was asked of the hardware, and the soft SBE state of each chip. */
  class Library {
    var trace: seq<Event>
    var soft: map<nat, SbeState>

    constructor ()
      ensures trace == [] && soft == map[]
    {
      trace, soft := [], map[];
    }

    /** The call has had exactly the effect and the end of the given step. */
    twostate predicate Did(s: Step, r: Outcome)
      reads this
    {
      trace == old(trace) + s.events && soft == SoftAfter(old(soft), s.events) && r == s.outcome
    }

    method Record(e: Event)
      modifies this
      ensures trace == old(trace) + [e]
      ensures soft == SoftAfter(old(soft), [e])
    {
      trace := trace + [e];
      assert [e][..0] == [];
      if e.SetState? && e.ok {
        soft := soft[e.chip := e.state];
      }
    }

    method WriteState(chip: nat, s: SbeState, isOcmb: bool, pib: bool, ok: bool) returns (r: Outcome)
      modifies this
      ensures Did(SetStep(chip, s, isOcmb, pib, ok), r)
    {
      if !isOcmb && !pib {
        return ThrewPdbg(TargetNotOperational);
      }
      Record(SetState(chip, s, ok));
      if !ok {
        return ThrewSbe(StateWriteFail);
      }
      return Returned;
    }

    method ReadMessage(chip: nat, reading: Option<RegState>) returns (r: Outcome)
      modifies this
      ensures Did(ReadStep(chip, reading), r)
    {
      Record(ReadMsg(chip, reading));
      return if reading.Some? then Returned else ThrewSbe(StateReadFail);
    }

    method CallHreset(chip: nat, ok: bool) returns (r: Outcome)
      modifies this
      ensures Did(HresetStep(chip, ok), r)
    {
      Record(Hreset(chip, ok));
      return if ok then Returned else ThrewSbe(HwpExecutionFailed);
    }

    /** The part of halt recovery that follows the reset. */
    method AfterHreset(chip: nat, a: Answers) returns (r: Outcome)
      modifies this
      ensures Did(AfterHresetStep(chip, a), r)
    {
      r := ReadMessage(chip, a.secondRead);
      if !r.Returned? {
        return;
      }
      Compose(old(trace), old(soft), ReadStep(chip, a.secondRead), BackStep(chip, a));
      if a.secondRead.value == Runtime {
        r := WriteState(chip, Booted, a.isOcmb, a.bootPib, a.bootSet);
      }
    }

    method ResetHalted(chip: nat, a: Answers) returns (r: Outcome)
      modifies this
      ensures Did(ResetStep(chip, a), r)
    {
      ghost var mark := SetStep(chip, CheckCfam, a.isOcmb, a.checkPib, a.checkSet);
      ghost var reset := HresetStep(chip, a.hresetOk);
      r := WriteState(chip, CheckCfam, a.isOcmb, a.checkPib, a.checkSet);
      if !r.Returned? {
        return;
      }
      Compose(old(trace), old(soft), mark, Then(reset, AfterHresetStep(chip, a)));
      ghost var t, s := trace, soft;
      r := CallHreset(chip, a.hresetOk);
      if !r.Returned? {
        return;
      }
      Compose(t, s, reset, AfterHresetStep(chip, a));
      r := AfterHreset(chip, a);
    }

    method HaltStateRecovery(chip: nat, a: Answers, ignorePrimary: bool) returns (r: Outcome)
      modifies this
      ensures Did(RecoveryStep(chip, a, ignorePrimary), r)
    {
      if ignorePrimary {
        if !a.isProcClass {
          return ThrewPdbg(TargetInvalid);
        }
        if a.primary.None? {
          return ThrewPdbg(AttrReadFail);
        }
        if a.primary.value {
          return Returned;
        }
      }
      if !a.fsiUsable {
        return ThrewPdbg(TargetNotOperational);
      }
      ghost var reset := if a.firstRead == Some(Halt) then ResetStep(chip, a) else Step([], Returned);
      assert [] + Then(ReadStep(chip, a.firstRead), reset).events == Then(ReadStep(chip, a.firstRead), reset).events;
      r := ReadMessage(chip, a.firstRead);
      if !r.Returned? {
        return;
      }
      Compose(old(trace), old(soft), ReadStep(chip, a.firstRead), reset);
      if a.firstRead.value != Halt {
        return;
      }
      r := ResetHalted(chip, a);
    }

    method ValidateSbeState(chip: nat, a: Answers) returns (r: Outcome)
      modifies this
      ensures Did(ValidateStep(chip, a), r)
    {
      if !a.isOcmb && !a.statePib {
        return ThrewPdbg(TargetNotOperational);
      }
      var state := NotUsable;
      if a.state.Some? {
        state := a.state.value;
      } else if !a.isOcmb {
        return ThrewSbe(StateReadFail);
      }
      Record(GetState(chip, state));
      if state == Booted {
        return Returned;
      } else {
        return ThrewSbe(ChipopNotAllowed);
      }
    }

    /** Processor data goes into one file, POZ data into one file per SLID. */
    method CaptureFfdc(a: Answers, fs: TempFiles, coSuccess: bool) returns (r: Outcome)
      requires fs.Valid() && ComesBack(CaptureOutcome(a, coSuccess, fs.good))
      modifies fs
      ensures fs.Valid()
      ensures r == CaptureOutcome(a, coSuccess, old(fs.good))
    {
      if !a.ffdcTarget {
        return if a.isOcmb then ThrewSbe(TargetInvalid) else ThrewPdbg(TargetNotOperational);
      }
      if a.ffdc.GetFailed? {
        return ThrewSbe(FfdcGetFailed);
      }
      if a.ffdc.timeout {
        return ThrewSbe(CmdTimeout);
      }
      var data := a.ffdc.data;
      if |data| == 0 {
        return ThrewSbe(FfdcNoData);
      }
      var magic := U16(data, 0);
      if magic == PROC_MAGIC {
        var path := fs.Create(data);
        if path.None? {
          return ThrewRuntime;
        }
        return ThrewSbe(if coSuccess then InternalData else CmdFailed);
      } else if magic == POZ_MAGIC {
        ghost var end := EndOf(data, 0, fs.good);
        var res, _ := ProcessPozFfdc(fs, data, coSuccess);
        if res.Threw? {
          assert end == Failed(res.failure);
          return ThrewRuntime;
        }
        assert end == Finished;
        return ThrewSbe(if res.errType == InternalFfdcData then InternalData else CmdFailed);
      } else {
        return ThrewRuntime;
      }
    }

    /** The operation itself; a failure is turned into the captured error. */
    method Operate(chip: nat, op: Op, a: Answers, fs: TempFiles) returns (r: Outcome)
      requires fs.Valid() && ComesBack(OpStep(chip, op, a, fs.good).outcome)
      modifies this, fs
      ensures fs.Valid()
      ensures Did(OpStep(chip, op, a, old(fs.good)), r)
    {
      Record(ChipOp(chip, op, a.opOk));
      if !a.opOk {
        r := CaptureFfdc(a, fs, false);
        return;
      }
      if op == Op.GetDump {
        r := CaptureFfdc(a, fs, true);
        if r == ThrewSbe(FfdcNoData) {
          r := Returned;
        }
        return;
      }
      return Returned;
    }

    /** PIB target and operation. */
    method OperateOnPib(chip: nat, op: Op, a: Answers, fs: TempFiles) returns (r: Outcome)
      requires fs.Valid() && ComesBack(PibOpStep(chip, op, a, fs.good).outcome)
      modifies this, fs
      ensures fs.Valid()
      ensures Did(PibOpStep(chip, op, a, old(fs.good)), r)
    {
      ghost var last := OpStep(chip, op, a, fs.good);
      assert [] + last.events == last.events;
      if !a.opPib && !(op == Op.GetDump && a.isOcmb) {
        return ThrewPdbg(TargetNotOperational);
      }
      r := Operate(chip, op, a, fs);
    }

    /** State check, PIB target and operation: the common end of all five calls. */
    method CheckAndOperate(chip: nat, op: Op, a: Answers, fs: TempFiles) returns (r: Outcome)
      requires fs.Valid() && ComesBack(FinishStep(chip, op, a, fs.good).outcome)
      modifies this, fs
      ensures fs.Valid()
      ensures Did(FinishStep(chip, op, a, old(fs.good)), r)
    {
      r := ValidateSbeState(chip, a);
      if !r.Returned? {
        return;
      }
      Compose(old(trace), old(soft), ValidateStep(chip, a), PibOpStep(chip, op, a, fs.good));
      r := OperateOnPib(chip, op, a, fs);
    }

    method MpiplContinue(chip: nat, a: Answers, fs: TempFiles) returns (r: Outcome)
      requires fs.Valid() && ComesBack(Run(chip, Op.MpiplContinue, a, fs.good).outcome)
      modifies this, fs
      ensures fs.Valid()
      ensures Did(Run(chip, Op.MpiplContinue, a, old(fs.good)), r)
    {
      ghost var finish := FinishStep(chip, Op.MpiplContinue, a, fs.good);
      assert [] + finish.events == finish.events;
      r := CheckAndOperate(chip, Op.MpiplContinue, a, fs);
    }

    method MpiplEnter(chip: nat, a: Answers, fs: TempFiles) returns (r: Outcome)
      requires fs.Valid() && ComesBack(Run(chip, Op.MpiplEnter, a, fs.good).outcome)
      modifies this, fs
      ensures fs.Valid()
      ensures Did(Run(chip, Op.MpiplEnter, a, old(fs.good)), r)
    {
      ghost var finish := FinishStep(chip, Op.MpiplEnter, a, fs.good);
      assert [] + finish.events == finish.events;
      r := CheckAndOperate(chip, Op.MpiplEnter, a, fs);
    }

    method GetTiInfo(chip: nat, a: Answers, fs: TempFiles) returns (r: Outcome)
      requires fs.Valid() && ComesBack(Run(chip, Op.GetTiInfo, a, fs.good).outcome)
      modifies this, fs
      ensures fs.Valid()
      ensures Did(Run(chip, Op.GetTiInfo, a, old(fs.good)), r)
    {
      if !a.isProcClass {
        return ThrewPdbg(TargetInvalid);
      }
      if a.present.None? {
        return ThrewPdbg(AttrReadFail);
      }
      ghost var rec := RecoveryStep(chip, a, false);
      assert [] + rec.events == rec.events;
      r := HaltStateRecovery(chip, a, false);
      if !r.Returned? {
        return;
      }
      Compose(old(trace), old(soft), PrepareStep(chip, Op.GetTiInfo, a), FinishStep(chip, Op.GetTiInfo, a, fs.good));
      r := CheckAndOperate(chip, Op.GetTiInfo, a, fs);
    }

    /** Presence, and for a processor its class and halt recovery. */
    method PrepareDump(chip: nat, a: Answers) returns (r: Outcome)
      modifies this
      ensures Did(PrepareStep(chip, Op.GetDump, a), r)
    {
      ghost var rec := RecoveryStep(chip, a, false);
      assert [] + ([] + rec.events) == rec.events;
      if a.present.None? {
        return ThrewPdbg(AttrReadFail);
      }
      if a.isOcmb {
        return Returned;
      }
      if !a.isProcClass {
        return ThrewPdbg(TargetInvalid);
      }
      r := HaltStateRecovery(chip, a, false);
    }

    method GetDump(chip: nat, a: Answers, fs: TempFiles) returns (r: Outcome)
      requires fs.Valid() && ComesBack(Run(chip, Op.GetDump, a, fs.good).outcome)
      modifies this, fs
      ensures fs.Valid()
      ensures Did(Run(chip, Op.GetDump, a, old(fs.good)), r)
    {
      ghost var prepare, finish := PrepareStep(chip, Op.GetDump, a), FinishStep(chip, Op.GetDump, a, fs.good);
      r := PrepareDump(chip, a);
      if !r.Returned? {
        return;
      }
      Compose(old(trace), old(soft), prepare, finish);
      r := CheckAndOperate(chip, Op.GetDump, a, fs);
    }

    method ThreadStopProc(chip: nat, a: Answers, fs: TempFiles) returns (r: Outcome)
      requires fs.Valid() && ComesBack(Run(chip, ThreadStop, a, fs.good).outcome)
      modifies this, fs
      ensures fs.Valid()
      ensures Did(Run(chip, ThreadStop, a, old(fs.good)), r)
    {
      if !a.isProcClass {
        return ThrewPdbg(TargetInvalid);
      }
      ghost var rec := RecoveryStep(chip, a, true);
      assert [] + rec.events == rec.events;
      r := HaltStateRecovery(chip, a, true);
      if !r.Returned? {
        return;
      }
      Compose(old(trace), old(soft), PrepareStep(chip, ThreadStop, a), FinishStep(chip, ThreadStop, a, fs.good));
      r := CheckAndOperate(chip, ThreadStop, a, fs);
    }
  }
}
