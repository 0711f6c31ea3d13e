# Boot hardware state and SBE protocol of the IPL library, in Dafny

A model of the parts of ibm-openbmc/ipl that decide, over a boot, which
hardware units count as present and functional, how far each self-boot engine
(SBE) has come, which first-failure data is kept, and which boot steps run.
Each file is one component; `dafny verify dfyconfig.toml` checks all of them.

- `Hwas`, `DeviceTree`: the packed HWAS attribute, the tree of targets with the
  two values a boot rewrites in place, and the effect of a log of set/clear
  writes. A *plan* is what a pass does in order; `Executed` are its writes up to
  the first failing access. Attribute access fails per target and attribute,
  as it does when the attribute is missing. Targets are listed in traversal
  order, a parent before what lies beneath it.
- `Genesis`, `FcoOverride`, `GuardKey`, `GuardRecords`, `GuardOutcome`,
  `ClockDeconfig`, `UpdateHwModel`: istep 0.4. Each pass is an imperative method
  proved equal to a function of the state it starts from; the lemmas then say
  for every target what the whole run has decided.
- `BootSeries`: istep 0.4 boot after boot, as a transition system that hands on
  hardware state, SBE states, genesis marker and cleared records; what holds of
  every state that any series of boots reaches.
- `ClockInit`: istep 0.6, with the eight-bit clock counters.
- `SbeBoot`, `SbeBootOutcome`, `BootSequence`: istep 0.14, and istep 0.14 run on
  the state that istep 0.4 leaves, after one reboot and after any series.
- `SbeChipOps`, `SbeChipOpsOutcome`: halt recovery and the five chip operations
  of the PHAL library against an environment that may answer anything. Where
  the source would read past a first-failure buffer, or never come back, the
  call has an outcome that says so.
- `Ffdc`, `FfdcOutcome`: the FFDC packet loop, the files it writes, the group-by
  it amounts to, an encoder that it undoes, and when and how it ends. The file
  store fails after a given number of operations, or never.
- `Istep`, `IstepOutcome`: the step tables and the three ways to run them.
- `LocationCode`: location codes and the FRU type lookup.

What a whole operation decides is stated over what it is given, with the
constants of the source written out: flag bytes, type codes, record identifiers,
positions, error codes, class names. The predicates of these statements
(`MasterProc`, `UnitUnder`, `Strikes`, `ClockLost`, `Healthy`, `Continues`,
`RecoveryDue` and the like) are vocabulary: no operation is defined through them.

Hardware procedures, pdbg, libekb and libguard appear as answers: a value that
the caller of a run fixes and about which nothing is assumed. Marker files are
booleans, sleeps are counted, the logs of a run are sequences of events. The
result of an istep function is fixed by its position among the step functions
executed since the start: it may depend on the steps before it, not on how often
a pre function ran. The comparison of a major step with its single rows
(`MajorIsRowByRow`) rests on that.

Four statements one might expect do not hold of the code, and are given with
their exact condition instead:

- Genesis setup runs once: the marker file is created without a check, so setup
  runs again as long as no boot that passed it could create the file
  (`GenesisRunsIff`, `GenesisOnceIff`, `GenesisTwice`).
- Clock initialisation accepts one or two clocks: the counter is eight bits
  wide, so the number of functional clocks counts modulo 256 (`SucceedsIff`,
  `CounterWraps` with 257 clocks).
- The FFDC loop ends: it ends iff it meets no packet of length zero or a file
  operation fails, since at such a packet every turn works on the same file
  again (`EndsIff`, `EndsAfter`, `ZeroLengthExample`).
- A memory-preserving boot reports a failing master: it reports the last
  functional master, which can hide an earlier failure (`MpiplSucceedsIff`,
  `MpiplHidesFailure`).

Where a comment and the code differ, the code is followed: clock initialisation
is documented to return 1 on failure (libipl/p10/ipl0.C:822) but returns the
number of failed clocks.

## Model

| member | source | states |
|---|---|---|
| `Hwas.LogEffect` | libipl/p10/ipl0.C:105-129 | any series of set/clear writes changes a target only in its present and functional bits: the last write is the functional bit, a set write raises present for good, a target not written is unchanged |
| `Hwas.LogBytes` | libipl/p10/ipl0.C:105-129 | the five bytes of a target after any log: the last write sets 0x60 or clears 0x20, 0x40 stays from any earlier set, nothing else moves |
| `DeviceTree.Tree.SetOrClearState` | libipl/p10/ipl0.C:105-129 | read, change and write back one attribute; false and no change when an access fails |
| `DeviceTree.Tree.CheckFunctionalMaster` | libipl/p10/common.C:220-238 | true iff every processor of master type 0 (index 0 when the type cannot be read) has 0x20 set, with the pdbg status standing in for an unreadable attribute |
| `DeviceTree.Tree.SetSbeStateAll` | libipl/p10/common.C:317-347 | every processor whose 0x40 is set (or, unreadable, whose pdbg status is enabled), a master among them only if all are meant, is written if its PIB target is there and the write succeeds; no other state moves, failures do not stop the loop, and the result is 0 iff none occurred |
| `GuardKey.BuildKey` | libipl/p10/ipl0.C:423-443 | the in-place fill yields the key of the record's entity path |
| `GuardKey.DecodeKey` | libipl/p10/ipl0.C:423-443 | decoding the key of an entity path of at most ten elements gives the path back |
| `GuardKey.KeyDecode` | libipl/p10/ipl0.C:423-443 | a key that decodes is the key of what it decodes to, padding included |
| `GuardKey.KeyMatch` | libipl/p10/ipl0.C:227-228 | the byte comparison succeeds iff target and record name the same entity path |
| `GuardKey.KeyInjective` | libipl/p10/ipl0.C:423-443 | two records share a key iff their used path parts agree, whatever the unused slots hold |
| `GuardKey.KeyBytes` | libipl/p10/ipl0.C:423-443 | byte by byte: the stored count byte, type and instance of each element in use, zeros |
| `Genesis.UpdateGenesisHwasState` | libipl/p10/ipl0.C:537-670 | the nested in-place loops carry out the genesis plan up to its first failing access and report whether it completed |
| `Genesis.GenesisSucceedsIff` | libipl/p10/ipl0.C:537-670 | setup succeeds iff every processor, unit of a master and reference clock it handles can be accessed, read and probed |
| `Genesis.GenesisOutcome` | libipl/p10/ipl0.C:548-667 | after success a processor is functional iff enabled, a unit iff the last master above it is enabled and it is not an unused iohs, every reference clock is functional, all else is unchanged |
| `Genesis.GenesisByClass` | libipl/p10/ipl0.C:537-670 | after success, by the eight class names: a core, pauc, pau, iohs, mc, chiplet, pec or fc has both bits iff the last master processor above it is enabled and it is not an unused iohs; processors by their status, clocks up, all else unchanged |
| `Genesis.GenesisCompletesIff` | libipl/p10/ipl0.C:537-670 | setup succeeds iff every processor, every reference clock and every target of the eight classes beneath a master can be read and written, an iohs has its mode, a clock its position and a successful probe |
| `FcoOverride.ApplyFcoOverride` | libipl/p10/ipl0.C:487-530 | the in-place pass sets exactly the accessible master units whose override bit is set, passing over failures |
| `FcoOverride.FcoOutcome` | libipl/p10/ipl0.C:487-530 | a target ends functional iff it was, or it is an accessible master unit with the override bit |
| `FcoOverride.FcoByClass` | libipl/p10/ipl0.C:487-530 | exactly the accessible targets of the eight classes beneath a master processor whose byte has 0x04 get 0x60 set |
| `FcoOverride.FcoIdempotent` | libipl/p10/ipl0.C:487-530 | applying the pass twice is applying it once |
| `GuardRecords.NamedIffSamePath` | libipl/p10/ipl0.C:221-228 | a record acts on the first target that carries the same entity path, and on no other |
| `GuardRecords.UpdateCallback` | libipl/p10/ipl0.C:210-351 | the traversal continues exactly past other paths; at the named target the record's plan is carried out and the code tells failure, skipped primary and success apart |
| `GuardRecords.ApplyRecords` | libipl/p10/ipl0.C:391-477 | the record loop writes the log of the effective records in order and clears the restoring ones, up to the first clear that throws |
| `GuardOutcome.StrikesIff` | libipl/p10/ipl0.C:210-351 | a record writes a target iff its identifier is not 0xFFFFFFFF, guard is on or its type ephemeral, the first target with its path can be read and is admitted by the boot type (types 0x07 and 0x53 in a memory-preserving boot, all but a lasting record of a 0x05 master in a normal one) and accessed, and the target is that one or a core reached beneath a 0x53 |
| `GuardOutcome.LastStrikeDecides` | libipl/p10/ipl0.C:384-478 | over the list that libguard answers, the last record that strikes a target before a clear throws takes it away, or restores it in a normal boot if its type is ephemeral |
| `GuardOutcome.NoStrikeKeeps` | libipl/p10/ipl0.C:384-478 | a target that no record strikes is unchanged |
| `GuardOutcome.LastHitDecides` | libipl/p10/ipl0.C:384-478 | each target's functional bit is the value of the last record that hits it, by its path or as a core beneath an FC; a target that no record hits is unchanged; failing accesses included |
| `GuardOutcome.MpiplOnlyRemoves` | libipl/p10/ipl0.C:245-288 | a memory-preserving boot sets no functional bit and changes only cores and FCs |
| `GuardOutcome.DisabledOnlyRestores` | libipl/p10/ipl0.C:409-421 | a normal boot with guard disabled clears no functional bit |
| `GuardOutcome.MasterProtected` | libipl/p10/ipl0.C:290-303 | no boot type and no guard setting clears a master processor's functional bit |
| `GuardOutcome.ClearedExactly` | libipl/p10/ipl0.C:446-455 | the identifiers cleared in libguard are those of the effective restoring records and no others |
| `GuardOutcome.ClearedIff` | libipl/p10/ipl0.C:446-455 | they are those of the unresolved records of an ephemeral type, in a normal boot, whose turn comes before a clear throws |
| `ClockDeconfig.UpdateClockFuncState` | libipl/p10/ipl0.C:140-208 | the in-place pass carries out the clock plan up to its first failure and reports whether it completed |
| `ClockDeconfig.ClockOutcome` | libipl/p10/ipl0.C:140-208 | also when the pass stops half-way: a target loses its functional bit iff it is a reported clock and no clock at or before it stops the pass, all else is unchanged; a completed pass takes away all reported clocks |
| `ClockDeconfig.ClockByPosition` | libipl/p10/ipl0.C:140-208 | under A_DECONFIG the clocks at position 0 lose 0x20, under B_DECONFIG those at position 1, under ALL_DECONFIG all, as far as no clock stops the pass; every other target is unchanged |
| `ClockDeconfig.ClockPassesIff` | libipl/p10/ipl0.C:140-208 | the pass completes iff the report can be read and, unless it names nothing, every clock has a position where one is asked for and every named clock can be accessed |
| `UpdateHwModel.UpdateHwModel` | libipl/p10/ipl0.C:723-779 | the imperative step ends in the state, files, cleared records and return value of the run function |
| `UpdateHwModel.GuardActionAllowed` | libipl/p10/ipl0.C:362-379 | allowed in a memory-preserving boot or when the indicator exists, which a normal boot removes |
| `UpdateHwModel.RunPreserves` | libipl/p10/ipl0.C:723-779 | every run, early failures included, leaves all but the two bits alone, never clears present, and keeps functional implying present |
| `UpdateHwModel.RunResult` | libipl/p10/ipl0.C:723-779 | every run returns 0 iff it gets past genesis, a normal boot that found the marker gets past its clocks, and every master processor works in the state it leaves; otherwise 1 |
| `UpdateHwModel.LostMasterFails` | libipl/p10/ipl0.C:773-776 | a master processor that ends non-functional makes the step return 1, on every kind of boot |
| `UpdateHwModel.RunDecides` | libipl/p10/ipl0.C:723-779 | the functional bit of every target after every run past genesis, by marker, indicator, boot type, override bits, records and clock report |
| `UpdateHwModel.StoppedAtGenesis` | libipl/p10/ipl0.C:732-751 | a run that fails in genesis keeps what setup wrote so far and does nothing else |
| `UpdateHwModel.FilesAndStates` | libipl/p10/ipl0.C:740-762 | the three files after a run past genesis, and the SBE states: a normal boot that found the marker resets the present processors, no other does |
| `UpdateHwModel.ClearedInRun` | libipl/p10/ipl0.C:362-455 | a run clears an identifier iff it is a normal boot that found the indicator and an unresolved record of an ephemeral type carries it and comes to its turn |
| `UpdateHwModel.NormalRecordApplies` | libipl/p10/ipl0.C:290-315 | a normal boot with guard on and the indicator: an unresolved lasting record takes its target away unless that is a 0x05 master or a later record strikes it |
| `UpdateHwModel.SwitchedOff` | libipl/p10/ipl0.C:409-421 | a resolved record, and a lasting one with guard off, writes nothing |
| `UpdateHwModel.NormalRunDecides` | libipl/p10/ipl0.C:753-779 | a normal boot applies the override or the guard records, never both, per target, and leaves no indicator; on a reboot the clocks that the clock pass reaches are taken away on top |
| `UpdateHwModel.MpiplGuardWins` | libipl/p10/ipl0.C:753-757 | in a memory-preserving boot a target ends functional iff it was or is overridden, and no record hits it |
| `UpdateHwModel.MpiplRecordApplies` | libipl/p10/ipl0.C:407-459 | with guard on, an unresolved record for an accessible core or FC always reaches it in a memory-preserving boot |
| `UpdateHwModel.MastersKept` | libipl/p10/ipl0.C:753-778 | once the masters are functional no pass takes one away, so the step fails for its clocks alone |
| `UpdateHwModel.FirstBootSucceeds` | libipl/p10/ipl0.C:732-778 | a first boot that passes genesis with enabled masters returns 0 |
| `BootSeries.GenesisRunsIff` | libipl/p10/ipl0.C:732-751 | over any series of boots, a boot completes genesis iff it passes the setup, no marker was there at first, and no earlier boot both passes the setup and can create the marker |
| `BootSeries.GenesisOnceIff` | libipl/p10/ipl0.C:732-751 | genesis completes at most once iff the marker was there at first, or of any two boots that pass the setup the later one comes behind a boot that passes it and can create the marker |
| `BootSeries.GenesisOnce` | libipl/p10/ipl0.C:740-750 | a second completion means that the first could not create its marker |
| `BootSeries.GenesisTwice` | libipl/p10/ipl0.C:740-750 | a series of two boots that both complete genesis because the unchecked file creation fails |
| `BootSeries.SomeSeries` | libipl/p10/ipl0.C:723-779 | any boots of one system form a series, from any state |
| `BootSeries.SeriesPreserves` | libipl/p10/ipl0.C:723-779 | in every reachable state a target has all but its two bits as at the start, is present if it was, and is present if functional |
| `BootSeries.MasterStays` | libipl/p10/ipl0.C:723-779 | in every reachable state that has the marker a typed, enabled master is functional |
| `BootSeries.SeriesSucceeds` | libipl/p10/ipl0.C:723-779 | boot k of a series with sound masters returns 0 iff it passes genesis setup, where no earlier boot left a marker, or else is memory-preserving or completes the clock pass; guard records and overrides play no part |
| `ClockInit.InitializeAndCheckClockChip` | libipl/p10/ipl0.C:824-983 | the loop returns the number of failed clocks, or 1 for a bad count, and selects the source by redundancy or position |
| `ClockInit.SucceedsIff` | libipl/p10/ipl0.C:968-982 | 0 iff the eight-bit count of functional clocks, which is the count itself up to 255, is one or two and each passes every check |
| `ClockInit.ResultIs` | libipl/p10/ipl0.C:839-982 | the result is the number of functional clocks that miss position, probe, reset, status or have 0x80 set; with none of these, 0 for a count of one or two modulo 256, else 1 |
| `ClockInit.SickClockFails` | libipl/p10/ipl0.C:850-961 | any one such clock makes the result non-zero |
| `ClockInit.SourceIs` | libipl/p10/ipl0.C:864-982 | both clocks with two healthy ones, else by the last functional clock at position 0 or 1, else the initial value |
| `ClockInit.CounterWraps` | libipl/p10/ipl0.C:834-848 | 257 passing clocks are accepted as one |
| `ClockInit.BothIffRedundant` | libipl/p10/ipl0.C:978-982 | after success both clocks are selected iff the redundancy query holds |
| `ClockInit.SingleClockSelects` | libipl/p10/ipl0.C:864-871 | with a single functional clock the source returned is given by its position, or is the initial value |
| `ClockInit.ClockIsRedundancyEnabled` | libipl/p10/common.C:447-475 | true iff the eight-bit count of functional clocks is two |
| `ClockInit.RedundancyIs` | libipl/p10/common.C:447-475 | that is two functional clocks modulo 256 |
| `SbeBoot.SbeBooted` | libipl/p10/common.C:133-180 | true iff one of the first N reads sees the SBE booted, stopping at the first such read with one sleep fewer than reads; otherwise N reads and N sleeps |
| `SbeBoot.SbeStart` | libipl/p10/ipl0.C:1239-1319 | the imperative step produces the events, SBE states and return value of the run function |
| `SbeBootOutcome.BootedAfterPoll` | libipl/p10/ipl0.C:1277-1296 | every BOOTED write goes to the first functional master, behind its successful start, its CHECK_CFAM write and a poll that saw it booted |
| `SbeBootOutcome.NormalSucceedsIff` | libipl/p10/ipl0.C:1266-1318 | 0 iff the first functional master starts and is seen booted, and every master is functional |
| `SbeBootOutcome.NormalEvents` | libipl/p10/ipl0.C:1274-1305 | all a normal run asks of the hardware: one start, the CHECK_CFAM write, the reads up to the first that sees the SBE booted and the BOOTED write, or 25 reads |
| `SbeBootOutcome.NormalStates` | libipl/p10/ipl0.C:1278-1310 | after a normal run, booted or not, the first functional master stands as far as its boot got, the present secondaries are CHECK_CFAM iff it booted, no other state has moved |
| `SbeBootOutcome.NormalWithoutMaster` | libipl/p10/ipl0.C:1239-1319 | without a functional master a normal run does nothing and returns 1 |
| `SbeBootOutcome.MpiplReportsLast` | libipl/p10/ipl0.C:1268-1273 | in a memory-preserving boot the loop's result is that of the last functional master |
| `SbeBootOutcome.MpiplSucceedsIff` | libipl/p10/ipl0.C:672-721 | a memory-preserving boot succeeds iff there is a last functional master with a PIB target, its SBE state reads BOOTED and the continue succeeds, and every master is functional |
| `SbeBootOutcome.MpiplResult` | libipl/p10/ipl0.C:672-721 | 7 without a PIB target, 6 when the state cannot be read, 2 when it is not BOOTED or the continue fails |
| `SbeBootOutcome.MpiplRun` | libipl/p10/ipl0.C:1268-1319 | every functional master is asked to continue, in order, and the present secondaries are written CHECK_CFAM iff the last one did |
| `SbeBootOutcome.MpiplHidesFailure` | libipl/p10/ipl0.C:1268-1273 | two functional masters of different index, the first of which refuses to continue, and a run that returns 0 |
| `SbeBootOutcome.CronusCounts` | libipl/p10/ipl0.C:1247-1318 | in Cronus mode the step starts exactly the functional processors, in order, and does nothing else to them; it returns 1 with none, the number of failed starts if there are any, and otherwise writes the present secondaries CHECK_CFAM and returns 0 iff every master is functional |
| `BootSequence.RebootThenStart` | libipl/p10/ipl0.C:1239-1319 | after a successful istep 0.4 of a reboot, istep 0.14 succeeds iff the first master boots, and then every present processor is BOOTED, CHECK_CFAM or NOT_USABLE by its role |
| `BootSequence.EveryRebootStarts` | libipl/p10/ipl0.C:723-779 | a reboot in any series of boots with sound masters whose clock pass completes returns 0, and the istep 0.14 behind it succeeds and sorts the processors as above |
| `SbeChipOps.Library.HaltStateRecovery` | libphal/phal_sbe.C:77-150 | the method does exactly what the recovery step says, exceptions included |
| `SbeChipOps.Library.CaptureFfdc` | libphal/phal_sbe.C:320-375 | the error object or exception that capture ends in, by target, status, length, magic word, packets and file operations |
| `SbeChipOps.Library.GetDump` | libphal/phal_sbe.C:438-476 | a dump call has the events, soft state and end of the call function |
| `SbeChipOps.Library.GetTiInfo` | libphal/phal_sbe.C:411-436 | likewise for reading termination information |
| `SbeChipOps.Library.MpiplEnter` | libphal/phal_sbe.C:394-409 | likewise for entering a memory-preserving boot |
| `SbeChipOps.Library.MpiplContinue` | libphal/phal_sbe.C:377-392 | likewise for continuing it |
| `SbeChipOps.Library.ThreadStopProc` | libphal/phal_sbe.C:478-498 | likewise for stopping the threads of a processor |
| `SbeChipOpsOutcome.RecoverySoft` | libphal/phal_sbe.C:112-149 | on return the soft state is unchanged, BOOTED or CHECK_CFAM as the two readings say; an exception leaves at most CHECK_CFAM, and only behind HALT |
| `SbeChipOpsOutcome.RecoveryEvents` | libphal/phal_sbe.C:101-149 | what recovery has done by the point it reached, and that it did nothing when skipped |
| `SbeChipOpsOutcome.RecoveryIs` | libphal/phal_sbe.C:77-150 | halt recovery called on its own: what it asks and writes and the exception it ends in, by the answers |
| `SbeChipOpsOutcome.RunEvents` | libphal/phal_sbe.C:77-498 | all that a call asks of the hardware, by its answers: recovery when due and as far as it gets, then the state check, then the operation |
| `SbeChipOpsOutcome.HaltedIsReset` | libphal/phal_sbe.C:77-149 | a processor dump, reading termination information, and stopping threads on a secondary begin with the message register; behind HALT follow CHECK_CFAM, HRESET, another read, and BOOTED behind RUNTIME |
| `SbeChipOpsOutcome.RunOutcome` | libphal/phal_sbe.C:77-498 | how every call ends: by its first failure with the error of that failure, by SBE_CMD_FAILED with its data when the operation fails, for a dump by SBE_INTERNAL_FFDC_DATA when there is data, else normally |
| `SbeChipOpsOutcome.PrimaryUntouched` | libphal/phal_sbe.C:478-498 | stopping threads on a primary processor never reads its halt state, resets it or rewrites its SBE state |
| `SbeChipOpsOutcome.TraceOrdered` | libphal/phal_sbe.C:77-173 | over every series of calls with any answers, malformed first-failure buffers included: a reset only behind HALT and the CHECK_CFAM write, BOOTED only behind a reset and RUNTIME, an operation only behind a BOOTED state check |
| `SbeChipOpsOutcome.OperationsChecked` | libphal/phal_sbe.C:377-498 | before every operation in every trace the last state check of its chip answered BOOTED |
| `SbeChipOpsOutcome.ReturnsIff` | libphal/phal_sbe.C:377-498 | a call returns iff class, presence, primary, halt recovery, state check and PIB answered as it needs, the operation succeeded and, for a dump, capture reported no data; likewise for its preparation alone |
| `SbeChipOpsOutcome.FailedOpThrows` | libphal/phal_sbe.C:377-498 | a call whose operation failed ends as the capture of its error does, and so never returns normally |
| `Ffdc.ProcessPozFfdc` | libphal/phal_sbe.C:256-318 | turn by turn the loop is that of the step function; it leaves one new file per SLID holding the groups of the packets consumed, keeps all other files, and throws exactly on a wrong magic word or a failing file operation, whichever comes first, at packets of length zero too |
| `Ffdc.StorePacket` | libphal/phal_sbe.C:277-308 | one packet creates or extends the file of its SLID and raises its severity, no other file moves |
| `FfdcOutcome.CollectGroups` | libphal/phal_sbe.C:277-308 | one entry per SLID that occurs, with the highest severity and all bytes of its packets in arrival order |
| `FfdcOutcome.PacketsTile` | libphal/phal_sbe.C:262-311 | the packets read in order give back the buffer, so each byte lies in exactly one packet |
| `FfdcOutcome.SizesAddUp` | libphal/phal_sbe.C:262-311 | the file sizes add up to the buffer length |
| `FfdcOutcome.EncodeRoundTrip` | libphal/phal_sbe.C:37-47 | processing an encoded packet list finds exactly its packets, in order |
| `FfdcOutcome.EncodedGroups` | libphal/phal_sbe.C:256-318 | processing an encoded packet list groups exactly that list |
| `FfdcOutcome.StopIs` | libphal/phal_sbe.C:262-275 | byte by byte, what stops the loop at an offset, when the source would read past the buffer, and the SLID, severity and bytes of a packet that is consumed |
| `FfdcOutcome.EndsAfter` | libphal/phal_sbe.C:262-311 | the exact turn in which the loop ends, and its end there: behind the packets in front of what stops it, or with the operation that fails |
| `FfdcOutcome.EndsIff` | libphal/phal_sbe.C:262-311 | the loop ends iff it meets no packet of length zero or a file operation fails |
| `FfdcOutcome.ZeroLengthExample` | libphal/phal_sbe.C:262-311 | one header of length zero: the loop runs up to the failing file operation, and for ever when none fails |
| `Istep.Engine.IplRunMajor` | libipl/libipl.C:160-187 | the sentinel-terminated loop runs as the major run function says |
| `Istep.Engine.IplRunMajorMinor` | libipl/libipl.C:132-158 | one step by number, with the rejections |
| `Istep.Engine.IplRunStep` | libipl/libipl.C:201-228 | one step by name, found in the lowest table that has it |
| `Istep.FindMinor` | libipl/libipl.C:120-130 | in every table the first row with this minor before the sentinel, or none when there is no such row |
| `Istep.FindStep` | libipl/libipl.C:189-199 | in every table the first row with this name before the sentinel, or none when there is no such row |
| `IstepOutcome.MajorExecuted` | libipl/libipl.C:160-187 | the pre function once, then the rows in order up to and including the first result other than 0 and -1, which is the return value |
| `IstepOutcome.MajorRejected` | libipl/libipl.C:160-170 | a major is rejected with EINVAL and nothing runs iff it is below 0, above 21, or other than 0 in automatic boot mode |
| `IstepOutcome.MinorRejected` | libipl/libipl.C:132-158 | likewise for a single step, and for a minor that its table does not have; otherwise the pre function and the first row of that minor run, and -1 is success |
| `IstepOutcome.MajorIsRowByRow` | libipl/libipl.C:132-187 | the same steps and the same result as running the rows one by one until the first failure |
| `IstepOutcome.RowByRowPres` | libipl/libipl.C:132-158 | run one by one, every executed row brings exactly one pre function |
| `IstepOutcome.NameIsNumber` | libipl/libipl.C:201-228 | a name runs the first row that carries it in (major, index) order exactly as its number would; an unknown name runs nothing |
| `IstepOutcome.AutobootConfined` | libipl/libipl.C:132-228 | over any calls in automatic boot mode nothing of another major than 0 runs, and in no mode does a call return -1 |
| `LocationCode.GetUnexpandedLocCode` | libphal/phal_pdbg.C:330-375 | the checks and the search loop yield the unexpanded code |
| `LocationCode.UnexpandedIff` | libphal/phal_pdbg.C:330-375 | a code converts iff it starts with U and has a dash at index 17 or later; the result keeps the rest from the first such dash |
| `LocationCode.FetchFruTypeFromDevTree` | libphal/phal_pdbg.C:390-414 | the nested search loop computes the lookup |
| `LocationCode.LookupIsFirst` | libphal/phal_pdbg.C:390-446 | the type found is that of the first match in (class, target) order; no match is reported as not found |
| `LocationCode.LookupByClass` | libphal/phal_pdbg.C:390-446 | processors before TPMs before DIMMs, by name: the first that carries the code answers with its type or a read failure; with none, not found |
| `LocationCode.InvalidIff` | libphal/phal_pdbg.C:416-431 | a code is invalid iff it is not in unexpanded form and does not start with U or has no dash at 17 or later |
| `LocationCode.GetFruType` | libphal/phal_pdbg.C:416-446 | the type lookup on a code in either form, with its three failures |
| `LocationCode.LookupAgrees` | libphal/phal_pdbg.C:416-446 | looking up an expanded code is looking up its unexpanded form |

## Left out

- Hardware procedures, pdbg, libekb and libguard: their code is not part of this model; they appear as answers.
- Attribute faults that come and go between two accesses of one target within a run: an attribute is accessible for the whole run or not at all.
- `ATTR_POSITION` is read with size two into an eight-bit variable; the model takes positions as eight-bit values.
- The error types that libguard calls ephemeral, and the identifier it gives to resolved records, are not in this repository: the first is a parameter, the second a named constant.
- Error callbacks, callout and PEL records and log texts: output only.
- `Istep.Engine.Register`: a null step table, on which the source asserts or crashes, cannot be stored; every table has its sentinels.
- The step functions of the individual majors beyond 0.4, 0.6 and 0.14, and all of libipl/p9: forwarding functions and constants.
- `deconfigureTgt`, the location code of a target through its parent, CFAM access: single reads or writes of one attribute or register, with no state that spans calls.
- File names and descriptors of FFDC files, their removal by the exception's destructor, and short writes: a file is its content, an operation succeeds or fails as a whole.
- `Ffdc.ProcessPozFfdc`: asks for a defined end, since behind an overrunning packet the source reads foreign memory, and on a zero-length packet with a file system that never fails it does not come back; `Ffdc.EndOf` says for every buffer which of these it is. A packet that reaches past the buffer counts as a read past it also where opening the file would have failed first.
- `SbeChipOps.Library.CaptureFfdc`: likewise asks that the call comes back; the call functions and all lemmas about them ask for nothing.
- `SbeChipOps.Library.GetDump`: asks that the call comes back, which excludes only a capture that reads past its buffer or never ends.
- `SbeChipOps.Library.GetTiInfo`: as `GetDump`.
- `SbeChipOps.Library.MpiplEnter`: as `GetDump`.
- `SbeChipOps.Library.MpiplContinue`: as `GetDump`.
- `SbeChipOps.Library.ThreadStopProc`: as `GetDump`.
- `GuardKey.BuildKey`: asks for at most ten path elements, which is what the record's array and the 21-byte key hold; the source would write past the key for more.
- File system exceptions of the marker file queries, other than failing to create the directory or the file.
- Command line handling, settings other than mode, type and guard, and libphal/phal_dump.C.
