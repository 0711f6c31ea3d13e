/** What every run of istep 0.14 guarantees. */
module SbeBootOutcome {
  import opened Base
  import opened Hwas
  import opened DeviceTree
  import opened SbeBoot

  /** A processor that is master and functional. */
  predicate FunctionalMaster(ts: Targets, hw: seq<State>, p: nat)
    requires |hw| == |ts|
  {
    p < |ts| && ts[p].cls == Proc && IsMaster(ts[p]) && IsTargetFunctional(ts[p], hw[p])
  }

  predicate FirstMaster(ts: Targets, hw: seq<State>, p: nat, from: nat)
    requires |hw| == |ts|
  {
    from <= p && FunctionalMaster(ts, hw, p) && forall q: nat :: from <= q < p ==> !FunctionalMaster(ts, hw, q)
  }

  /** A normal boot outside Cronus mode does nothing but boot the first functional master. */
  lemma {:induction false} NormalLoop(ts: Targets, hw: seq<State>, mode: Mode, ans: Answers, p: nat, rc: int, ret: int)
    requires |hw| == |ts| && p <= |ts| && mode != Cronus
    ensures var l := LoopFrom(ts, hw, mode, Normal, ans, p, rc, ret);
            && (forall m: nat :: FirstMaster(ts, hw, m, p) ==>
                  l.events == BootEvents(ts, ans, m) && l.rc == if Boots(ans, m) then 0 else rc)
            && ((forall m: nat :: p <= m ==> !FunctionalMaster(ts, hw, m)) ==> l == Loop([], rc))
    decreases |ts| - p
  {
    if p < |ts| && !FunctionalMaster(ts, hw, p) {
      NormalLoop(ts, hw, mode, ans, p + 1, rc, ret);
      assert forall m: nat :: FirstMaster(ts, hw, m, p) ==> FirstMaster(ts, hw, m, p + 1);
    } else if p < |ts| {
      assert forall m: nat :: FirstMaster(ts, hw, m, p) ==> m == p;
    }
  }

  lemma {:induction false} SomeFirst(ts: Targets, hw: seq<State>, p: nat) returns (m: int)
    requires |hw| == |ts| && p <= |ts|
    ensures m == -1 || (m >= 0 && FirstMaster(ts, hw, m, p))
    ensures m == -1 ==> forall q: nat :: p <= q ==> !FunctionalMaster(ts, hw, q)
    decreases |ts| - p
  {
    if p == |ts| {
      m := -1;
    } else if FunctionalMaster(ts, hw, p) {
      m := p;
    } else {
      m := SomeFirst(ts, hw, p + 1);
    }
  }

  /** Events a, b and c have happened, in this order, before position k. */
  predicate InOrderBefore(events: seq<Event>, k: nat, a: Event, b: Event, c: Event) {
    exists i, j, l :: 0 <= i < j < l < k <= |events| && events[i] == a && events[j] == b && events[l] == c
  }

  /**
   * Whenever a processor is written BOOTED, it has been started successfully,
   * then written CHECK_CFAM, then seen booted by a poll.
   */
  lemma BootedAfterPoll(ts: Targets, hw: seq<State>, sbe: seq<SbeState>, mode: Mode, ans: Answers, k: nat)
    requires |hw| == |sbe| == |ts| && mode != Cronus
    requires k < |StartRun(ts, hw, sbe, mode, Normal, ans).events|
    requires StartRun(ts, hw, sbe, mode, Normal, ans).events[k].SetState?
    requires StartRun(ts, hw, sbe, mode, Normal, ans).events[k].state == Booted
    ensures var events := StartRun(ts, hw, sbe, mode, Normal, ans).events;
            var p := events[k].proc;
            && FirstMaster(ts, hw, p, 0)
            && InOrderBefore(events, k, Start(p, true), SetState(p, CheckCfam, Writable(ts[p])), Poll(p, SeenBooted))
  {
    var m := SomeFirst(ts, hw, 0);
    NormalLoop(ts, hw, mode, ans, 0, 1, 0);
    BootOrder(ts, ans, m, k);
  }

  /** Where the events of a boot that writes BOOTED lie. */
  lemma BootLayout(ts: Targets, ans: Answers, p: nat, c: nat)
    requires p < |ts| && Boots(ans, p) && c == ReadCount(PollsOf(ans, p), 0, DEFAULT_WAIT)
    ensures BootEvents(ts, ans, p) ==
            [Start(p, true), SetState(p, CheckCfam, Writable(ts[p]))] + PollEvents(ans, p, c)
            + [SetState(p, Booted, Writable(ts[p]))]
  {
  }

  lemma SomeSeen(rs: seq<Reading>) returns (k: nat)
    requires exists j: nat :: j < 25 && j < |rs| && rs[j] == SeenBooted
    ensures FirstSeen(rs, k)
  {
    k := 0;
    while rs[k] != SeenBooted
      invariant k < 25 && k < |rs|
      invariant forall j :: 0 <= j < k ==> rs[j] != SeenBooted
      invariant exists j: nat :: k <= j < 25 && j < |rs| && rs[j] == SeenBooted
      decreases |rs| - k
    {
      k := k + 1;
    }
  }

  lemma BootOrder(ts: Targets, ans: Answers, p: nat, k: nat)
    requires p < |ts| && k < |BootEvents(ts, ans, p)|
    requires BootEvents(ts, ans, p)[k].SetState? && BootEvents(ts, ans, p)[k].state == Booted
    ensures BootEvents(ts, ans, p)[k].proc == p
    ensures InOrderBefore(BootEvents(ts, ans, p), k,
                          Start(p, true), SetState(p, CheckCfam, Writable(ts[p])), Poll(p, SeenBooted))
  {
    BootedMeansBoots(ts, ans, p, k);
    BootsIs(ans, p);
    var events := BootEvents(ts, ans, p);
    var seen := SomeSeen(ans.polls[p]);
    SeenEvents(ts, ans, p, seen);
    assert forall j :: 2 <= j < seen + 3 ==> events[j] == events[2..seen + 3][j - 2];
    assert events[0] == events[..2][0] && events[1] == events[..2][1];
    assert k == seen + 3;
    assert 0 <= 0 < 1 < seen + 2 < k <= |events|;
  }

  lemma BootedMeansBoots(ts: Targets, ans: Answers, p: nat, k: nat)
    requires p < |ts| && k < |BootEvents(ts, ans, p)|
    requires BootEvents(ts, ans, p)[k].SetState? && BootEvents(ts, ans, p)[k].state == Booted
    ensures Boots(ans, p)
  {
  }

  /** Master m starts, and one of the first 25 reads of its register sees it booted. */
  predicate ComesUp(ans: Answers, m: nat) {
    m in ans.startOk && m in ans.polls && exists k: nat :: k < 25 && k < |ans.polls[m]| && ans.polls[m][k] == SeenBooted
  }

  lemma BootsIs(ans: Answers, m: nat)
    ensures Boots(ans, m) <==> ComesUp(ans, m)
  {
    if Boots(ans, m) {
      var k :| 0 <= k < DEFAULT_WAIT && ReadingAt(PollsOf(ans, m), k) == SeenBooted;
      assert k < 25 && k < |ans.polls[m]| && ans.polls[m][k] == SeenBooted;
    }
    if ComesUp(ans, m) {
      var k: nat :| k < 25 && k < |ans.polls[m]| && ans.polls[m][k] == SeenBooted;
      assert ReadingAt(PollsOf(ans, m), k) == SeenBooted;
    }
  }

  /**
   * A normal boot succeeds iff its first functional master starts and is seen
   * booted, and every master is functional.
   */
  lemma NormalSucceedsIff(ts: Targets, hw: seq<State>, sbe: seq<SbeState>, mode: Mode, ans: Answers)
    requires |hw| == |sbe| == |ts| && mode != Cronus
    ensures StartRun(ts, hw, sbe, mode, Normal, ans).rc == 0 <==>
            && MastersFunctional(ts, hw)
            && exists m: nat :: FirstMaster(ts, hw, m, 0) && Boots(ans, m)
    ensures StartRun(ts, hw, sbe, mode, Normal, ans).rc in {0, 1}
  {
    var m := SomeFirst(ts, hw, 0);
    NormalLoop(ts, hw, mode, ans, 0, 1, 0);
  }

  /** The first of the first 25 reads that sees the SBE booted. */
  ghost predicate FirstSeen(rs: seq<Reading>, k: nat) {
    k < 25 && k < |rs| && rs[k] == SeenBooted && forall j :: 0 <= j < k ==> rs[j] != SeenBooted
  }

  lemma {:induction false} ReadsUpTo(rs: seq<Reading>, j: nat, k: nat)
    requires j <= k && FirstSeen(rs, k)
    ensures ReadCount(rs, j, 25) == k + 1
    decreases k - j
  {
    if j < k {
      ReadsUpTo(rs, j + 1, k);
    }
  }

  lemma {:induction false} ReadsAll(rs: seq<Reading>, j: nat)
    requires j <= 25 && !BootsWithin(rs, 25)
    ensures ReadCount(rs, j, 25) == 25
    decreases 25 - j
  {
    if j < 25 {
      ReadsAll(rs, j + 1);
    }
  }

  /** One read per event, in order, of a register that fails where no reading is given. */
  predicate ReadsOf(events: seq<Event>, ans: Answers, m: nat) {
    forall k :: 0 <= k < |events| ==>
      events[k] == Poll(m, if m in ans.polls && k < |ans.polls[m]| then ans.polls[m][k] else ReadFailed)
  }

  lemma ReadsShape(ans: Answers, m: nat, c: nat, events: seq<Event>)
    requires events == PollEvents(ans, m, c)
    ensures |events| == c && ReadsOf(events, ans, m)
  {
  }

  /** Started but never seen booted: 25 reads and no more. */
  lemma UnseenEvents(ts: Targets, ans: Answers, m: nat)
    requires m < |ts| && m in ans.startOk && !ComesUp(ans, m)
    ensures var events, w := BootEvents(ts, ans, m), ts[m].pibPresent && ts[m].sbeWritable;
            && |events| == 27 && events[..2] == [Start(m, true), SetState(m, CheckCfam, w)]
            && ReadsOf(events[2..], ans, m)
  {
    BootsIs(ans, m);
    ReadsAll(PollsOf(ans, m), 0);
    var polls := PollEvents(ans, m, 25);
    ReadsShape(ans, m, 25, polls);
    assert BootEvents(ts, ans, m) == [Start(m, true), SetState(m, CheckCfam, Writable(ts[m]))] + polls;
  }

  /** Started and seen booted by read k: the reads up to that one, then the BOOTED write. */
  lemma SeenEvents(ts: Targets, ans: Answers, m: nat, k: nat)
    requires m < |ts| && m in ans.startOk && m in ans.polls && FirstSeen(ans.polls[m], k)
    ensures var events, w := BootEvents(ts, ans, m), ts[m].pibPresent && ts[m].sbeWritable;
            && |events| == k + 4 && events[..2] == [Start(m, true), SetState(m, CheckCfam, w)]
            && ReadsOf(events[2..k + 3], ans, m) && events[k + 3] == SetState(m, Booted, w)
  {
    ReadsUpTo(ans.polls[m], 0, k);
    assert ReadingAt(PollsOf(ans, m), k) == SeenBooted;
    var polls := PollEvents(ans, m, k + 1);
    ReadsShape(ans, m, k + 1, polls);
    BootLayout(ts, ans, m, k + 1);
    assert BootEvents(ts, ans, m)[2..k + 3] == polls;
  }

  /**
   * All that a normal run asks of the hardware: one start, and if it succeeds
   * the CHECK_CFAM write, the reads up to the first that sees the SBE booted,
   * and the BOOTED write; without such a read, 25 reads and no more.
   */
  lemma NormalEvents(ts: Targets, hw: seq<State>, sbe: seq<SbeState>, mode: Mode, ans: Answers, m: nat)
    requires |hw| == |sbe| == |ts| && mode != Cronus && FirstMaster(ts, hw, m, 0)
    ensures var events, w := StartRun(ts, hw, sbe, mode, Normal, ans).events, ts[m].pibPresent && ts[m].sbeWritable;
            && (m !in ans.startOk ==> events == [Start(m, false)])
            && (m in ans.startOk ==> |events| >= 2 && events[..2] == [Start(m, true), SetState(m, CheckCfam, w)])
            && (m in ans.startOk && !ComesUp(ans, m) ==> |events| == 27 && ReadsOf(events[2..], ans, m))
            && (m in ans.startOk && m in ans.polls ==>
                  forall k: nat :: FirstSeen(ans.polls[m], k) ==>
                    && |events| == k + 4 && ReadsOf(events[2..k + 3], ans, m)
                    && events[k + 3] == SetState(m, Booted, w))
  {
    NormalLoop(ts, hw, mode, ans, 0, 1, 0);
    if m in ans.startOk {
      if !ComesUp(ans, m) {
        UnseenEvents(ts, ans, m);
      }
      forall k: nat | m in ans.polls && FirstSeen(ans.polls[m], k)
        ensures |BootEvents(ts, ans, m)| == k + 4 && ReadsOf(BootEvents(ts, ans, m)[2..k + 3], ans, m)
        ensures BootEvents(ts, ans, m)[k + 3] == SetState(m, Booted, ts[m].pibPresent && ts[m].sbeWritable)
      {
        SeenEvents(ts, ans, m, k);
      }
    }
  }

  /** The SBE state of the first functional master after a normal run: as far as its boot got, if it can be written. */
  function MasterState(ts: Targets, ans: Answers, m: nat, before: SbeState): SbeState
    requires m < |ts|
  {
    if m !in ans.startOk || !Writable(ts[m]) then before else if Boots(ans, m) then Booted else CheckCfam
  }

  lemma BootedStates(ts: Targets, sbe: seq<SbeState>, ans: Answers, m: nat)
    requires m < |ts| == |sbe|
    ensures AfterEvents(sbe, BootEvents(ts, ans, m)) == sbe[m := MasterState(ts, ans, m, sbe[m])]
  {
    var w, ok := Writable(ts[m]), m in ans.startOk;
    AfterOther(sbe, [Start(m, ok)]);
    if ok {
      AfterConcat(sbe, [Start(m, ok)], StartedEvents(ts, ans, m));
      StartedSbe(ts, ans, m, sbe);
      AfterSet(sbe, m, CheckCfam, w);
      AfterSet(AfterEvents(sbe, [SetState(m, CheckCfam, w)]), m, Booted, w);
    }
  }

  /**
   * After a normal run the first functional master stands as far as its boot
   * got, the present secondaries are CHECK_CFAM iff it has booted, and no other
   * state has moved.
   */
  lemma NormalStates(ts: Targets, hw: seq<State>, sbe: seq<SbeState>, mode: Mode, ans: Answers, m: nat, i: nat)
    requires |hw| == |sbe| == |ts| && mode != Cronus && i < |ts|
    requires FirstMaster(ts, hw, m, 0)
    ensures var out := StartRun(ts, hw, sbe, mode, Normal, ans).sbe;
            out[i] == if i == m then MasterState(ts, ans, m, sbe[m])
                      else if Boots(ans, m) && SbeSelected(ts[i], hw[i], true) && Writable(ts[i]) then CheckCfam
                      else sbe[i]
  {
    NormalLoop(ts, hw, mode, ans, 0, 1, 0);
    BootedStates(ts, sbe, ans, m);
  }

  /** Without a functional master a normal run does nothing and fails. */
  lemma NormalWithoutMaster(ts: Targets, hw: seq<State>, sbe: seq<SbeState>, mode: Mode, ans: Answers)
    requires |hw| == |sbe| == |ts| && mode != Cronus
    requires forall m: nat :: !FunctionalMaster(ts, hw, m)
    ensures StartRun(ts, hw, sbe, mode, Normal, ans) == SbeBoot.Outcome([], sbe, 1)
  {
    NormalLoop(ts, hw, mode, ans, 0, 1, 0);
  }

  // ---------- memory-preserving boot ----------

  ghost predicate LastMaster(ts: Targets, hw: seq<State>, m: nat)
    requires |hw| == |ts|
  {
    FunctionalMaster(ts, hw, m) && forall q: nat :: m < q ==> !FunctionalMaster(ts, hw, q)
  }

  lemma SomeLast(ts: Targets, hw: seq<State>) returns (m: int)
    requires |hw| == |ts|
    ensures m == -1 || (m >= 0 && LastMaster(ts, hw, m))
    ensures m == -1 ==> forall q: nat :: !FunctionalMaster(ts, hw, q)
  {
    m := |ts| - 1;
    while m >= 0 && !FunctionalMaster(ts, hw, m)
      invariant -1 <= m < |ts|
      invariant forall q: nat :: m < q ==> !FunctionalMaster(ts, hw, q)
    {
      m := m - 1;
    }
  }

  lemma {:induction false} MpiplNoMore(ts: Targets, hw: seq<State>, mode: Mode, ans: Answers, p: nat, rc: int, ret: int)
    requires |hw| == |ts| && p <= |ts| && mode != Cronus
    requires forall q: nat :: p <= q ==> !FunctionalMaster(ts, hw, q)
    ensures LoopFrom(ts, hw, mode, Mpipl, ans, p, rc, ret) == Loop([], rc)
    decreases |ts| - p
  {
    if p < |ts| {
      assert !FunctionalMaster(ts, hw, p);
      MpiplNoMore(ts, hw, mode, ans, p + 1, rc, ret);
    }
  }

  /** A memory-preserving boot reports the last functional master only: an earlier failure can be hidden. */
  lemma {:induction false} MpiplReportsLast(ts: Targets, hw: seq<State>, mode: Mode, ans: Answers,
                                            p: nat, rc: int, ret: int, m: nat)
    requires |hw| == |ts| && p <= m && mode != Cronus && LastMaster(ts, hw, m)
    ensures LoopFrom(ts, hw, mode, Mpipl, ans, p, rc, ret).rc == ContinueError(ts, ans, m)
    decreases |ts| - p
  {
    if p == m {
      MpiplNoMore(ts, hw, mode, ans, p + 1, ContinueError(ts, ans, m), ret);
    } else if FunctionalMaster(ts, hw, p) {
      MpiplReportsLast(ts, hw, mode, ans, p + 1, ContinueError(ts, ans, p), ret, m);
    } else {
      MpiplReportsLast(ts, hw, mode, ans, p + 1, rc, ret, m);
    }
  }

  /** Master m has a PIB target, its SBE state reads BOOTED, and it continues. */
  predicate Continues(ts: Targets, ans: Answers, m: nat)
    requires m < |ts|
  {
    && ts[m].pibPresent && m in ans.mpipl
    && ans.mpipl[m].state == Some(Booted) && ans.mpipl[m].continueOk
  }

  lemma ContinuesIs(ts: Targets, ans: Answers, m: nat)
    requires m < |ts|
    ensures ContinueError(ts, ans, m) == ERR_OK <==> Continues(ts, ans, m)
  {
  }

  /** It succeeds iff there is a last functional master that could continue, and every master is functional. */
  lemma MpiplSucceedsIff(ts: Targets, hw: seq<State>, sbe: seq<SbeState>, mode: Mode, ans: Answers)
    requires |hw| == |sbe| == |ts| && mode != Cronus
    ensures StartRun(ts, hw, sbe, mode, Mpipl, ans).rc == 0 <==>
            && MastersFunctional(ts, hw)
            && exists m: nat :: LastMaster(ts, hw, m) && Continues(ts, ans, m)
  {
    var m := SomeLast(ts, hw);
    if m >= 0 {
      MpiplReportsLast(ts, hw, mode, ans, 0, 1, 0, m);
      ContinuesIs(ts, ans, m);
      assert forall k: nat :: LastMaster(ts, hw, k) ==> k == m;
    } else {
      MpiplNoMore(ts, hw, mode, ans, 0, 1, 0);
    }
  }

  /** The result by the last functional master: 7 without a PIB target, 6 without a readable state, 2 when refused. */
  lemma MpiplResult(ts: Targets, hw: seq<State>, sbe: seq<SbeState>, mode: Mode, ans: Answers, m: nat)
    requires |hw| == |sbe| == |ts| && mode != Cronus && LastMaster(ts, hw, m)
    ensures var rc := StartRun(ts, hw, sbe, mode, Mpipl, ans).rc;
            && (rc == 7 <==> !ts[m].pibPresent)
            && (rc == 6 <==> ts[m].pibPresent && (m !in ans.mpipl || ans.mpipl[m].state == None))
            && (rc == 2 <==> ts[m].pibPresent && m in ans.mpipl && ans.mpipl[m].state.Some?
                             && (ans.mpipl[m].state != Some(Booted) || !ans.mpipl[m].continueOk))
            && rc in {0, 1, 2, 6, 7}
  {
    MpiplReportsLast(ts, hw, mode, ans, 0, 1, 0, m);
  }

  /** The functional master processors from p on, in order. */
  function MasterList(ts: Targets, hw: seq<State>, p: nat): seq<nat>
    requires |hw| == |ts| && p <= |ts|
    decreases |ts| - p
  {
    if p == |ts| then []
    else if FunctionalMaster(ts, hw, p) then [p] + MasterList(ts, hw, p + 1)
    else MasterList(ts, hw, p + 1)
  }

  /** The list holds the functional masters and nothing else, in order. */
  lemma {:induction false} MastersListed(ts: Targets, hw: seq<State>, p: nat, q: nat)
    requires |hw| == |ts| && p <= |ts|
    ensures q in MasterList(ts, hw, p) <==> p <= q && FunctionalMaster(ts, hw, q)
    decreases |ts| - p
  {
    if p < |ts| {
      MastersListed(ts, hw, p + 1, q);
    }
  }

  lemma {:induction false} MastersInOrder(ts: Targets, hw: seq<State>, p: nat)
    requires |hw| == |ts| && p <= |ts|
    ensures Increasing(MasterList(ts, hw, p))
    decreases |ts| - p
  {
    if p < |ts| {
      var rest := MasterList(ts, hw, p + 1);
      MastersInOrder(ts, hw, p + 1);
      forall k | 0 <= k < |rest| ensures rest[k] > p {
        MastersListed(ts, hw, p + 1, rest[k]);
      }
    }
  }

  predicate AsksEach(ts: Targets, ans: Answers, events: seq<Event>, masters: seq<nat>) {
    && |events| == |masters|
    && forall k :: 0 <= k < |masters| ==>
         events[k].Continue? && events[k].proc == masters[k]
         && (masters[k] < |ts| ==> (events[k].err == 0 <==> Continues(ts, ans, masters[k])))
  }

  lemma {:induction false} MpiplAsks(ts: Targets, hw: seq<State>, mode: Mode, ans: Answers, p: nat, rc: int, ret: int)
    requires |hw| == |ts| && p <= |ts| && mode != Cronus
    ensures AsksEach(ts, ans, LoopFrom(ts, hw, mode, Mpipl, ans, p, rc, ret).events, MasterList(ts, hw, p))
    decreases |ts| - p
  {
    if p < |ts| {
      if FunctionalMaster(ts, hw, p) {
        ContinuesIs(ts, ans, p);
        MpiplAsks(ts, hw, mode, ans, p + 1, ContinueError(ts, ans, p), ret);
      } else {
        MpiplAsks(ts, hw, mode, ans, p + 1, rc, ret);
      }
    }
  }

  /**
   * A memory-preserving run asks every functional master to continue, in order,
   * and writes no SBE state but CHECK_CFAM to the present secondaries, and that
   * iff the last of them continued.
   */
  lemma MpiplRun(ts: Targets, hw: seq<State>, sbe: seq<SbeState>, mode: Mode, ans: Answers)
    requires |hw| == |sbe| == |ts| && mode != Cronus
    ensures var out, masters := StartRun(ts, hw, sbe, mode, Mpipl, ans), MasterList(ts, hw, 0);
            && AsksEach(ts, ans, out.events, masters)
            && Increasing(masters) && (forall q: nat :: q in masters <==> FunctionalMaster(ts, hw, q))
            && out.sbe == if exists m: nat :: LastMaster(ts, hw, m) && Continues(ts, ans, m) then
                            SbeAfterSetAll(ts, hw, sbe, CheckCfam, true, |ts|)
                          else sbe
  {
    MpiplAsks(ts, hw, mode, ans, 0, 1, 0);
    MastersInOrder(ts, hw, 0);
    forall q: nat ensures q in MasterList(ts, hw, 0) <==> FunctionalMaster(ts, hw, q) {
      MastersListed(ts, hw, 0, q);
    }
    AfterOther(sbe, LoopFrom(ts, hw, mode, Mpipl, ans, 0, 1, 0).events);
    var m := SomeLast(ts, hw);
    if m >= 0 {
      MpiplReportsLast(ts, hw, mode, ans, 0, 1, 0, m);
      ContinuesIs(ts, ans, m);
      assert forall k: nat :: LastMaster(ts, hw, k) ==> k == m;
    } else {
      MpiplNoMore(ts, hw, mode, ans, 0, 1, 0);
    }
  }

  /** A processor marked as master, all of whose attributes can be accessed. */
  function MasterAt(index: nat): Target {
    Target(Proc, None, index, true, true, None, true, Some(0x05), Some(0), None, Some(0), true, true, true, true)
  }

  /** Two functional masters, the first of which refuses to continue: the step still succeeds. */
  lemma MpiplHidesFailure(sbe: seq<SbeState>, mode: Mode)
    requires |sbe| == 2 && mode != Cronus
    ensures var ts: Targets, hw: seq<State> := [MasterAt(0), MasterAt(1)], [[0, 0, 0, 0, 0x60], [0, 0, 0, 0, 0x60]];
            var refuses, continues := MpiplAnswer(Some(Booted), false), MpiplAnswer(Some(Booted), true);
            var ans := Answers({}, map[], map[0 := refuses, 1 := continues]);
            && FunctionalMaster(ts, hw, 0) && ContinueError(ts, ans, 0) == ERR_SBE_CHIPOP
            && StartRun(ts, hw, sbe, mode, Mpipl, ans).rc == 0
  {
    var ts: Targets, hw: seq<State> := [MasterAt(0), MasterAt(1)], [[0, 0, 0, 0, 0x60], [0, 0, 0, 0, 0x60]];
    var refuses, continues := MpiplAnswer(Some(Booted), false), MpiplAnswer(Some(Booted), true);
    var ans := Answers({}, map[], map[0 := refuses, 1 := continues]);
    MpiplSucceedsIff(ts, hw, sbe, mode, ans);
    assert IsFunctional(hw[0]) && IsFunctional(hw[1]);
    assert LastMaster(ts, hw, 1) && Continues(ts, ans, 1);
  }

  // ---------- Cronus mode ----------

  predicate FunctionalProc(ts: Targets, hw: seq<State>, q: nat)
    requires |hw| == |ts|
  {
    q < |ts| && ts[q].cls == Proc && IsTargetFunctional(ts[q], hw[q])
  }

  /** The functional processors from p on, in order. */
  function FunctionalProcs(ts: Targets, hw: seq<State>, p: nat): seq<nat>
    requires |hw| == |ts| && p <= |ts|
    decreases |ts| - p
  {
    if p == |ts| then []
    else
      var rest := FunctionalProcs(ts, hw, p + 1);
      if FunctionalProc(ts, hw, p) then [p] + rest else rest
  }

  predicate Increasing(s: seq<nat>) {
    forall i, j :: 0 <= i < j < |s| ==> s[i] < s[j]
  }

  /** The list holds the functional processors and nothing else. */
  lemma {:induction false} ProcsListed(ts: Targets, hw: seq<State>, p: nat, q: nat)
    requires |hw| == |ts| && p <= |ts|
    ensures q in FunctionalProcs(ts, hw, p) <==> p <= q && FunctionalProc(ts, hw, q)
    decreases |ts| - p
  {
    if p < |ts| {
      ProcsListed(ts, hw, p + 1, q);
    }
  }

  lemma {:induction false} ProcsInOrder(ts: Targets, hw: seq<State>, p: nat)
    requires |hw| == |ts| && p <= |ts|
    ensures Increasing(FunctionalProcs(ts, hw, p))
    decreases |ts| - p
  {
    if p < |ts| {
      var rest := FunctionalProcs(ts, hw, p + 1);
      ProcsInOrder(ts, hw, p + 1);
      forall k | 0 <= k < |rest| ensures rest[k] > p {
        ProcsListed(ts, hw, p + 1, rest[k]);
      }
    }
  }

  function FailedStarts(procs: seq<nat>, ans: Answers): nat {
    if procs == [] then 0 else (if procs[0] in ans.startOk then 0 else 1) + FailedStarts(procs[1..], ans)
  }

  function StartsOf(procs: seq<nat>, ans: Answers): seq<Event> {
    seq(|procs|, k requires 0 <= k < |procs| => Start(procs[k], procs[k] in ans.startOk))
  }

  lemma StartsCons(p: nat, rest: seq<nat>, ans: Answers)
    ensures StartsOf([p] + rest, ans) == [Start(p, p in ans.startOk)] + StartsOf(rest, ans)
    ensures FailedStarts([p] + rest, ans) == (if p in ans.startOk then 0 else 1) + FailedStarts(rest, ans)
  {
    assert ([p] + rest)[1..] == rest;
  }

  lemma {:induction false} CronusLoop(ts: Targets, hw: seq<State>, bt: BootType, ans: Answers,
                                      p: nat, rc: int, ret: int)
    requires |hw| == |ts| && p <= |ts|
    ensures var procs := FunctionalProcs(ts, hw, p);
            LoopFrom(ts, hw, Cronus, bt, ans, p, rc, ret) ==
            Loop(StartsOf(procs, ans), if procs == [] then rc else ret + FailedStarts(procs, ans))
    decreases |ts| - p
  {
    if p < |ts| {
      if FunctionalProc(ts, hw, p) {
        var failed := if p in ans.startOk then ret else ret + 1;
        CronusLoop(ts, hw, bt, ans, p + 1, failed, failed);
        StartsCons(p, FunctionalProcs(ts, hw, p + 1), ans);
      } else {
        CronusLoop(ts, hw, bt, ans, p + 1, rc, ret);
      }
    }
  }

  /**
   * In Cronus mode the step starts exactly the functional processors, in order,
   * and polls none. It returns the number of failed starts, and 1 when there is
   * no such processor; with every start successful the present secondaries are
   * written CHECK_CFAM, and the result is 0 iff every master is functional.
   */
  lemma CronusCounts(ts: Targets, hw: seq<State>, sbe: seq<SbeState>, bt: BootType, ans: Answers)
    requires |hw| == |sbe| == |ts|
    ensures var out := StartRun(ts, hw, sbe, Cronus, bt, ans);
            var procs := FunctionalProcs(ts, hw, 0);
            var failed := FailedStarts(procs, ans);
            && |out.events| == |procs|
            && (forall k :: 0 <= k < |procs| ==> out.events[k] == Start(procs[k], procs[k] in ans.startOk))
            && out.rc == (if procs == [] then 1
                          else if failed > 0 then failed
                          else if MastersFunctional(ts, hw) then 0 else 1)
            && out.sbe == (if procs != [] && failed == 0 then SbeAfterSetAll(ts, hw, sbe, CheckCfam, true, |ts|)
                           else sbe)
    ensures Increasing(FunctionalProcs(ts, hw, 0))
    ensures forall q: nat :: q in FunctionalProcs(ts, hw, 0) <==> FunctionalProc(ts, hw, q)
    ensures FailedStarts(FunctionalProcs(ts, hw, 0), ans) == 0 <==>
            forall q: nat :: FunctionalProc(ts, hw, q) ==> q in ans.startOk
  {
    CronusLoop(ts, hw, bt, ans, 0, 1, 0);
    var procs := FunctionalProcs(ts, hw, 0);
    AfterOther(sbe, StartsOf(procs, ans));
    NoneFailed(procs, ans);
    ProcsInOrder(ts, hw, 0);
    forall q: nat ensures q in procs <==> FunctionalProc(ts, hw, q) {
      ProcsListed(ts, hw, 0, q);
    }
  }

  lemma {:induction false} NoneFailed(procs: seq<nat>, ans: Answers)
    ensures FailedStarts(procs, ans) == 0 <==> forall q: nat :: q in procs ==> q in ans.startOk
  {
    if procs != [] {
      NoneFailed(procs[1..], ans);
      assert procs == [procs[0]] + procs[1..];
    }
  }
}
