/**
 * The packed ATTR_HWAS_STATE attribute of one target, and the effect of a log
 * of set/clear writes on the attributes of a whole device tree.
 */
module Hwas {
  import opened Base

  /** Four bytes of error log identifier followed by one byte of flags. */
  type State = b: seq<bv8> | |b| == 5 witness [0, 0, 0, 0, 0]

  const PRESENT: bv8 := 0x40
  const FUNCTIONAL: bv8 := 0x20
  const FCO: bv8 := 0x04

  predicate IsPresent(h: State) { h[4] & PRESENT != 0 }

  predicate IsFunctional(h: State) { h[4] & FUNCTIONAL != 0 }

  predicate HasFco(h: State) { h[4] & FCO != 0 }

  /** The new value written for one target: set raises present and functional, clear lowers functional only. */
  function SetOrClear(h: State, doSet: bool): State {
    if doSet then h[4 := h[4] | (PRESENT | FUNCTIONAL)]
    else h[4 := h[4] & !FUNCTIONAL]
  }

  /** h2 and h differ at most in the present and functional bits. */
  predicate SameElsewhere(h: State, h2: State) {
    h2[..4] == h[..4] && h2[4] & 0x9F == h[4] & 0x9F
  }

  /** Which bit of the flag byte each of the three questions asks for. */
  lemma FlagBits(h: State)
    ensures IsPresent(h) <==> h[4] & 0x40 == 0x40
    ensures IsFunctional(h) <==> h[4] & 0x20 == 0x20
    ensures HasFco(h) <==> h[4] & 0x04 == 0x04
  {
  }

  lemma SetOrClearBits(h: State, doSet: bool)
    ensures var r := SetOrClear(h, doSet);
            && SameElsewhere(h, r)
            && IsFunctional(r) == doSet
            && IsPresent(r) == (doSet || IsPresent(h))
            && HasFco(r) == HasFco(h)
  {
  }

  lemma SameBits(h: State, h2: State)
    requires SameElsewhere(h, h2)
    requires IsFunctional(h) == IsFunctional(h2) && IsPresent(h) == IsPresent(h2)
    ensures h == h2
  {
    assert h[4] == h2[4];
    assert h == h[..4] + [h[4]] && h2 == h2[..4] + [h2[4]];
  }

  // ---------- write logs ----------

  datatype Write = Write(target: nat, value: bool)

  function ApplyWrite(hw: seq<State>, w: Write): (r: seq<State>)
    ensures |r| == |hw|
  {
    if w.target < |hw| then hw[w.target := SetOrClear(hw[w.target], w.value)] else hw
  }

  function ApplyLog(hw: seq<State>, log: seq<Write>): (r: seq<State>)
    ensures |r| == |hw|
  {
    if log == [] then hw
    else ApplyWrite(ApplyLog(hw, log[..|log| - 1]), log[|log| - 1])
  }

  /** The value of the last write to target i, if there is one. */
  function LastValue(log: seq<Write>, i: nat): Option<bool> {
    if log == [] then None
    else if log[|log| - 1].target == i then Some(log[|log| - 1].value)
    else LastValue(log[..|log| - 1], i)
  }

  /** What a log has done to one target: outside the two bits nothing, with no write nothing at all. */
  predicate Decided(h: State, r: State, last: Option<bool>, everSet: bool) {
    && SameElsewhere(h, r) && HasFco(r) == HasFco(h)
    && IsFunctional(r) == (match last case None => IsFunctional(h) case Some(v) => v)
    && IsPresent(r) == (IsPresent(h) || everSet)
    && (last.None? ==> r == h)
  }

  lemma DecidedStep(h: State, r: State, last: Option<bool>, everSet: bool, v: bool)
    requires Decided(h, r, last, everSet)
    ensures Decided(h, SetOrClear(r, v), Some(v), everSet || v)
  {
    SetOrClearBits(r, v);
  }

  /**
   * A log decides each target on its own: the last write fixes the functional
   * bit, any set write raises the present bit, nothing else moves.
   */
  lemma {:induction false} LogEffect(hw: seq<State>, log: seq<Write>, i: nat)
    requires i < |hw|
    ensures Decided(hw[i], ApplyLog(hw, log)[i], LastValue(log, i), Write(i, true) in log)
  {
    if log != [] {
      var n := |log| - 1;
      LogEffect(hw, log[..n], i);
      assert Write(i, true) in log <==> Write(i, true) in log[..n] || log[n] == Write(i, true) by {
        assert log == log[..n] + [log[n]];
      }
      if log[n].target == i {
        DecidedStep(hw[i], ApplyLog(hw, log[..n])[i], LastValue(log[..n], i), Write(i, true) in log[..n], log[n].value);
      }
    }
  }

  lemma ApplyAppend(hw: seq<State>, log: seq<Write>, w: Write)
    ensures ApplyLog(hw, log + [w]) == ApplyWrite(ApplyLog(hw, log), w)
  {
    assert (log + [w])[..|log|] == log;
  }

  lemma {:induction false} ApplyConcat(hw: seq<State>, a: seq<Write>, b: seq<Write>)
    ensures ApplyLog(hw, a + b) == ApplyLog(ApplyLog(hw, a), b)
  {
    if b == [] {
      assert a + b == a;
    } else {
      var n := |b| - 1;
      ApplyConcat(hw, a, b[..n]);
      assert (a + b)[..|a + b| - 1] == a + b[..n];
    }
  }

  lemma {:induction false} LastConcat(a: seq<Write>, b: seq<Write>, i: nat)
    ensures LastValue(a + b, i) == if LastValue(b, i).Some? then LastValue(b, i) else LastValue(a, i)
  {
    if b == [] {
      assert a + b == a;
    } else {
      LastConcat(a, b[..|b| - 1], i);
      assert (a + b)[..|a + b| - 1] == a + b[..|b| - 1];
    }
  }

  /** The flag byte after a log: what its last write makes of it, with the present bit kept from any earlier set. */
  function FlagsAfter(b: bv8, last: Option<bool>, everSet: bool): bv8 {
    match last
    case None => b
    case Some(true) => b | 0x60
    case Some(false) => (if everSet then b | 0x40 else b) & 0xDF
  }

  lemma FlagsStep(h: State, last: Option<bool>, everSet: bool, v: bool)
    requires (last == Some(true) ==> everSet) && (last == None ==> !everSet)
    ensures SetOrClear(h[4 := FlagsAfter(h[4], last, everSet)], v) ==
            h[4 := FlagsAfter(h[4], Some(v), everSet || v)]
  {
  }

  lemma LastSnoc(log: seq<Write>, w: Write, i: nat)
    ensures LastValue(log + [w], i) == if w.target == i then Some(w.value) else LastValue(log, i)
    ensures Write(i, true) in log + [w] <==> Write(i, true) in log || w == Write(i, true)
  {
    assert (log + [w])[..|log|] == log;
  }

  /** The five bytes of a target after any log of writes. */
  lemma {:induction false} LogBytes(hw: seq<State>, log: seq<Write>, i: nat)
    requires i < |hw|
    ensures var last, everSet := LastValue(log, i), Write(i, true) in log;
            && (last == Some(true) ==> everSet) && (last == None ==> !everSet)
            && ApplyLog(hw, log)[i] == hw[i][4 := FlagsAfter(hw[i][4], last, everSet)]
  {
    if log == [] {
      assert hw[i] == hw[i][4 := hw[i][4]];
    } else {
      var front, w := log[..|log| - 1], log[|log| - 1];
      LogBytes(hw, front, i);
      assert log == front + [w];
      LastSnoc(front, w, i);
      FlagsStep(hw[i], LastValue(front, i), Write(i, true) in front, w.value);
      assert ApplyLog(hw, log) == ApplyWrite(ApplyLog(hw, front), w);
    }
  }
}
