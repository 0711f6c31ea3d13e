/**
 * Processing of a first-failure data buffer: variable-length packets, grouped
 * by SLID into temporary files that are created once and appended to.
 */
module Ffdc {
  import opened Base

  const POZ_MAGIC := 0xFBAD

  /** One packet as found in the buffer: its group, its severity and all of its bytes, header included. */
  datatype RawPacket = RawPacket(slid: nat, severity: Byte, bytes: seq<Byte>)

  datatype Verdict = Clean | BadMagic | Stuck | Overrun

  /** Two bytes in network order. */
  function U16(buf: seq<Byte>, i: nat): (n: nat)
    requires i + 2 <= |buf|
    ensures n < 0x1_0000
  {
    var hi: int := buf[i];
    hi * 256 + buf[i + 1]
  }

  /** Header fields the loop reads: magic at 0, length in words at 2, SLID at 8, severity at 10. */
  const HEADER_READ := 11

  function LengthAt(buf: seq<Byte>, off: nat): nat
    requires off + HEADER_READ <= |buf|
  {
    U16(buf, off + 2) * 4
  }

  function PacketAt(buf: seq<Byte>, off: nat): RawPacket
    requires off + HEADER_READ <= |buf| && off + LengthAt(buf, off) <= |buf|
  {
    RawPacket(U16(buf, off + 8), buf[off + 10], buf[off..off + LengthAt(buf, off)])
  }

  /**
   * What stops the loop at this offset: the end of the buffer (Clean), a wrong
   * magic word, a packet that reaches past the buffer (Overrun) or a zero
   * length (Stuck). None means that a packet is consumed.
   */
  function StopAt(buf: seq<Byte>, off: nat): Option<Verdict> {
    if off >= |buf| then Some(Clean)
    else if off + 2 > |buf| then Some(Overrun)
    else if U16(buf, off) != POZ_MAGIC then Some(BadMagic)
    else if off + HEADER_READ > |buf| || off + LengthAt(buf, off) > |buf| then Some(Overrun)
    else if LengthAt(buf, off) == 0 then Some(Stuck)
    else None
  }

  function VerdictFrom(buf: seq<Byte>, off: nat): Verdict
    decreases |buf| - off
  {
    match StopAt(buf, off)
    case Some(v) => v
    case None => VerdictFrom(buf, off + LengthAt(buf, off))
  }

  /** The packets consumed before the loop stops. */
  function PacketsFrom(buf: seq<Byte>, off: nat): seq<RawPacket>
    decreases |buf| - off
  {
    if StopAt(buf, off).Some? then []
    else [PacketAt(buf, off)] + PacketsFrom(buf, off + LengthAt(buf, off))
  }

  // ---------- one turn of the loop, and how the loop ends ----------

  datatype Failure = InvalidMagic | FileFailed

  /** OutOfBounds: the source reads past the buffer. Never: the loop goes on for ever. */
  datatype End = Finished | Failed(failure: Failure) | OutOfBounds | Never

  /** One file operation less to go before one fails; None when no operation ever fails. */
  function Spend(good: Option<nat>): Option<nat> {
    if good.None? || good.value == 0 then good else Some(good.value - 1)
  }

  datatype LoopState = Running(off: nat, good: Option<nat>) | Ended(end: End)

  /** One turn on the packet at this offset, its file operation included. */
  function Turn(buf: seq<Byte>, off: nat, good: Option<nat>): LoopState {
    if off >= |buf| then Ended(Finished)
    else if off + 2 > |buf| then Ended(OutOfBounds)
    else if U16(buf, off) != POZ_MAGIC then Ended(Failed(InvalidMagic))
    else if off + HEADER_READ > |buf| || off + LengthAt(buf, off) > |buf| then Ended(OutOfBounds)
    else if good == Some(0) then Ended(Failed(FileFailed))
    else Running(off + LengthAt(buf, off), Spend(good))
  }

  /** The state of the loop after n turns. */
  function After(buf: seq<Byte>, s: LoopState, n: nat): LoopState {
    if n == 0 then s
    else
      var t := After(buf, s, n - 1);
      if t.Ended? then t else Turn(buf, t.off, t.good)
  }

  /** How the loop ends, in closed form: by the packets in front of what stops it and the operations that succeed. */
  function EndOf(buf: seq<Byte>, off: nat, good: Option<nat>): End {
    if good.Some? && good.value < |PacketsFrom(buf, off)| then Failed(FileFailed)
    else
      match VerdictFrom(buf, off)
      case Clean => Finished
      case BadMagic => Failed(InvalidMagic)
      case Overrun => OutOfBounds
      case Stuck => if good.Some? then Failed(FileFailed) else Never
  }

  /** A turn either ends the loop in the way the closed form says, or leaves it with the same end. */
  lemma TurnKeepsEnd(buf: seq<Byte>, off: nat, good: Option<nat>)
    ensures var t := Turn(buf, off, good);
            EndOf(buf, off, good) == if t.Ended? then t.end else EndOf(buf, t.off, t.good)
  {
  }

  // ---------- groups ----------

  datatype Group = Group(severity: Byte, data: seq<Byte>)

  function AddPacket(g: map<nat, Group>, p: RawPacket): map<nat, Group> {
    if p.slid !in g then g[p.slid := Group(p.severity, p.bytes)]
    else
      var old_ := g[p.slid];
      g[p.slid := Group(if p.severity > old_.severity then p.severity else old_.severity, old_.data + p.bytes)]
  }

  function Collect(ps: seq<RawPacket>): map<nat, Group> {
    if ps == [] then map[] else AddPacket(Collect(ps[..|ps| - 1]), ps[|ps| - 1])
  }

  // ---------- temporary files ----------

  type Contents = map<nat, seq<Byte>>

  datatype FileEntry = FileEntry(severity: Byte, path: nat)

  type FileList = map<nat, FileEntry>

  /** The exception object carries its type and the file list; the alternative is a thrown runtime error. */
  datatype ErrorType = InternalFfdcData | CommandFailed

  datatype Result = Packets(errType: ErrorType, files: FileList) | Threw(failure: Failure)

  /** Files by path; the next good operations succeed and the one after them fails, or none ever does. */
  class TempFiles {
    var contents: Contents
    var next: nat
    var good: Option<nat>

    ghost predicate Valid()
      reads this
    {
      forall p :: p in contents ==> p < next
    }

    constructor (good: Option<nat>)
      ensures Valid() && this.good == good && contents == map[]
    {
      this.good, contents, next := good, map[], 0;
    }

    /** Create a file under a path not used before. */
    method Create(data: seq<Byte>) returns (path: Option<nat>)
      requires Valid()
      modifies this
      ensures Valid()
      ensures path.Some? <==> old(good) != Some(0)
      ensures good == Spend(old(good))
      ensures path.Some? ==> path.value !in old(contents) && contents == old(contents)[path.value := data]
      ensures path.None? ==> contents == old(contents)
    {
      if good == Some(0) {
        return None;
      }
      good := Spend(good);
      contents := contents[next := data];
      path := Some(next);
      next := next + 1;
    }

    method Append(path: nat, data: seq<Byte>) returns (ok: bool)
      requires Valid() && path in contents
      modifies this
      ensures Valid()
      ensures ok <==> old(good) != Some(0)
      ensures good == Spend(old(good))
      ensures contents == if ok then old(contents)[path := old(contents)[path] + data] else old(contents)
    {
      if good == Some(0) {
        return false;
      }
      good := Spend(good);
      contents := contents[path := contents[path] + data];
      return true;
    }
  }

  /** The groups that a file list stands for. */
  function View(files: FileList, contents: Contents): map<nat, Group>
    requires forall s :: s in files ==> files[s].path in contents
  {
    map s | s in files :: Group(files[s].severity, contents[files[s].path])
  }

  /** Every file that was there before is there with the same content. */
  predicate Untouched(before: Contents, contents: Contents) {
    forall p :: p in before ==> p in contents && contents[p] == before[p]
  }

  /** Each SLID has a file of its own, and none of these files was there before. */
  predicate OwnFiles(files: FileList, contents: Contents, before: Contents) {
    && (forall s :: s in files ==> files[s].path in contents && files[s].path !in before)
    && (forall s, t :: s in files && t in files && s != t ==> files[s].path != files[t].path)
    && Untouched(before, contents)
  }

  lemma CreateKeepsOwn(files: FileList, contents: Contents, before: Contents, p: RawPacket, path: nat)
    requires OwnFiles(files, contents, before) && path !in contents
    ensures OwnFiles(files[p.slid := FileEntry(p.severity, path)], contents[path := p.bytes], before)
  {
  }

  lemma CreateKeepsView(files: FileList, contents: Contents, before: Contents, p: RawPacket, path: nat)
    requires OwnFiles(files, contents, before) && p.slid !in files && path !in contents
    ensures var r, now := files[p.slid := FileEntry(p.severity, path)], contents[path := p.bytes];
            OwnFiles(r, now, before) && View(r, now) == AddPacket(View(files, contents), p)
  {
    CreateKeepsOwn(files, contents, before, p, path);
  }

  lemma AppendKeepsView(files: FileList, contents: Contents, before: Contents, p: RawPacket, severity: Byte)
    requires OwnFiles(files, contents, before) && p.slid in files
    requires severity == if p.severity > files[p.slid].severity then p.severity else files[p.slid].severity
    ensures var e := files[p.slid];
            var r, now := files[p.slid := e.(severity := severity)], contents[e.path := contents[e.path] + p.bytes];
            OwnFiles(r, now, before) && View(r, now) == AddPacket(View(files, contents), p)
  {
    var e := files[p.slid];
    var r, now := files[p.slid := e.(severity := severity)], contents[e.path := contents[e.path] + p.bytes];
    assert OwnFiles(r, now, before);
    assert View(r, now).Keys == AddPacket(View(files, contents), p).Keys;
  }

  /** The files hold exactly the groups of the packets in done. */
  ghost predicate Holds(files: FileList, contents: Contents, before: Contents, done: seq<RawPacket>) {
    OwnFiles(files, contents, before) && View(files, contents) == Collect(done)
  }

  lemma CollectAppend(done: seq<RawPacket>, p: RawPacket)
    ensures Collect(done + [p]) == AddPacket(Collect(done), p)
  {
    assert (done + [p])[..|done|] == done;
  }

  /** First packet of its SLID: a new file. */
  method StoreFirst(fs: TempFiles, files: FileList, p: RawPacket,
                    ghost before: Contents, ghost done: seq<RawPacket>)
    returns (ok: bool, r: FileList)
    requires fs.Valid() && Holds(files, fs.contents, before, done) && p.slid !in files
    modifies fs
    ensures fs.Valid()
    ensures ok <==> old(fs.good) != Some(0)
    ensures fs.good == Spend(old(fs.good))
    ensures if ok then Holds(r, fs.contents, before, done + [p]) else r == files && fs.contents == old(fs.contents)
  {
    CollectAppend(done, p);
    r := files;
    var path := fs.Create(p.bytes);
    ok := path.Some?;
    if ok {
      CreateKeepsView(files, old(fs.contents), before, p, path.value);
      r := files[p.slid := FileEntry(p.severity, path.value)];
    }
  }

  /** Further packet of its SLID: raise the severity, append the bytes. */
  method StoreMore(fs: TempFiles, files: FileList, p: RawPacket,
                   ghost before: Contents, ghost done: seq<RawPacket>)
    returns (ok: bool, r: FileList)
    requires fs.Valid() && Holds(files, fs.contents, before, done) && p.slid in files
    modifies fs
    ensures fs.Valid()
    ensures ok <==> old(fs.good) != Some(0)
    ensures fs.good == Spend(old(fs.good))
    ensures ok ==> Holds(r, fs.contents, before, done + [p])
    ensures !ok ==> fs.contents == old(fs.contents)
  {
    CollectAppend(done, p);
    var entry := files[p.slid];
    var severity := if p.severity > entry.severity then p.severity else entry.severity;
    r := files[p.slid := entry.(severity := severity)];
    AppendKeepsView(files, fs.contents, before, p, severity);
    ok := fs.Append(entry.path, p.bytes);
  }

  /** Put one packet into its file; false when the file operation fails. Files that were there before stay. */
  method StorePacket(fs: TempFiles, files: FileList, p: RawPacket,
                     ghost before: Contents, ghost done: seq<RawPacket>)
    returns (ok: bool, r: FileList)
    requires fs.Valid() && Holds(files, fs.contents, before, done)
    modifies fs
    ensures fs.Valid()
    ensures ok <==> old(fs.good) != Some(0)
    ensures fs.good == Spend(old(fs.good))
    ensures ok ==> Holds(r, fs.contents, before, done + [p])
    ensures !ok ==> fs.contents == old(fs.contents)
  {
    if p.slid !in files {
      ok, r := StoreFirst(fs, files, p, before, done);
    } else {
      ok, r := StoreMore(fs, files, p, before, done);
    }
  }

  /** The packets in done are those in front of this offset; at a zero length they hold copies of that packet. */
  predicate Reached(buf: seq<Byte>, off: nat, done: seq<RawPacket>) {
    && VerdictFrom(buf, 0) == VerdictFrom(buf, off)
    && (VerdictFrom(buf, 0) != Stuck ==> PacketsFrom(buf, 0) == done + PacketsFrom(buf, off))
  }

  lemma Consume(buf: seq<Byte>, off: nat, next: nat, done: seq<RawPacket>)
    requires StopAt(buf, off).None? && next == off + LengthAt(buf, off)
    requires Reached(buf, off, done)
    ensures Reached(buf, next, done + [PacketAt(buf, off)])
  {
    var p, rest := PacketAt(buf, off), PacketsFrom(buf, next);
    assert PacketsFrom(buf, off) == [p] + rest;
    assert done + ([p] + rest) == done + [p] + rest;
  }

  lemma TurnReaches(buf: seq<Byte>, off: nat, good: Option<nat>, done: seq<RawPacket>)
    requires Reached(buf, off, done) && Turn(buf, off, good).Running?
    ensures Reached(buf, Turn(buf, off, good).off, done + [PacketAt(buf, off)])
  {
    var next := Turn(buf, off, good).off;
    if next == off {
      assert StopAt(buf, off) == Some(Stuck);
    } else {
      Consume(buf, off, next, done);
    }
  }

  lemma AtEnd(buf: seq<Byte>, off: nat, done: seq<RawPacket>)
    requires Reached(buf, off, done) && off >= |buf|
    ensures PacketsFrom(buf, 0) == done
  {
    assert done + [] == done;
  }

  /** An end that the source defines: the loop leaves normally or by an exception. */
  predicate Defined(end: End) {
    end.Finished? || end.Failed?
  }

  /** After so many turns the loop is at this offset, with the same end ahead of it as at the start. */
  ghost predicate Arrived(buf: seq<Byte>, start: Option<nat>, turns: nat, off: nat, good: Option<nat>) {
    && After(buf, Running(0, start), turns) == Running(off, good)
    && EndOf(buf, off, good) == EndOf(buf, 0, start)
  }

  /** After so many turns the loop has ended, in the way that the closed form says. */
  ghost predicate Left(buf: seq<Byte>, start: Option<nat>, turns: nat, end: End) {
    After(buf, Running(0, start), turns) == Ended(end) && EndOf(buf, 0, start) == end
  }

  lemma TurnArrives(buf: seq<Byte>, start: Option<nat>, turns: nat, off: nat, good: Option<nat>)
    requires Arrived(buf, start, turns, off, good)
    ensures var t := Turn(buf, off, good);
            if t.Ended? then Left(buf, start, turns + 1, t.end) else Arrived(buf, start, turns + 1, t.off, t.good)
  {
    TurnKeepsEnd(buf, off, good);
  }

  /** Ahead of a defined end a turn stays inside the buffer, and takes the loop on or uses up a file operation. */
  lemma TurnAdvances(buf: seq<Byte>, off: nat, good: Option<nat>)
    requires Defined(EndOf(buf, off, good))
    ensures var t := Turn(buf, off, good);
            if t.Ended? then Defined(t.end)
            else off < t.off || (off == t.off && good.Some? && t.good == Some(good.value - 1))
  {
    TurnKeepsEnd(buf, off, good);
  }

  /** What one turn means for a run with a defined end. */
  lemma TurnInRun(buf: seq<Byte>, start: Option<nat>, turns: nat, off: nat, good: Option<nat>, done: seq<RawPacket>)
    requires off < |buf| && Defined(EndOf(buf, 0, start))
    requires Arrived(buf, start, turns, off, good) && Reached(buf, off, done)
    ensures var t := Turn(buf, off, good);
            if t.Ended? then t.end.Failed? && Left(buf, start, turns + 1, t.end)
            else
              && (off < t.off || (off == t.off && good.Some? && t.good == Some(good.value - 1)))
              && Arrived(buf, start, turns + 1, t.off, t.good)
              && Reached(buf, t.off, done + [PacketAt(buf, off)])
  {
    TurnAdvances(buf, off, good);
    TurnArrives(buf, start, turns, off, good);
    if Turn(buf, off, good).Running? {
      TurnReaches(buf, off, good, done);
    }
  }

  lemma AtStart(buf: seq<Byte>, start: Option<nat>)
    ensures Arrived(buf, start, 0, 0, start) && Reached(buf, 0, [])
  {
  }

  lemma HoldsNothing(before: Contents)
    ensures Holds(map[], before, before, [])
  {
  }

  /** The checks and the file operation of one turn; the new state is the one that Turn computes. */
  method StoreAt(fs: TempFiles, buf: seq<Byte>, off: nat, files: FileList,
                 ghost before: Contents, ghost done: seq<RawPacket>)
    returns (s: LoopState, r: FileList)
    requires off < |buf| && Turn(buf, off, fs.good) != Ended(OutOfBounds)
    requires fs.Valid() && Holds(files, fs.contents, before, done)
    modifies fs
    ensures fs.Valid() && Untouched(before, fs.contents)
    ensures s == Turn(buf, off, old(fs.good))
    ensures s.Running? ==>
              && s.good == fs.good && off + HEADER_READ <= |buf| && off + LengthAt(buf, off) <= |buf|
              && Holds(r, fs.contents, before, done + [PacketAt(buf, off)])
  {
    r := files;
    if U16(buf, off) != POZ_MAGIC {
      return Ended(Failed(InvalidMagic)), files;
    }
    var ok;
    ok, r := StorePacket(fs, files, PacketAt(buf, off), before, done);
    if !ok {
      return Ended(Failed(FileFailed)), files;
    }
    return Running(off + LengthAt(buf, off), fs.good), r;
  }

  /** One turn of the loop, as part of a run that began with the given file store. */
  method TakeTurn(fs: TempFiles, buf: seq<Byte>, off: nat, files: FileList, ghost start: Option<nat>,
                  ghost turns: nat, ghost before: Contents, ghost done: seq<RawPacket>)
    returns (s: LoopState, r: FileList, ghost more: seq<RawPacket>)
    requires off < |buf| && Defined(EndOf(buf, 0, start))
    requires Arrived(buf, start, turns, off, fs.good) && Reached(buf, off, done)
    requires fs.Valid() && Holds(files, fs.contents, before, done)
    modifies fs
    ensures fs.Valid() && Untouched(before, fs.contents)
    ensures s.Ended? ==> s.end.Failed? && Left(buf, start, turns + 1, s.end)
    ensures s.Running? ==>
              && s.good == fs.good
              && (off < s.off || (off == s.off && old(fs.good).Some? && fs.good == Some(old(fs.good).value - 1)))
              && Arrived(buf, start, turns + 1, s.off, fs.good) && Reached(buf, s.off, more)
              && Holds(r, fs.contents, before, more)
  {
    TurnInRun(buf, start, turns, off, fs.good, done);
    more := if Turn(buf, off, fs.good).Running? then done + [PacketAt(buf, off)] else done;
    s, r := StoreAt(fs, buf, off, files, before, done);
  }

  /** The processing loop, on every buffer and file store for which the source has a defined end. */
  method ProcessPozFfdc(fs: TempFiles, buf: seq<Byte>, coSuccess: bool) returns (r: Result, ghost turns: nat)
    requires fs.Valid() && Defined(EndOf(buf, 0, fs.good))
    modifies fs
    ensures fs.Valid() && Untouched(old(fs.contents), fs.contents)
    ensures After(buf, Running(0, old(fs.good)), turns) == Ended(EndOf(buf, 0, old(fs.good)))
    ensures EndOf(buf, 0, old(fs.good)) == if r.Threw? then Failed(r.failure) else Finished
    ensures r.Packets? ==>
              && OwnFiles(r.files, fs.contents, old(fs.contents))
              && View(r.files, fs.contents) == Collect(PacketsFrom(buf, 0))
              && r.errType == if coSuccess then InternalFfdcData else CommandFailed
  {
    var files: FileList := map[];
    var offset := 0;
    ghost var start, before := fs.good, fs.contents;
    ghost var done: seq<RawPacket> := [];
    turns := 0;
    AtStart(buf, start);
    HoldsNothing(before);
    while offset < |buf|
      invariant fs.Valid() && Holds(files, fs.contents, before, done)
      invariant Arrived(buf, start, turns, offset, fs.good)
      invariant Reached(buf, offset, done)
      decreases |buf| - offset, if fs.good.Some? then fs.good.value else 0
    {
      var s;
      s, files, done := TakeTurn(fs, buf, offset, files, start, turns, before, done);
      turns := turns + 1;
      if s.Ended? {
        return Threw(s.end.failure), turns;
      }
      offset := s.off;
    }
    AtEnd(buf, offset, done);
    TurnArrives(buf, start, turns, offset, fs.good);
    return Packets(if coSuccess then InternalFfdcData else CommandFailed, files), turns + 1;
  }
}
