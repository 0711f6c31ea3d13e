/** What the grouped files mean: a group-by, a conservation law, an encoder that is undone, and when the loop ends. */
module FfdcOutcome {
  import opened Base
  import opened Ffdc

  // ---------- the reference group-by ----------

  function OfSlid(ps: seq<RawPacket>, slid: nat): seq<RawPacket> {
    if ps == [] then []
    else OfSlid(ps[..|ps| - 1], slid) + (if ps[|ps| - 1].slid == slid then [ps[|ps| - 1]] else [])
  }

  function Bytes(ps: seq<RawPacket>): seq<Byte> {
    if ps == [] then [] else Bytes(ps[..|ps| - 1]) + ps[|ps| - 1].bytes
  }

  predicate IsMaxSeverity(ps: seq<RawPacket>, severity: Byte) {
    && (exists k :: 0 <= k < |ps| && ps[k].severity == severity)
    && (forall k :: 0 <= k < |ps| ==> ps[k].severity <= severity)
  }

  /** One entry per SLID that occurs, with the highest severity and all bytes of its packets in arrival order. */
  lemma {:induction false} CollectGroups(ps: seq<RawPacket>, slid: nat)
    ensures slid in Collect(ps) <==> OfSlid(ps, slid) != []
    ensures slid in Collect(ps) ==>
              && Collect(ps)[slid].data == Bytes(OfSlid(ps, slid))
              && IsMaxSeverity(OfSlid(ps, slid), Collect(ps)[slid].severity)
  {
    if ps != [] {
      var n := |ps| - 1;
      CollectGroups(ps[..n], slid);
      if ps[n].slid == slid {
        var before := OfSlid(ps[..n], slid);
        assert OfSlid(ps, slid)[..|before|] == before;
        assert OfSlid(ps, slid)[|before|] == ps[n];
        if before == [] {
          assert Bytes(before) == [];
        }
      } else {
        assert OfSlid(ps, slid) == OfSlid(ps[..n], slid);
      }
    }
  }

  // ---------- conservation ----------

  /** Total size of the groups whose SLID is below n. */
  function SizeBelow(g: map<nat, Group>, n: nat): nat {
    if n == 0 then 0 else SizeBelow(g, n - 1) + (if n - 1 in g then |g[n - 1].data| else 0)
  }

  lemma {:induction false} SizeAfterAdd(g: map<nat, Group>, p: RawPacket, n: nat)
    ensures SizeBelow(AddPacket(g, p), n) == SizeBelow(g, n) + (if p.slid < n then |p.bytes| else 0)
  {
    if n > 0 {
      SizeAfterAdd(g, p, n - 1);
    }
  }

  lemma {:induction false} SizeOfCollect(ps: seq<RawPacket>, n: nat)
    requires forall k :: 0 <= k < |ps| ==> ps[k].slid < n
    ensures SizeBelow(Collect(ps), n) == |Bytes(ps)|
  {
    if ps == [] {
      EmptySize(n);
    } else {
      SizeOfCollect(ps[..|ps| - 1], n);
      SizeAfterAdd(Collect(ps[..|ps| - 1]), ps[|ps| - 1], n);
    }
  }

  lemma {:induction false} EmptySize(n: nat)
    ensures SizeBelow(map[], n) == 0
  {
    if n > 0 {
      EmptySize(n - 1);
    }
  }

  lemma BytesSnoc(ps: seq<RawPacket>, p: RawPacket)
    ensures Bytes(ps + [p]) == Bytes(ps) + p.bytes
  {
    assert (ps + [p])[..|ps|] == ps;
  }

  lemma BytesStep(a: seq<RawPacket>, b: seq<RawPacket>, p: RawPacket)
    requires Bytes(a + b) == Bytes(a) + Bytes(b)
    ensures Bytes(a + (b + [p])) == Bytes(a) + Bytes(b + [p])
  {
    BytesSnoc(a + b, p);
    BytesSnoc(b, p);
    Regroup(a, b, [p]);
    Regroup(Bytes(a), Bytes(b), p.bytes);
  }

  lemma {:induction false} BytesConcat(a: seq<RawPacket>, b: seq<RawPacket>)
    ensures Bytes(a + b) == Bytes(a) + Bytes(b)
  {
    if b == [] {
      assert a + b == a;
    } else {
      var front, p := b[..|b| - 1], b[|b| - 1];
      assert b == front + [p];
      BytesConcat(a, front);
      BytesStep(a, front, p);
      assert Bytes(a + b) == Bytes(a + (front + [p]));
    }
  }

  lemma BytesCons(p: RawPacket, ps: seq<RawPacket>)
    ensures Bytes([p] + ps) == p.bytes + Bytes(ps)
  {
    BytesConcat([p], ps);
    assert [p][..0] == [] && Bytes([p]) == p.bytes;
  }

  lemma Cut(buf: seq<Byte>, off: nat, next: nat)
    requires off <= next <= |buf|
    ensures buf[off..] == buf[off..next] + buf[next..]
  {
  }

  lemma TileStep(buf: seq<Byte>, off: nat, next: nat)
    requires StopAt(buf, off).None? && next == off + LengthAt(buf, off)
    ensures next <= |buf|
    ensures Bytes(PacketsFrom(buf, off)) == buf[off..next] + Bytes(PacketsFrom(buf, next))
  {
    BytesCons(PacketAt(buf, off), PacketsFrom(buf, next));
  }

  /** The packets tile the buffer: read in order they give back its bytes. */
  lemma {:induction false} PacketsTile(buf: seq<Byte>, off: nat)
    requires off <= |buf| && VerdictFrom(buf, off) == Clean
    ensures Bytes(PacketsFrom(buf, off)) == buf[off..]
    decreases |buf| - off
  {
    if StopAt(buf, off).None? {
      var next := off + LengthAt(buf, off);
      TileStep(buf, off, next);
      PacketsTile(buf, next);
      Cut(buf, off, next);
    }
  }

  lemma {:induction false} SlidsInRange(buf: seq<Byte>, off: nat)
    ensures forall k :: 0 <= k < |PacketsFrom(buf, off)| ==> PacketsFrom(buf, off)[k].slid < 0x1_0000
    decreases |buf| - off
  {
    if StopAt(buf, off).None? {
      SlidsInRange(buf, off + LengthAt(buf, off));
    }
  }

  /** The sizes of the files add up to the size of the buffer. */
  lemma SizesAddUp(buf: seq<Byte>)
    requires VerdictFrom(buf, 0) == Clean
    ensures SizeBelow(Collect(PacketsFrom(buf, 0)), 0x1_0000) == |buf|
  {
    PacketsTile(buf, 0);
    SlidsInRange(buf, 0);
    SizeOfCollect(PacketsFrom(buf, 0), 0x1_0000);
  }

  // ---------- the encoder ----------

  datatype Packet = Packet(
    seqId: nat, cmdClass: Byte, cmd: Byte, slid: nat, severity: Byte, chipId: Byte, fapiRc: seq<Byte>, body: seq<Byte>)

  const HEADER_BYTES := 16

  predicate ValidPacket(p: Packet) {
    && p.seqId < 0x1_0000 && p.slid < 0x1_0000 && |p.fapiRc| == 4
    && |p.body| % 4 == 0 && (HEADER_BYTES + |p.body|) / 4 < 0x1_0000
  }

  function Be16(n: nat): (r: seq<Byte>)
    requires n < 0x1_0000
    ensures |r| == 2
  {
    [n / 256, n % 256]
  }

  function Encode(p: Packet): (r: seq<Byte>)
    requires ValidPacket(p)
    ensures |r| == HEADER_BYTES + |p.body|
  {
    Be16(POZ_MAGIC) + Be16((HEADER_BYTES + |p.body|) / 4) + Be16(p.seqId) + [p.cmdClass, p.cmd]
    + Be16(p.slid) + [p.severity, p.chipId] + p.fapiRc + p.body
  }

  predicate ValidPackets(ps: seq<Packet>) {
    forall k :: 0 <= k < |ps| ==> ValidPacket(ps[k])
  }

  function EncodeAll(ps: seq<Packet>): seq<Byte>
    requires ValidPackets(ps)
  {
    if ps == [] then [] else Encode(ps[0]) + EncodeAll(ps[1..])
  }

  function Raw(p: Packet): RawPacket
    requires ValidPacket(p)
  {
    RawPacket(p.slid, p.severity, Encode(p))
  }

  lemma HeaderFields(p: Packet)
    requires ValidPacket(p)
    ensures var e := Encode(p);
            U16(e, 0) == POZ_MAGIC && LengthAt(e, 0) == |e| && U16(e, 8) == p.slid && e[10] == p.severity
  {
    var e := Encode(p);
    assert e[0] == POZ_MAGIC / 256 && e[1] == POZ_MAGIC % 256;
    assert e[2] == |e| / 4 / 256 && e[3] == (|e| / 4) % 256;
    assert e[8] == p.slid / 256 && e[9] == p.slid % 256;
  }

  /** Reading at the seam of prefix and packet gives the packet back. */
  lemma PacketAtSeam(prefix: seq<Byte>, p: Packet, rest: seq<Byte>)
    requires ValidPacket(p)
    ensures var buf, off := prefix + Encode(p) + rest, |prefix|;
            && StopAt(buf, off).None?
            && LengthAt(buf, off) == |Encode(p)|
            && PacketAt(buf, off) == Raw(p)
  {
    HeaderFields(p);
    var e, buf, off := Encode(p), prefix + Encode(p) + rest, |prefix|;
    assert buf[off..off + |e|] == e;
    assert forall k :: 0 <= k < |e| ==> buf[off + k] == e[k];
    assert U16(buf, off) == U16(e, 0);
    assert LengthAt(buf, off) == LengthAt(e, 0);
    assert U16(buf, off + 8) == U16(e, 8) && buf[off + 10] == e[10];
  }

  /** The loop passes over one encoded packet. */
  lemma PastSeam(prefix: seq<Byte>, p: Packet, rest: seq<Byte>)
    requires ValidPacket(p)
    ensures var buf, off, next := prefix + Encode(p) + rest, |prefix|, |prefix + Encode(p)|;
            && VerdictFrom(buf, off) == VerdictFrom(buf, next)
            && PacketsFrom(buf, off) == [Raw(p)] + PacketsFrom(buf, next)
  {
    PacketAtSeam(prefix, p, rest);
  }

  lemma EncodeAllCons(prefix: seq<Byte>, ps: seq<Packet>)
    requires ValidPackets(ps) && ps != []
    ensures ValidPackets(ps[1..])
    ensures prefix + EncodeAll(ps) == prefix + Encode(ps[0]) + EncodeAll(ps[1..])
  {
  }

  function RawAll(ps: seq<Packet>): (r: seq<RawPacket>)
    requires ValidPackets(ps)
    ensures |r| == |ps| && forall k :: 0 <= k < |ps| ==> r[k] == Raw(ps[k])
  {
    if ps == [] then [] else [Raw(ps[0])] + RawAll(ps[1..])
  }

  lemma {:induction false} DecodeFrom(prefix: seq<Byte>, ps: seq<Packet>)
    requires ValidPackets(ps)
    ensures VerdictFrom(prefix + EncodeAll(ps), |prefix|) == Clean
    ensures PacketsFrom(prefix + EncodeAll(ps), |prefix|) == RawAll(ps)
    decreases |ps|
  {
    if ps == [] {
      assert prefix + EncodeAll(ps) == prefix;
    } else {
      PastSeam(prefix, ps[0], EncodeAll(ps[1..]));
      EncodeAllCons(prefix, ps);
      DecodeFrom(prefix + Encode(ps[0]), ps[1..]);
    }
  }

  /** Processing an encoded list of packets yields exactly the packets of the list, in order. */
  lemma EncodeRoundTrip(ps: seq<Packet>)
    requires ValidPackets(ps)
    ensures VerdictFrom(EncodeAll(ps), 0) == Clean
    ensures |PacketsFrom(EncodeAll(ps), 0)| == |ps|
    ensures forall k :: 0 <= k < |ps| ==> PacketsFrom(EncodeAll(ps), 0)[k] == Raw(ps[k])
  {
    DecodeFrom([], ps);
    assert [] + EncodeAll(ps) == EncodeAll(ps);
  }

  /** Encoding a list of packets and processing it groups exactly that list. */
  lemma EncodedGroups(ps: seq<Packet>, slid: nat)
    requires ValidPackets(ps)
    ensures var g, mine := Collect(PacketsFrom(EncodeAll(ps), 0)), OfSlid(RawAll(ps), slid);
            && (slid in g <==> exists k :: 0 <= k < |ps| && ps[k].slid == slid)
            && (slid in g ==> g[slid].data == Bytes(mine) && IsMaxSeverity(mine, g[slid].severity))
  {
    EncodeRoundTrip(ps);
    assert PacketsFrom(EncodeAll(ps), 0) == RawAll(ps);
    CollectGroups(RawAll(ps), slid);
    SlidOccurs(RawAll(ps), slid);
    assert forall k :: 0 <= k < |ps| ==> RawAll(ps)[k].slid == ps[k].slid;
  }

  lemma {:induction false} SlidOccurs(ps: seq<RawPacket>, slid: nat)
    ensures OfSlid(ps, slid) != [] <==> exists k :: 0 <= k < |ps| && ps[k].slid == slid
  {
    if ps != [] {
      SlidOccurs(ps[..|ps| - 1], slid);
      assert ps == ps[..|ps| - 1] + [ps[|ps| - 1]];
    }
  }

  // ---------- what stops the loop, byte by byte ----------

  /** The two bytes that open every packet. */
  predicate OpensPacket(buf: seq<Byte>, off: nat)
    requires off + 2 <= |buf|
  {
    buf[off] == 0xFB && buf[off + 1] == 0xAD
  }

  function Pair(high: nat, low: nat): nat { 256 * high + low }

  /** Four times the length field, which lies behind the magic word. */
  function Stride(buf: seq<Byte>, off: nat): nat
    requires off + 4 <= |buf|
  {
    4 * Pair(buf[off + 2], buf[off + 3])
  }

  /**
   * The end of the buffer stops the loop, and so do a wrong magic word and a
   * length of zero. The source reads past the buffer iff the magic word, the
   * eleven header bytes it uses, or the packet do not fit.
   */
  lemma StopIs(buf: seq<Byte>, off: nat)
    ensures StopAt(buf, off) == Some(Clean) <==> off >= |buf|
    ensures StopAt(buf, off) == Some(BadMagic) <==> off + 2 <= |buf| && !OpensPacket(buf, off)
    ensures StopAt(buf, off) == Some(Overrun) <==>
            && off < |buf|
            && (|| off + 2 > |buf|
                || (OpensPacket(buf, off) && (off + 11 > |buf| || off + Stride(buf, off) > |buf|)))
    ensures StopAt(buf, off) == Some(Stuck) <==>
            off + 11 <= |buf| && OpensPacket(buf, off) && Stride(buf, off) == 0
    ensures StopAt(buf, off).None? ==>
              && off + 11 <= |buf| && 0 < Stride(buf, off) <= |buf| - off
              && PacketAt(buf, off) ==
                 RawPacket(Pair(buf[off + 8], buf[off + 9]), buf[off + 10], buf[off..off + Stride(buf, off)])
  {
  }

  // ---------- when the loop ends ----------

  /** Taking the first turn first. */
  lemma {:induction false} AfterFirst(buf: seq<Byte>, off: nat, good: Option<nat>, n: nat)
    ensures After(buf, Running(off, good), n + 1) == After(buf, Turn(buf, off, good), n)
  {
    if n > 0 {
      AfterFirst(buf, off, good, n - 1);
    } else {
      assert After(buf, Running(off, good), 0) == Running(off, good);
    }
  }

  lemma {:induction false} EndedStays(buf: seq<Byte>, end: End, n: nat)
    ensures After(buf, Ended(end), n) == Ended(end)
  {
    if n > 0 {
      EndedStays(buf, end, n - 1);
    }
  }

  /** The turns up to the end: a file operation fails in its own turn, all else is found behind the packets. */
  function Turns(buf: seq<Byte>, off: nat, good: Option<nat>): nat {
    if good.Some? && (good.value < |PacketsFrom(buf, off)| || VerdictFrom(buf, off) == Stuck) then good.value + 1
    else |PacketsFrom(buf, off)| + 1
  }

  lemma TurnsStep(buf: seq<Byte>, off: nat, good: Option<nat>)
    requires EndOf(buf, off, good) != Never
    ensures var t := Turn(buf, off, good);
            if t.Ended? then Turns(buf, off, good) == 1
            else Turns(buf, off, good) == Turns(buf, t.off, t.good) + 1
    ensures var t := Turn(buf, off, good);
            t.Running? ==> t.off > off || (t.off == off && good.Some? && t.good == Some(good.value - 1))
  {
  }

  /** The loop ends with exactly that turn, and in the way the closed form says. */
  lemma {:induction false} EndsAfter(buf: seq<Byte>, off: nat, good: Option<nat>, n: nat)
    requires EndOf(buf, off, good) != Never
    ensures var s := After(buf, Running(off, good), n);
            if n < Turns(buf, off, good) then s.Running? else s == Ended(EndOf(buf, off, good))
    decreases n
  {
    if n > 0 {
      var t := Turn(buf, off, good);
      TurnKeepsEnd(buf, off, good);
      TurnsStep(buf, off, good);
      AfterFirst(buf, off, good, n - 1);
      if t.Ended? {
        EndedStays(buf, t.end, n - 1);
      } else {
        EndsAfter(buf, t.off, t.good, n - 1);
      }
    }
  }

  lemma {:induction false} NeverEnds(buf: seq<Byte>, off: nat, good: Option<nat>, n: nat)
    requires EndOf(buf, off, good) == Never
    ensures var s := After(buf, Running(off, good), n);
            s.Running? && EndOf(buf, s.off, s.good) == Never
  {
    if n > 0 {
      NeverEnds(buf, off, good, n - 1);
      var s := After(buf, Running(off, good), n - 1);
      TurnKeepsEnd(buf, s.off, s.good);
    }
  }

  /**
   * The loop ends iff it meets no packet of length zero or a file operation
   * fails: at such a packet it appends nothing to the same file, turn after turn.
   */
  lemma EndsIff(buf: seq<Byte>, off: nat, good: Option<nat>)
    ensures (exists n: nat :: After(buf, Running(off, good), n).Ended?) <==>
            VerdictFrom(buf, off) != Stuck || good.Some?
    ensures forall n: nat :: After(buf, Running(off, good), n).Ended? ==>
              After(buf, Running(off, good), n).end == EndOf(buf, off, good)
  {
    if EndOf(buf, off, good) == Never {
      forall n: nat ensures After(buf, Running(off, good), n).Running? {
        NeverEnds(buf, off, good, n);
      }
    } else {
      forall n: nat
        ensures After(buf, Running(off, good), n).Ended? ==>
                  After(buf, Running(off, good), n).end == EndOf(buf, off, good)
      {
        EndsAfter(buf, off, good, n);
      }
      EndsAfter(buf, off, good, Turns(buf, off, good));
    }
  }

  /**
   * A header with length zero, and nothing else: with a file system that never
   * fails the loop goes on for ever, and otherwise up to the failing operation.
   */
  lemma ZeroLengthExample(good: Option<nat>, n: nat)
    ensures var s := After([0xFB, 0xAD, 0, 0, 0, 0, 0, 0, 0, 1, 0x40, 0, 0, 0, 0, 0], Running(0, good), n);
            if good.Some? && n > good.value then s == Ended(Failed(FileFailed)) else s.Running?
  {
    var buf: seq<Byte> := [0xFB, 0xAD, 0, 0, 0, 0, 0, 0, 0, 1, 0x40, 0, 0, 0, 0, 0];
    assert U16(buf, 0) == POZ_MAGIC && LengthAt(buf, 0) == 0;
    assert StopAt(buf, 0) == Some(Stuck);
    if good.Some? {
      EndsAfter(buf, 0, good, n);
    } else {
      NeverEnds(buf, 0, good, n);
    }
  }
}
