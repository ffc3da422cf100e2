// A frame is ninety-six bits, sent as twelve bytes, low byte first; the host finds the frame
// boundary by twelve bytes of ones and takes the fields out of every twelve bytes after that.
module Telemetry {
  import opened Bits
  import opened Lfsr
  import opened Pulses
  import opened Pipelines
  import opened Sequences

  const FRAME := 12

  // Packing

  function HeadBits(l: Located): (w: Word)
    ensures |w| == 24
  {
    ToBits(l.identified.pulse.id, 2) + (ToBits(l.identified.npoly, 6) + ToBits(l.identified.pulse.width, 16))
  }

  /** Seventeen bits are filled up to three bytes. */
  function OffsetBits(l: Located): (w: Word)
    ensures |w| == 24
  {
    ToBits(l.offset, 17) + Constant(false, 7)
  }

  function StateBits(l: Located): (w: Word)
    ensures |w| == 24
  {
    l.identified.pulse.beamWord + Constant(false, 7)
  }

  function TimeBits(l: Located): (w: Word)
    ensures |w| == 24
  {
    ToBits(l.identified.pulse.timestamp, 24)
  }

  /** The bits of a frame, bit 0 first. */
  function FrameBits(f: Frame): (w: Word)
    ensures |w| == 8 * FRAME
  {
    match f
    case SyncFrame => Constant(true, 96)
    case BeamFrame(l) => HeadBits(l) + OffsetBits(l) + StateBits(l) + TimeBits(l)
  }

  function ByteIn(w: Word, k: nat): (b: Byte)
    requires |w| == 8 * FRAME && k < FRAME
  {
    assert Pow2(8) == 256 by { Pow2Of8(); }
    Value(w[8 * k..8 * k + 8])
  }

  /** Byte `k` of a frame: what the byte multiplexer of the serialiser selects. */
  function ByteOf(f: Frame, k: nat): (b: Byte)
    requires k < FRAME
  {
    ByteIn(FrameBits(f), k)
  }

  function Bytes(f: Frame): (s: seq<Byte>)
    ensures |s| == FRAME && forall k :: 0 <= k < FRAME ==> s[k] == ByteOf(f, k)
  {
    seq(FRAME, k requires 0 <= k < FRAME => ByteOf(f, k))
  }

  function Stream(fs: seq<Frame>): (s: seq<Byte>)
    ensures |s| == FRAME * |fs|
  {
    if fs == [] then [] else Bytes(fs[0]) + Stream(fs[1..])
  }

  // Parsing on the host

  datatype Reading = Reading(
    sensor: nat, identity: nat, found: bool, width: nat, offset: nat, state: nat, timestamp: nat)

  /** Three bytes as an unsigned number, low byte first. */
  function Little(s: seq<Byte>): nat
    requires |s| == 3
  {
    var low: int, middle: int, high: int := s[0], s[1], s[2];
    low + 256 * middle + 65536 * high
  }

  function Fields(head: nat, offset: nat, state: nat, timestamp: nat): Reading {
    Reading(head % 4, head / 4 % 32, head / 128 % 2 == 0, head / 256 % 65536, offset, state, timestamp)
  }

  function Parse(s: seq<Byte>): Reading
    requires |s| == FRAME
  {
    Fields(Little(s[0..3]), Little(s[3..6]), Little(s[6..9]), Little(s[9..12]))
  }

  predicate InRange(f: Frame) {
    f.BeamFrame? ==>
      var l := f.located;
      && l.offset < 0x2_0000 && l.identified.npoly < 64
      && l.identified.pulse.id < 4 && l.identified.pulse.width < 0x1_0000 && l.identified.pulse.timestamp < TIME
  }

  /** What the host should read from a frame of a beam. */
  function ReadingOf(l: Located): Reading {
    var p := l.identified.pulse;
    Reading(p.id, l.identified.npoly % 32, l.identified.npoly < 32, p.width, l.offset, Value(p.beamWord), p.timestamp)
  }

  lemma PowersOfTwo()
    ensures Pow2(2) == 4 && Pow2(6) == 64 && Pow2(7) == 128 && Pow2(8) == 256
    ensures Pow2(16) == 0x1_0000 && Pow2(17) == 0x2_0000 && Pow2(24) == 0x100_0000
  {
    assert Pow2(4) == 16;
    assert Pow2(8) == 256;
    assert Pow2(12) == 4096;
    assert Pow2(16) == 65536;
    assert Pow2(20) == 1048576;
  }

  lemma ByteBelow(a: Word, b: Word)
    requires |a| == 8
    ensures Value(a + b) == Value(a) + 256 * Value(b)
  {
    Pow2Of8();
    ValueConcat(a, b);
  }

  lemma ThreeBytes(a: Word, b: Word, c: Word)
    requires |a| == |b| == 8
    ensures Value(a + (b + c)) == Value(a) + 256 * Value(b) + 65536 * Value(c)
  {
    ByteBelow(a, b + c);
    ByteBelow(b, c);
  }

  /** Three bytes of a frame, from bit `at` on, are the value of twenty-four of its bits. */
  lemma LittleIsValue(all: Word, k: nat, at: nat, w: Word)
    requires |all| == 8 * FRAME && k + 3 <= FRAME && at == 8 * k && all[at..at + 24] == w
    ensures Little([ByteIn(all, k), ByteIn(all, k + 1), ByteIn(all, k + 2)]) == Value(w)
  {
    var a, b, c := all[at..at + 8], all[at + 8..at + 16], all[at + 16..at + 24];
    assert ByteIn(all, k) == Value(a) && ByteIn(all, k + 1) == Value(b) && ByteIn(all, k + 2) == Value(c);
    assert w == a + (b + c);
    ThreeBytes(a, b, c);
  }

  lemma LittleOfFrame(f: Frame, k: nat, at: nat, w: Word)
    requires k + 3 <= FRAME && at == 8 * k && FrameBits(f)[at..at + 24] == w
    ensures Little(Bytes(f)[k..k + 3]) == Value(w)
  {
    ThreeOf(Bytes(f), k);
    LittleIsValue(FrameBits(f), k, at, w);
  }

  lemma ThreeOf(s: seq<Byte>, k: nat)
    requires k + 3 <= |s|
    ensures s[k..k + 3] == [s[k], s[k + 1], s[k + 2]]
  {
  }

  /** Zeros above a word do not change its value. */
  lemma PaddedValue(w: Word, n: nat)
    ensures Value(w + Constant(false, n)) == Value(w)
  {
    ValueConcat(w, Constant(false, n));
    ValueOfZeros(n);
  }

  lemma PartsOf(l: Located)
    ensures
      var w := FrameBits(BeamFrame(l));
      w[0..24] == HeadBits(l) && w[24..48] == OffsetBits(l) && w[48..72] == StateBits(l) && w[72..96] == TimeBits(l)
  {
    FourParts(HeadBits(l), OffsetBits(l), StateBits(l), TimeBits(l));
  }

  lemma FourParts(a: Word, b: Word, c: Word, d: Word)
    requires |a| == |b| == |c| == |d| == 24
    ensures
      var w := a + b + c + d;
      w[0..24] == a && w[24..48] == b && w[48..72] == c && w[72..96] == d
  {
  }

  lemma ThreeFields(a: Word, b: Word, c: Word)
    requires |a| == 2 && |b| == 6
    ensures Value(a + (b + c)) == Value(a) + 4 * Value(b) + 256 * Value(c)
  {
    PowersOfTwo();
    ValueConcat(a, b + c);
    ValueConcat(b, c);
  }

  lemma HeadFields(l: Located)
    requires InRange(BeamFrame(l))
    ensures Value(HeadBits(l)) == l.identified.pulse.id + 4 * l.identified.npoly + 256 * l.identified.pulse.width
  {
    var id, npoly, width := l.identified.pulse.id, l.identified.npoly, l.identified.pulse.width;
    PowersOfTwo();
    ThreeFields(ToBits(id, 2), ToBits(npoly, 6), ToBits(width, 16));
    ValueOfBits(id, 2);
    ValueOfBits(npoly, 6);
    ValueOfBits(width, 16);
  }

  lemma TailFields(l: Located)
    requires InRange(BeamFrame(l))
    ensures Value(OffsetBits(l)) == l.offset
    ensures Value(StateBits(l)) == Value(l.identified.pulse.beamWord) < 0x2_0000
    ensures Value(TimeBits(l)) == l.identified.pulse.timestamp
  {
    PowersOfTwo();
    PaddedValue(ToBits(l.offset, 17), 7);
    ValueOfBits(l.offset, 17);
    PaddedValue(l.identified.pulse.beamWord, 7);
    ValueOfBits(l.identified.pulse.timestamp, 24);
  }

  lemma ParseReadsParts(l: Located)
    ensures
      var s := Bytes(BeamFrame(l));
      && Little(s[0..3]) == Value(HeadBits(l)) && Little(s[3..6]) == Value(OffsetBits(l))
      && Little(s[6..9]) == Value(StateBits(l)) && Little(s[9..12]) == Value(TimeBits(l))
  {
    HeadIsRead(l);
    OffsetIsRead(l);
    StateIsRead(l);
    TimeIsRead(l);
  }

  lemma HeadIsRead(l: Located)
    ensures Little(Bytes(BeamFrame(l))[0..3]) == Value(HeadBits(l))
  {
    PartsOf(l);
    LittleOfFrame(BeamFrame(l), 0, 0, HeadBits(l));
  }

  lemma OffsetIsRead(l: Located)
    ensures Little(Bytes(BeamFrame(l))[3..6]) == Value(OffsetBits(l))
  {
    PartsOf(l);
    LittleOfFrame(BeamFrame(l), 3, 24, OffsetBits(l));
  }

  lemma StateIsRead(l: Located)
    ensures Little(Bytes(BeamFrame(l))[6..9]) == Value(StateBits(l))
  {
    PartsOf(l);
    LittleOfFrame(BeamFrame(l), 6, 48, StateBits(l));
  }

  lemma TimeIsRead(l: Located)
    ensures Little(Bytes(BeamFrame(l))[9..12]) == Value(TimeBits(l))
  {
    PartsOf(l);
    LittleOfFrame(BeamFrame(l), 9, 72, TimeBits(l));
  }

  lemma ParseIsFields(l: Located)
    ensures Parse(Bytes(BeamFrame(l)))
         == Fields(Value(HeadBits(l)), Value(OffsetBits(l)), Value(StateBits(l)), Value(TimeBits(l)))
  {
    ParseReadsParts(l);
  }

  lemma FieldsOfHead(head: nat, id: nat, npoly: nat, width: nat)
    requires id < 4 && npoly < 64 && width < 0x1_0000
    requires head == id + 4 * npoly + 256 * width
    ensures head % 4 == id && head / 4 % 32 == npoly % 32 && head / 256 % 65536 == width
    ensures head / 128 % 2 == 0 <==> npoly < 32
  {
    var low, high := npoly % 32, npoly / 32;
    DivMod(id, 4, npoly + 64 * width);
    DivMod(low, 32, high + 2 * width);
    DivMod(id + 4 * npoly, 256, width);
    DivMod(id + 4 * low, 128, high + 2 * width);
    DivMod(high, 2, width);
  }

  /** Every field comes out of the twelve bytes as it went in. */
  lemma ParseInvertsPack(l: Located)
    requires InRange(BeamFrame(l))
    ensures Parse(Bytes(BeamFrame(l))) == ReadingOf(l)
  {
    ParseIsFields(l);
    TailFields(l);
    HeadFields(l);
    FieldsOfHead(Value(HeadBits(l)), l.identified.pulse.id, l.identified.npoly, l.identified.pulse.width);
  }

  /** A sync frame is read as a word that no beam has, and is skipped. */
  lemma SyncIsSkipped()
    ensures forall k :: 0 <= k < FRAME ==> Bytes(SyncFrame)[k] == 255
    ensures Parse(Bytes(SyncFrame)).state == 0xff_ffff
  {
    forall k | 0 <= k < FRAME ensures Bytes(SyncFrame)[k] == 255 {
      SyncByte(k);
    }
    LittleOfOnes(Bytes(SyncFrame)[6..9]);
  }

  lemma SyncByte(k: nat)
    requires k < FRAME
    ensures ByteOf(SyncFrame, k) == 255
  {
    assert FrameBits(SyncFrame)[8 * k..8 * k + 8] == Constant(true, 8);
    OnesAre255();
  }

  lemma LittleOfOnes(s: seq<Byte>)
    requires |s| == 3 && s[0] == s[1] == s[2] == 255
    ensures Little(s) == 0xff_ffff
  {
  }

  lemma OnesAre255()
    ensures Value(Constant(true, 8)) == 255
  {
    ValueOfOnes(8);
    Pow2Of8();
  }

  /** No beam is read as a sync frame. */
  lemma BeamIsNotSkipped(l: Located)
    requires InRange(BeamFrame(l))
    ensures Parse(Bytes(BeamFrame(l))).state != 0xff_ffff
  {
    ParseIsFields(l);
    TailFields(l);
  }

  // The serialiser

  datatype Serialiser = Serialiser(count: nat)

  /** One clock of the serialiser: the offered frame, and whether the UART takes the byte. */
  datatype SendWires = SendWires(valid: bool, frame: Frame, ready: bool)

  predicate Pops(s: Serialiser, w: SendWires) {
    w.valid && w.ready && s.count == FRAME - 1
  }

  function Send(s: Serialiser, w: SendWires): Serialiser {
    if !(w.valid && w.ready) then s else if s.count == FRAME - 1 then Serialiser(0) else Serialiser(s.count + 1)
  }

  class ByteSerialiser {
    var count: nat

    constructor ()
      ensures count == 0
    {
      count := 0;
    }

    method Tick(w: SendWires) returns (out: Byte, popReady: bool)
      requires count < FRAME
      modifies this
      ensures Serialiser(count) == Send(Serialiser(old(count)), w) && count < FRAME
      ensures out == ByteOf(w.frame, old(count)) && (w.valid && popReady <==> Pops(Serialiser(old(count)), w))
    {
      var last := count == FRAME - 1;
      out := ByteOf(w.frame, count);
      popReady := w.ready && last;
      if w.valid && w.ready {
        count := if last then 0 else count + 1;
      }
    }
  }

  function SentIn(s: Serialiser, w: SendWires): seq<Byte>
    requires s.count < FRAME
  {
    if w.valid && w.ready then [ByteOf(w.frame, s.count)] else []
  }

  function PoppedIn(s: Serialiser, w: SendWires): seq<Frame> {
    if Pops(s, w) then [w.frame] else []
  }

  function Sent(s: Serialiser, ws: seq<SendWires>): seq<Byte>
    requires s.count < FRAME
    decreases |ws|
  {
    if ws == [] then []
    else SentIn(s, ws[0]) + Sent(Send(s, ws[0]), ws[1..])
  }

  function PoppedFrames(s: Serialiser, ws: seq<SendWires>): seq<Frame>
    decreases |ws|
  {
    if ws == [] then []
    else PoppedIn(s, ws[0]) + PoppedFrames(Send(s, ws[0]), ws[1..])
  }

  function SendRun(s: Serialiser, ws: seq<SendWires>): (s': Serialiser)
    requires s.count < FRAME
    ensures s'.count < FRAME
    decreases |ws|
  {
    if ws == [] then s else SendRun(Send(s, ws[0]), ws[1..])
  }

  /** An offered frame stays until it is popped; `head` is the frame of which bytes were sent. */
  predicate OffersHeld(s: Serialiser, head: Frame, ws: seq<SendWires>)
    decreases |ws|
  {
    ws == [] ||
    (&& (s.count > 0 ==> ws[0].valid && ws[0].frame == head)
     && OffersHeld(Send(s, ws[0]), ws[0].frame, ws[1..]))
  }

  function LastHead(head: Frame, ws: seq<SendWires>): Frame {
    if ws == [] then head else ws[|ws| - 1].frame
  }

  /** The bytes sent are the frames popped, end to end, and the first bytes of the one in hand. */
  lemma {:induction false} SerialiserSendsFrames(s: Serialiser, head: Frame, ws: seq<SendWires>)
    requires s.count < FRAME && OffersHeld(s, head, ws)
    ensures Bytes(head)[..s.count] + Sent(s, ws)
         == Stream(PoppedFrames(s, ws)) + Bytes(LastHead(head, ws))[..SendRun(s, ws).count]
    decreases |ws|
  {
    if ws != [] {
      var w, s' := ws[0], Send(s, ws[0]);
      SerialiserSendsFrames(s', w.frame, ws[1..]);
      assert LastHead(w.frame, ws[1..]) == LastHead(head, ws);
      SendStep(s, head, w);
      Regroup(Bytes(head)[..s.count], SentIn(s, w), Sent(s', ws[1..]),
        Stream(PoppedIn(s, w)), Bytes(w.frame)[..s'.count], Stream(PoppedFrames(s', ws[1..])),
        Bytes(LastHead(head, ws))[..SendRun(s, ws).count]);
      StreamOfOneMore(PoppedIn(s, w), PoppedFrames(s', ws[1..]));
    }
  }

  lemma StreamOfOneMore(a: seq<Frame>, b: seq<Frame>)
    requires |a| <= 1
    ensures Stream(a + b) == Stream(a) + Stream(b)
  {
    if a == [] {
      assert a + b == b;
    } else {
      assert (a + b)[1..] == b && a[1..] == [];
    }
  }

  lemma SendStep(s: Serialiser, head: Frame, w: SendWires)
    requires s.count < FRAME
    requires s.count > 0 ==> w.valid && w.frame == head
    ensures Bytes(head)[..s.count] + SentIn(s, w) == Stream(PoppedIn(s, w)) + Bytes(w.frame)[..Send(s, w).count]
  {
    var b := Bytes(w.frame);
    if !(w.valid && w.ready) {
      assert Bytes(head)[..s.count] == b[..s.count];
    } else {
      assert Bytes(head)[..s.count] + [ByteOf(w.frame, s.count)] == b[..s.count + 1];
      if Pops(s, w) {
        assert Stream([w.frame]) == b + Stream([]);
      }
    }
  }
}
