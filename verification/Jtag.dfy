// The JTAG driver: the host keeps its own copy of the state of the TAP controller in the device
// and moves data while it believes the device to be shifting.
module JtagDriver {
  import opened Bits
  import opened JtagWords
  import opened Sequences
  import opened TapController

  // The host's table

  const JS_RESET := 0
  const JS_RUNIDLE := 1
  const JS_SELECT_IR := 2
  const JS_CAPTURE_IR := 3
  const JS_SHIFT_IR := 4
  const JS_EXIT1_IR := 5
  const JS_PAUSE_IR := 6
  const JS_EXIT2_IR := 7
  const JS_UPDATE_IR := 8
  const JS_SELECT_DR := 9
  const JS_CAPTURE_DR := 10
  const JS_SHIFT_DR := 11
  const JS_EXIT1_DR := 12
  const JS_PAUSE_DR := 13
  const JS_EXIT2_DR := 14
  const JS_UPDATE_DR := 15

  type Js = n: nat | n < 16

  /** The two columns of the table: the next state for mode 0 and for mode 1. */
  const JSM0: seq<Js> := [
    JS_RUNIDLE, JS_RUNIDLE, JS_CAPTURE_IR, JS_SHIFT_IR, JS_SHIFT_IR, JS_PAUSE_IR, JS_PAUSE_IR, JS_SHIFT_IR,
    JS_RUNIDLE, JS_CAPTURE_DR, JS_SHIFT_DR, JS_SHIFT_DR, JS_PAUSE_DR, JS_PAUSE_DR, JS_SHIFT_DR, JS_RUNIDLE]

  const JSM1: seq<Js> := [
    JS_RESET, JS_SELECT_DR, JS_RESET, JS_EXIT1_IR, JS_EXIT1_IR, JS_UPDATE_IR, JS_EXIT2_IR, JS_UPDATE_IR,
    JS_SELECT_DR, JS_SELECT_IR, JS_EXIT1_DR, JS_EXIT1_DR, JS_UPDATE_DR, JS_EXIT2_DR, JS_UPDATE_DR, JS_SELECT_DR]

  function Jsm(s: Js, mode: bool): Js {
    if mode then JSM1[s] else JSM0[s]
  }

  /** The host's number of a state of the controller. */
  function Code(s: TapState): Js {
    match s
    case TestLogicReset => JS_RESET
    case RunTestIdle => JS_RUNIDLE
    case Select(r) => if r == Dr then JS_SELECT_DR else JS_SELECT_IR
    case Capture(r) => if r == Dr then JS_CAPTURE_DR else JS_CAPTURE_IR
    case Shift(r) => if r == Dr then JS_SHIFT_DR else JS_SHIFT_IR
    case Exit1(r) => if r == Dr then JS_EXIT1_DR else JS_EXIT1_IR
    case Pause(r) => if r == Dr then JS_PAUSE_DR else JS_PAUSE_IR
    case Exit2(r) => if r == Dr then JS_EXIT2_DR else JS_EXIT2_IR
    case Update(r) => if r == Dr then JS_UPDATE_DR else JS_UPDATE_IR
  }

  function Decode(s: Js): TapState {
    var r := if s >= JS_SELECT_DR then Dr else Ir;
    match if s >= JS_SELECT_DR then s - 7 else s
    case 0 => TestLogicReset
    case 1 => RunTestIdle
    case 2 => Select(r)
    case 3 => Capture(r)
    case 4 => Shift(r)
    case 5 => Exit1(r)
    case 6 => Pause(r)
    case 7 => Exit2(r)
    case _ => Update(r)
  }

  lemma CodeIsOneToOne(t: TapState, s: Js)
    ensures Decode(Code(t)) == t
    ensures Code(Decode(s)) == s
  {
  }

  /** The host's table is the standard's diagram. */
  lemma TableIsStandard(t: TapState, mode: bool)
    ensures Jsm(Code(t), mode) == Code(TapNext(t, mode))
  {
  }

  const JSEQ_MAX := 360
  const JSEQ_CONF_DONE := 224
  const CONF_DONE_BIT := (JSEQ_MAX - JSEQ_CONF_DONE) * 3 + 1
  const JI_PULSE_NCONFIG := 0x001
  const JI_CHECK_STATUS := 0x004
  const JI_USER0_VDR := 0x00C
  const JI_USER1_VIR := 0x00E
  const MARK := 0x155  // what an intact chain captures

  ghost predicate Intact(chip: Chip) {
    forall k :: Value(chip.captures(k)) == MARK
  }

  /** Nibbles from scans that are twelve clocks apart. */
  function Nibbles(chip: Chip, at: nat, n: nat): (w: Word)
    ensures |w| == 4 * n
  {
    if n == 0 then [] else Nibbles(chip, at, n - 1) + Line(chip, at + 12 * (n - 1), 4)
  }

  function Info(chip: Chip, at: nat): (w: Word)
    ensures |w| == 32
  {
    Nibbles(chip, at, 8)
  }

  const SPACING := 96  // clocks from one information word to the next

  /** The word of slave `k`, when the hub's word begins at `at`. */
  function SlaveInfo(chip: Chip, at: nat, k: nat): (w: Word)
    ensures |w| == 32
  {
    Info(chip, at + SPACING * (k + 1))
  }

  ghost predicate NoVjtag(chip: Chip, at: nat, slaves: nat) {
    forall k :: 0 <= k < slaves ==> !IsVjtag(SlaveInfo(chip, at, k))
  }

  ghost predicate IsFirstVjtag(chip: Chip, at: nat, id: nat) {
    IsVjtag(SlaveInfo(chip, at, id)) && NoVjtag(chip, at, id)
  }

  /** What the result of the search says about the words that the hub has sent. */
  ghost predicate Answered(chip: Chip, at: nat, ret: int, id: nat, slaves: nat, virSize: nat) {
    var hub := Info(chip, at);
    if ret == 0 then
      && Vendor(hub) == JTAG_VENDOR_ID && slaves == Kind(hub) && virSize == Low(hub)
      && IsFirstVjtag(chip, at, id)
    else
      Vendor(hub) == JTAG_VENDOR_ID ==> NoVjtag(chip, at, Kind(hub))
  }

  /** The bytes that feed TDI. */
  function Source(tx: array?<Byte>, bitCount: nat): (s: seq<Byte>)
    requires tx != null ==> bitCount <= 8 * tx.Length
    reads tx
    ensures bitCount <= 8 * |s|
  {
    if tx == null then seq((bitCount + 7) / 8, i => 255) else tx[..]
  }

  function Sent(tx: array?<Byte>, bitCount: nat): (w: Word)
    requires tx != null ==> bitCount <= 8 * tx.Length
    reads tx
    ensures |w| == bitCount
  {
    ByteBits(Source(tx, bitCount))[..bitCount]
  }

  /** Without a buffer, ones are sent. */
  lemma OnesSent(bitCount: nat)
    ensures Sent(null, bitCount) == Constant(true, bitCount)
  {
    OnesInBytes(Source(null, bitCount));
  }

  method BytesOf(n: nat) returns (a: array<Byte>)
    requires n < 0x1_0000_0000
    ensures fresh(a) && a[..] == LittleEndian(n)
    ensures ByteBits(a[..]) == Sent(a, 32) == ToBits(n, 32)
  {
    a := new Byte[4];
    a[0], a[1], a[2], a[3] := n % 0x100, n / 0x100 % 0x100, n / 0x10000 % 0x100, n / 0x1000000 % 0x100;
    LittleEndianBits(n);
  }

  function Overwritten(s: seq<Byte>, off: nat, bytes: seq<Byte>): (t: seq<Byte>)
    requires off + |bytes| <= |s|
    ensures |t| == |s|
  {
    s[..off] + bytes + s[off + |bytes|..]
  }

  lemma OverwrittenInOrder(s: seq<Byte>, done: seq<Byte>, more: seq<Byte>)
    requires |done| + |more| <= |s|
    ensures Overwritten(Overwritten(s, 0, done), |done|, more) == Overwritten(s, 0, done + more)
  {
  }

  lemma OverwrittenParts(s: seq<Byte>, bytes: seq<Byte>)
    requires |bytes| <= |s|
    ensures Overwritten(s, 0, bytes)[..|bytes|] == bytes && Overwritten(s, 0, bytes)[|bytes|..] == s[|bytes|..]
  {
  }

  method StoreBytes(bytes: seq<Byte>, rx: array?<Byte>, off: nat)
    requires rx != null ==> off + |bytes| <= rx.Length
    modifies rx
    ensures rx != null ==> rx[..] == Overwritten(old(rx[..]), off, bytes)
  {
    if rx != null {
      forall i | 0 <= i < |bytes| {
        rx[off + i] := bytes[i];
      }
    }
  }

  method WidthFor(slaves: Byte) returns (bits: Byte)
    ensures Addresses(bits, slaves)
  {
    bits := 0;
    Pow2Of8();
    while Pow2(bits) < slaves + 1
      invariant bits <= 8 && (bits > 0 ==> Pow2(bits - 1) <= slaves)
      decreases 8 - bits
    {
      bits := bits + 1;
    }
  }

  /** A scan of the data register of our slave, and one of its instruction register. */
  function VdrScan(w: Word): DataScan {
    DataScan(Instruction(JI_USER0_VDR), w)
  }

  function VirScanOf(w: Word): DataScan {
    DataScan(Instruction(JI_USER1_VIR), w)
  }

  /** What reading the status sends through the boundary scan. */
  const STATUS_SCAN := DataScan(Instruction(JI_CHECK_STATUS), Constant(false, CONF_DONE_BIT + 2))

  // Reading the words of the hub

  /** When a scan that begins from here takes in its first bit. */
  function ScanStart(t: Tap): nat {
    t.clocks + if t.state.Update? then 3 else 5
  }

  function NibbleScans(inst: Inst, n: nat): (s: seq<DataScan>)
    ensures |s| == n
  {
    seq(n, i => DataScan(inst, Constant(false, 5)))
  }

  /** `n` scans of a nibble, all under the instruction of the start, and nothing else. */
  ghost predicate Scanned(start: Tap, t: Tap, n: nat) {
    t.ir == start.ir && t.updates == start.updates + NibbleScans(start.ir, n)
  }

  lemma NothingScanned(t: Tap)
    ensures Scanned(t, t, 0)
  {
    assert t.updates + [] == t.updates;
  }

  lemma ScannedTogether(start: Tap, t: Tap, t': Tap, m: nat, n: nat)
    requires Scanned(start, t, m) && Scanned(t, t', n)
    ensures Scanned(start, t', m + n)
  {
    InOrder(start.updates, NibbleScans(start.ir, m), NibbleScans(start.ir, n));
    assert NibbleScans(start.ir, m) + NibbleScans(start.ir, n) == NibbleScans(start.ir, m + n);
  }

  lemma FiveZeros()
    ensures [] + Constant(false, 4) + [false] == Constant(false, 5)
    ensures forall inst :: NibbleScans(inst, 1) == [DataScan(inst, Constant(false, 5))]
  {
  }

  lemma OneZeroMore(n: nat)
    ensures [] + Constant(false, n) + [false] == Constant(false, n + 1)
  {
  }

  /** The first `i` nibbles of a word. */
  ghost predicate NibblesRead(chip: Chip, start: Tap, t: Tap, i: nat, record: Word) {
    && i <= 8 && record == Constant(false, 32 - 4 * i) + Nibbles(chip, ScanStart(start), i)
    && Scanned(start, t, i) && ScanStart(t) == ScanStart(start) + 12 * i
  }

  lemma NoNibblesYet(chip: Chip, start: Tap)
    ensures NibblesRead(chip, start, start, 0, Constant(false, 32))
  {
    NothingScanned(start);
    assert Constant(false, 32) + [] == Constant(false, 32);
  }

  lemma NibbleMore(chip: Chip, start: Tap, t: Tap, t': Tap, i: nat, record: Word, nibble: Word)
    requires i < 8 && NibblesRead(chip, start, t, i, record) && nibble == Line(chip, ScanStart(t), 4)
    requires Scanned(t, t', 1) && t'.state == RunTestIdle && t'.clocks == ScanStart(t) + 7
    ensures |record| == 32 && NibblesRead(chip, start, t', i + 1, record[4..] + nibble)
  {
    var done := Nibbles(chip, ScanStart(start), i);
    ScannedTogether(start, t, t', i, 1);
    assert record[4..] == Constant(false, 32 - 4 * (i + 1)) + done;
    InOrder(Constant(false, 32 - 4 * (i + 1)), done, nibble);
  }

  /** How many words of slaves are read behind the word of the hub. */
  function SlaveWords(hub: Word, ret: int, id: nat): nat
    requires |hub| == 32
  {
    if Vendor(hub) != JTAG_VENDOR_ID then 0 else if ret == 0 then id + 1 else Kind(hub)
  }

  /** The scans that ask the hub: zeros for its instruction, and then eight nibbles for each word. */
  function HubScans(chip: Chip, at: nat, ret: int, id: nat): seq<DataScan> {
    [VirScanOf(Constant(false, 65))]
    + NibbleScans(Instruction(JI_USER0_VDR), 8 * (1 + SlaveWords(Info(chip, at), ret, id)))
  }

  lemma HubIsScanned(chip: Chip, before: seq<DataScan>, t: Tap, u: Tap, t': Tap, at: nat, ret: int, id: nat)
    requires t.updates == before + [VirScanOf(Constant(false, 65))] && t.ir == Instruction(JI_USER0_VDR)
    requires Scanned(t, u, 8) && Scanned(u, t', 8 * SlaveWords(Info(chip, at), ret, id))
    ensures t'.updates == before + HubScans(chip, at, ret, id)
  {
    var n := 8 * (1 + SlaveWords(Info(chip, at), ret, id));
    ScannedTogether(t, u, t', 8, n - 8);
    InOrder(before, [VirScanOf(Constant(false, 65))], NibbleScans(t.ir, n));
  }

  /** The open data scan is that of a write. */
  ghost predicate Writing(t: Tap, address: nat, data: seq<Byte>, len: nat)
    requires 4 * len < |data|
  {
    && t.state == Shift(Dr) && t.ir == Instruction(JI_USER0_VDR)
    && Pending(t) == [VdrScan(WithExit(WriteBits(address, data, len)))]
  }

  lemma LeavesOpen(t: Tap, address: nat, data: seq<Byte>, len: nat)
    requires 4 * len < |data|
    requires t.state == Shift(Dr) && t.ir == Instruction(JI_USER0_VDR) && t.drIn == AddressBits(address)
    ensures
      var bits := ByteBits(data)[..32 * len + 2];
      Writing(DataIn(t, bits, |bits|), address, data, len)
  {
    var bits := ByteBits(data)[..32 * len + 2];
    assert bits[..|bits|] == bits;
  }

  /** The open data scan has taken in the words: these bytes are what the line has shown. */
  ghost predicate WordsAreIn(chip: Chip, t: Tap, bytes: seq<Byte>, len: nat) {
    && t.state == Shift(Dr) && t.ir == Instruction(JI_USER0_VDR)
    && t.drIn == Constant(true, 32 * len) && t.clocks >= 32 * len
    && bytes == Packed(Line(chip, t.clocks - 32 * len, 32 * len))
  }

  lemma {:induction false} TopBitOfSmall(n: nat, width: nat)
    requires n < Pow2(width)
    ensures !ToBits(n, width + 1)[width]
  {
    if width > 0 {
      TopBitOfSmall(n / 2, width - 1);
      assert ToBits(n, width + 1)[width] == ToBits(n / 2, width)[width - 1];
    }
  }

  /** All instructions in use are that small. */
  lemma PinEndsLow(action: nat, bits: Inst, pin: bool)
    requires action < 0x100 && bits == Instruction(action) && pin == bits[INST_LEN - 1]
    ensures !pin
  {
    Pow2Of8();
    var width := INST_LEN - 1;
    assert Pow2(width) == 2 * Pow2(8);
    TopBitOfSmall(action, width);
  }

  /** From `start` on, `n` bits have been read: ones have gone out, and the bytes are what the line has shown. */
  ghost predicate BitsRead(chip: Chip, start: Tap, t: Tap, bytes: seq<Byte>, n: nat) {
    && t.drIn == start.drIn + Constant(true, n) && t.clocks == start.clocks + n && t.tdi == (n > 0 || start.tdi)
    && bytes == Packed(Line(chip, start.clocks, n))
  }

  lemma OneWordMore(chip: Chip, start: Tap, t: Tap, t': Tap, done: seq<Byte>, bytes: seq<Byte>, n: nat)
    requires BitsRead(chip, start, t, done, n) && n % 8 == 0
    requires t'.drIn == t.drIn + Constant(true, 32) && t'.clocks == t.clocks + 32 && t'.tdi
    requires bytes == done + Packed(Line(chip, t.clocks, 32))
    ensures BitsRead(chip, start, t', bytes, n + 32)
  {
    LineConcat(chip, start.clocks, n, 32);
    PackedConcat(Line(chip, start.clocks, n), Line(chip, t.clocks, 32));
    ConstantConcat(true, n, 32);
    InOrder(start.drIn, Constant(true, n), Constant(true, 32));
  }

  lemma AllWords(chip: Chip, start: Tap, t: Tap, got: seq<Byte>, len: nat)
    requires BitsRead(chip, start, t, got, 32 * len) && start.drIn == [] && !start.tdi
    requires t.state == Shift(Dr) && t.ir == Instruction(JI_USER0_VDR)
    ensures t.drIn == Constant(true, 32 * len) && t.clocks == start.clocks + 32 * len
    ensures got == Packed(Line(chip, t.clocks - 32 * len, 32 * len)) && Pending(t) == [VdrScan(OnesBits(32 * len))]
  {
    NothingInFront(Constant(true, 32 * len));
  }

  lemma LineConcat(chip: Chip, from: nat, m: nat, n: nat)
    ensures Line(chip, from, m) + Line(chip, from + m, n) == Line(chip, from, m + n)
  {
  }

  lemma AllZeros(n: nat)
    ensures Constant(false, n) + Constant(false, 1) + [false] == Constant(false, n + 2)
  {
  }

  lemma ConstantConcat(bit: bool, m: nat, n: nat)
    ensures Constant(bit, m) + Constant(bit, n) == Constant(bit, m + n)
  {
  }

  lemma NoWordsYet(chip: Chip, start: Tap)
    ensures BitsRead(chip, start, start, [], 0)
  {
    assert Line(chip, start.clocks, 0) == [];
    assert start.drIn + Constant(true, 0) == start.drIn;
  }

  class Host {
    const device: Device
    var state: Js
    var nSlaves: Byte
    var slaveBits: Byte
    var virSize: Byte
    var id: Byte
    var lastVir: Byte

    /** The host's copy of the state is right. */
    ghost predicate InSync()
      reads this, device
    {
      state == Code(device.tap.state)
    }

    constructor (device: Device)
      ensures this.device == device && state == JS_RESET && id == 255 && lastVir == 0
      ensures nSlaves == 0 && slaveBits == 0 && virSize == 0
    {
      this.device, state, id := device, JS_RESET, 255;
      nSlaves, slaveBits, virSize, lastVir := 0, 0, 0, 0;
    }

    method DriveSignal(pin: Pin, level: bool, clk: bool)
      modifies device
      ensures
        var t := if pin == TMS then old(device.tap).(tms := level) else old(device.tap).(tdi := level);
        device.tap == if clk then Pulse(device.chip, t) else t
    {
      device.SetPin(pin, level);
      if clk {
        device.Clock();
      }
    }

    method AdvanceJSM(mode: bool)
      modifies this`state, device
      ensures state == Jsm(old(state), mode)
      ensures device.tap == Advance(device.chip, old(device.tap), mode)
      ensures old(InSync()) ==> InSync()
    {
      TableIsStandard(device.tap.state, mode);
      DriveSignal(TMS, mode, true);
      state := Jsm(state, mode);
    }

    /** Fails, and does nothing, unless data is being shifted. */
    method UpdateDr() returns (failed: bool)
      requires InSync()
      modifies this`state, device
      ensures InSync() && failed == (old(device.tap.state) != Shift(Dr))
      ensures
        var t := old(device.tap);
        device.tap ==
          if failed then t
          else t.(state := Update(Dr), tms := true, clocks := t.clocks + 2,
                  drIn := t.drIn + [t.tdi], updates := t.updates + [DataScan(t.ir, t.drIn + [t.tdi])])
    {
      CodeIsOneToOne(device.tap.state, state);
      if state != JS_SHIFT_DR { return true; }
      ShiftToUpdate(device.chip, device.tap);
      AdvanceJSM(true);
      AdvanceJSM(true);
      return false;
    }

    /** Fails, and does nothing, unless an update, a reset or idling comes before. */
    method ShiftDr() returns (failed: bool)
      requires InSync()
      modifies this`state, device
      ensures InSync()
      ensures
        var t := old(device.tap);
        && failed == !(t.state.Update? || t.state.RunTestIdle? || t.state.TestLogicReset?)
        && device.tap ==
             if failed then t
             else
               var n := if t.state.Update? then 3 else 5;
               t.(state := Shift(Dr), tms := false, clocks := t.clocks + n, drIn := [])
    {
      CodeIsOneToOne(device.tap.state, state);
      if state != JS_UPDATE_DR && state != JS_UPDATE_IR {
        if state != JS_RESET && state != JS_RUNIDLE { return true; }
        IdleToShift(device.chip, device.tap);
        AdvanceJSM(false);
        AdvanceJSM(false);
        AdvanceJSM(true);
        AdvanceJSM(false);
        AdvanceJSM(false);
        return false;
      }
      UpdateToShift(device.chip, device.tap);
      AdvanceJSM(true);
      AdvanceJSM(false);
      AdvanceJSM(false);
      return false;
    }

    /**
     Takes the controller to idling: from an update with one clock, from anywhere else through
     a reset. The reset also brings a host back that does not know the state of the device.
     */
    method RunIdle()
      requires InSync() || (state != JS_UPDATE_IR && state != JS_UPDATE_DR)
      modifies this`state, device
      ensures InSync() && device.tap.state == RunTestIdle
      ensures device.tap.updates == old(device.tap.updates) + Pending(old(device.tap))
      ensures old(device.tap.state) != Capture(Ir) ==> device.tap.captured == old(device.tap.captured)
      ensures old(InSync() && device.tap.state.Update?) ==>
        device.tap == old(device.tap).(state := RunTestIdle, tms := false, clocks := old(device.tap.clocks) + 1)
    {
      CodeIsOneToOne(device.tap.state, state);
      if state != JS_UPDATE_IR && state != JS_UPDATE_DR {
        ghost var s, h := device.tap.state, Decode(state);
        for i := 0 to JSM_RESET_COUNT
          invariant device.tap.state == Ones(s, i) && state == Code(Ones(h, i))
          invariant s != Capture(Ir) ==>
            device.tap.state != Capture(Ir) && device.tap.captured == old(device.tap.captured)
          invariant device.tap.updates + Pending(device.tap) == old(device.tap.updates) + Pending(old(device.tap))
        {
          OnesConserve(device.chip, device.tap);
          TableIsStandard(Ones(h, i), true);
          AdvanceJSM(true);
        }
        OnesReset(s);
        OnesReset(h);
      }
      AdvanceJSM(false);
    }

    /** Bits go out, lowest first, and bits come in; only where the clocks do not move the state. */
    method ReadTDO(bitCount: nat, data: nat, inst: bool) returns (record: Word)
      requires InSync() && Shifting(device.tap)
      modifies device
      ensures InSync() && Shifting(device.tap)
      ensures record == Seen(device.chip, old(device.tap), ToBits(data, bitCount))
      ensures device.tap == Scan(device.chip, old(device.tap), ToBits(data, bitCount), inst)
    {
      ScanStays(device.chip, device.tap, ToBits(data, bitCount), inst);
      ghost var seen := Seen(device.chip, device.tap, ToBits(data, bitCount));
      ghost var end := Scan(device.chip, device.tap, ToBits(data, bitCount), inst);
      var rest := data;
      record := [];
      for i := 0 to bitCount
        invariant record + Seen(device.chip, device.tap, ToBits(rest, bitCount - i)) == seen
        invariant Scan(device.chip, device.tap, ToBits(rest, bitCount - i), inst) == end
      {
        ScanNext(device.chip, device.tap, ToBits(rest, bitCount - i), inst, record, seen);
        assert ToBits(rest, bitCount - i)[1..] == ToBits(rest / 2, bitCount - i - 1);
        record := record + [Tdo(device.chip, device.tap)];
        DriveSignal(TDI, rest % 2 == 1, !(i == bitCount - 1 && inst));
        rest := rest / 2;
      }
    }

    /** Reads bits and sends zeros. */
    method ReadZeros(bitCount: nat) returns (record: Word)
      requires InSync() && Shifting(device.tap)
      modifies device
      ensures InSync() && Shifting(device.tap) && device.tap.state == old(device.tap.state)
      ensures |record| == bitCount && device.tap.clocks == old(device.tap.clocks) + bitCount
      ensures device.tap.captured == old(device.tap.captured) && device.tap.updates == old(device.tap.updates)
      ensures device.tap.ir == old(device.tap.ir) && (bitCount > 0 ==> !device.tap.tdi)
      ensures device.tap.state == Shift(Dr) ==>
        && record == Line(device.chip, old(device.tap.clocks), bitCount)
        && device.tap.drIn == old(device.tap.drIn) + Constant(false, bitCount)
    {
      ghost var t, bits := device.tap, ToBits(0, bitCount);
      ZeroBits(bitCount);
      ScanStays(device.chip, t, bits, false);
      if t.state == Shift(Dr) {
        ScanOfData(device.chip, t, bits, false);
        SeenOfData(device.chip, t, bits);
      } else {
        ScanOfInstruction(device.chip, t, bits, false);
      }
      record := ReadTDO(bitCount, 0, false);
    }

    /** Enters the scan of the instruction register; from idling or a reset in five clocks. */
    method ShiftInst()
      requires InSync()
      modifies this`state, device
      ensures InSync() && Shifting(device.tap) && device.tap.state == Shift(Ir)
      ensures device.tap.irShift == device.tap.captured
      ensures Intact(device.chip) ==> Value(device.tap.captured) == MARK
      ensures device.tap.updates == old(device.tap.updates) + Pending(old(device.tap))
      ensures old(device.tap.state) == RunTestIdle || old(device.tap.state) == TestLogicReset ==>
        device.tap.clocks == old(device.tap.clocks) + 5
    {
      CodeIsOneToOne(device.tap.state, state);
      if state != JS_RUNIDLE && state != JS_RESET {
        RunIdle();
      }
      IdleToShiftInst(device.chip, device.tap);
      AdvanceJSM(false);
      AdvanceJSM(true);
      AdvanceJSM(true);
      AdvanceJSM(false);
      AdvanceJSM(false);
    }

    /**
     Loads an instruction. It fails exactly when the device has not captured the mark, and then
     leaves the controller shifting the instruction register.
     */
    method LoadJI(action: nat) returns (error: int)
      requires InSync()
      modifies this`state, device
      ensures InSync()
      ensures error == if Value(device.tap.captured) == MARK then 0 else -1
      ensures Intact(device.chip) ==> error == 0
      ensures error == 0 ==> device.tap.state == Update(Ir) && device.tap.ir == Instruction(action)
      ensures error == 0 && action < 0x100 ==> !device.tap.tdi
      ensures error != 0 ==> device.tap.state == Shift(Ir) && Shifting(device.tap)
      ensures device.tap.updates == old(device.tap.updates) + Pending(old(device.tap))
    {
      ShiftInst();
      InstructionPasses(device.chip, device.tap, Instruction(action));
      var record := ReadTDO(INST_LEN, action, true);
      if Value(record) != MARK {
        return -1;
      }
      InstToUpdate(device.chip, device.tap);
      if action < 0x100 {
        PinEndsLow(action, Instruction(action), device.tap.tdi);
      }
      AdvanceJSM(true);
      AdvanceJSM(true);
      return 0;
    }

    /** The same without a look at what comes back. */
    method SetupChain(action: nat)
      requires InSync()
      modifies this`state, device
      ensures InSync()
      ensures device.tap.state == Update(Ir) && device.tap.ir == Instruction(action)
      ensures device.tap.updates == old(device.tap.updates) + Pending(old(device.tap))
    {
      ShiftInst();
      InstructionPasses(device.chip, device.tap, Instruction(action));
      var record := ReadTDO(INST_LEN, action, true);
      InstToUpdate(device.chip, device.tap);
      AdvanceJSM(true);
      AdvanceJSM(true);
    }

    /** Reads the one bit of the boundary scan that says whether the device is configured. */
    method CheckStatus() returns (error: nat)
      requires InSync()
      modifies this`state, device
      ensures InSync() && device.tap.state == RunTestIdle
      ensures device.tap.clocks >= 4 && error == if device.chip.line(device.tap.clocks - 4) then 0 else 1
      ensures device.tap.updates
           == old(device.tap.updates) + Pending(old(device.tap))
              + [STATUS_SCAN]
      ensures device.tap.ir == Instruction(JI_CHECK_STATUS)
    {
      SetupChain(JI_CHECK_STATUS);
      var failed := ShiftDr();
      PassBits(CONF_DONE_BIT);
      ghost var at := device.tap.clocks;
      var record := ReadZeros(1);
      error := if Value(record) == 0 then 1 else 0;
      assert record == [device.chip.line(at)];
      AllZeros(CONF_DONE_BIT);
      failed := UpdateDr();
      RunIdle();
    }

    /** Clocks zeros into the data scan. */
    method PassBits(bitCount: nat)
      requires InSync() && Shifting(device.tap) && device.tap.state == Shift(Dr) && device.tap.drIn == []
      modifies device
      ensures InSync()
      ensures
        var t := old(device.tap);
        device.tap == t.(tdi := device.tap.tdi, clocks := t.clocks + bitCount, drIn := Constant(false, bitCount))
    {
      for bit := 0 to bitCount
        invariant InSync()
        invariant
          var t := old(device.tap);
          device.tap == t.(tdi := device.tap.tdi, clocks := t.clocks + bit, drIn := Constant(false, bit))
      {
        DriveSignal(TDI, false, true);
      }
    }

    /** A whole scan of the data register. */
    method ScanUpdate(bitCount: nat, data: nat)
      requires InSync() && device.tap.state.Update?
      modifies this`state, device
      ensures InSync() && device.tap.state == Update(Dr)
      ensures device.tap.ir == old(device.tap.ir) && device.tap.captured == old(device.tap.captured)
      ensures device.tap.updates
           == old(device.tap.updates)
              + [DataScan(
                   old(device.tap.ir), if bitCount > 0 then ToBits(data, bitCount) else [old(device.tap.tdi)])]
    {
      var failed := ShiftDr();
      ExitCarriesLast(device.chip, device.tap, ToBits(data, bitCount));
      var record := ReadTDO(bitCount, data, true);
      NothingInFront(ToBits(data, bitCount));
      NothingInFront([device.tap.tdi]);
      failed := UpdateDr();
    }

    /** The scan that loads a virtual instruction, unless it was the last one that was loaded. */
    ghost function VirScans(instruction: nat): seq<DataScan>
      reads this
    {
      if lastVir == instruction then [] else [VirScanOf(VirScan(id, virSize, slaveBits, instruction))]
    }

    /** Loads the virtual instruction of our slave, unless it was the last one that was loaded. */
    method LoadVir(instruction: nat) returns (ret: int)
      requires InSync() && instruction <= JBC_READ
      modifies this`state, this`lastVir, device
      ensures InSync()
      ensures old(lastVir) == instruction ==>
        ret == 0 && lastVir == old(lastVir) && state == old(state) && device.tap == old(device.tap)
      ensures old(lastVir) != instruction ==>
        && ret == (if Value(device.tap.captured) == MARK then 0 else -1)
        && lastVir == (if ret == 0 then instruction else old(lastVir))
        && (Intact(device.chip) ==> ret == 0)
        && (ret == 0 ==> device.tap.state == Update(Dr) && device.tap.ir == Instruction(JI_USER1_VIR))
        && (ret != 0 ==> device.tap.state == Shift(Ir) && Shifting(device.tap))
      ensures old(lastVir) != instruction ==>
        device.tap.updates
        == old(device.tap.updates + Pending(device.tap)) + if ret == 0 then old(VirScans(instruction)) else []
    {
      ret := 0;
      if lastVir != instruction {
        ret := LoadNewVir(instruction);
      }
    }

    method LoadNewVir(instruction: nat) returns (ret: int)
      requires InSync() && instruction <= JBC_READ
      modifies this`state, this`lastVir, device
      ensures InSync()
      ensures ret == (if Value(device.tap.captured) == MARK then 0 else -1)
      ensures lastVir == (if ret == 0 then instruction else old(lastVir))
      ensures Intact(device.chip) ==> ret == 0
      ensures ret == 0 ==> device.tap.state == Update(Dr) && device.tap.ir == Instruction(JI_USER1_VIR)
      ensures ret != 0 ==> device.tap.state == Shift(Ir) && Shifting(device.tap)
      ensures device.tap.updates
           == old(device.tap.updates + Pending(device.tap))
              + if ret == 0 then [VirScanOf(VirScan(id, virSize, slaveBits, instruction))] else []
    {
      var code := VirCode(id, virSize, instruction);
      ret := LoadJI(JI_USER1_VIR);
      if ret < 0 { return; }
      ScanUpdate(virSize + slaveBits, code);
      lastVir := instruction;
    }

    /** Reads an information word of the hub, four bits with every scan, the lowest first. */
    method ReadInfo() returns (record: Word)
      requires InSync()
      requires device.tap.state == Update(Ir) || device.tap.state == RunTestIdle || Shifting(device.tap)
      modifies this`state, device
      ensures InSync() && device.tap.state == RunTestIdle && |record| == 32
      ensures device.tap.captured == old(device.tap.captured) && old(device.tap.updates) <= device.tap.updates
      ensures !old(Shifting(device.tap)) ==>
        var at := ScanStart(old(device.tap));
        && device.tap.clocks == at + 12 * 7 + 7 && record == Info(device.chip, at)
        && Scanned(old(device.tap), device.tap, 8)
    {
      ghost var start := device.tap;
      record := Constant(false, 32);
      if !Shifting(start) {
        NoNibblesYet(device.chip, start);
      }
      for i := 0 to 8
        invariant InSync() && |record| == 32 && device.tap.captured == start.captured
        invariant start.updates <= device.tap.updates
        invariant if i == 0 then device.tap == start else device.tap.state == RunTestIdle
        invariant !Shifting(start) ==> NibblesRead(device.chip, start, device.tap, i, record)
      {
        ghost var t, done := device.tap, record;
        var nibble := Nibble();
        record := record[4..] + nibble;
        if !Shifting(start) {
          NibbleMore(device.chip, start, t, device.tap, i, done, nibble);
        }
      }
    }

    /** One scan of four bits; the exit makes it five. */
    method Nibble() returns (nibble: Word)
      requires InSync()
      requires device.tap.state == Update(Ir) || device.tap.state == RunTestIdle || Shifting(device.tap)
      modifies this`state, device
      ensures InSync() && device.tap.state == RunTestIdle && |nibble| == 4
      ensures device.tap.captured == old(device.tap.captured) && old(device.tap.updates) <= device.tap.updates
      ensures !old(Shifting(device.tap)) ==>
        var at := ScanStart(old(device.tap));
        && nibble == Line(device.chip, at, 4) && device.tap.clocks == at + 7
        && Scanned(old(device.tap), device.tap, 1)
    {
      FiveZeros();
      var failed := ShiftDr();
      nibble := ReadZeros(4);
      failed := UpdateDr();
      RunIdle();
    }

    /** Goes through the words of the slaves until one is ours. */
    method FindSlave(ghost at: nat) returns (ret: int)
      requires InSync() && device.tap.state == RunTestIdle && id == 255
      modifies this`state, this`id, device
      ensures InSync() && device.tap.captured == old(device.tap.captured)
      ensures ret == (if id == 255 then -1 else 0) && (ret == 0 ==> id < nSlaves)
      ensures Scanned(old(device.tap), device.tap, 8 * if ret == 0 then id + 1 else nSlaves)
      ensures old(device.tap.clocks) + 5 == at + SPACING ==>
        if ret == 0 then IsFirstVjtag(device.chip, at, id) else NoVjtag(device.chip, at, nSlaves)
    {
      ghost var start, timed := device.tap, device.tap.clocks + 5 == at + SPACING;
      NothingScanned(start);
      for j := 0 to nSlaves
        invariant InSync() && device.tap.state == RunTestIdle && id == 255
        invariant device.tap.captured == start.captured && Scanned(start, device.tap, 8 * j)
        invariant timed ==> device.tap.clocks + 5 == at + SPACING * (j + 1) && NoVjtag(device.chip, at, j)
      {
        ghost var t := device.tap;
        var record := ReadInfo();
        ScannedTogether(start, t, device.tap, 8 * j, 8);
        assert timed ==> record == SlaveInfo(device.chip, at, j);
        if IsVjtag(record) {
          id := j;
          return 0;
        }
      }
      return -1;
    }

    /** Resets the hub, with zeros in its instruction register; failures are ignored. */
    method SelectHub()
      requires InSync()
      modifies this`state, device
      ensures InSync()
      ensures if Value(device.tap.captured) == MARK then device.tap.state == Update(Ir) else Shifting(device.tap)
      ensures Value(device.tap.captured) == MARK ==> device.tap.ir == Instruction(JI_USER0_VDR)
      ensures old(device.tap.updates) <= device.tap.updates
      ensures Intact(device.chip) ==>
        && Value(device.tap.captured) == MARK
        && device.tap.updates == old(device.tap.updates + Pending(device.tap)) + [VirScanOf(Constant(false, 65))]
    {
      ClearHub();
      var failed := LoadJI(JI_USER0_VDR);
    }

    /** The zeros. */
    method ClearHub()
      requires InSync()
      modifies this`state, device
      ensures InSync() && old(device.tap.updates) <= device.tap.updates
      ensures Intact(device.chip) ==>
        && device.tap.state == Update(Dr)
        && device.tap.updates == old(device.tap.updates + Pending(device.tap)) + [VirScanOf(Constant(false, 65))]
    {
      OneZeroMore(64);
      var failed := LoadJI(JI_USER1_VIR);
      var moved := ShiftDr();
      var dropped := ReadZeros(64);
      moved := UpdateDr();
    }

    /**
     Asks the hub for its slaves; `at` is when the hub's word begins, and the words of the slaves
     follow at a fixed distance.
     */
    method Enumerate() returns (ret: int, ghost at: nat)
      requires InSync()
      modifies this, device
      ensures InSync() && lastVir == 255 && old(device.tap.updates) <= device.tap.updates
      ensures ret == (if id == 255 then -1 else 0)
      ensures ret == 0 ==> id < nSlaves && Addresses(slaveBits, nSlaves)
      ensures Value(device.tap.captured) == MARK ==>
        Answered(device.chip, at, ret, id, nSlaves, virSize) && device.tap.ir == Instruction(JI_USER0_VDR)
      ensures Intact(device.chip) ==>
        && Value(device.tap.captured) == MARK
        && device.tap.updates == old(device.tap.updates + Pending(device.tap)) + HubScans(device.chip, at, ret, id)
    {
      SelectHub();
      ghost var t := device.tap;
      at := ScanStart(device.tap);
      var record := ReadInfo();
      ghost var u, words := device.tap, 0;
      ret, words := TakeHub(record, at);
      if Intact(device.chip) {
        HubIsScanned(device.chip, old(device.tap.updates + Pending(device.tap)), t, u, device.tap, at, ret, id);
      }
    }

    /** `record` is the word of the hub, and `words` says how many words of slaves are read. */
    method TakeHub(record: Word, ghost at: nat) returns (ret: int, ghost words: nat)
      requires InSync() && device.tap.state == RunTestIdle && |record| == 32
      modifies this, device
      ensures InSync() && lastVir == 255 && device.tap.captured == old(device.tap.captured)
      ensures ret == (if id == 255 then -1 else 0)
      ensures ret == 0 ==> id < nSlaves && Addresses(slaveBits, nSlaves)
      ensures words == SlaveWords(record, ret, id) && Scanned(old(device.tap), device.tap, 8 * words)
      ensures old(device.tap.clocks) + 5 == at + SPACING && record == Info(device.chip, at) ==>
        Answered(device.chip, at, ret, id, nSlaves, virSize)
    {
      id, lastVir, ret, words := 255, 255, -1, 0;
      NothingScanned(device.tap);
      if Vendor(record) == JTAG_VENDOR_ID {
        nSlaves := Kind(record);
        slaveBits := WidthFor(nSlaves);
        virSize := Low(record);
        ret := FindSlave(at);
        words := if ret == 0 then id + 1 else nSlaves;
      }
    }

    /**
     `configured` is what the line shows for the status, four clocks before `asked`, when the device
     idles again. An open scan is updated with a high pin, because the pins are set first.
     */
    method Init() returns (ret: int, ghost configured: bool, ghost asked: nat, ghost at: nat)
      requires InSync() || (state != JS_UPDATE_IR && state != JS_UPDATE_DR)
      modifies this, device
      ensures InSync() && 4 <= asked && configured == device.chip.line(asked - 4)
      ensures !configured ==> ret == -1 && id == old(id) && lastVir == old(lastVir) && asked == device.tap.clocks
      ensures configured ==> lastVir == 255 && ret == (if id == 255 then -1 else 0)
      ensures ret == 0 ==> id < nSlaves && Addresses(slaveBits, nSlaves)
      ensures configured && Value(device.tap.captured) == MARK ==>
        Answered(device.chip, at, ret, id, nSlaves, virSize) && device.tap.ir == Instruction(JI_USER0_VDR)
      ensures old(device.tap.updates) + Pending(old(device.tap).(tdi := true)) <= device.tap.updates
      ensures Intact(device.chip) ==>
        device.tap.updates
        == old(device.tap.updates) + Pending(old(device.tap).(tdi := true)) + [STATUS_SCAN]
           + if configured then HubScans(device.chip, at, ret, id) else []
    {
      var error := Connect();
      ret, configured, asked, at := -1, error == 0, device.tap.clocks, 0;
      NothingBehind(device.tap.updates);
      if error == 0 {
        ret, at := Enumerate();
      }
    }

    /** Sets the pins and asks for the status. */
    method Connect() returns (error: nat)
      requires InSync() || (state != JS_UPDATE_IR && state != JS_UPDATE_DR)
      modifies this`state, device
      ensures InSync() && device.tap.state == RunTestIdle
      ensures device.tap.clocks >= 4 && error == if device.chip.line(device.tap.clocks - 4) then 0 else 1
      ensures device.tap.updates
           == old(device.tap.updates) + Pending(old(device.tap).(tdi := true)) + [STATUS_SCAN]
    {
      device.SetPin(TMS, true);
      device.SetPin(TDI, true);
      RunIdle();
      error := CheckStatus();
    }

    /** The loop over the bits: bytes go out, lowest bit first, and whole bytes come in. */
    method ShiftBytes(bitCount: nat, bytes: seq<Byte>, inst: bool) returns (got: seq<Byte>)
      requires InSync() && Shifting(device.tap) && bitCount <= 8 * |bytes|
      modifies device
      ensures InSync() && Shifting(device.tap)
      ensures device.tap == Scan(device.chip, old(device.tap), ByteBits(bytes)[..bitCount], inst)
      ensures got == Packed(Seen(device.chip, old(device.tap), ByteBits(bytes)[..bitCount]))
    {
      ghost var bits, cur: Word := ByteBits(bytes)[..bitCount], [];
      ghost var g := Goal(
        device.chip, inst, Scan(device.chip, device.tap, bits, inst), Packed(Seen(device.chip, device.tap, bits)));
      BeforeAll(device.chip, device.tap, bytes, bits, inst);
      ScanStays(device.chip, device.tap, bits, inst);
      var charbit: Index, indata: Byte, outdata: Byte, txAt: nat := 0, 0, 0, 0;
      got := [];
      for i := 0 to bitCount
        invariant |bits| == bitCount - i
        invariant InLoop(g, device.tap, bytes, Progress(charbit, indata, outdata, txAt, got), bits, cur)
      {
        ghost var t, p := device.tap, Progress(charbit, indata, outdata, txAt, got);
        cur := TurnKeeps(g, t, bytes, p, bits, cur);
        if charbit == 0 {
          outdata, txAt := bytes[txAt], txAt + 1;
        }
        indata := ShiftIn(indata, Tdo(device.chip, device.tap));
        DriveSignal(TDI, outdata % 2 == 1, !(i == bitCount - 1 && inst));
        outdata := Half(outdata);
        charbit := if charbit == 7 then 0 else charbit + 1;
        if charbit == 0 {
          got, indata := got + [indata], 0;
        }
        assert Progress(charbit, indata, outdata, txAt, got) == Turned(Loaded(p, bytes), Tdo(device.chip, t));
        assert device.tap == NextTap(g, t, bits);
        bits := bits[1..];
      }
      AfterAll(g, device.tap, bytes, Progress(charbit, indata, outdata, txAt, got), cur);
    }

    /**
     Sends the bytes of `tx`, or ones where there is none, and stores the bytes that come in from
     `off` on, where there is an `rx`.
     */
    method ReadTDOBuf(bitCount: nat, tx: array?<Byte>, rx: array?<Byte>, off: nat, inst: bool)
      requires InSync() && Shifting(device.tap)
      requires tx != null ==> bitCount <= 8 * tx.Length
      requires rx != null ==> off + bitCount / 8 <= rx.Length && rx != tx
      modifies device, rx
      ensures InSync() && Shifting(device.tap)
      ensures device.tap == Scan(device.chip, old(device.tap), old(Sent(tx, bitCount)), inst)
      ensures rx != null ==>
        rx[..] == Overwritten(old(rx[..]), off, Packed(Seen(device.chip, old(device.tap), old(Sent(tx, bitCount)))))
    {
      var got := ShiftBytes(bitCount, Source(tx, bitCount), inst);
      StoreBytes(got, rx, off);
    }

    /** The same in terms of the data scan. */
    method ShiftData(bitCount: nat, tx: array?<Byte>, rx: array?<Byte>, off: nat, inst: bool)
      requires InSync() && Shifting(device.tap)
      requires tx != null ==> bitCount <= 8 * tx.Length
      requires rx != null ==> off + bitCount / 8 <= rx.Length && rx != tx
      modifies device, rx
      ensures InSync() && Shifting(device.tap) && device.tap.state == old(device.tap.state)
      ensures device.tap.ir == old(device.tap.ir) && device.tap.captured == old(device.tap.captured)
      ensures device.tap.updates == old(device.tap.updates)
      ensures rx != null ==>
        rx[..] == Overwritten(old(rx[..]), off, Packed(Seen(device.chip, old(device.tap), old(Sent(tx, bitCount)))))
      ensures old(device.tap.state) == Shift(Dr) ==>
        && device.tap == old(DataIn(device.tap, Sent(tx, bitCount), Clocked(Sent(tx, bitCount), inst)))
        && Seen(device.chip, old(device.tap), old(Sent(tx, bitCount)))
           == Line(device.chip, old(device.tap.clocks), bitCount)
    {
      ghost var bits := Sent(tx, bitCount);
      ScanStays(device.chip, device.tap, bits, inst);
      if device.tap.state == Shift(Dr) {
        ScanOfData(device.chip, device.tap, bits, inst);
        SeenOfData(device.chip, device.tap, bits);
      }
      ReadTDOBuf(bitCount, tx, rx, off, inst);
    }

    /** Begins a scan of the data register of our slave; failures are ignored. */
    method OpenScan()
      requires InSync()
      modifies this`state, device
      ensures InSync() && Shifting(device.tap)
      ensures device.tap.updates == old(device.tap.updates) + Pending(old(device.tap))
      ensures Value(device.tap.captured) == MARK ==>
        && device.tap.state == Shift(Dr) && device.tap.ir == Instruction(JI_USER0_VDR)
        && device.tap.drIn == [] && !device.tap.tdi
      ensures Intact(device.chip) ==> Value(device.tap.captured) == MARK
    {
      var failed := LoadJI(JI_USER0_VDR);
      var moved := ShiftDr();
    }

    /** Begins a data scan with the address; failures to load the instruction are ignored. */
    method SendAddress(address: nat)
      requires InSync() && address < 0x1_0000_0000
      modifies this`state, device
      ensures InSync() && Shifting(device.tap)
      ensures device.tap.updates == old(device.tap.updates) + Pending(old(device.tap))
      ensures Value(device.tap.captured) == MARK ==>
        && device.tap.state == Shift(Dr) && device.tap.ir == Instruction(JI_USER0_VDR)
        && device.tap.drIn == AddressBits(address) && device.tap.tdi == AddressBits(address)[31]
      ensures Intact(device.chip) ==> Value(device.tap.captured) == MARK
    {
      OpenScan();
      NothingInFront(AddressBits(address));
      var word := BytesOf(Tagged(address));
      ShiftData(32, word, null, 0, false);
    }

    /** Asks for a reconfiguration of the device. */
    method Reload() returns (ret: int)
      requires InSync()
      modifies this`state, device
      ensures InSync()
      ensures ret == if Value(device.tap.captured) == MARK then 0 else -1
      ensures device.tap.ir == Instruction(JI_PULSE_NCONFIG) || ret != 0
      ensures ret == 0 ==> device.tap.state == Shift(Dr)
      ensures device.tap.updates == old(device.tap.updates + Pending(device.tap))
    {
      ret := LoadJI(JI_PULSE_NCONFIG);
      var moved := ShiftDr();
    }

    /**
     Writes `len` words: in one data scan the address, the bytes and two bits more. The scan is
     left open; what comes next updates it, with the bit on the pin. `data` has a spare byte, for
     the two bits.
     */
    method WriteBuffer(address: nat, data: array<Byte>, len: nat) returns (ret: int)
      requires InSync() && address < 0x1_0000_0000 && 4 * len < data.Length
      modifies this`state, this`lastVir, device
      ensures InSync() && Shifting(device.tap)
      ensures ret == -1 ==>
        old(lastVir) != JBC_WRITE && lastVir == old(lastVir) && Value(device.tap.captured) != MARK
      ensures ret != -1 ==> ret == len && lastVir == JBC_WRITE
      ensures ret != -1 && Value(device.tap.captured) == MARK ==> Writing(device.tap, address, data[..], len)
      ensures Intact(device.chip) ==> ret == len && Value(device.tap.captured) == MARK
      ensures device.tap.updates
           == old(device.tap.updates + Pending(device.tap)) + if ret == -1 then [] else old(VirScans(JBC_WRITE))
    {
      ret := LoadVir(JBC_WRITE);
      if ret < 0 { return -1; }
      WriteWords(address, data, len);
      return len;
    }

    method WriteWords(address: nat, data: array<Byte>, len: nat)
      requires InSync() && address < 0x1_0000_0000 && 4 * len < data.Length
      modifies this`state, device
      ensures InSync() && Shifting(device.tap)
      ensures Value(device.tap.captured) == MARK ==> Writing(device.tap, address, data[..], len)
      ensures Intact(device.chip) ==> Value(device.tap.captured) == MARK
      ensures device.tap.updates == old(device.tap.updates + Pending(device.tap))
    {
      SendAddress(address);
      if Value(device.tap.captured) == MARK {
        LeavesOpen(device.tap, address, data[..], len);
      }
      ShiftData(32 * len + 2, data, null, 0, false);
    }

    /** The first half of a read: the address and, for more than one word, the count. */
    method RequestWords(address: nat, len: nat)
      requires InSync() && address < 0x1_0000_0000 && len < 0x1_0000_0000
      modifies this`state, device
      ensures InSync() && Shifting(device.tap)
      ensures device.tap.updates == old(device.tap.updates + Pending(device.tap))
      ensures Intact(device.chip) ==>
        device.tap.state == Shift(Dr) && Pending(device.tap) == [VdrScan(Request(address, len))]
    {
      SendAddress(address);
      if len > 1 {
        var word := BytesOf(len - 1);
        LowBits(len - 1, 32, 4);
        LastBehind(device.tap.drIn, Sent(word, 4));
        ShiftData(4, word, null, 0, true);
      }
    }

    /** All that comes before the words: the request, and the virtual instruction for reading. */
    method PrepareRead(address: nat, len: nat) returns (ret: int)
      requires InSync() && address < 0x1_0000_0000 && len < 0x1_0000_0000
      modifies this`state, this`lastVir, device
      ensures InSync()
      ensures ret == 0 || ret == -1
      ensures ret == 0 ==> lastVir == JBC_READ && device.tap.state == Update(Dr)
      ensures ret != 0 ==> Shifting(device.tap)
      ensures Intact(device.chip) ==> ret == 0
      ensures old(device.tap.updates + Pending(device.tap)) <= device.tap.updates
      ensures Intact(device.chip) ==>
        device.tap.updates
        == old(device.tap.updates + Pending(device.tap) + VirScans(JBC_WRITE))
           + [VdrScan(Request(address, len)), VirScanOf(VirScan(id, virSize, slaveBits, JBC_READ))]
    {
      ret := LoadVir(JBC_WRITE);
      if ret >= 0 {
        ret := RequestRead(address, len);
      }
    }

    method RequestRead(address: nat, len: nat) returns (ret: int)
      requires InSync() && address < 0x1_0000_0000 && len < 0x1_0000_0000 && lastVir == JBC_WRITE
      modifies this`state, this`lastVir, device
      ensures InSync()
      ensures ret == 0 || ret == -1
      ensures ret == 0 ==> lastVir == JBC_READ && device.tap.state == Update(Dr)
      ensures ret != 0 ==> Shifting(device.tap)
      ensures Intact(device.chip) ==> ret == 0
      ensures old(device.tap.updates + Pending(device.tap)) <= device.tap.updates
      ensures Intact(device.chip) ==>
        device.tap.updates
        == old(device.tap.updates + Pending(device.tap))
           + [VdrScan(Request(address, len)), VirScanOf(VirScan(id, virSize, slaveBits, JBC_READ))]
    {
      RequestWords(address, len);
      ret := LoadVir(JBC_READ);
    }

    /**
     Reads `len` words: it writes the request, loads the virtual instruction for reading, and
     then takes in the words in one data scan, sending ones. That scan is left open.
     */
    method ReadBuffer(address: nat, data: array<Byte>, len: nat) returns (ret: int)
      requires InSync() && address < 0x1_0000_0000 && len < 0x1_0000_0000 && 4 * len <= data.Length
      modifies this`state, this`lastVir, device, data
      ensures InSync() && Shifting(device.tap)
      ensures ret == 0 || ret == -1
      ensures ret == 0 ==> lastVir == JBC_READ
      ensures data[4 * len..] == old(data[4 * len..])
      ensures Intact(device.chip) ==>
        ret == 0 && WordsAreIn(device.chip, device.tap, data[..4 * len], len)
      ensures Intact(device.chip) ==> Pending(device.tap) == [VdrScan(OnesBits(32 * len))]
      ensures old(device.tap.updates + Pending(device.tap)) <= device.tap.updates
      ensures Intact(device.chip) ==>
        device.tap.updates
        == old(device.tap.updates + Pending(device.tap) + VirScans(JBC_WRITE))
           + [VdrScan(Request(address, len)), VirScanOf(VirScan(id, virSize, slaveBits, JBC_READ))]
    {
      ret := PrepareRead(address, len);
      if ret == 0 {
        ghost var got := TakeWords(data, len);
        OverwrittenParts(old(data[..]), got);
      }
    }

    /** The second half of a read. */
    method TakeWords(data: array<Byte>, len: nat) returns (ghost got: seq<Byte>)
      requires InSync() && 4 * len <= data.Length
      modifies this`state, device, data
      ensures InSync() && Shifting(device.tap)
      ensures device.tap.updates == old(device.tap.updates) + Pending(old(device.tap))
      ensures |got| == 4 * len && data[..] == Overwritten(old(data[..]), 0, got)
      ensures Intact(device.chip) ==>
        WordsAreIn(device.chip, device.tap, got, len) && Pending(device.tap) == [VdrScan(OnesBits(32 * len))]
    {
      OpenScan();
      ghost var start := device.tap;
      got := ReadWords(data, len);
      if start.state == Shift(Dr) && start.ir == Instruction(JI_USER0_VDR) && start.drIn == [] && !start.tdi {
        AllWords(device.chip, start, device.tap, got, len);
      }
    }

    /** The loop over the words; `got` is what it stores. */
    method ReadWords(data: array<Byte>, len: nat) returns (ghost got: seq<Byte>)
      requires InSync() && Shifting(device.tap) && 4 * len <= data.Length
      modifies device, data
      ensures InSync() && Shifting(device.tap) && device.tap.state == old(device.tap.state)
      ensures device.tap.ir == old(device.tap.ir) && device.tap.updates == old(device.tap.updates)
      ensures |got| == 4 * len && data[..] == Overwritten(old(data[..]), 0, got)
      ensures old(device.tap.state) == Shift(Dr) ==>
        BitsRead(device.chip, old(device.tap), device.tap, got, 32 * len)
    {
      var left, at := len, 0;
      ghost var start, whole := device.tap, data[..];
      got := [];
      NoWordsYet(device.chip, start);
      while left > 0
        invariant |got| == at && at + 4 * left == 4 * len
        invariant InSync() && Shifting(device.tap) && device.tap.state == start.state
        invariant device.tap.ir == start.ir && device.tap.updates == start.updates
        invariant data[..] == Overwritten(whole, 0, got)
        invariant start.state == Shift(Dr) ==> BitsRead(device.chip, start, device.tap, got, 8 * at)
      {
        ghost var t := device.tap;
        ghost var word := ReadWord(data, at);
        OverwrittenInOrder(whole, got, word);
        if start.state == Shift(Dr) {
          OneWordMore(device.chip, start, t, device.tap, got, got + word, 8 * at);
        }
        left, at, got := left - 1, at + 4, got + word;
      }
    }

    method ReadWord(data: array<Byte>, at: nat) returns (ghost word: seq<Byte>)
      requires InSync() && Shifting(device.tap) && at + 4 <= data.Length
      modifies device, data
      ensures InSync() && Shifting(device.tap) && device.tap.state == old(device.tap.state)
      ensures device.tap.ir == old(device.tap.ir) && device.tap.updates == old(device.tap.updates)
      ensures |word| == 4 && data[..] == Overwritten(old(data[..]), at, word)
      ensures old(device.tap.state) == Shift(Dr) ==>
        && device.tap.drIn == old(device.tap.drIn) + Constant(true, 32) && device.tap.tdi
        && device.tap.clocks == old(device.tap.clocks) + 32
        && word == Packed(Line(device.chip, old(device.tap.clocks), 32))
    {
      OnesSent(32);
      word := Packed(Seen(device.chip, device.tap, Sent(null, 32)));
      ShiftData(32, null, data, at, false);
    }

    /** One call from outside; it updates what the call before it has left open. */
    method Perform(call: Call)
      requires InSync() && call.Fits()
      modifies this, device, call.Filled()
      ensures InSync()
      ensures old(device.tap.updates) + Pending(AtCall(call, old(device.tap))) <= device.tap.updates
      ensures Intact(device.chip) && call.Write? ==>
        LeftOpen(device.tap, WriteBits(call.address, old(call.Held()), call.len))
      ensures Intact(device.chip) ==> Requested(call, device.tap.updates, |device.tap.updates|)
    {
      match call {
        case Search =>
          var ret, configured, asked, at := Init();
        case Status =>
          var error := CheckStatus();
        case Reconfigure =>
          var ret := Reload();
        case Write(address, data, len) =>
          var ret := WriteBuffer(address, data, len);
        case Read(address, data, len) =>
          var ret := ReadBuffer(address, data, len);
      }
    }

    /** The next call, with its entry. */
    method Logged(calls: seq<Call>, i: nat, ghost log: seq<Entry>, ghost start: seq<seq<Byte>>)
      returns (ghost log': seq<Entry>)
      requires InSync() && i < |calls| <= |start| && calls[i].Fits() && BuffersHold(calls, i, start)
      requires IsLogOf(log, calls[..i], start) && (Intact(device.chip) ==> Recorded(log, device.tap))
      modifies this, device, calls[i].Filled()
      ensures InSync() && BuffersHold(calls, i + 1, start)
      ensures IsLogOf(log', calls[..i + 1], start) && (Intact(device.chip) ==> Recorded(log', device.tap))
    {
      ghost var call, t, held := calls[i], device.tap, calls[i].Held();
      forall k | i < k < |calls| && NotFilled(calls[..i + 1], calls[k])
        ensures calls[k].Held() == start[k] && calls[k].data !in calls[i].Filled()
      {
        NotFilledBefore(calls, i, calls[k]);
      }
      Perform(calls[i]);
      log' := NextLog(calls, i, log, start, held, Intact(device.chip), t, device.tap);
    }

    /**
     Any sequence of calls after the search, from power-up and any state of the device: agreement
     is kept. The log says what each write has sent and how many updates there were after each
     call: with an intact chain every request of a read, and every write but one at the end, has
     been updated, in the order of the calls.
     */
    method Session(calls: seq<Call>) returns (ghost log: seq<Entry>)
      requires state == JS_RESET && forall k :: 0 <= k < |calls| ==> calls[k].Fits()
      modifies this, device, FilledBy(calls)
      ensures InSync() && IsLogOf(log, calls, old(AllHeld(calls)))
      ensures Intact(device.chip) ==> Recorded(log, device.tap)
    {
      log := [];
      ghost var start := AllHeld(calls);
      var ret, configured, asked, at := Init();
      for i := 0 to |calls|
        invariant InSync() && IsLogOf(log, calls[..i], start)
        invariant Intact(device.chip) ==> Recorded(log, device.tap)
        invariant BuffersHold(calls, i, start)
      {
        log := Logged(calls, i, log, start);
      }
      TakeAll(calls);
    }
  }

  /** A call of the driver from outside. */
  datatype Call =
    | Search
    | Status
    | Reconfigure
    | Write(address: nat, data: array<Byte>, len: nat)
    | Read(address: nat, data: array<Byte>, len: nat)
  {
    /** The address and the length are numbers of 32 bits, and the buffer is large enough. */
    predicate Fits() {
      match this
      case Write(address, data, len) => address < 0x1_0000_0000 && 4 * len < data.Length
      case Read(address, data, len) => address < 0x1_0000_0000 && len < 0x1_0000_0000 && 4 * len <= data.Length
      case _ => true
    }

    function Filled(): set<array<Byte>> {
      if Read? then {data} else {}
    }

    function Held(): seq<Byte>
      reads if Write? then {data} else {}
    {
      if Write? then data[..] else []
    }

    /** The bits of a write whose buffer holds `bytes`. */
    ghost predicate Sends(bytes: seq<Byte>, w: Word) {
      Write? ==> 4 * len < |bytes| && w == WriteBits(address, bytes, len)
    }
  }

  function FilledBy(calls: seq<Call>): (s: set<array<Byte>>)
    ensures forall k :: 0 <= k < |calls| ==> calls[k].Filled() <= s
  {
    set k | 0 <= k < |calls| && calls[k].Read? :: calls[k].data
  }

  lemma TakeAll<T>(s: seq<T>)
    ensures s[..|s|] == s
  {
  }

  /** The call writes, and none of `calls` reads into its buffer. */
  ghost predicate NotFilled(calls: seq<Call>, call: Call) {
    call.Write? && forall k :: 0 <= k < |calls| && calls[k].Read? ==> calls[k].data != call.data
  }

  lemma NotFilledBefore(calls: seq<Call>, i: nat, call: Call)
    requires i < |calls| && NotFilled(calls[..i + 1], call)
    ensures NotFilled(calls[..i], call) && call.data !in calls[i].Filled()
  {
    assert calls[..i + 1][i] == calls[i] && calls[..i] == calls[..i + 1][..i];
  }

  /** The buffers of the writes from number `i` on are as they were, unless a read has filled them. */
  ghost predicate BuffersHold(calls: seq<Call>, i: nat, start: seq<seq<Byte>>)
    requires i <= |calls| <= |start|
    reads set k | 0 <= k < |calls| && calls[k].Write? :: calls[k].data
  {
    forall k :: i <= k < |calls| && NotFilled(calls[..i], calls[k]) ==> calls[k].Held() == start[k]
  }

  ghost function AllHeld(calls: seq<Call>): (s: seq<seq<Byte>>)
    reads set k | 0 <= k < |calls| && calls[k].Write? :: calls[k].data
    ensures |s| == |calls| && forall k :: 0 <= k < |calls| ==> s[k] == calls[k].Held()
  {
    if calls == [] then [] else AllHeld(calls[..|calls| - 1]) + [calls[|calls| - 1].Held()]
  }

  /** The device when a call begins: the search sets the pin before anything else. */
  function AtCall(call: Call, t: Tap): Tap {
    if call.Search? then t.(tdi := true) else t
  }

  ghost predicate LeftOpen(t: Tap, w: Word) {
    w != [] && t.state == Shift(Dr) && Pending(t) == [VdrScan(WithExit(w))]
  }

  /** What a call has sent as a write, and how many updates there were behind it. */
  datatype Entry = Entry(call: Call, sent: Word, at: nat)

  /** A write has sent what its buffer held at the start, unless a read has filled that in between. */
  ghost predicate IsLogOf(log: seq<Entry>, calls: seq<Call>, start: seq<seq<Byte>>) {
    && |log| == |calls| <= |start|
    && forall k :: 0 <= k < |log| ==>
         log[k].call == calls[k] && (NotFilled(calls[..k], calls[k]) ==> calls[k].Sends(start[k], log[k].sent))
  }

  lemma LogMore(log: seq<Entry>, calls: seq<Call>, n: nat, start: seq<seq<Byte>>)
    requires n < |calls| <= |start| && |log| == n + 1 && IsLogOf(log[..n], calls[..n], start)
    requires log[n].call == calls[n]
    requires NotFilled(calls[..n], calls[n]) ==> calls[n].Sends(start[n], log[n].sent)
    ensures IsLogOf(log, calls[..n + 1], start)
  {
    forall k | 0 <= k < n + 1
      ensures calls[..n + 1][..k] == calls[..k] && (k < n ==> calls[..n][..k] == calls[..k] && log[..n][k] == log[k])
    {
    }
  }

  /** The request of a read is the update before the last, which is the instruction for reading. */
  ghost predicate Requested(call: Call, updates: seq<DataScan>, n: nat) {
    call.Read? ==> 2 <= n <= |updates| && updates[n - 2] == VdrScan(Request(call.address, call.len))
  }

  /** The write is update number `n`; the exit took the bit on the pin, or that of a search. */
  ghost predicate Arrived(w: Word, next: Call, updates: seq<DataScan>, n: nat) {
    w != [] && n < |updates| && updates[n] == VdrScan(w + [next.Search? || w[|w| - 1]])
  }

  ghost predicate EntryHolds(log: seq<Entry>, k: nat, updates: seq<DataScan>)
    requires k < |log|
  {
    && log[k].at <= |updates| && Requested(log[k].call, updates, log[k].at)
    && (k + 1 < |log| ==> log[k].at <= log[k + 1].at)
    && (k + 1 < |log| && log[k].call.Write? ==>
         log[k].at < log[k + 1].at && Arrived(log[k].sent, log[k + 1].call, updates, log[k].at))
  }

  ghost predicate Recorded(log: seq<Entry>, t: Tap) {
    && (forall k :: 0 <= k < |log| ==> EntryHolds(log, k, t.updates))
    && (log != [] ==>
         var e := log[|log| - 1];
         e.at == |t.updates| && (e.call.Write? ==> LeftOpen(t, e.sent)))
  }

  lemma LeftIsPending(t: Tap, w: Word, call: Call)
    requires LeftOpen(t, w)
    ensures Pending(AtCall(call, t)) == [VdrScan(w + [call.Search? || w[|w| - 1]])]
  {
    assert t.drIn == (t.drIn + [t.tdi])[..|w|] == WithExit(w)[..|w|] == w;
  }

  /** An entry with another one behind it. */
  lemma EntryStays(log: seq<Entry>, k: nat, e: Entry, before: seq<DataScan>, updates: seq<DataScan>)
    requires k < |log| - 1 && EntryHolds(log, k, before) && before <= updates
    ensures EntryHolds(log + [e], k, updates)
  {
  }

  /** The last entry: what the call has left open is now updated. */
  lemma EntryCloses(log: seq<Entry>, t: Tap, e: Entry, updates: seq<DataScan>)
    requires log != [] && Recorded(log, t)
    requires t.updates + Pending(AtCall(e.call, t)) <= updates && e.at == |updates|
    ensures EntryHolds(log + [e], |log| - 1, updates)
  {
    var last := log[|log| - 1];
    assert EntryHolds(log, |log| - 1, t.updates);
    if last.call.Write? {
      LeftIsPending(t, last.sent, e.call);
      assert updates[|t.updates|] == Pending(AtCall(e.call, t))[0];
    }
  }

  lemma OneCallMore(log: seq<Entry>, t: Tap, e: Entry, t': Tap)
    requires Recorded(log, t)
    requires t.updates + Pending(AtCall(e.call, t)) <= t'.updates && e.at == |t'.updates|
    requires Requested(e.call, t'.updates, e.at) && (e.call.Write? ==> LeftOpen(t', e.sent))
    ensures Recorded(log + [e], t')
  {
    if log != [] {
      EntryCloses(log, t, e, t'.updates);
    }
    forall k | 0 <= k < |log| - 1 ensures EntryHolds(log + [e], k, t'.updates) {
      EntryStays(log, k, e, t.updates, t'.updates);
    }
  }

  /** `held` is what the buffer of the call held, `t` and `t'` are the device before and behind it. */
  lemma NextLog(
      calls: seq<Call>, i: nat, log: seq<Entry>, start: seq<seq<Byte>>, held: seq<Byte>, intact: bool, t: Tap, t': Tap)
    returns (log': seq<Entry>)
    requires i < |calls| <= |start| && IsLogOf(log, calls[..i], start) && (intact ==> Recorded(log, t))
    requires calls[i].Write? ==> 4 * calls[i].len < |held|
    requires NotFilled(calls[..i], calls[i]) ==> held == start[i]
    requires intact ==> t.updates + Pending(AtCall(calls[i], t)) <= t'.updates
    requires intact && calls[i].Write? ==> LeftOpen(t', WriteBits(calls[i].address, held, calls[i].len))
    requires intact ==> Requested(calls[i], t'.updates, |t'.updates|)
    ensures IsLogOf(log', calls[..i + 1], start) && (intact ==> Recorded(log', t'))
  {
    var call := calls[i];
    var e := Entry(call, if call.Write? then WriteBits(call.address, held, call.len) else [], |t'.updates|);
    log' := log + [e];
    LogMore(log', calls, i, start);
    if intact {
      OneCallMore(log, t, e, t');
    }
  }
}
