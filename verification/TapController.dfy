// The TAP controller of a device (IEEE Std 1149.1-2013, clause 6.1), and what shifting does to it.
module TapController {
  import opened Bits

  // The device: a TAP controller as the standard draws it, the same column of states twice

  datatype Register = Dr | Ir

  datatype TapState =
    | TestLogicReset
    | RunTestIdle
    | Select(r: Register)
    | Capture(r: Register)
    | Shift(r: Register)
    | Exit1(r: Register)
    | Pause(r: Register)
    | Exit2(r: Register)
    | Update(r: Register)

  function TapNext(s: TapState, tms: bool): TapState {
    match s
    case TestLogicReset => if tms then TestLogicReset else RunTestIdle
    case RunTestIdle => if tms then Select(Dr) else RunTestIdle
    case Select(r) => if !tms then Capture(r) else if r == Dr then Select(Ir) else TestLogicReset
    case Capture(r) => if tms then Exit1(r) else Shift(r)
    case Shift(r) => if tms then Exit1(r) else Shift(r)
    case Exit1(r) => if tms then Update(r) else Pause(r)
    case Pause(r) => if tms then Exit2(r) else Pause(r)
    case Exit2(r) => if tms then Update(r) else Shift(r)
    case Update(r) => if tms then Select(Dr) else RunTestIdle
  }

  const INST_LEN := 10

  type Inst = w: Word | |w| == INST_LEN witness Constant(false, INST_LEN)

  /** The instruction of a number. */
  function Instruction(action: nat): Inst {
    ToBits(action, INST_LEN)
  }

  /** A data scan: the instruction it was done under, and its bits. */
  datatype DataScan = DataScan(inst: Inst, bits: Word)

  /**
   What the device brings along, by the number of the clock: the bits it captures into the
   instruction register, what its data registers shift out, and the instruction after a reset.
   */
  datatype Chip = Chip(captures: nat -> Inst, line: nat -> bool, afterReset: Inst)

  /**
   The pins TMS and TDI, the controller, the instruction register, the bits that the current
   data scan has shifted in, and those of all scans that have been updated.
   */
  datatype Tap = Tap(
    state: TapState, tms: bool, tdi: bool, clocks: nat,
    ir: Inst, irShift: Inst, captured: Inst, drIn: Word, updates: seq<DataScan>)

  /** A rising edge of TCK. */
  function Pulse(chip: Chip, t: Tap): Tap {
    var next := TapNext(t.state, t.tms);
    var irShift: Inst :=
      if t.state == Capture(Ir) then chip.captures(t.clocks)
      else if t.state == Shift(Ir) then t.irShift[1..] + [t.tdi]
      else t.irShift;
    var drIn := if t.state == Capture(Dr) then [] else if t.state == Shift(Dr) then t.drIn + [t.tdi] else t.drIn;
    Tap(next, t.tms, t.tdi, t.clocks + 1,
        if next == Update(Ir) then irShift else if next == TestLogicReset then chip.afterReset else t.ir,
        irShift,
        if t.state == Capture(Ir) then irShift else t.captured,
        drIn,
        if next == Update(Dr) then t.updates + [DataScan(t.ir, drIn)] else t.updates)
  }

  function Tdo(chip: Chip, t: Tap): bool {
    if t.state == Shift(Ir) then t.irShift[0] else chip.line(t.clocks)
  }

  /** Five clocks with TMS high reset the controller, whatever its state. */
  function Ones(s: TapState, n: nat): TapState {
    if n == 0 then s else TapNext(Ones(s, n - 1), true)
  }

  const JSM_RESET_COUNT := 5

  lemma OnesReset(s: TapState)
    ensures Ones(s, JSM_RESET_COUNT) == TestLogicReset
  {
    var s1 := TapNext(s, true);
    var s2 := TapNext(s1, true);
    assert Ones(s, 1) == s1 && Ones(s, 2) == s2 && Ones(s, 3) == TapNext(s2, true);
    assert Ones(s, 4) == TapNext(Ones(s, 3), true);
  }

  // Shifting: clocks that set TDI and leave TMS alone

  predicate Shifting(t: Tap) {
    t.state.Shift? && !t.tms
  }

  /** The bits go out one by one; with `hold`, the last one waits on the pin for the next clock. */
  function Scan(chip: Chip, t: Tap, bits: Word, hold: bool): Tap
    decreases |bits|
  {
    if bits == [] then t
    else if |bits| == 1 && hold then t.(tdi := bits[0])
    else Scan(chip, Pulse(chip, t.(tdi := bits[0])), bits[1..], hold)
  }

  /** What TDO shows before each of these clocks. */
  function Seen(chip: Chip, t: Tap, bits: Word): (w: Word)
    ensures |w| == |bits|
    decreases |bits|
  {
    if bits == [] then [] else [Tdo(chip, t)] + Seen(chip, Pulse(chip, t.(tdi := bits[0])), bits[1..])
  }

  /** How many of the bits are clocked in at once. */
  function Clocked(bits: Word, hold: bool): (k: nat)
    ensures k <= |bits|
  {
    if hold && bits != [] then |bits| - 1 else |bits|
  }

  function LastOr(bits: Word, otherwise: bool): bool {
    if bits == [] then otherwise else bits[|bits| - 1]
  }

  /** Data: `k` bits more in the scan. */
  function DataIn(t: Tap, bits: Word, k: nat): Tap
    requires k <= |bits|
  {
    t.(tdi := LastOr(bits, t.tdi), clocks := t.clocks + k, drIn := t.drIn + bits[..k])
  }

  lemma DataStep(chip: Chip, t: Tap, bits: Word, k: nat)
    requires Shifting(t) && t.state.r == Dr && 0 < k <= |bits|
    ensures
      var t' := Pulse(chip, t.(tdi := bits[0]));
      && t' == t.(tdi := bits[0], clocks := t.clocks + 1, drIn := t.drIn + [bits[0]])
      && DataIn(t', bits[1..], k - 1) == DataIn(t, bits, k)
  {
    assert t.drIn + bits[..k] == (t.drIn + [bits[0]]) + bits[1..][..k - 1];
  }

  lemma {:induction false} ScanOfData(chip: Chip, t: Tap, bits: Word, hold: bool)
    requires Shifting(t) && t.state.r == Dr
    ensures Scan(chip, t, bits, hold) == DataIn(t, bits, Clocked(bits, hold))
    decreases |bits|
  {
    var k := Clocked(bits, hold);
    if k > 0 {
      DataStep(chip, t, bits, k);
      ScanOfData(chip, Pulse(chip, t.(tdi := bits[0])), bits[1..], hold);
    } else {
      assert t.drIn + bits[..0] == t.drIn;
    }
  }

  /** What the data registers show during `n` clocks. */
  function Line(chip: Chip, from: nat, n: nat): (w: Word)
    ensures |w| == n && forall i :: 0 <= i < n ==> w[i] == chip.line(from + i)
  {
    seq(n, i requires 0 <= i => chip.line(from + i))
  }

  lemma LineNext(chip: Chip, from: nat, n: nat)
    requires n > 0
    ensures Line(chip, from, n) == [chip.line(from)] + Line(chip, from + 1, n - 1)
  {
  }

  lemma SeenNext(chip: Chip, t: Tap, bits: Word)
    requires Shifting(t) && t.state.r == Dr && bits != []
    ensures
      var t' := Pulse(chip, t.(tdi := bits[0]));
      && Shifting(t') && t'.state.r == Dr && t'.clocks == t.clocks + 1
      && Seen(chip, t, bits) == [chip.line(t.clocks)] + Seen(chip, t', bits[1..])
  {
  }

  lemma {:induction false} SeenOfData(chip: Chip, t: Tap, bits: Word)
    requires Shifting(t) && t.state.r == Dr
    ensures Seen(chip, t, bits) == Line(chip, t.clocks, |bits|)
    decreases |bits|
  {
    if bits != [] {
      SeenNext(chip, t, bits);
      SeenOfData(chip, Pulse(chip, t.(tdi := bits[0])), bits[1..]);
      LineNext(chip, t.clocks, |bits|);
    }
  }

  /** An instruction: `k` bits move through the register. */
  function InstIn(t: Tap, bits: Word, k: nat): Tap
    requires k <= |bits|
  {
    t.(tdi := LastOr(bits, t.tdi), clocks := t.clocks + k, irShift := (t.irShift + bits[..k])[k..])
  }

  lemma InstStep(chip: Chip, t: Tap, bits: Word, k: nat)
    requires Shifting(t) && t.state.r == Ir && 0 < k <= |bits|
    ensures
      var t' := Pulse(chip, t.(tdi := bits[0]));
      && t' == t.(tdi := bits[0], clocks := t.clocks + 1, irShift := t.irShift[1..] + [bits[0]])
      && InstIn(t', bits[1..], k - 1) == InstIn(t, bits, k)
  {
    InstPulse(chip, t, bits);
    Shifted(t.irShift, bits, k);
    assert LastOr(bits[1..], bits[0]) == LastOr(bits, t.tdi);
  }

  lemma InstPulse(chip: Chip, t: Tap, bits: Word)
    requires Shifting(t) && t.state.r == Ir && bits != []
    ensures Pulse(chip, t.(tdi := bits[0]))
         == t.(tdi := bits[0], clocks := t.clocks + 1, irShift := t.irShift[1..] + [bits[0]])
  {
  }

  lemma Shifted(w: Word, bits: Word, k: nat)
    requires w != [] && 0 < k <= |bits|
    ensures (w + bits[..k])[k..] == (w[1..] + [bits[0]] + bits[1..][..k - 1])[k - 1..]
  {
    var rest := bits[1..][..k - 1];
    assert w + bits[..k] == [w[0]] + (w[1..] + [bits[0]] + rest);
  }

  lemma {:induction false} ScanOfInstruction(chip: Chip, t: Tap, bits: Word, hold: bool)
    requires Shifting(t) && t.state.r == Ir
    ensures Scan(chip, t, bits, hold) == InstIn(t, bits, Clocked(bits, hold))
    decreases |bits|
  {
    var k := Clocked(bits, hold);
    if k > 0 {
      var t' := Pulse(chip, t.(tdi := bits[0]));
      InstStep(chip, t, bits, k);
      ScanOfInstruction(chip, t', bits[1..], hold);
      assert Scan(chip, t, bits, hold) == Scan(chip, t', bits[1..], hold);
    } else {
      NothingShifted(t.irShift, bits);
    }
  }

  lemma NothingShifted(w: Word, bits: Word)
    ensures (w + bits[..0])[0..] == w
  {
  }

  lemma ShiftedAt(w: Word, bits: Word, i: nat)
    requires w != [] && 0 < i < |bits|
    ensures (w + bits)[i] == (w[1..] + [bits[0]] + bits[1..])[i - 1]
  {
  }

  lemma {:induction false} SeenOfInstruction(chip: Chip, t: Tap, bits: Word, i: nat)
    requires Shifting(t) && t.state.r == Ir && i < |bits|
    ensures Seen(chip, t, bits)[i] == (t.irShift + bits)[i]
    decreases |bits|
  {
    if i > 0 {
      InstStep(chip, t, bits, 1);
      SeenOfInstruction(chip, Pulse(chip, t.(tdi := bits[0])), bits[1..], i - 1);
      ShiftedAt(t.irShift, bits, i);
    }
  }

  /** One turn of a loop that shifts. */
  lemma ScanNext(chip: Chip, t: Tap, bits: Word, hold: bool, done: Word, seen: Word)
    requires bits != [] && done + Seen(chip, t, bits) == seen
    ensures
      var t' := t.(tdi := bits[0]);
      var next := if |bits| == 1 && hold then t' else Pulse(chip, t');
      && Scan(chip, next, bits[1..], hold) == Scan(chip, t, bits, hold)
      && done + [Tdo(chip, t)] + Seen(chip, next, bits[1..]) == seen
  {
    var next := if |bits| == 1 && hold then t.(tdi := bits[0]) else Pulse(chip, t.(tdi := bits[0]));
    if |bits| == 1 {
      assert bits[1..] == [];
    }
    assert Seen(chip, t, bits) == [Tdo(chip, t)] + Seen(chip, next, bits[1..]);
    Behind(done, Tdo(chip, t), Seen(chip, next, bits[1..]));
  }

  lemma Behind(done: Word, b: bool, rest: Word)
    ensures done + ([b] + rest) == done + [b] + rest
  {
  }

  /** Held back, the last bit of a data scan goes in with the exit. */
  lemma ExitCarriesLast(chip: Chip, t: Tap, bits: Word)
    requires Shifting(t) && t.state.r == Dr
    ensures
      var end := Scan(chip, t, bits, true);
      && (if bits == [] then end == t else end.drIn + [end.tdi] == t.drIn + bits)
      && end.state == t.state && end.ir == t.ir && end.captured == t.captured && end.updates == t.updates
  {
    ScanOfData(chip, t, bits, true);
    LastBehind(t.drIn, bits);
  }

  lemma LastBehind(done: Word, bits: Word)
    ensures bits != [] ==> done + bits[..|bits| - 1] + [bits[|bits| - 1]] == done + bits
  {
  }

  /** In either register: the controller stays where it is. */
  lemma ScanStays(chip: Chip, t: Tap, bits: Word, hold: bool)
    requires Shifting(t)
    ensures
      var end := Scan(chip, t, bits, hold);
      && end.clocks == t.clocks + Clocked(bits, hold)
      && end == t.(tdi := end.tdi, clocks := end.clocks, irShift := end.irShift, drIn := end.drIn)
  {
    if t.state.r == Dr {
      ScanOfData(chip, t, bits, hold);
    } else {
      ScanOfInstruction(chip, t, bits, hold);
    }
  }

  /** Ten bits with the last on the pin: all that was captured comes out, all that is sent goes in. */
  lemma InstructionPasses(chip: Chip, t: Tap, bits: Inst)
    requires Shifting(t) && t.state.r == Ir
    ensures Seen(chip, t, bits) == t.irShift
    ensures
      var end := Scan(chip, t, bits, true);
      && end.irShift[1..] + [end.tdi] == bits
      && Shifting(end) && end.state == t.state && end.captured == t.captured && end.updates == t.updates
  {
    ScanOfInstruction(chip, t, bits, true);
    forall i | 0 <= i < INST_LEN ensures Seen(chip, t, bits)[i] == t.irShift[i] {
      SeenOfInstruction(chip, t, bits, i);
    }
  }

  // Walking through the diagram

  function Advance(chip: Chip, t: Tap, mode: bool): Tap {
    Pulse(chip, t.(tms := mode))
  }

  /** The scan that is updated when TMS goes high and stays high. */
  function Pending(t: Tap): seq<DataScan> {
    match t.state
    case Capture(Dr) => [DataScan(t.ir, [])]
    case Shift(Dr) => [DataScan(t.ir, t.drIn + [t.tdi])]
    case Exit1(Dr) => [DataScan(t.ir, t.drIn)]
    case Pause(Dr) => [DataScan(t.ir, t.drIn)]
    case Exit2(Dr) => [DataScan(t.ir, t.drIn)]
    case _ => []
  }

  lemma OnesConserve(chip: Chip, t: Tap)
    ensures
      var t' := Advance(chip, t, true);
      && t'.updates + Pending(t') == t.updates + Pending(t)
      && (t.state != Capture(Ir) ==> t'.state != Capture(Ir) && t'.captured == t.captured)
  {
  }

  /** From data shifting to the update: the bit on the pin goes in with the exit. */
  lemma ShiftToUpdate(chip: Chip, t: Tap)
    requires t.state == Shift(Dr)
    ensures Advance(chip, Advance(chip, t, true), true)
         == t.(state := Update(Dr), tms := true, clocks := t.clocks + 2,
               drIn := t.drIn + [t.tdi], updates := t.updates + [DataScan(t.ir, t.drIn + [t.tdi])])
  {
  }

  lemma InstToUpdate(chip: Chip, t: Tap)
    requires t.state == Shift(Ir)
    ensures
      var word := t.irShift[1..] + [t.tdi];
      Advance(chip, Advance(chip, t, true), true)
      == t.(state := Update(Ir), tms := true, clocks := t.clocks + 2, ir := word, irShift := word)
  {
  }

  lemma UpdateToShift(chip: Chip, t: Tap)
    requires t.state.Update?
    ensures Advance(chip, Advance(chip, Advance(chip, t, true), false), false)
         == t.(state := Shift(Dr), tms := false, clocks := t.clocks + 3, drIn := [])
  {
  }

  lemma IdleToSelect(chip: Chip, t: Tap)
    requires t.state.RunTestIdle? || t.state.TestLogicReset?
    ensures Advance(chip, Advance(chip, t, false), true)
         == t.(state := Select(Dr), tms := true, clocks := t.clocks + 2)
  {
  }

  lemma IdleToShift(chip: Chip, t: Tap)
    requires t.state.RunTestIdle? || t.state.TestLogicReset?
    ensures
      var select := Advance(chip, Advance(chip, Advance(chip, t, false), false), true);
      Advance(chip, Advance(chip, select, false), false)
      == t.(state := Shift(Dr), tms := false, clocks := t.clocks + 5, drIn := [])
  {
    var t1 := Advance(chip, t, false);
    IdleToSelect(chip, t1);
    var t3 := Advance(chip, Advance(chip, t1, false), true);
    assert Advance(chip, Advance(chip, t3, false), false)
        == t3.(state := Shift(Dr), tms := false, clocks := t3.clocks + 2, drIn := []);
  }

  lemma IdleToShiftInst(chip: Chip, t: Tap)
    requires t.state.RunTestIdle? || t.state.TestLogicReset?
    ensures
      var c := chip.captures(t.clocks + 4);
      Advance(chip, Advance(chip, Advance(chip, Advance(chip, Advance(chip, t, false), true), true), false), false)
      == t.(state := Shift(Ir), tms := false, clocks := t.clocks + 5, irShift := c, captured := c)
  {
    IdleToSelect(chip, t);
    var t2 := Advance(chip, Advance(chip, t, false), true);
    var t4 := Advance(chip, Advance(chip, t2, true), false);
    assert t4 == t2.(state := Capture(Ir), tms := false, clocks := t2.clocks + 2);
  }

  datatype Pin = TMS | TDI

  class Device {
    const chip: Chip
    var tap: Tap

    constructor (chip: Chip, tap: Tap)
      ensures this.chip == chip && this.tap == tap
    {
      this.chip, this.tap := chip, tap;
    }

    method SetPin(pin: Pin, level: bool)
      modifies this
      ensures tap == if pin == TMS then old(tap).(tms := level) else old(tap).(tdi := level)
    {
      tap := if pin == TMS then tap.(tms := level) else tap.(tdi := level);
    }

    method Clock()
      modifies this
      ensures tap == Pulse(chip, old(tap))
    {
      tap := Pulse(chip, tap);
    }
  }
}
