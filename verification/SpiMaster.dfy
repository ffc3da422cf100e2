// The SPI master: sixteen clock edges for every byte, in any of the four modes.
module SpiMasters {
  import opened Bits
  import opened Clocks

  /** The clock's idle level, and whether data is sampled on the second edge of a pair. */
  datatype Mode = Mode(cpol: bool, cpha: bool)

  /** The mode of a number of the parameter SPI_MODE. */
  function ModeOf(number: nat): Mode {
    Mode(number == 2 || number == 3, number == 1 || number == 3)
  }

  /** The number of a mode: polarity counts two, phase counts one. */
  lemma ModesAreNumbered(mode: Mode)
    ensures ModeOf((if mode.cpol then 2 else 0) + if mode.cpha then 1 else 0) == mode
  {
  }

  const EDGES := 16

  /** The edge generator. */
  datatype Edges = Edges(ready: bool, left: nat, leading: bool, trailing: bool, clk: bool, count: nat)

  /** The side that sends. */
  datatype Sender = Sender(valid: bool, byte: Octet, mosi: bool, bit: Index)

  /** The side that receives. */
  datatype Receiver = Receiver(valid: bool, byte: Octet, bit: Index)

  datatype Master = Master(edges: Edges, tx: Sender, rx: Receiver, clkOut: bool)

  /** The wires of one clock: the byte to send, and what the slave answers. */
  datatype Wires = Wires(valid: bool, byte: Octet, miso: bool)

  function Less(i: Index): Index {
    if i == 0 then 7 else i - 1
  }

  function Reset(mode: Mode): Master {
    var zero := Constant(false, 8);
    var edges := Edges(false, 0, false, false, mode.cpol, 0);
    Master(edges, Sender(false, zero, false, 7), Receiver(false, zero, 7), mode.cpol)
  }

  /** `n` is the number of clocks for half a bit. */
  function NextEdges(n: nat, e: Edges, w: Wires): Edges {
    if w.valid then e.(ready := false, leading := false, trailing := false, left := EDGES)
    else if e.left == 0 then e.(ready := true, leading := false, trailing := false)
    else if e.count == 2 * n - 1 then Edges(false, e.left - 1, false, true, !e.clk, 0)
    else if e.count == n - 1 then Edges(false, e.left - 1, true, false, !e.clk, e.count + 1)
    else e.(ready := false, leading := false, trailing := false, count := e.count + 1)
  }

  function NextSender(mode: Mode, e: Edges, s: Sender, w: Wires): Sender {
    var byte := if w.valid then w.byte else s.byte;
    if e.ready then Sender(w.valid, byte, s.mosi, 7)
    else if s.valid && !mode.cpha then Sender(w.valid, byte, s.byte[7], 6)
    else if if mode.cpha then e.leading else e.trailing then Sender(w.valid, byte, s.byte[s.bit], Less(s.bit))
    else Sender(w.valid, byte, s.mosi, s.bit)
  }

  function NextReceiver(mode: Mode, e: Edges, r: Receiver, w: Wires): Receiver {
    if e.ready then Receiver(false, r.byte, 7)
    else if if mode.cpha then e.trailing else e.leading then
      Receiver(r.bit == 0, r.byte[r.bit := w.miso], Less(r.bit))
    else r.(valid := false)
  }

  function Step(mode: Mode, n: nat, s: Master, w: Wires): Master {
    var e := s.edges;
    Master(NextEdges(n, e, w), NextSender(mode, e, s.tx, w), NextReceiver(mode, e, s.rx, w), e.clk)
  }

  class SpiMaster {
    const mode: Mode
    const clksPerHalfBit: nat
    var ready: bool
    var left: nat
    var leading: bool
    var trailing: bool
    var clk: bool
    var count: nat
    var txValid: bool
    var txByte: Octet
    var mosi: bool
    var txBit: Index
    var rxValid: bool
    var rxByte: Octet
    var rxBit: Index
    var clkOut: bool

    function EdgeState(): Edges
      reads this
    {
      Edges(ready, left, leading, trailing, clk, count)
    }

    function State(): Master
      reads this
    {
      Master(EdgeState(), Sender(txValid, txByte, mosi, txBit), Receiver(rxValid, rxByte, rxBit), clkOut)
    }

    constructor (number: nat, clksPerHalfBit: nat)
      ensures mode == ModeOf(number) && this.clksPerHalfBit == clksPerHalfBit && State() == Reset(mode)
    {
      mode, this.clksPerHalfBit := ModeOf(number), clksPerHalfBit;
      ready, left, leading, trailing, clk, count := false, 0, false, false, ModeOf(number).cpol, 0;
      txValid, txByte, mosi, txBit := false, Constant(false, 8), false, 7;
      rxValid, rxByte, rxBit, clkOut := false, Constant(false, 8), 7, ModeOf(number).cpol;
    }

    method Tick(w: Wires)
      modifies this
      ensures State() == Step(mode, clksPerHalfBit, old(State()), w)
    {
      clkOut := clk;
      MoveReceiver(w);
      MoveSender(w);
      MoveEdges(w);
    }

    method MoveReceiver(w: Wires)
      modifies this`rxValid, this`rxByte, this`rxBit
      ensures State().rx == NextReceiver(mode, EdgeState(), old(State().rx), w)
    {
      rxValid := false;
      if ready {
        rxBit := 7;
      } else if (leading && !mode.cpha) || (trailing && mode.cpha) {
        rxByte := rxByte[rxBit := w.miso];
        rxValid := rxBit == 0;
        rxBit := if rxBit == 0 then 7 else rxBit - 1;
      }
    }

    method MoveSender(w: Wires)
      modifies this`txValid, this`txByte, this`mosi, this`txBit
      ensures State().tx == NextSender(mode, EdgeState(), old(State().tx), w)
    {
      if ready {
        txBit := 7;
      } else if txValid && !mode.cpha {
        mosi, txBit := txByte[7], 6;
      } else if (leading && mode.cpha) || (trailing && !mode.cpha) {
        mosi, txBit := txByte[txBit], if txBit == 0 then 7 else txBit - 1;
      }
      txValid := w.valid;
      if w.valid { txByte := w.byte; }
    }

    method MoveEdges(w: Wires)
      modifies this`ready, this`left, this`leading, this`trailing, this`clk, this`count
      ensures EdgeState() == NextEdges(clksPerHalfBit, old(EdgeState()), w)
    {
      leading, trailing := false, false;
      if w.valid {
        ready, left := false, EDGES;
      } else if left > 0 {
        ready := false;
        if count == clksPerHalfBit * 2 - 1 {
          left, trailing, count, clk := left - 1, true, 0, !clk;
        } else if count == clksPerHalfBit - 1 {
          left, leading, count, clk := left - 1, true, count + 1, !clk;
        } else {
          count := count + 1;
        }
      } else {
        ready := true;
      }
    }
  }

  // Runs. A byte is offered only when the master is ready.

  datatype Bench = Bench(mode: Mode, n: nat, wires: nat -> Wires, st: nat -> Master)

  predicate StepAt(r: Bench, t: nat) {
    r.st(t + 1) == Step(r.mode, r.n, r.st(t), r.wires(t))
  }

  predicate PoliteAt(r: Bench, t: nat) {
    r.wires(t).valid ==> r.st(t).edges.ready
  }

  ghost predicate IsRun(r: Bench) {
    && r.n >= 2 && r.st(0) == Reset(r.mode)
    && (forall t: nat :: StepAt(r, t))
    && (forall t: nat :: PoliteAt(r, t))
  }

  // One byte. Half bit `i`, clock `d`: edge `i - 1` is the last that has come.

  predicate Odd(i: nat) {
    i % 2 == 1
  }

  predicate EdgesIn(mode: Mode, n: nat, e: Edges, i: nat, d: nat) {
    && !e.ready && e.left + i == EDGES && e.clk == (mode.cpol != Odd(i))
    && e.count == (if Odd(i) then n + d else d)
    && e.leading == (d == 0 && Odd(i)) && e.trailing == (d == 0 && i > 0 && !Odd(i))
  }

  /** How many of the events at the half bits `first`, `first + 2`, ... are over by half bit `i`, clock `d`. */
  function Over(first: nat, i: nat, d: nat): nat {
    var last := if d > 0 then i else i - 1;
    if last < first then 0 else (last - first) / 2 + 1
  }

  /** The bit that comes when `k` bits are done, highest first. */
  function NextBit(k: nat): Index {
    if k < 8 then 7 - k else 7
  }

  predicate SenderIn(mode: Mode, s: Sender, byte: Octet, i: nat, d: nat) {
    var k := Over(if mode.cpha then 1 else 0, i, d);
    && s.valid == (i == 0 && d == 0) && s.byte == byte
    && s.bit == NextBit(k) && (0 < k <= 8 ==> s.mosi == byte[8 - k])
  }

  /** The receiver has taken in the first bits of `word`. */
  predicate ReceiverIn(mode: Mode, s: Receiver, word: Octet, i: nat, d: nat) {
    var k := Over(FirstSample(mode), i, d);
    && k <= 8 && s.bit == NextBit(k) && (forall p :: 8 - k <= p < 8 ==> s.byte[p] == word[p])
    && s.valid == (i == 15 && d == 1 && !mode.cpha)
  }

  /** The half bit that begins with the first sampling edge. */
  function FirstSample(mode: Mode): nat {
    if mode.cpha then 2 else 1
  }

  predicate In(mode: Mode, n: nat, s: Master, byte: Octet, word: Octet, i: nat, d: nat) {
    && EdgesIn(mode, n, s.edges, i, d) && SenderIn(mode, s.tx, byte, i, d) && ReceiverIn(mode, s.rx, word, i, d)
    && s.clkOut == (mode.cpol != Odd(if d > 0 || i == 0 then i else i - 1))
  }

  /** Ready for the next byte, with the clock at its idle level. */
  predicate Resting(mode: Mode, s: Master) {
    s.edges == Edges(true, 0, false, false, mode.cpol, 0) && s.clkOut == mode.cpol && !s.tx.valid
  }

  lemma Begins(mode: Mode, n: nat, s: Master, w: Wires, word: Octet)
    requires Resting(mode, s) && w.valid && n >= 2
    ensures In(mode, n, Step(mode, n, s, w), w.byte, word, 0, 0)
  {
  }

  lemma EdgesMove(mode: Mode, n: nat, e: Edges, w: Wires, i: nat, d: nat)
    requires EdgesIn(mode, n, e, i, d) && !w.valid && i < 16 && d < n && n >= 2
    ensures d + 1 < n ==> EdgesIn(mode, n, NextEdges(n, e, w), i, d + 1)
    ensures d + 1 == n ==> EdgesIn(mode, n, NextEdges(n, e, w), i + 1, 0)
  {
  }

  lemma SenderMoves(mode: Mode, n: nat, e: Edges, s: Sender, w: Wires, byte: Octet, i: nat, d: nat)
    requires EdgesIn(mode, n, e, i, d) && SenderIn(mode, s, byte, i, d) && !w.valid && i < 16 && d < n && n >= 2
    ensures d + 1 < n ==> SenderIn(mode, NextSender(mode, e, s, w), byte, i, d + 1)
    ensures d + 1 == n ==> SenderIn(mode, NextSender(mode, e, s, w), byte, i + 1, 0)
  {
  }

  /** Which sample is taken at the beginning of half bit `i`. */
  predicate IsSample(mode: Mode, i: nat, d: nat, q: nat) {
    d == 0 && q < 8 && i == FirstSample(mode) + 2 * q
  }

  predicate Answers(mode: Mode, w: Wires, word: Octet, i: nat, d: nat) {
    forall q :: 0 <= q < 8 && IsSample(mode, i, d, q) ==> w.miso == word[7 - q]
  }

  lemma ReceiverMoves(mode: Mode, n: nat, e: Edges, s: Receiver, w: Wires, word: Octet, i: nat, d: nat)
    requires EdgesIn(mode, n, e, i, d) && ReceiverIn(mode, s, word, i, d) && Answers(mode, w, word, i, d)
    requires i < 16 && d < n && n >= 2
    ensures d + 1 < n ==> ReceiverIn(mode, NextReceiver(mode, e, s, w), word, i, d + 1)
    ensures d + 1 == n ==> ReceiverIn(mode, NextReceiver(mode, e, s, w), word, i + 1, 0)
  {
    var q := Over(FirstSample(mode), i, 0);
    if d == 0 && i >= FirstSample(mode) && Odd(i) == !mode.cpha {
      assert IsSample(mode, i, d, q);
    }
  }

  lemma Moves(mode: Mode, n: nat, s: Master, w: Wires, byte: Octet, word: Octet, i: nat, d: nat)
    requires In(mode, n, s, byte, word, i, d) && !w.valid && Answers(mode, w, word, i, d)
    requires i < 16 && d < n && n >= 2
    ensures d + 1 < n ==> In(mode, n, Step(mode, n, s, w), byte, word, i, d + 1)
    ensures d + 1 == n ==> In(mode, n, Step(mode, n, s, w), byte, word, i + 1, 0)
  {
    EdgesMove(mode, n, s.edges, w, i, d);
    SenderMoves(mode, n, s.edges, s.tx, w, byte, i, d);
    ReceiverMoves(mode, n, s.edges, s.rx, w, word, i, d);
  }

  /** Behind the last edge. */
  lemma Finishes(mode: Mode, n: nat, s: Master, w: Wires, byte: Octet, word: Octet)
    requires In(mode, n, s, byte, word, 16, 0) && !w.valid && n >= 2
    requires mode.cpha ==> w.miso == word[0]
    ensures Resting(mode, Step(mode, n, s, w))
    ensures Step(mode, n, s, w).rx.valid == mode.cpha && Step(mode, n, s, w).rx.byte == word
  {
  }

  /** The clock in which half bit `i` of the byte that is offered at `t` is at clock `d`. */
  function ClockOf(r: Bench, t: nat, i: nat, d: nat): nat {
    t + 1 + Span(r.n, i) + d
  }

  function SampleClock(r: Bench, t: nat, q: nat): nat {
    ClockOf(r, t, FirstSample(r.mode) + 2 * q, 0)
  }

  /** What the slave shows at the eight sampling edges, highest bit first. */
  function Answer(r: Bench, t: nat): Octet {
    seq(8, p requires 0 <= p < 8 => r.wires(SampleClock(r, t, 7 - p)).miso)
  }

  predicate Offered(r: Bench, t: nat) {
    Resting(r.mode, r.st(t)) && r.wires(t).valid
  }

  predicate InAt(r: Bench, t: nat, i: nat, d: nat) {
    In(r.mode, r.n, r.st(ClockOf(r, t, i, d)), r.wires(t).byte, Answer(r, t), i, d)
  }

  lemma NextClock(r: Bench, t: nat, i: nat, d: nat)
    requires IsRun(r) && InAt(r, t, i, d) && i < 16 && d < r.n
    ensures d + 1 < r.n ==> InAt(r, t, i, d + 1)
    ensures d + 1 == r.n ==> InAt(r, t, i + 1, 0)
  {
    var x := ClockOf(r, t, i, d);
    assert StepAt(r, x) && PoliteAt(r, x);
    forall q | 0 <= q < 8 && IsSample(r.mode, i, d, q) ensures r.wires(x).miso == Answer(r, t)[7 - q] {
      assert x == SampleClock(r, t, q);
    }
    Moves(r.mode, r.n, r.st(x), r.wires(x), r.wires(t).byte, Answer(r, t), i, d);
  }

  lemma {:induction false} Transfers(r: Bench, t: nat, i: nat, d: nat)
    requires IsRun(r) && Offered(r, t) && d < r.n && (i < 16 || (i == 16 && d == 0))
    ensures InAt(r, t, i, d)
    decreases i, d
  {
    if d > 0 {
      Transfers(r, t, i, d - 1);
      NextClock(r, t, i, d - 1);
    } else if i > 0 {
      Transfers(r, t, i - 1, r.n - 1);
      NextClock(r, t, i - 1, r.n - 1);
    } else {
      assert StepAt(r, t);
      Begins(r.mode, r.n, r.st(t), r.wires(t), Answer(r, t));
    }
  }

  // What a slave sees

  /** Sixteen edges: the clock output changes from half bit to half bit, and rests at the end. */
  lemma SixteenEdges(r: Bench, t: nat, i: nat, d: nat)
    requires IsRun(r) && Offered(r, t) && i < 16 && d < r.n
    ensures r.st(ClockOf(r, t, i, d) + 1).clkOut == (r.mode.cpol != Odd(i))
  {
    Transfers(r, t, i, d);
    Transfers(r, t, if d + 1 < r.n then i else i + 1, if d + 1 < r.n then d + 1 else 0);
  }

  /** At the sampling edge of bit `q`, and in the clock before it, that bit is on the line. */
  lemma MosiAtEdge(r: Bench, t: nat, q: nat)
    requires IsRun(r) && Offered(r, t) && q < 8
    ensures
      var x := SampleClock(r, t, q);
      && r.st(x).tx.mosi == r.wires(t).byte[7 - q] && r.st(x + 1).tx.mosi == r.wires(t).byte[7 - q]
      && r.st(x).clkOut == (r.mode.cpol != r.mode.cpha) && r.st(x + 1).clkOut != r.st(x).clkOut
  {
    Transfers(r, t, FirstSample(r.mode) + 2 * q, 0);
    assert StepAt(r, SampleClock(r, t, q));
  }

  /** In a loop the answer is the byte. */
  lemma LoopAnswers(r: Bench, t: nat)
    requires IsRun(r) && Offered(r, t) && forall x: nat :: Looped(r, x)
    ensures Answer(r, t) == r.wires(t).byte
  {
    forall p | 0 <= p < 8 ensures Answer(r, t)[p] == r.wires(t).byte[p] {
      MosiAtEdge(r, t, 7 - p);
      assert Looped(r, SampleClock(r, t, 7 - p));
    }
  }

  predicate Looped(r: Bench, x: nat) {
    r.wires(x).miso == r.st(x).tx.mosi
  }

  // What the master hands over

  /** When the master is ready again. */
  function ReadyAgain(r: Bench, t: nat): nat {
    t + 2 + Span(r.n, 16)
  }

  lemma Ends(r: Bench, t: nat)
    requires IsRun(r) && Offered(r, t)
    ensures
      var s := r.st(ReadyAgain(r, t));
      Resting(r.mode, s) && s.rx.valid == r.mode.cpha && s.rx.byte == Answer(r, t)
  {
    var x := ClockOf(r, t, 16, 0);
    Transfers(r, t, 16, 0);
    assert StepAt(r, x) && PoliteAt(r, x);
    assert x == SampleClock(r, t, 7) || !r.mode.cpha;
    Finishes(r.mode, r.n, r.st(x), r.wires(x), r.wires(t).byte, Answer(r, t));
  }

  /** The bytes whose valid pulse comes before clock `x`. */
  function Received(r: Bench, x: nat): seq<Octet> {
    if x == 0 then [] else Received(r, x - 1) + if r.st(x - 1).rx.valid then [r.st(x - 1).rx.byte] else []
  }

  /** The answers to the bytes that are offered before clock `x`. */
  function Answered(r: Bench, x: nat): seq<Octet> {
    if x == 0 then [] else Answered(r, x - 1) + if r.wires(x - 1).valid then [Answer(r, x - 1)] else []
  }

  /** In the course of a byte there is one pulse: at the end, or a half bit earlier. */
  predicate PulsedAt(r: Bench, t: nat, i: nat, d: nat) {
    var x := ClockOf(r, t, i, d);
    && Received(r, x)
       == Received(r, t + 1) + (if !r.mode.cpha && (i == 16 || (i == 15 && d > 1)) then [Answer(r, t)] else [])
    && Answered(r, x) == Answered(r, t) + [Answer(r, t)]
  }

  lemma PulseStep(r: Bench, t: nat, i: nat, d: nat)
    requires IsRun(r) && InAt(r, t, i, d) && PulsedAt(r, t, i, d) && i < 16 && d < r.n
    ensures d + 1 < r.n ==> PulsedAt(r, t, i, d + 1)
    ensures d + 1 == r.n ==> PulsedAt(r, t, i + 1, 0)
  {
    var x := ClockOf(r, t, i, d);
    assert PoliteAt(r, x);
    if i == 15 && d == 1 {
      assert r.st(x).rx.byte == Answer(r, t) || r.mode.cpha;
    }
  }

  lemma {:induction false} Pulses(r: Bench, t: nat, i: nat, d: nat)
    requires IsRun(r) && Offered(r, t) && d < r.n && (i < 16 || (i == 16 && d == 0))
    ensures PulsedAt(r, t, i, d)
    decreases i, d
  {
    if d > 0 {
      Pulses(r, t, i, d - 1);
      Transfers(r, t, i, d - 1);
      PulseStep(r, t, i, d - 1);
    } else if i > 0 {
      Pulses(r, t, i - 1, r.n - 1);
      Transfers(r, t, i - 1, r.n - 1);
      PulseStep(r, t, i - 1, r.n - 1);
    }
  }

  /** At rest: every answer has been handed over, the last perhaps in this very clock. */
  ghost predicate Synced(r: Bench, t: nat) {
    Resting(r.mode, r.st(t)) && Received(r, t + 1) == Answered(r, t)
  }

  lemma StaysSynced(r: Bench, t: nat)
    requires IsRun(r) && Synced(r, t)
    ensures Synced(r, NextRest(r, t))
  {
    if r.wires(t).valid {
      Pulses(r, t, 16, 0);
      Ends(r, t);
      Transfers(r, t, 16, 0);
      assert PoliteAt(r, ClockOf(r, t, 16, 0));
      assert ReadyAgain(r, t) == ClockOf(r, t, 16, 0) + 1;
    } else {
      assert StepAt(r, t);
    }
  }

  function NextRest(r: Bench, t: nat): nat {
    if r.wires(t).valid then ReadyAgain(r, t) else t + 1
  }

  /** The clocks in which a byte may be offered. */
  function RestTime(r: Bench, k: nat): nat {
    if k == 0 then 1 else NextRest(r, RestTime(r, k - 1))
  }

  /** For every sequence of bytes: one pulse for each, with the bits that the slave has shown. */
  lemma {:induction false} AllAnswered(r: Bench, k: nat)
    requires IsRun(r)
    ensures RestTime(r, k) > k && Synced(r, RestTime(r, k))
    ensures Received(r, RestTime(r, k) + 1) == Answered(r, RestTime(r, k))
  {
    if k == 0 {
      assert StepAt(r, 0) && PoliteAt(r, 0);
      assert Received(r, 2) == Received(r, 1) == [];
      assert Answered(r, 1) == [];
    } else {
      AllAnswered(r, k - 1);
      StaysSynced(r, RestTime(r, k - 1));
    }
  }

  /** The bytes that are offered before clock `x`. */
  function Sent(r: Bench, x: nat): seq<Octet> {
    if x == 0 then [] else Sent(r, x - 1) + if r.wires(x - 1).valid then [r.wires(x - 1).byte] else []
  }

  /** In a loop, the bytes that were sent come back. */
  lemma LoopReturns(r: Bench, k: nat)
    requires IsRun(r) && forall x: nat :: Looped(r, x)
    ensures Received(r, RestTime(r, k) + 1) == Sent(r, RestTime(r, k))
  {
    AllAnswered(r, k);
    AnswersAreSent(r, RestTime(r, k));
  }

  /** Bytes are offered only at rest. */
  lemma {:induction false} AnswersAreSent(r: Bench, x: nat)
    requires IsRun(r) && forall x: nat :: Looped(r, x)
    ensures Answered(r, x) == Sent(r, x)
  {
    if x > 0 {
      AnswersAreSent(r, x - 1);
      assert PoliteAt(r, x - 1);
      if r.wires(x - 1).valid {
        ReadyIsResting(r, x - 1);
        LoopAnswers(r, x - 1);
      }
    }
  }

  /** What the edge generator keeps, in every clock of every run. */
  predicate Consistent(mode: Mode, n: nat, s: Master) {
    var e := s.edges;
    && e.left <= EDGES && e.clk == (mode.cpol != Odd(EDGES - e.left))
    && (if e.left == 0 then e.count == 0 else if Odd(EDGES - e.left) then n <= e.count < 2 * n else e.count < n)
    && (e.ready ==> e.left == 0 && !e.leading && !e.trailing && s.clkOut == mode.cpol && !s.tx.valid)
  }

  lemma {:induction false} ReadyIsResting(r: Bench, t: nat)
    requires IsRun(r)
    ensures Consistent(r.mode, r.n, r.st(t))
    ensures r.st(t).edges.ready ==> Resting(r.mode, r.st(t))
  {
    if t > 0 {
      ReadyIsResting(r, t - 1);
      assert StepAt(r, t - 1) && PoliteAt(r, t - 1);
    }
  }

  /** At rest the clock output idles and MOSI keeps its level, also in the clock that takes a byte. */
  lemma LinesRest(r: Bench, t: nat)
    requires IsRun(r) && r.st(t).edges.ready
    ensures r.st(t).clkOut == r.mode.cpol && r.st(t + 1).clkOut == r.mode.cpol
    ensures r.st(t + 1).tx.mosi == r.st(t).tx.mosi
  {
    ReadyIsResting(r, t);
    assert StepAt(r, t);
  }

  predicate Silent(r: Bench, t: nat) {
    r.st(t).clkOut == r.mode.cpol && !r.st(t).tx.mosi && !r.st(t).rx.valid
  }

  /** From reset to the first byte: the clock output idles, MOSI is low, and nothing is received. */
  lemma {:induction false} SilentAtFirst(r: Bench, t: nat)
    requires IsRun(r) && forall x: nat :: x < t ==> !r.wires(x).valid
    ensures Silent(r, t) && (r.st(t).edges.ready <==> t > 0)
  {
    if t > 0 {
      SilentAtFirst(r, t - 1);
      ReadyIsResting(r, t - 1);
      assert StepAt(r, t - 1);
    }
  }
}
