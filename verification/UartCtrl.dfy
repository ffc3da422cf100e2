// The oversampling UART, clock by clock: the divider that makes the sampling ticks, and the
// transmitter and the receiver that share them, with the line looped back.
module UartCtrls {
  import opened Bits
  import opened Clocks
  import opened UartFrames
  import L = OversampledLink
  import T = OversampledTx
  import R = OversampledRx

  /** All registers. */
  datatype Ctrl = Ctrl(
    divider: nat, tx: T.Tx, txd: bool, machine: R.Rx, valid: bool, first: bool, second: bool,
    sample1: bool, sample2: bool, sample3: bool, sample4: bool, value: bool, sampled: bool)

  predicate PowerUp(s: Ctrl) {
    && s.divider == 0 && s.tx.phase == Idle && s.tx.tick == 0 && s.txd
    && s.machine.phase == Idle && !s.valid && !s.first && !s.second
    && s.sample1 && s.sample2 && s.sample3 && s.sample4 && s.value && !s.sampled
  }

  predicate Takes(cfg: Config, s: Ctrl) {
    s.divider == 0 && T.TakesByte(cfg, s.tx)
  }

  function Step(cfg: Config, period: nat, s: Ctrl, w: T.Offer, rxd: bool): Ctrl
    requires period > 0
  {
    var tick := s.divider == 0;
    Ctrl(
      if tick then period - 1 else s.divider - 1,
      if tick then T.OnTick(cfg, s.tx, w) else s.tx,
      T.Txd(s.tx, w),
      if s.sampled then R.OnTick(cfg, s.machine, s.value) else s.machine,
      s.sampled && R.Completes(cfg, s.machine, s.value),
      rxd, s.first,
      if tick then s.second else s.sample1, if tick then s.sample1 else s.sample2,
      if tick then s.sample2 else s.sample3, if tick then s.sample3 else s.sample4,
      R.AnyThree(s.second, s.sample1, s.sample2, s.sample3, s.sample4),
      tick)
  }

  class UartCtrl {
    const tx: T.UartCtrlTx
    const rx: R.UartCtrlRx
    var divider: nat

    ghost predicate Valid() {
      (tx as object) != this && (rx as object) != this && (tx as object) != rx
    }

    function State(): Ctrl
      reads this, tx, rx
    {
      Ctrl(divider, tx.State(), tx.txd, rx.State(), rx.valid, rx.first, rx.second,
           rx.sample1, rx.sample2, rx.sample3, rx.sample4, rx.value, rx.sampled)
    }

    constructor (count: Index, parity: bool, machine: R.Rx)
      requires machine.phase == Idle
      ensures Valid() && fresh(tx) && fresh(rx) && PowerUp(State())
    {
      tx := new T.UartCtrlTx(count, parity);
      rx := new R.UartCtrlRx(machine);
      divider := 0;
    }

    /** `clockDivider` is the configured value; a sampling tick comes every `clockDivider + 1` clocks. */
    method Tick(cfg: Config, clockDivider: nat, w: T.Offer, rxd: bool) returns (ready: bool)
      requires Valid()
      modifies this, tx, rx
      ensures State() == Step(cfg, clockDivider + 1, old(State()), w, rxd)
      ensures ready == Takes(cfg, old(State()))
    {
      var sampling := divider == 0;
      ready := tx.Tick(cfg, sampling, w);
      rx.Tick(cfg, sampling, rxd);
      divider := if sampling then clockDivider else divider - 1;
    }
  }

  // Runs. The line may flip what the transmitter sends.

  datatype Bench = Bench(cfg: Config, period: nat, offer: nat -> T.Offer, flip: nat -> bool, st: nat -> Ctrl)

  predicate StepAt(b: Bench, x: nat)
    requires b.period > 0
  {
    b.st(x + 1) == Step(b.cfg, b.period, b.st(x), b.offer(x), b.st(x).txd != b.flip(x))
  }

  /** An offered byte stays until it is taken. */
  predicate HeldAt(b: Bench, x: nat) {
    b.offer(x).valid && !Takes(b.cfg, b.st(x)) ==> b.offer(x + 1) == b.offer(x)
  }

  ghost predicate IsRun(b: Bench) {
    && b.period > 0 && PowerUp(b.st(0))
    && (forall x: nat :: StepAt(b, x))
    && (forall x: nat :: HeldAt(b, x))
  }

  /** When sampling tick `k` comes. */
  function Clock(b: Bench, k: nat): nat {
    Span(b.period, k)
  }

  /** How many ticks a level takes to the sampler, through its register and the two flops. */
  function Lag(period: nat): nat {
    if period >= 4 then 0 else if period >= 2 then 1 else 3
  }

  /** The same run by the number of the tick. */
  ghost function Ticks(b: Bench): L.Link {
    L.Link(
      b.cfg, Lag(b.period),
      (k: nat) => b.offer(Clock(b, k)),
      (k: nat) => b.st(Clock(b, k)).tx,
      (k: nat) => Clock(b, k) >= 2 && b.flip(Clock(b, k) - 2),
      (k: nat) => b.st(Clock(b, k)).second,
      (k: nat) => b.st(Clock(b, k) + 1).value,
      (k: nat) => b.st(Clock(b, k) + 1).machine)
  }

  // Between two ticks

  predicate Between(b: Bench, at: nat, d: nat)
    requires b.period > 0
  {
    var s, s' := b.st(at), b.st(at + d);
    && s'.divider == b.period - d && s'.tx == T.OnTick(b.cfg, s.tx, b.offer(at)) && s'.sampled == (d == 1)
    && s'.sample1 == s.second && s'.sample2 == s.sample1 && s'.sample3 == s.sample2 && s'.sample4 == s.sample3
  }

  lemma {:induction false} FromTick(b: Bench, at: nat, d: nat)
    requires IsRun(b) && b.st(at).divider == 0 && 1 <= d <= b.period
    ensures Between(b, at, d)
  {
    assert StepAt(b, at + d - 1);
    if d > 1 {
      FromTick(b, at, d - 1);
    }
  }

  lemma {:induction false} TickAt(b: Bench, k: nat)
    requires IsRun(b)
    ensures b.st(Clock(b, k)).divider == 0
  {
    if k > 0 {
      TickAt(b, k - 1);
      FromTick(b, Clock(b, k - 1), b.period);
    }
  }

  lemma TxMoves(b: Bench, k: nat)
    requires IsRun(b)
    ensures L.TxAt(Ticks(b), k)
  {
    TickAt(b, k);
    FromTick(b, Clock(b, k), b.period);
  }

  /** The receiver's machine, in the clocks behind the one in which it moves. */
  lemma {:induction false} MachineMoves(b: Bench, at: nat, e: nat)
    requires IsRun(b) && b.st(at).divider == 0 && 1 <= e <= b.period
    ensures
      var s, s' := b.st(at + 1), b.st(at + 1 + e);
      && s'.machine == R.OnTick(b.cfg, s.machine, s.value)
      && s'.valid == (e == 1 && R.Completes(b.cfg, s.machine, s.value))
  {
    FromTick(b, at, e);
    assert StepAt(b, at + e);
    if e > 1 {
      MachineMoves(b, at, e - 1);
    }
  }

  lemma RxMoves(b: Bench, k: nat)
    requires IsRun(b)
    ensures R.StepAt(b.cfg, Ticks(b).value, Ticks(b).rx, k)
  {
    TickAt(b, k);
    MachineMoves(b, Clock(b, k), b.period);
    assert Clock(b, k) + 1 + b.period == Clock(b, k + 1) + 1;
  }

  lemma {:induction false} SamplesHold(b: Bench, k: nat)
    requires IsRun(b)
    ensures
      var s, l := b.st(Clock(b, k)), Ticks(b);
      && s.second == L.Sample(l, k) && s.sample1 == L.Sample(l, k - 1) && s.sample2 == L.Sample(l, k - 2)
      && s.sample3 == L.Sample(l, k - 3) && s.sample4 == L.Sample(l, k - 4)
  {
    if k > 0 {
      SamplesHold(b, k - 1);
      TickAt(b, k - 1);
      FromTick(b, Clock(b, k - 1), b.period);
    }
  }

  lemma ValueMoves(b: Bench, k: nat)
    requires IsRun(b)
    ensures L.ValueAt(Ticks(b), k)
  {
    SamplesHold(b, k);
    assert StepAt(b, Clock(b, k));
  }

  // What is offered

  lemma {:induction false} HeldFor(b: Bench, x: nat, n: nat)
    requires IsRun(b) && b.offer(x).valid
    requires forall y: nat :: x <= y < x + n ==> !Takes(b.cfg, b.st(y))
    ensures b.offer(x + n) == b.offer(x)
  {
    if n > 0 {
      HeldFor(b, x, n - 1);
      assert HeldAt(b, x + n - 1);
    }
  }

  lemma NotTaken(b: Bench, k: nat, y: nat)
    requires IsRun(b) && Clock(b, k) < y < Clock(b, k + 1)
    ensures !Takes(b.cfg, b.st(y))
  {
    TickAt(b, k);
    FromTick(b, Clock(b, k), y - Clock(b, k));
  }

  lemma OffersHold(b: Bench, k: nat)
    requires IsRun(b)
    ensures L.HeldAt(Ticks(b), k)
  {
    var at := Clock(b, k);
    TickAt(b, k);
    if b.offer(at).valid && !T.TakesByte(b.cfg, b.st(at).tx) {
      forall y: nat | at <= y < at + b.period ensures !Takes(b.cfg, b.st(y)) {
        if y > at {
          NotTaken(b, k, y);
        }
      }
      HeldFor(b, at, b.period);
    }
  }

  /** The byte is there for as long as it is needed. */
  lemma {:induction false} ThereWhileSent(b: Bench, x: nat)
    requires IsRun(b)
    ensures b.st(x).tx.phase == Start || b.st(x).tx.phase == Data ==> b.offer(x).valid
  {
    if x > 0 {
      ThereWhileSent(b, x - 1);
      assert StepAt(b, x - 1) && HeldAt(b, x - 1);
    }
  }

  // What is sampled

  lemma TwoFlops(b: Bench, x: nat)
    requires IsRun(b) && x >= 2
    ensures b.st(x).second == (b.st(x - 2).txd != b.flip(x - 2))
    ensures b.st(x - 2).txd == if x == 2 then true else T.Txd(b.st(x - 3).tx, b.offer(x - 3))
  {
    assert StepAt(b, x - 1) && StepAt(b, x - 2);
    if x > 2 {
      assert StepAt(b, x - 3);
    }
  }

  /** The level that is sampled at tick `k` is that of the transmitter at tick `k - Lag`. */
  lemma LevelOf(b: Bench, k: nat)
    requires IsRun(b) && k >= 2 && k >= Lag(b.period)
    ensures
      var x, y := Clock(b, k) - 3, Clock(b, k - Lag(b.period));
      x >= 0 && T.Txd(b.st(x).tx, b.offer(x)) == T.Txd(b.st(y).tx, b.offer(y))
  {
    SpanIsProduct(b.period, k);
    var x := Clock(b, k) - 3;
    TickAt(b, k - 1);
    if b.period >= 4 {
      SameLevel(b, k - 1, b.period - 3);
    } else if b.period == 2 {
      TickAt(b, k - 2);
      SameLevel(b, k - 2, 1);
    } else if b.period == 1 {
      SpanIsProduct(b.period, k - 3);
    }
  }

  /** Between two ticks the level is already that of the later one. */
  lemma SameLevel(b: Bench, k: nat, d: nat)
    requires IsRun(b) && 1 <= d <= b.period
    ensures
      var x, y := Clock(b, k) + d, Clock(b, k + 1);
      T.Txd(b.st(x).tx, b.offer(x)) == T.Txd(b.st(y).tx, b.offer(y))
  {
    var x := Clock(b, k) + d;
    TickAt(b, k);
    FromTick(b, Clock(b, k), d);
    FromTick(b, Clock(b, k), b.period);
    ThereWhileSent(b, x);
    if b.st(x).tx.phase == Data {
      forall y: nat | x <= y < Clock(b, k + 1) ensures !Takes(b.cfg, b.st(y)) {
        NotTaken(b, k, y);
      }
      HeldFor(b, x, b.period - d);
    }
  }

  /** Flips as far as the majority makes up for them; none before the first level has come through. */
  ghost predicate Mild(b: Bench) {
    && (forall k: nat :: L.MildAt(Ticks(b), k))
    && (Lag(b.period) > 2 ==> !b.flip(0))
  }

  lemma SamplesMove(b: Bench, k: nat)
    requires IsRun(b) && Mild(b)
    ensures L.SampleAt(Ticks(b), k)
  {
    if k >= 2 {
      SpanIsProduct(b.period, k);
      assert Clock(b, k) >= k;
      TwoFlops(b, Clock(b, k));
      if k >= Lag(b.period) {
        LevelOf(b, k);
      }
    }
  }

  /** The clocked run is a run by ticks. */
  lemma Refines(b: Bench)
    requires IsRun(b) && Mild(b)
    ensures L.Linked(Ticks(b))
  {
    var l := Ticks(b);
    forall k: nat ensures L.TxAt(l, k) && R.StepAt(l.cfg, l.value, l.rx, k) {
      TxMoves(b, k);
      RxMoves(b, k);
    }
    forall k: nat ensures L.HeldAt(l, k) {
      OffersHold(b, k);
    }
    forall k: nat ensures L.SampleAt(l, k) {
      SamplesMove(b, k);
    }
    forall k: nat ensures L.ValueAt(l, k) {
      ValueMoves(b, k);
    }
    assert StepAt(b, 0);
  }

  // End to end

  /** The bytes that are taken before clock `x`, in their low bits. */
  function Accepted(b: Bench, x: nat): seq<Word> {
    if x == 0 then []
    else Accepted(b, x - 1) + if Takes(b.cfg, b.st(x - 1)) then [DataOf(b.cfg, b.offer(x - 1).byte)] else []
  }

  /** The payloads whose valid pulse comes before clock `x`, in their low bits. */
  function Received(b: Bench, x: nat): seq<Word> {
    if x == 0 then []
    else Received(b, x - 1) + if b.st(x - 1).valid then [DataOf(b.cfg, b.st(x - 1).machine.shifter)] else []
  }

  lemma {:induction false} NothingTaken(b: Bench, x: nat, n: nat)
    requires forall y: nat :: x <= y < x + n ==> !Takes(b.cfg, b.st(y))
    ensures Accepted(b, x + n) == Accepted(b, x)
  {
    if n > 0 {
      NothingTaken(b, x, n - 1);
    }
  }

  lemma {:induction false} NothingReceived(b: Bench, x: nat, n: nat)
    requires forall y: nat :: x <= y < x + n ==> !b.st(y).valid
    ensures Received(b, x + n) == Received(b, x)
  {
    if n > 0 {
      NothingReceived(b, x, n - 1);
    }
  }

  lemma TakenAtTick(b: Bench, k: nat)
    requires IsRun(b)
    ensures
      var at := Clock(b, k);
      Accepted(b, Clock(b, k + 1))
      == Accepted(b, at) + if T.TakesByte(b.cfg, b.st(at).tx) then [DataOf(b.cfg, b.offer(at).byte)] else []
  {
    var at := Clock(b, k);
    TickAt(b, k);
    forall y: nat | at + 1 <= y < at + 1 + (b.period - 1) ensures !Takes(b.cfg, b.st(y)) {
      NotTaken(b, k, y);
    }
    NothingTaken(b, at + 1, b.period - 1);
  }

  lemma {:induction false} AcceptedByTicks(b: Bench, k: nat)
    requires IsRun(b)
    ensures Accepted(b, Clock(b, k)) == L.Accepted(Ticks(b), k)
  {
    if k > 0 {
      AcceptedByTicks(b, k - 1);
      TakenAtTick(b, k - 1);
    }
  }

  /** What the state machine completes, when it moves in clock `x`. */
  function Completed(b: Bench, x: nat): seq<Word> {
    var s := b.st(x);
    if R.Completes(b.cfg, s.machine, s.value) then [DataOf(b.cfg, R.OnTick(b.cfg, s.machine, s.value).shifter)] else []
  }

  /** A byte that is completed at a tick has its one pulse two clocks later. */
  lemma OnePulse(b: Bench, k: nat)
    requires IsRun(b)
    ensures Received(b, Clock(b, k + 1) + 2) == Received(b, Clock(b, k) + 2) + Completed(b, Clock(b, k) + 1)
  {
    var at := Clock(b, k);
    TickAt(b, k);
    MachineMoves(b, at, 1);
    forall y: nat | at + 3 <= y < at + 3 + (b.period - 1) ensures !b.st(y).valid {
      MachineMoves(b, at, y - at - 1);
    }
    NothingReceived(b, at + 3, b.period - 1);
    assert Received(b, at + 3) == Received(b, at + 2)
      + if b.st(at + 2).valid then [DataOf(b.cfg, b.st(at + 2).machine.shifter)] else [];
  }

  lemma NothingAtFirst(b: Bench)
    requires IsRun(b)
    ensures Received(b, 2) == []
  {
    assert StepAt(b, 0);
    assert Received(b, 1) == [];
  }

  lemma ReceivedNext(b: Bench, k: nat)
    requires b.period > 0
    ensures L.Received(Ticks(b), k + 1) == L.Received(Ticks(b), k) + Completed(b, Clock(b, k) + 1)
  {
  }

  lemma {:induction false} ReceivedByTicks(b: Bench, k: nat)
    requires IsRun(b)
    ensures Received(b, Clock(b, k) + 2) == L.Received(Ticks(b), k)
  {
    if k == 0 {
      NothingAtFirst(b);
    } else {
      ReceivedByTicks(b, k - 1);
      SameNext(b, k - 1, k);
    }
  }

  lemma SameNext(b: Bench, k: nat, k': nat)
    requires IsRun(b) && k' == k + 1 && Received(b, Clock(b, k) + 2) == L.Received(Ticks(b), k)
    ensures Received(b, Clock(b, k') + 2) == L.Received(Ticks(b), k')
  {
    ReceivedNext(b, k);
    OnePulse(b, k);
  }

  lemma ArriveByTicks(b: Bench, n: nat) returns (m: nat)
    requires IsRun(b) && Mild(b)
    ensures m == L.FreeTick(Ticks(b), n) >= 7 + 8 * n
    ensures L.Received(Ticks(b), m - 1 + Lag(b.period)) == L.Accepted(Ticks(b), m)
  {
    var l := Ticks(b);
    m := L.FreeTick(l, n);
    Refines(b);
    L.AllArrive(l, n);
  }

  /** When the receiver has handed over all that was taken before tick `m`, and nothing else. */
  function HandedOver(b: Bench, m: nat): nat
    requires m > 0
  {
    Clock(b, m - 1 + Lag(b.period)) + 2
  }

  /**
   For every configuration, divider and sequence of bytes: what the receiver hands over is what
   the transmitter has taken, each byte with one pulse, at every tick at which a frame may begin.
   These ticks are at most a frame apart, so every byte is covered.
   */
  lemma EndToEnd(b: Bench, n: nat) returns (m: nat)
    requires IsRun(b) && Mild(b)
    ensures m == L.FreeTick(Ticks(b), n) >= 7 + 8 * n
    ensures Received(b, HandedOver(b, m)) == Accepted(b, Clock(b, m))
  {
    m := ArriveByTicks(b, n);
    ByClocks(b, m, m - 1 + Lag(b.period), HandedOver(b, m));
  }

  lemma ByClocks(b: Bench, m: nat, k: nat, x: nat)
    requires IsRun(b) && x == Clock(b, k) + 2 && L.Received(Ticks(b), k) == L.Accepted(Ticks(b), m)
    ensures Received(b, x) == Accepted(b, Clock(b, m))
  {
    AcceptedByTicks(b, m);
    ReceivedByTicks(b, k);
  }
}
