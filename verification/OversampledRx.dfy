// The receiver of the oversampling UART: two flops, a majority over five sampling ticks, and a
// state machine that takes one majority for each bit.
module OversampledRx {
  import opened Bits
  import opened UartFrames

  /** The state machine; it moves once for every sampling tick. */
  datatype Rx = Rx(timer: Index, count: Index, phase: Phase, parity: bool, shifter: Octet)

  function Up(i: Index): Index {
    if i == 7 then 0 else i + 1
  }

  function Down(i: Index): Index {
    if i == 0 then 7 else i - 1
  }

  /** The state machine sees the majority `v`. */
  function OnTick(cfg: Config, s: Rx, v: bool): Rx {
    var s' := s.(timer := Down(s.timer));
    if s.phase == Idle && !v then
      s'.(timer := 2, phase := Start, count := if s.timer == 0 then Up(s.count) else s.count,
          parity := if s.timer == 0 then s.parity != v else s.parity)
    else if s.timer != 0 then s'
    else
      var t := s'.(count := Up(s.count), parity := s.parity != v);
      match s.phase
      case Idle => t
      case Start => t.(count := 0, parity := cfg.parity == Odd, phase := if v then Idle else Data)
      case Data =>
        var t' := t.(shifter := s.shifter[s.count := v]);
        if s.count != cfg.len then t' else t'.(count := 0, phase := if cfg.parity == NoParity then Stop else Check)
      case Check => t.(count := 0, phase := if s.parity == v then Stop else Idle)
      case Stop => if !v || s.count == (if cfg.two then 1 else 0) then t.(phase := Idle) else t
  }

  /** This tick completes a byte: its valid pulse comes in the next clock. */
  predicate Completes(cfg: Config, s: Rx, v: bool) {
    s.timer == 0 && if s.phase == Data then s.count == cfg.len && cfg.parity == NoParity
                    else s.phase == Check && s.parity == v
  }

  function Count(b: bool): nat {
    if b then 1 else 0
  }

  predicate Majority(a: bool, b: bool, c: bool, d: bool, e: bool) {
    Count(a) + Count(b) + Count(c) + Count(d) + Count(e) >= 3
  }

  class UartCtrlRx {
    var first: bool
    var second: bool
    var sample1: bool
    var sample2: bool
    var sample3: bool
    var sample4: bool
    var value: bool
    var sampled: bool
    var timer: Index
    var count: Index
    var phase: Phase
    var parity: bool
    var shifter: Octet
    var valid: bool

    function State(): Rx
      reads this
    {
      Rx(timer, count, phase, parity, shifter)
    }

    /** The flops come up low and the samples high; the counters, the parity and the byte have no initial value. */
    constructor (machine: Rx)
      requires machine.phase == Idle
      ensures State() == machine && !first && !second && !sampled && !valid
      ensures sample1 && sample2 && sample3 && sample4 && value
    {
      first, second, sample1, sample2, sample3, sample4 := false, false, true, true, true, true;
      value, sampled, valid := true, false, false;
      timer, count, phase, parity, shifter :=
        machine.timer, machine.count, Idle, machine.parity, machine.shifter;
    }

    method Tick(cfg: Config, sampling: bool, rxd: bool)
      modifies this
      ensures State() == if old(sampled) then OnTick(cfg, old(State()), old(value)) else old(State())
      ensures valid == (old(sampled) && Completes(cfg, old(State()), old(value)))
      ensures sampled == sampling && first == rxd && second == old(first)
      ensures value == old(AnyThree(second, sample1, sample2, sample3, sample4))
      ensures sample1 == if sampling then old(second) else old(sample1)
      ensures sample2 == if sampling then old(sample1) else old(sample2)
      ensures sample3 == if sampling then old(sample2) else old(sample3)
      ensures sample4 == if sampling then old(sample3) else old(sample4)
    {
      MoveMachine(cfg);
      MoveSamples(sampling, rxd);
    }

    method MoveSamples(sampling: bool, rxd: bool)
      modifies this`first, this`second, this`sampled, this`value
      modifies this`sample1, this`sample2, this`sample3, this`sample4
      ensures sampled == sampling && first == rxd && second == old(first)
      ensures value == old(AnyThree(second, sample1, sample2, sample3, sample4))
      ensures sample1 == if sampling then old(second) else old(sample1)
      ensures sample2 == if sampling then old(sample1) else old(sample2)
      ensures sample3 == if sampling then old(sample2) else old(sample3)
      ensures sample4 == if sampling then old(sample3) else old(sample4)
    {
      value := AnyThree(second, sample1, sample2, sample3, sample4);
      if sampling {
        sample1, sample2, sample3, sample4 := second, sample1, sample2, sample3;
      }
      sampled, first, second := sampling, rxd, first;
    }

    method MoveMachine(cfg: Config)
      modifies this`timer, this`count, this`phase, this`parity, this`shifter, this`valid
      ensures State() == if sampled then OnTick(cfg, old(State()), value) else old(State())
      ensures valid == (sampled && Completes(cfg, old(State()), value))
    {
      valid := false;
      if sampled {
        if timer == 0 {
          TakeBit(cfg);
        } else {
          timer := timer - 1;
          if phase == Idle && !value { phase, timer := Start, 2; }
        }
      }
    }

    /** The timer has run down. */
    method TakeBit(cfg: Config)
      requires timer == 0 && !valid
      modifies this`timer, this`count, this`phase, this`parity, this`shifter, this`valid
      ensures State() == OnTick(cfg, old(State()), value) && valid == Completes(cfg, old(State()), value)
    {
      var was, checked := count, parity;
      timer, count, parity := 7, if count == 7 then 0 else count + 1, parity != value;
      match phase {
        case Idle =>
          if !value { phase, timer := Start, 2; }
        case Start =>
          count, parity := 0, cfg.parity == Odd;
          phase := if value then Idle else Data;
        case Data =>
          shifter := shifter[was := value];
          if was == cfg.len {
            count := 0;
            if cfg.parity == NoParity {
              phase, valid := Stop, true;
            } else {
              phase := Check;
            }
          }
        case Check =>
          count := 0;
          if checked == value {
            phase, valid := Stop, true;
          } else {
            phase := Idle;
          }
        case Stop =>
          if !value || was == if cfg.two then 1 else 0 { phase := Idle; }
      }
    }
  }

  /** The sum of products over the ten triples. */
  function AnyThree(a: bool, b: bool, c: bool, d: bool, e: bool): (r: bool)
    ensures r == Majority(a, b, c, d, e)
  {
    || (a && b && c) || (a && b && d) || (a && c && d) || (b && c && d)
    || (a && b && e) || (a && c && e) || (b && c && e)
    || (a && d && e) || (b && d && e) || (c && d && e)
  }

  // Runs of the state machine, tick by tick

  type Run = nat -> Rx

  type Values = nat -> bool

  predicate StepAt(cfg: Config, v: Values, st: Run, k: nat) {
    st(k + 1) == OnTick(cfg, st(k), v(k))
  }

  ghost predicate IsRun(cfg: Config, v: Values, st: Run) {
    forall k: nat :: StepAt(cfg, v, st, k)
  }

  /** The bytes that are completed before tick `k`, in their low bits. */
  function Received(cfg: Config, v: Values, st: Run, k: nat): seq<Word> {
    if k == 0 then []
    else Received(cfg, v, st, k - 1)
         + if Completes(cfg, st(k - 1), v(k - 1)) then [DataOf(cfg, OnTick(cfg, st(k - 1), v(k - 1)).shifter)] else []
  }

  lemma {:induction false} StaysIdle(cfg: Config, v: Values, st: Run, k: nat, n: nat)
    requires IsRun(cfg, v, st) && st(k).phase == Idle
    requires forall x :: k <= x < k + n ==> v(x)
    ensures st(k + n).phase == Idle && Received(cfg, v, st, k + n) == Received(cfg, v, st, k)
  {
    if n > 0 {
      StaysIdle(cfg, v, st, k, n - 1);
      assert StepAt(cfg, v, st, k + n - 1);
    }
  }

  lemma {:induction false} Counting(cfg: Config, v: Values, st: Run, k: nat, n: nat)
    requires IsRun(cfg, v, st) && st(k).phase != Idle && n <= st(k).timer
    ensures st(k + n) == st(k).(timer := st(k).timer - n) && Received(cfg, v, st, k + n) == Received(cfg, v, st, k)
  {
    if n > 0 {
      Counting(cfg, v, st, k, n - 1);
      assert StepAt(cfg, v, st, k + n - 1);
    }
  }

  /** The machine has seen the bits before `j` of the frame that carries `w`. */
  predicate Expects(cfg: Config, s: Rx, w: Word, j: nat)
    requires |w| == cfg.len + 1
  {
    && s.phase == (if j == FrameLength(cfg) then Idle else PhaseOf(cfg, j))
    && (0 < j < FrameLength(cfg) ==> s.count == CountIn(cfg, j))
    && (1 <= j <= cfg.len + 1 ==> s.parity == ParityOf(cfg, w[..j - 1]) && s.shifter[..j - 1] == w[..j - 1])
    && (s.phase == Check ==> s.parity == ParityOf(cfg, w) && DataOf(cfg, s.shifter) == w)
  }

  /** The bit that completes the byte. */
  predicate IsLast(cfg: Config, j: nat) {
    j + 1 == FirstStop(cfg)
  }

  lemma TakesBit(cfg: Config, s: Rx, w: Word, j: nat)
    requires |w| == cfg.len + 1 && j < FrameLength(cfg) && Expects(cfg, s, w, j) && s.timer == 0
    ensures
      var v := FrameBit(cfg, w, j);
      && Expects(cfg, OnTick(cfg, s, v), w, j + 1) && OnTick(cfg, s, v).timer == 7
      && (Completes(cfg, s, v) <==> IsLast(cfg, j))
      && (IsLast(cfg, j) ==> DataOf(cfg, OnTick(cfg, s, v).shifter) == w)
  {
    if 1 <= j <= cfg.len + 1 {
      TakesDataBit(cfg, s, w, j);
    }
  }

  lemma TakesDataBit(cfg: Config, s: Rx, w: Word, j: nat)
    requires |w| == cfg.len + 1 && 1 <= j <= cfg.len + 1 && Expects(cfg, s, w, j) && s.timer == 0
    ensures
      var s' := OnTick(cfg, s, w[j - 1]);
      && Expects(cfg, s', w, j + 1) && s'.timer == 7 && (Completes(cfg, s, w[j - 1]) <==> IsLast(cfg, j))
      && (IsLast(cfg, j) ==> DataOf(cfg, s'.shifter) == w)
  {
    assert w[..j][..j - 1] == w[..j - 1];
    PrefixGrows(s.shifter, w, j);
    if j == cfg.len + 1 {
      assert w[..j] == w;
    }
  }

  lemma PrefixGrows(a: Word, w: Word, j: nat)
    requires 1 <= j <= |w| && j <= |a| && a[..j - 1] == w[..j - 1]
    ensures a[j - 1 := w[j - 1]][..j] == w[..j]
  {
  }

  /** The tick whose majority is taken for bit `j`, when the start is noticed at tick `d`. */
  function SampleTick(d: nat, j: nat): nat {
    d + 3 + 8 * j
  }

  /** The majorities are right for the first `n` bits of the frame. */
  ghost predicate Shows(cfg: Config, v: Values, d: nat, w: Word, n: nat)
    requires |w| == cfg.len + 1
  {
    forall j: nat :: j < n ==> ShowsBit(cfg, v, d, w, j)
  }

  predicate ShowsBit(cfg: Config, v: Values, d: nat, w: Word, j: nat)
    requires |w| == cfg.len + 1
  {
    v(SampleTick(d, j)) == FrameBit(cfg, w, j)
  }

  /** Behind the tick that takes bit `n - 1`. */
  ghost predicate Taken(cfg: Config, v: Values, st: Run, d: nat, w: Word, n: nat, now: nat)
    requires |w| == cfg.len + 1
  {
    && Expects(cfg, st(now), w, n) && st(now).timer == 7
    && Received(cfg, v, st, now) == Received(cfg, v, st, d) + if n < FirstStop(cfg) then [] else [w]
  }

  lemma {:induction false} TakesBits(cfg: Config, v: Values, st: Run, d: nat, w: Word, j: nat)
    requires |w| == cfg.len + 1 && IsRun(cfg, v, st) && st(d).phase == Idle && !v(d)
    requires j < FrameLength(cfg) && Shows(cfg, v, d, w, j + 1)
    ensures Taken(cfg, v, st, d, w, j + 1, SampleTick(d, j) + 1)
  {
    assert ShowsBit(cfg, v, d, w, j);
    if j == 0 {
      TakesFirst(cfg, v, st, d, w);
    } else {
      TakesBits(cfg, v, st, d, w, j - 1);
      TakesNext(cfg, v, st, d, w, j, SampleTick(d, j - 1) + 1);
    }
  }

  lemma TakesFirst(cfg: Config, v: Values, st: Run, d: nat, w: Word)
    requires |w| == cfg.len + 1 && IsRun(cfg, v, st) && st(d).phase == Idle && !v(d) && !v(d + 3)
    ensures Taken(cfg, v, st, d, w, 1, d + 4)
  {
    assert StepAt(cfg, v, st, d);
    Counting(cfg, v, st, d + 1, 2);
    TakesBitAt(cfg, v, st, d + 3, w, 0);
  }

  lemma TakesNext(cfg: Config, v: Values, st: Run, d: nat, w: Word, n: nat, now: nat)
    requires |w| == cfg.len + 1 && IsRun(cfg, v, st) && 0 < n < FrameLength(cfg)
    requires Taken(cfg, v, st, d, w, n, now) && v(now + 7) == FrameBit(cfg, w, n)
    ensures Taken(cfg, v, st, d, w, n + 1, now + 8)
  {
    Counting(cfg, v, st, now, 7);
    TakesBitAt(cfg, v, st, now + 7, w, n);
  }

  lemma TakesBitAt(cfg: Config, v: Values, st: Run, at: nat, w: Word, j: nat)
    requires |w| == cfg.len + 1 && IsRun(cfg, v, st) && j < FrameLength(cfg)
    requires Expects(cfg, st(at), w, j) && st(at).timer == 0 && v(at) == FrameBit(cfg, w, j)
    ensures Expects(cfg, st(at + 1), w, j + 1) && st(at + 1).timer == 7
    ensures Received(cfg, v, st, at + 1) == Received(cfg, v, st, at) + if IsLast(cfg, j) then [w] else []
  {
    assert StepAt(cfg, v, st, at);
    TakesBit(cfg, st(at), w, j);
  }

  /** A whole frame: the byte is received once, and the machine is idle before the last bit ends. */
  lemma Receives(cfg: Config, v: Values, st: Run, d: nat, w: Word)
    requires |w| == cfg.len + 1 && IsRun(cfg, v, st) && st(d).phase == Idle && !v(d)
    requires Shows(cfg, v, d, w, FrameLength(cfg))
    ensures
      var end := d + 8 * FrameLength(cfg) - 4;
      st(end).phase == Idle && Received(cfg, v, st, end) == Received(cfg, v, st, d) + [w]
  {
    TakesBits(cfg, v, st, d, w, FrameLength(cfg) - 1);
  }

  /** A wrong parity bit drops the byte. */
  lemma WrongParity(cfg: Config, v: Values, st: Run, d: nat, w: Word)
    requires |w| == cfg.len + 1 && IsRun(cfg, v, st) && st(d).phase == Idle && !v(d)
    requires cfg.parity != NoParity && Shows(cfg, v, d, w, FirstStop(cfg) - 1)
    requires v(SampleTick(d, FirstStop(cfg) - 1)) != ParityOf(cfg, w)
    ensures
      var end := SampleTick(d, FirstStop(cfg) - 1) + 1;
      st(end).phase == Idle && Received(cfg, v, st, end) == Received(cfg, v, st, d)
  {
    var at := SampleTick(d, FirstStop(cfg) - 1);
    TakesBits(cfg, v, st, d, w, FirstStop(cfg) - 2);
    Counting(cfg, v, st, at - 7, 7);
    assert StepAt(cfg, v, st, at);
  }

  /** A start bit whose majority is high is none: the machine is idle again. */
  lemma FalseStart(cfg: Config, v: Values, st: Run, d: nat)
    requires IsRun(cfg, v, st) && st(d).phase == Idle && !v(d) && v(SampleTick(d, 0))
    ensures
      var end := SampleTick(d, 0) + 1;
      st(end).phase == Idle && Received(cfg, v, st, end) == Received(cfg, v, st, d)
  {
    assert StepAt(cfg, v, st, d);
    Counting(cfg, v, st, d + 1, 2);
    assert StepAt(cfg, v, st, d + 3);
  }
}
