// The transmitter of the counter-based UART: a start bit, eight data bits and a stop bit, each
// for `n` clocks, then one clock to clean up.
module UartTx {
  import opened Bits
  import opened Clocks
  import opened UartTiming

  datatype Tx = Tx(stage: Stage, count: nat, index: Index, data: Octet, serial: bool, active: bool, done: bool)

  datatype Offer = Offer(valid: bool, byte: Octet)

  /** Idle, with the line high. */
  predicate Quiet(s: Tx) {
    s.stage == Idle && s.serial
  }

  predicate Accepts(s: Tx, w: Offer) {
    s.stage == Idle && w.valid
  }

  function Step(n: nat, s: Tx, w: Offer): Tx {
    match s.stage
    case Idle =>
      var s' := s.(serial := true, done := false, count := 0, index := 0);
      if w.valid then s'.(active := true, data := w.byte, stage := StartBit) else s'
    case StartBit =>
      var s' := s.(serial := false);
      if s.count + 1 < n then s'.(count := s.count + 1) else s'.(count := 0, stage := DataBits)
    case DataBits =>
      var s' := s.(serial := s.data[s.index]);
      if s.count + 1 < n then s'.(count := s.count + 1)
      else if s.index < 7 then s'.(count := 0, index := s.index + 1)
      else s'.(count := 0, index := 0, stage := StopBit)
    case StopBit =>
      var s' := s.(serial := true);
      if s.count + 1 < n then s'.(count := s.count + 1)
      else s'.(count := 0, done := true, active := false, stage := Cleanup)
    case Cleanup => s.(done := true, stage := Idle)
  }

  class UartTransmitter {
    const clksPerBit: nat
    var stage: Stage
    var count: nat
    var index: Index
    var data: Octet
    var serial: bool
    var active: bool
    var done: bool

    function State(): Tx
      reads this
    {
      Tx(stage, count, index, data, serial, active, done)
    }

    /** The line register has no initial value. */
    constructor (clksPerBit: nat, serial: bool)
      ensures this.clksPerBit == clksPerBit
      ensures State() == Tx(Idle, 0, 0, Constant(false, 8), serial, false, false)
    {
      this.clksPerBit, this.serial := clksPerBit, serial;
      stage, count, index, data, active, done := Idle, 0, 0, Constant(false, 8), false, false;
    }

    method Tick(w: Offer)
      modifies this
      ensures State() == Step(clksPerBit, old(State()), w)
    {
      var last := !(count + 1 < clksPerBit);
      match stage {
        case Idle =>
          serial, done, count, index := true, false, 0, 0;
          if w.valid { active, data, stage := true, w.byte, StartBit; }
        case StartBit =>
          serial, count := false, if last then 0 else count + 1;
          if last { stage := DataBits; }
        case DataBits =>
          serial, count := data[index], if last then 0 else count + 1;
          if last {
            if index < 7 {
              index := index + 1;
            } else {
              index, stage := 0, StopBit;
            }
          }
        case StopBit =>
          serial, count := true, if last then 0 else count + 1;
          if last { done, stage, active := true, Cleanup, false; }
        case Cleanup =>
          done, stage := true, Idle;
      }
    }
  }

  // Runs

  type Trace = nat -> Offer

  type Run = nat -> Tx

  predicate StepAt(n: nat, env: Trace, st: Run, t: nat) {
    st(t + 1) == Step(n, st(t), env(t))
  }

  ghost predicate IsRun(n: nat, env: Trace, st: Run) {
    forall t: nat :: StepAt(n, env, st, t)
  }

  function At(n: nat, s0: Tx, env: Trace, t: nat): Tx {
    if t == 0 then s0 else Step(n, At(n, s0, env, t - 1), env(t - 1))
  }

  /** From every state there is a run. */
  lemma RunFrom(n: nat, s0: Tx, env: Trace) returns (st: Run)
    ensures IsRun(n, env, st) && st(0) == s0
  {
    st := (t: nat) => At(n, s0, env, t);
    forall t: nat ensures StepAt(n, env, st, t) {
    }
  }

  function Accepted(env: Trace, st: Run, t: nat): seq<Octet> {
    if t == 0 then [] else Accepted(env, st, t - 1) + if Accepts(st(t - 1), env(t - 1)) then [env(t - 1).byte] else []
  }

  /** In clock `c` of bit `j`. */
  predicate InBit(s: Tx, byte: Octet, j: nat, c: nat) {
    && s.data == byte && s.count == c && s.active && !s.done
    && s.stage == (if j == 0 then StartBit else if j <= 8 then DataBits else StopBit)
    && s.index == if 1 <= j <= 8 then j - 1 else 0
  }

  lemma NextClock(n: nat, s: Tx, w: Offer, byte: Octet, j: nat, c: nat)
    requires InBit(s, byte, j, c) && c < n && j <= 9
    ensures Step(n, s, w).serial == Level(byte, j)
    ensures c + 1 < n ==> InBit(Step(n, s, w), byte, j, c + 1)
    ensures c + 1 == n && j < 9 ==> InBit(Step(n, s, w), byte, j + 1, 0)
    ensures c + 1 == n && j == 9 ==>
      Step(n, s, w).stage == Cleanup && !Step(n, s, w).active && Step(n, s, w).done
  {
  }

  /** The byte that is accepted at time `t` is in clock `c` of bit `j` at time `now`. */
  predicate Sending(env: Trace, st: Run, t: nat, now: nat, j: nat, c: nat) {
    InBit(st(now), env(t).byte, j, c) && Accepted(env, st, now) == Accepted(env, st, t) + [env(t).byte]
  }

  lemma {:induction false} SendsBits(n: nat, env: Trace, st: Run, t: nat, now: nat, j: nat, c: nat)
    requires IsRun(n, env, st) && Accepts(st(t), env(t)) && j <= 9 && c < n && now == t + 1 + Span(n, j) + c
    ensures Sending(env, st, t, now, j, c)
    decreases j, c
  {
    assert StepAt(n, env, st, now - 1);
    if c > 0 {
      SendsBits(n, env, st, t, now - 1, j, c - 1);
      NextClock(n, st(now - 1), env(now - 1), env(t).byte, j, c - 1);
    } else if j > 0 {
      SendsBits(n, env, st, t, now - 1, j - 1, n - 1);
      NextClock(n, st(now - 1), env(now - 1), env(t).byte, j - 1, n - 1);
    }
  }

  /** An accepted byte is on the line bit by bit; meanwhile nothing else is accepted. */
  lemma SendsFrame(n: nat, env: Trace, st: Run, t: nat, j: nat, c: nat)
    requires IsRun(n, env, st) && Accepts(st(t), env(t)) && j <= 9 && c < n
    ensures
      var now := t + 2 + Span(n, j) + c;
      st(now).serial == Level(env(t).byte, j) && Accepted(env, st, now) == Accepted(env, st, t) + [env(t).byte]
  {
    var now := t + 1 + Span(n, j) + c;
    SendsBits(n, env, st, t, now, j, c);
    assert StepAt(n, env, st, now);
    NextClock(n, st(now), env(now), env(t).byte, j, c);
  }

  /** When the transmitter is idle again after a frame. */
  function NextIdle(n: nat, t: nat): nat {
    t + 2 + 10 * n
  }

  /** The last clock of the stop bit, cleaning up, and the clock behind. */
  lemma StopBitEnds(n: nat, s: Tx, w: Offer, w': Offer, w'': Offer, byte: Octet)
    requires n > 0 && InBit(s, byte, 9, n - 1)
    ensures
      var s' := Step(n, s, w);
      var s'' := Step(n, s', w');
      && s'.stage == Cleanup && s'.done && s'.serial
      && Quiet(s'') && s''.done && !Step(n, s'', w'').done
  {
  }

  lemma EndsBehindStopBit(n: nat, env: Trace, st: Run, t: nat, at: nat)
    requires IsRun(n, env, st) && n > 0 && Sending(env, st, t, at, 9, n - 1)
    ensures
      && !st(at).done && st(at + 1).stage == Cleanup && st(at + 1).done && st(at + 1).serial
      && Quiet(st(at + 2)) && st(at + 2).done && !st(at + 3).done
      && Accepted(env, st, at + 2) == Accepted(env, st, at)
  {
    assert StepAt(n, env, st, at) && StepAt(n, env, st, at + 1) && StepAt(n, env, st, at + 2);
    StopBitEnds(n, st(at), env(at), env(at + 1), env(at + 2), env(t).byte);
    assert Accepted(env, st, at + 1) == Accepted(env, st, at);
  }

  /**
   Behind a frame the line is high and the transmitter idle. The done signal is high in exactly
   two clocks, the last of which may already be the clock that accepts the next byte.
   */
  lemma FrameEnds(n: nat, env: Trace, st: Run, t: nat)
    requires IsRun(n, env, st) && Accepts(st(t), env(t)) && n > 0
    ensures
      var end := NextIdle(n, t);
      && Quiet(st(end)) && st(end).done && !st(end + 1).done
      && st(end - 1).stage == Cleanup && st(end - 1).done && st(end - 1).serial && !st(end - 2).done
      && Accepted(env, st, end) == Accepted(env, st, t) + [env(t).byte]
  {
    var at := NextIdle(n, t) - 2;
    SpanIsProduct(n, 9);
    SendsBits(n, env, st, t, at, 9, n - 1);
    EndsBehindStopBit(n, env, st, t, at);
  }
}
