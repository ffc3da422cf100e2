// The receiver of the counter-based UART: two flops, then a state machine that looks for the
// middle of the start bit and samples every `m` clocks from there.
module UartRx {
  import opened Bits
  import opened Clocks
  import opened UartTiming

  datatype Core = Core(stage: Stage, count: nat, index: Index, byte: Octet, valid: bool)

  datatype Rx = Rx(core: Core, first: bool, second: bool)

  predicate PowerUp(s: Rx) {
    Ready(s.core) && s.first && s.second
  }

  predicate Ready(c: Core) {
    c.stage == Idle && !c.valid
  }

  /** The count that marks the middle of the start bit. */
  function Half(m: nat): nat
    requires m > 0
  {
    (m - 1) / 2
  }

  function CoreStep(m: nat, c: Core, line: bool): Core
    requires m > 0
  {
    match c.stage
    case Idle => c.(valid := false, count := 0, index := 0, stage := if line then Idle else StartBit)
    case StartBit =>
      if c.count != Half(m) then c.(count := c.count + 1)
      else if line then c.(stage := Idle)
      else c.(count := 0, stage := DataBits)
    case DataBits =>
      if c.count + 1 < m then c.(count := c.count + 1)
      else
        var c' := c.(count := 0, byte := c.byte[c.index := line]);
        if c.index < 7 then c'.(index := c.index + 1) else c'.(index := 0, stage := StopBit)
    case StopBit =>
      if c.count + 1 < m then c.(count := c.count + 1) else c.(valid := true, count := 0, stage := Cleanup)
    case Cleanup => c.(stage := Idle, valid := false)
  }

  function Step(m: nat, s: Rx, serial: bool): Rx
    requires m > 0
  {
    Rx(CoreStep(m, s.core, s.second), serial, s.first)
  }

  class UartReceiver {
    const clksPerBit: nat
    var first: bool
    var second: bool
    var stage: Stage
    var count: nat
    var index: Index
    var byte: Octet
    var valid: bool

    function State(): Rx
      reads this
    {
      Rx(Core(stage, count, index, byte, valid), first, second)
    }

    constructor (clksPerBit: nat)
      ensures this.clksPerBit == clksPerBit && PowerUp(State())
    {
      this.clksPerBit := clksPerBit;
      first, second, stage, count, index, byte, valid := true, true, Idle, 0, 0, Constant(false, 8), false;
    }

    method Tick(serial: bool)
      requires clksPerBit > 0
      modifies this
      ensures State() == Step(clksPerBit, old(State()), serial)
    {
      var line := second;
      first, second := serial, first;
      match stage {
        case Idle =>
          valid, count, index := false, 0, 0;
          if !line { stage := StartBit; }
        case StartBit =>
          if count == (clksPerBit - 1) / 2 {
            if line {
              stage := Idle;
            } else {
              count, stage := 0, DataBits;
            }
          } else {
            count := count + 1;
          }
        case DataBits =>
          if count + 1 < clksPerBit {
            count := count + 1;
          } else {
            count, byte := 0, byte[index := line];
            if index < 7 {
              index := index + 1;
            } else {
              index, stage := 0, StopBit;
            }
          }
        case StopBit =>
          if count + 1 < clksPerBit {
            count := count + 1;
          } else {
            valid, count, stage := true, 0, Cleanup;
          }
        case Cleanup =>
          stage, valid := Idle, false;
      }
    }
  }

  // Runs on a given line

  type Line = nat -> bool

  type Run = nat -> Rx

  predicate StepAt(m: nat, line: Line, st: Run, t: nat)
    requires m > 0
  {
    st(t + 1) == Step(m, st(t), line(t))
  }

  ghost predicate IsRun(m: nat, line: Line, st: Run)
    requires m > 0
  {
    forall t: nat :: StepAt(m, line, st, t)
  }

  function At(m: nat, s0: Rx, line: Line, t: nat): Rx
    requires m > 0
  {
    if t == 0 then s0 else Step(m, At(m, s0, line, t - 1), line(t - 1))
  }

  /** From every state there is a run. */
  lemma RunFrom(m: nat, s0: Rx, line: Line) returns (st: Run)
    requires m > 0
    ensures IsRun(m, line, st) && st(0) == s0
  {
    st := (t: nat) => At(m, s0, line, t);
    forall t: nat ensures StepAt(m, line, st, t) {
    }
  }

  lemma {:induction false} ReportsGrow(st: Run, t: nat, t': nat)
    requires t <= t'
    ensures Reports(st, t) <= Reports(st, t')
  {
    if t < t' {
      ReportsGrow(st, t, t' - 1);
    }
  }

  /** The bytes whose valid pulse comes before time `t`. */
  function Reports(st: Run, t: nat): seq<Octet> {
    if t == 0 then [] else Reports(st, t - 1) + if st(t - 1).core.valid then [st(t - 1).core.byte] else []
  }

  /** The state machine sees the line of two clocks ago. */
  lemma TwoFlops(m: nat, line: Line, st: Run, t: nat)
    requires m > 0 && IsRun(m, line, st) && PowerUp(st(0))
    ensures st(t).second == (t < 2 || line(t - 2))
  {
    if t > 0 {
      assert StepAt(m, line, st, t - 1);
      if t > 1 {
        assert StepAt(m, line, st, t - 2);
      }
    }
  }

  /** The state machine just counts for `k` clocks. */
  predicate Counts(m: nat, c: Core, k: nat)
    requires m > 0
  {
    !c.valid && match c.stage
                case StartBit => c.count + k <= Half(m)
                case DataBits => c.count + k < m
                case StopBit => c.count + k < m
                case _ => false
  }

  lemma {:induction false} Counting(m: nat, line: Line, st: Run, t: nat, k: nat)
    requires m > 0 && IsRun(m, line, st) && Counts(m, st(t).core, k)
    ensures st(t + k).core == st(t).core.(count := st(t).core.count + k)
    ensures Reports(st, t + k) == Reports(st, t)
  {
    if k > 0 {
      Counting(m, line, st, t, k - 1);
      assert StepAt(m, line, st, t + k - 1);
    }
  }

  lemma {:induction false} StaysReady(m: nat, line: Line, st: Run, t: nat, k: nat)
    requires m > 0 && IsRun(m, line, st) && Ready(st(t).core)
    requires forall x :: t <= x < t + k ==> st(x).second
    ensures Ready(st(t + k).core) && Reports(st, t + k) == Reports(st, t)
  {
    if k > 0 {
      StaysReady(m, line, st, t, k - 1);
      assert StepAt(m, line, st, t + k - 1);
    }
  }

  /** When the line is first seen low at `t`: what the middle of the start bit decides. */
  lemma Starts(m: nat, line: Line, st: Run, t: nat)
    requires m > 0 && IsRun(m, line, st) && Ready(st(t).core) && !st(t).second
    ensures
      var end := t + 2 + (m - 1) / 2;
      && (if st(end - 1).second then Ready(st(end).core)
          else st(end).core == Core(DataBits, 0, 0, st(end).core.byte, false))
      && Reports(st, end) == Reports(st, t)
  {
    assert StepAt(m, line, st, t);
    Counting(m, line, st, t + 1, Half(m));
    assert StepAt(m, line, st, t + 1 + Half(m));
  }

  /** Where bit `k` is sampled, when sampling begins at `t`. */
  function SampleTime(m: nat, t: nat, k: nat): nat
    requires m > 0
  {
    t + Span(m, k) + (m - 1)
  }

  lemma {:induction false} Samples(m: nat, line: Line, st: Run, t: nat, i: nat)
    requires m > 0 && IsRun(m, line, st) && i <= 8
    requires st(t).core == Core(DataBits, 0, 0, st(t).core.byte, false)
    ensures
      var c := st(t + Span(m, i)).core;
      && c == Core(if i < 8 then DataBits else StopBit, 0, if i < 8 then i else 0, c.byte, false)
      && forall k :: 0 <= k < i ==> c.byte[k] == st(SampleTime(m, t, k)).second
    ensures Reports(st, t + Span(m, i)) == Reports(st, t)
  {
    if i > 0 {
      var at := t + Span(m, i - 1);
      Samples(m, line, st, t, i - 1);
      Counting(m, line, st, at, m - 1);
      assert StepAt(m, line, st, at + (m - 1));
      assert SampleTime(m, t, i - 1) == at + (m - 1);
    }
  }

  /** A whole frame, from the clock that sees the line low: it is reported once. */
  lemma Receives(m: nat, line: Line, st: Run, t: nat, start: nat, end: nat)
    requires m > 0 && IsRun(m, line, st) && Ready(st(t).core) && !st(t).second
    requires start == t + 2 + Half(m) && end == start + 9 * m && !st(start - 1).second
    ensures Ready(st(end + 1).core) && st(end).core.valid && Reports(st, end) == Reports(st, t)
    ensures Reports(st, end + 1) == Reports(st, t) + [st(end).core.byte]
    ensures forall k :: 0 <= k < 8 ==> st(end).core.byte[k] == st(SampleTime(m, start, k)).second
  {
    var stop := end - m;
    Starts(m, line, st, t);
    SpanIsProduct(m, 8);
    Samples(m, line, st, start, 8);
    Counting(m, line, st, stop, m - 1);
    assert StepAt(m, line, st, end - 1) && StepAt(m, line, st, end);
  }
}
