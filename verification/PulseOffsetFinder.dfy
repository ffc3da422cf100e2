// The state machine around the offset search: it starts one search for a pulse, waits for
// the first engine to end, and resets the engines when the result is taken.
module PulseOffsetFinding {
  import opened Clocks
  import opened Lfsr
  import opened OffsetSearch
  import opened Pulses

  const FRESH := 2048  // a longer silence than this, in quarters, asks for a new search

  datatype Locator = Locator(fsm: Fsm, lastTimestamp: nat, lastPoly: nat, finder: Finder)

  /** The wires of one cycle: the offered pulse and whether the result is taken. */
  datatype Wires = Wires(valid: bool, pulse: Identified, ready: bool)

  predicate PowerUp(s: Locator) {
    s.fsm == FsmBoot && AllIn(s.finder, Boot)
  }

  predicate Wanted(s: Locator, w: Wires) {
    && w.pulse.npoly != NO_POLY
    && (FRESH < Quarters(w.pulse.pulse.timestamp, s.lastTimestamp) || w.pulse.npoly != s.lastPoly)
  }

  function QueryOf(w: Wires): Query {
    Query(w.pulse.npoly % 32, w.pulse.pulse.beamWord)
  }

  predicate Starts(s: Locator, w: Wires) {
    s.fsm == TestDelta && Wanted(s, w)
  }

  predicate Transfers(s: Locator, w: Wires) {
    s.fsm == SendResult && w.ready
  }

  predicate Resets(s: Locator, w: Wires) {
    (s.fsm == TestDelta && !Wanted(s, w)) || Transfers(s, w)
  }

  function ControlOf(s: Locator, w: Wires): Control {
    Control(Starts(s, w), Resets(s, w), QueryOf(w))
  }

  /** The offset on the output wires. */
  function Offset(s: Locator): nat {
    if s.finder.found then s.finder.offset else 0
  }

  function NextFsm(s: Locator, w: Wires): Fsm {
    match s.fsm
    case FsmBoot => Idle
    case Idle => if w.valid then TestDelta else Idle
    case TestDelta => if Wanted(s, w) then WaitFinder else SendResult
    case WaitFinder => if Done(s.finder) then SendResult else WaitFinder
    case SendResult => if w.ready then Idle else SendResult
  }

  function Clock(rom: Rom, s: Locator, w: Wires): Locator {
    Locator(
      NextFsm(s, w),
      if s.fsm == SendResult && s.finder.found then w.pulse.pulse.timestamp else s.lastTimestamp,
      if s.fsm == SendResult then w.pulse.npoly else s.lastPoly,
      Next(rom, s.finder, ControlOf(s, w)))
  }

  // The clocked module

  class PulseOffsetFinder {
    const finder: OffsetFinder
    var fsm: Fsm
    var lastTimestamp: nat
    var lastPoly: nat

    ghost predicate Valid()
      reads this, finder
    {
      finder.Valid()
    }

    ghost function State(): Locator
      reads this, finder, finder.engines
      requires Valid()
    {
      Locator(fsm, lastTimestamp, lastPoly, finder.State())
    }

    constructor (rom: Rom)
      ensures Valid() && fresh(finder) && fresh(finder.engines) && finder.rom == rom
      ensures PowerUp(State())
    {
      finder := new OffsetFinder(rom);
      fsm, lastTimestamp, lastPoly := FsmBoot, 0, 0;
    }

    method Tick(w: Wires) returns (out: bool, taken: bool, offset: nat)
      requires Valid()
      modifies this, finder, finder.engines
      ensures Valid() && State() == Clock(finder.rom, old(State()), w)
      ensures out == (old(fsm) == SendResult) && taken == (out && w.ready)
      ensures offset == old(Offset(State()))
    {
      var start, reset := false, false;
      var next := fsm;
      var done := finder.HasEnded();
      var found := finder.found;
      offset := if found then finder.offset else 0;
      out := fsm == SendResult;
      taken := out && w.ready;
      match fsm {
        case FsmBoot =>
          next := Idle;
        case Idle =>
          if w.valid { next := TestDelta; }
        case TestDelta =>
          var delta := (w.pulse.pulse.timestamp - lastTimestamp) % TIME / 4;
          if w.pulse.npoly != NO_POLY && (FRESH < delta || w.pulse.npoly != lastPoly) {
            start, next := true, WaitFinder;
          } else {
            reset, next := true, SendResult;
          }
        case WaitFinder =>
          if done { next := SendResult; }
        case SendResult =>
          if taken { reset, next := true, Idle; }
          if found { lastTimestamp := w.pulse.pulse.timestamp; }
          lastPoly := w.pulse.npoly;
      }
      finder.Tick(Control(start, reset, QueryOf(w)));
      fsm := next;
    }
  }

  // Runs. The input is held: an offered pulse stays until it is taken.

  type Trace = nat -> Wires

  function At(rom: Rom, s0: Locator, env: Trace, t: nat): Locator {
    if t == 0 then s0 else Clock(rom, At(rom, s0, env, t - 1), env(t - 1))
  }

  /** The step from wires `w` to wires `w'` keeps an offered pulse until it is taken. */
  predicate Holds(s: Locator, w: Wires, w': Wires) {
    w.valid && !Transfers(s, w) ==> w'.valid && w'.pulse == w.pulse
  }

  predicate HoldsAt(rom: Rom, s0: Locator, env: Trace, t: nat) {
    Holds(At(rom, s0, env, t), env(t), env(t + 1))
  }

  ghost predicate Held(rom: Rom, s0: Locator, env: Trace) {
    forall t: nat :: HoldsAt(rom, s0, env, t)
  }

  predicate Armed(rom: Rom, f: Finder, q: Query) {
    && AllIn(f, E1) && !f.found
    && forall k :: 0 <= k < ENGINES ==> f.engines[k].count == 0 && f.engines[k].romOut == rom[4 * q.poly]
  }

  /** What holds in every reachable cycle. */
  predicate Inv(rom: Rom, s: Locator, w: Wires) {
    match s.fsm
    case FsmBoot => AllIn(s.finder, Boot)
    case Idle => AllIn(s.finder, E1)
    case TestDelta => w.valid && Armed(rom, s.finder, QueryOf(w))
    case WaitFinder => w.valid && SearchInv(rom, s.finder, QueryOf(w)) && StageOf(s.finder) != Broken
    case SendResult =>
      && w.valid
      && ((AllIn(s.finder, E5) && SearchInv(rom, s.finder, QueryOf(w))) || (AllIn(s.finder, E1) && !s.finder.found))
  }

  lemma StepKeepsInv(rom: Rom, s: Locator, w: Wires, w': Wires)
    requires RomContract(rom) && Inv(rom, s, w) && Holds(s, w, w')
    ensures Inv(rom, Clock(rom, s, w), w')
  {
    var c := ControlOf(s, w);
    var f' := Clock(rom, s, w).finder;
    match s.fsm {
      case FsmBoot => assert AllIn(f', E1);
      case Idle =>
        IdleStep(rom, s.finder, c);
      case TestDelta =>
        if Starts(s, w) {
          StartStep(rom, s.finder, c);
        } else {
          IdleStep(rom, s.finder, c);
        }
      case WaitFinder =>
        SearchStep(rom, s.finder, c);
        LockStep(rom, s.finder, c);
      case SendResult =>
        if AllIn(s.finder, E1) {
          IdleStep(rom, s.finder, c);
        } else if w.ready {
          assert AllIn(f', E1);
        } else {
          SearchStep(rom, s.finder, c);
          assert AllIn(f', E5);
        }
    }
  }

  /** Engines that are not started stay in E1 and are armed after one clock. */
  lemma IdleStep(rom: Rom, f: Finder, c: Control)
    requires AllIn(f, E1) && !c.start
    ensures Armed(rom, Next(rom, f, c), c.q)
  {
    VerdictOfIdle(f, c, ENGINES);
  }

  lemma VerdictOfIdle(f: Finder, c: Control, n: nat)
    requires AllIn(f, E1) && n <= ENGINES
    ensures n > 0 ==> !Verdict(f, c, n).0
  {
  }

  lemma StartStep(rom: Rom, f: Finder, c: Control)
    requires Armed(rom, f, c.q) && c.start
    ensures SearchInv(rom, Next(rom, f, c), c.q)
    ensures StageOf(Next(rom, f, c)) == Loading
  {
    VerdictOfIdle(f, c, ENGINES);
    var f' := Next(rom, f, c);
    assert Rest(f', E2, 0);
  }

  predicate InvAt(rom: Rom, s0: Locator, env: Trace, t: nat) {
    Inv(rom, At(rom, s0, env, t), env(t))
  }

  lemma InvOn(rom: Rom, s0: Locator, env: Trace, t: nat, t': nat)
    requires RomContract(rom) && Held(rom, s0, env) && InvAt(rom, s0, env, t) && t' == t + 1
    ensures InvAt(rom, s0, env, t')
  {
    assert HoldsAt(rom, s0, env, t);
    StepKeepsInv(rom, At(rom, s0, env, t), env(t), env(t'));
  }

  lemma InvHolds(rom: Rom, s0: Locator, env: Trace, t: nat)
    requires RomContract(rom) && PowerUp(s0) && Held(rom, s0, env)
    ensures InvAt(rom, s0, env, t)
  {
    forall i: nat | InvAt(rom, s0, env, i) ensures InvAt(rom, s0, env, i + 1) {
      InvOn(rom, s0, env, i, i + 1);
    }
    AtEveryTime((i: nat) => InvAt(rom, s0, env, i), t);
  }

  lemma Reachable(rom: Rom, s0: Locator, env: Trace, t: nat)
    requires RomContract(rom) && PowerUp(s0) && Held(rom, s0, env)
    ensures Inv(rom, At(rom, s0, env, t), env(t))
  {
    InvHolds(rom, s0, env, t);
  }

  // What a result means

  /** A reported offset is one: that many steps from 1 give the beam word of the pulse. */
  lemma ResultIsSound(rom: Rom, s0: Locator, env: Trace, t: nat)
    requires RomContract(rom) && PowerUp(s0) && Held(rom, s0, env)
    requires At(rom, s0, env, t).fsm == SendResult && At(rom, s0, env, t).finder.found
    ensures Offset(At(rom, s0, env, t)) < ENGINES * QUARTER
    ensures Steps(rom[4 * QueryOf(env(t)).poly], One(WIDTH), Offset(At(rom, s0, env, t))) == env(t).pulse.pulse.beamWord
  {
    Reachable(rom, s0, env, t);
  }

  /** The all-zero beam word is never given an offset. */
  lemma ZeroIsNeverFound(rom: Rom, s0: Locator, env: Trace, t: nat)
    requires RomContract(rom) && PowerUp(s0) && Held(rom, s0, env)
    requires forall p :: 0 <= p < 32 ==> TopTap(rom[4 * p])
    requires At(rom, s0, env, t).fsm == SendResult && env(t).pulse.pulse.beamWord == Zero(WIDTH)
    ensures !At(rom, s0, env, t).finder.found
  {
    if At(rom, s0, env, t).finder.found {
      ResultIsSound(rom, s0, env, t);
      OneNeverReachesZero(rom[4 * QueryOf(env(t)).poly], Offset(At(rom, s0, env, t)));
    }
  }

  lemma StartedStep(rom: Rom, s: Locator, w: Wires)
    requires Inv(rom, s, w) && Starts(s, w)
    ensures Clock(rom, s, w).fsm == WaitFinder
    ensures Remaining(Clock(rom, s, w).finder) == LAST + 2
  {
    StartStep(rom, s.finder, ControlOf(s, w));
  }

  lemma WaitStep(rom: Rom, s: Locator, w: Wires)
    requires Inv(rom, s, w) && s.fsm == WaitFinder
    ensures Done(s.finder) ==> Clock(rom, s, w).fsm == SendResult && AllIn(Clock(rom, s, w).finder, E5)
    ensures !Done(s.finder) ==> Clock(rom, s, w).fsm == WaitFinder
    ensures !Done(s.finder) ==> Remaining(Clock(rom, s, w).finder) < Remaining(s.finder)
  {
    LockStep(rom, s.finder, ControlOf(s, w));
  }

  predicate Waits(rom: Rom, s0: Locator, env: Trace, t: nat) {
    At(rom, s0, env, t).fsm == WaitFinder
  }

  ghost predicate WaitsFrom(rom: Rom, s0: Locator, env: Trace, from: nat, to: nat) {
    forall i :: from <= i < to ==> Waits(rom, s0, env, i)
  }

  lemma WaitsLonger(rom: Rom, s0: Locator, env: Trace, t: nat, to: nat)
    requires Waits(rom, s0, env, t) && WaitsFrom(rom, s0, env, t + 1, to)
    ensures WaitsFrom(rom, s0, env, t, to)
  {
    forall i | t <= i < to ensures Waits(rom, s0, env, i) {
      assert i == t || t + 1 <= i;
    }
  }

  lemma {:induction false} WaitEnds(rom: Rom, s0: Locator, env: Trace, t: nat) returns (end: nat)
    requires RomContract(rom) && PowerUp(s0) && Held(rom, s0, env)
    requires Waits(rom, s0, env, t)
    ensures t < end <= t + Remaining(At(rom, s0, env, t).finder) + 1
    ensures WaitsFrom(rom, s0, env, t, end)
    ensures At(rom, s0, env, end).fsm == SendResult && AllIn(At(rom, s0, env, end).finder, E5)
    ensures env(end).valid && env(end).pulse == env(t).pulse
    decreases Remaining(At(rom, s0, env, t).finder)
  {
    Reachable(rom, s0, env, t);
    assert HoldsAt(rom, s0, env, t);
    WaitStep(rom, At(rom, s0, env, t), env(t));
    assert At(rom, s0, env, t + 1) == Clock(rom, At(rom, s0, env, t), env(t));
    if Done(At(rom, s0, env, t).finder) {
      end := t + 1;
    } else {
      end := WaitEnds(rom, s0, env, t + 1);
    }
    WaitsLonger(rom, s0, env, t, end);
  }

  /**
   A search that is started at time `t` hands over its result at time `end`, within
   2^15 + 3 cycles, for the same pulse; it has found an offset iff there is one below 2^17.
   */
  lemma SearchDecides(rom: Rom, s0: Locator, env: Trace, t: nat) returns (end: nat)
    requires RomContract(rom) && PowerUp(s0) && Held(rom, s0, env)
    requires Starts(At(rom, s0, env, t), env(t))
    ensures t < end <= t + QUARTER + 3
    ensures WaitsFrom(rom, s0, env, t + 1, end)
    ensures At(rom, s0, env, end).fsm == SendResult
    ensures env(end).valid && env(end).pulse == env(t).pulse
    ensures At(rom, s0, env, end).finder.found <==> OnOrbit(rom, QueryOf(env(t)))
  {
    Reachable(rom, s0, env, t);
    assert HoldsAt(rom, s0, env, t);
    StartedStep(rom, At(rom, s0, env, t), env(t));
    assert At(rom, s0, env, t + 1) == Clock(rom, At(rom, s0, env, t), env(t));
    end := WaitEnds(rom, s0, env, t + 1);
    Reachable(rom, s0, env, end);
    EndedSearchDecides(rom, At(rom, s0, env, end).finder, QueryOf(env(t)));
  }

  /**
   Lock-step of the wrapper and the engines: a start finds all four engines in E1 with clear
   counters and `found` clear; `done` is not seen before the engines have left E1; a taken
   result resets engines that all stand in E5, or in E1 when the pulse needed no search.
   */
  predicate InLockStep(rom: Rom, s: Locator, w: Wires) {
    && (Starts(s, w) ==>
          AllIn(s.finder, E1) && !s.finder.found && forall k :: 0 <= k < ENGINES ==> s.finder.engines[k].count == 0)
    && (s.fsm != WaitFinder && s.fsm != SendResult ==> !Done(s.finder))
    && (Transfers(s, w) ==> AllIn(s.finder, E5) || (AllIn(s.finder, E1) && !s.finder.found))
    && (Resets(s, w) ==> AllIn(Clock(rom, s, w).finder, E1))
  }

  lemma ResetStep(rom: Rom, s: Locator, w: Wires)
    requires Inv(rom, s, w) && Resets(s, w)
    ensures AllIn(Clock(rom, s, w).finder, E1)
  {
  }

  lemma WrapperInLockStep(rom: Rom, s0: Locator, env: Trace, t: nat)
    requires RomContract(rom) && PowerUp(s0) && Held(rom, s0, env)
    ensures InLockStep(rom, At(rom, s0, env, t), env(t))
  {
    Reachable(rom, s0, env, t);
    if Resets(At(rom, s0, env, t), env(t)) {
      ResetStep(rom, At(rom, s0, env, t), env(t));
    }
  }

  /** The result wires do not change while the result waits to be taken. */
  lemma ResultIsHeld(rom: Rom, s: Locator, w: Wires, w': Wires)
    requires RomContract(rom) && Inv(rom, s, w) && Holds(s, w, w')
    requires s.fsm == SendResult && !w.ready
    ensures Clock(rom, s, w).fsm == SendResult && w'.pulse == w.pulse
    ensures Offset(Clock(rom, s, w)) == Offset(s)
  {
    var c := ControlOf(s, w);
    if AllIn(s.finder, E5) {
      VerdictOfEnded(s.finder, c, ENGINES);
    } else {
      VerdictOfIdle(s.finder, c, ENGINES);
    }
  }

  lemma {:induction false} VerdictOfEnded(f: Finder, c: Control, n: nat)
    requires AllIn(f, E5) && !c.start && n <= ENGINES
    ensures Verdict(f, c, n) == (f.found, f.offset)
  {
    if n > 0 {
      VerdictOfEnded(f, c, n - 1);
    }
  }

  // Which pulses are searched, told by the pulses that went before

  /** The polynomial of the last pulse that was handed over, and the time stamp of the last that was found. */
  datatype Memory = Memory(poly: nat, found: nat)

  predicate Reaches(rom: Rom, x: Identified, offset: nat) {
    offset < 0x2_0000 && Steps(rom[4 * (x.npoly % 32)], One(WIDTH), offset) == x.pulse.beamWord
  }

  /** A pulse is searched when it has a polynomial, and that is a new one or the last find is long ago. */
  predicate IsSearched(m: Memory, x: Identified) {
    x.npoly != 63 && (x.npoly != m.poly || Quarters(x.pulse.timestamp, m.found) > 2048)
  }

  ghost predicate IsFound(rom: Rom, m: Memory, x: Identified) {
    IsSearched(m, x) && exists offset :: Reaches(rom, x, offset)
  }

  /** The offset of the pulse, or 0 where there is none. */
  ghost predicate IsLocated(rom: Rom, m: Memory, x: Identified, offset: nat) {
    if IsFound(rom, m, x) then Reaches(rom, x, offset) else offset == 0
  }

  ghost function NextMemory(rom: Rom, m: Memory, x: Identified): Memory {
    Memory(x.npoly, if IsFound(rom, m, x) then x.pulse.timestamp else m.found)
  }

  ghost function MemoryAfter(rom: Rom, m: Memory, xs: seq<Identified>): Memory {
    if xs == [] then m else NextMemory(rom, MemoryAfter(rom, m, xs[..|xs| - 1]), xs[|xs| - 1])
  }

  lemma OrbitIsReached(rom: Rom, w: Wires)
    ensures OnOrbit(rom, QueryOf(w)) <==> exists offset :: Reaches(rom, w.pulse, offset)
  {
    var mask, word := rom[4 * (w.pulse.npoly % 32)], w.pulse.pulse.beamWord;
    if offset :| 0 <= offset < ENGINES * QUARTER && Steps(mask, One(WIDTH), offset) == word {
      assert Reaches(rom, w.pulse, offset);
    }
    if offset :| Reaches(rom, w.pulse, offset) {
      assert Steps(mask, One(WIDTH), offset) == word;
    }
  }

  /** The registers hold the memory, and the states of the search fit what is to be done with the pulse. */
  ghost predicate Remembers(rom: Rom, s: Locator, w: Wires, m: Memory) {
    match s.fsm
    case WaitFinder => s.lastPoly == m.poly && s.lastTimestamp == m.found && IsSearched(m, w.pulse)
    case SendResult =>
      && (s.finder.found <==> IsFound(rom, m, w.pulse)) && IsLocated(rom, m, w.pulse, Offset(s))
      && (!s.finder.found ==> s.lastTimestamp == m.found)
    case _ => s.lastPoly == m.poly && s.lastTimestamp == m.found
  }

  lemma WaitRemembers(rom: Rom, s: Locator, w: Wires, w': Wires, m: Memory)
    requires RomContract(rom) && Inv(rom, s, w) && Holds(s, w, w') && Remembers(rom, s, w, m)
    requires s.fsm == WaitFinder
    ensures Remembers(rom, Clock(rom, s, w), w', m)
  {
    var s' := Clock(rom, s, w);
    if Done(s.finder) {
      WaitStep(rom, s, w);
      StepKeepsInv(rom, s, w, w');
      EndedSearchDecides(rom, s'.finder, QueryOf(w'));
      OrbitIsReached(rom, w');
    }
  }

  lemma SendRemembers(rom: Rom, s: Locator, w: Wires, w': Wires, m: Memory)
    requires RomContract(rom) && Inv(rom, s, w) && Holds(s, w, w') && Remembers(rom, s, w, m)
    requires s.fsm == SendResult
    ensures Remembers(rom, Clock(rom, s, w), w', if w.ready then NextMemory(rom, m, w.pulse) else m)
  {
    if !w.ready {
      if AllIn(s.finder, E5) {
        VerdictOfEnded(s.finder, ControlOf(s, w), ENGINES);
      } else {
        VerdictOfIdle(s.finder, ControlOf(s, w), ENGINES);
      }
    }
  }

  /** One clock: a pulse that is handed over is remembered. */
  lemma ClockRemembers(rom: Rom, s: Locator, w: Wires, w': Wires, m: Memory)
    requires RomContract(rom) && Inv(rom, s, w) && Holds(s, w, w') && Remembers(rom, s, w, m)
    ensures Remembers(rom, Clock(rom, s, w), w', if Transfers(s, w) then NextMemory(rom, m, w.pulse) else m)
  {
    match s.fsm {
      case TestDelta =>
        if !Starts(s, w) {
          IdleStep(rom, s.finder, ControlOf(s, w));
        }
      case WaitFinder =>
        WaitRemembers(rom, s, w, w', m);
      case SendResult =>
        SendRemembers(rom, s, w, w', m);
      case _ =>
    }
  }

  /** The pulses that are handed over before clock `t`. */
  function Handed(rom: Rom, s0: Locator, env: Trace, t: nat): seq<Identified> {
    if t == 0 then []
    else
      Handed(rom, s0, env, t - 1)
      + if Transfers(At(rom, s0, env, t - 1), env(t - 1)) then [env(t - 1).pulse] else []
  }

  /** What the registers hold at power-up, and then what the pulses before clock `t` have left. */
  ghost function MemoryAt(rom: Rom, s0: Locator, env: Trace, t: nat): Memory {
    MemoryAfter(rom, Memory(s0.lastPoly, s0.lastTimestamp), Handed(rom, s0, env, t))
  }

  lemma MemoryOfOneMore(rom: Rom, m: Memory, xs: seq<Identified>, x: Identified)
    ensures MemoryAfter(rom, m, xs + [x]) == NextMemory(rom, MemoryAfter(rom, m, xs), x)
  {
    assert (xs + [x])[..|xs|] == xs;
  }

  /** A clock that hands a pulse over adds it to the memory. */
  lemma MemoryMoves(rom: Rom, s0: Locator, env: Trace, t: nat)
    ensures MemoryAt(rom, s0, env, t + 1)
         == if Transfers(At(rom, s0, env, t), env(t)) then NextMemory(rom, MemoryAt(rom, s0, env, t), env(t).pulse)
            else MemoryAt(rom, s0, env, t)
  {
    var hs := Handed(rom, s0, env, t);
    MemoryOfOneMore(rom, Memory(s0.lastPoly, s0.lastTimestamp), hs, env(t).pulse);
    assert hs + [] == hs;
  }

  ghost predicate RemembersAt(rom: Rom, s0: Locator, env: Trace, t: nat) {
    Remembers(rom, At(rom, s0, env, t), env(t), MemoryAt(rom, s0, env, t))
  }

  lemma RemembersOn(rom: Rom, s0: Locator, env: Trace, t: nat, t': nat)
    requires RomContract(rom) && PowerUp(s0) && Held(rom, s0, env) && RemembersAt(rom, s0, env, t) && t' == t + 1
    ensures RemembersAt(rom, s0, env, t')
  {
    Reachable(rom, s0, env, t);
    assert HoldsAt(rom, s0, env, t);
    MemoryMoves(rom, s0, env, t);
    ClockRemembers(rom, At(rom, s0, env, t), env(t), env(t'), MemoryAt(rom, s0, env, t));
  }

  lemma HistoryIsRemembered(rom: Rom, s0: Locator, env: Trace, t: nat)
    requires RomContract(rom) && PowerUp(s0) && Held(rom, s0, env)
    ensures RemembersAt(rom, s0, env, t)
  {
    forall i: nat | RemembersAt(rom, s0, env, i) ensures RemembersAt(rom, s0, env, i + 1) {
      RemembersOn(rom, s0, env, i, i + 1);
    }
    AtEveryTime((i: nat) => RemembersAt(rom, s0, env, i), t);
  }

  /**
   Whatever came before: a search begins for exactly the pulses that have a polynomial which is
   new, or whose last find is more than 2048 quarters ago.
   */
  lemma SearchBegins(rom: Rom, s0: Locator, env: Trace, t: nat)
    requires RomContract(rom) && PowerUp(s0) && Held(rom, s0, env) && At(rom, s0, env, t).fsm == TestDelta
    ensures At(rom, s0, env, t + 1).fsm
         == if IsSearched(MemoryAt(rom, s0, env, t), env(t).pulse) then WaitFinder else SendResult
  {
    HistoryIsRemembered(rom, s0, env, t);
    assert At(rom, s0, env, t + 1) == Clock(rom, At(rom, s0, env, t), env(t));
  }

  /** Every pulse leaves with its offset, if it is searched and there is one, and else with 0. */
  lemma PulsesAreLocated(rom: Rom, s0: Locator, env: Trace, t: nat, m: Memory, x: Identified)
    requires RomContract(rom) && PowerUp(s0) && Held(rom, s0, env) && At(rom, s0, env, t).fsm == SendResult
    requires m == MemoryAt(rom, s0, env, t) && x == env(t).pulse
    ensures IsLocated(rom, m, x, Offset(At(rom, s0, env, t)))
  {
    HistoryIsRemembered(rom, s0, env, t);
  }

  lemma {:induction false} MemoryStays(rom: Rom, s0: Locator, env: Trace, t: nat, end: nat)
    requires t <= end && WaitsFrom(rom, s0, env, t, end)
    ensures MemoryAt(rom, s0, env, end) == MemoryAt(rom, s0, env, t)
    decreases end
  {
    if t < end {
      MemoryStays(rom, s0, env, t, end - 1);
      MemoryWaits(rom, s0, env, end - 1, end);
    }
  }

  lemma MemoryWaits(rom: Rom, s0: Locator, env: Trace, t: nat, t': nat)
    requires Waits(rom, s0, env, t) && t' == t + 1
    ensures MemoryAt(rom, s0, env, t') == MemoryAt(rom, s0, env, t)
  {
    MemoryMoves(rom, s0, env, t);
  }

  /** From the look at a pulse to its answer. */
  lemma AnswerComes(rom: Rom, s0: Locator, env: Trace, t: nat) returns (end: nat)
    requires RomContract(rom) && PowerUp(s0) && Held(rom, s0, env) && At(rom, s0, env, t).fsm == TestDelta
    ensures t < end <= t + QUARTER + 3 && At(rom, s0, env, end).fsm == SendResult
    ensures env(end).valid && env(end).pulse == env(t).pulse
    ensures WaitsFrom(rom, s0, env, t + 1, end)
  {
    Reachable(rom, s0, env, t);
    assert HoldsAt(rom, s0, env, t);
    if Starts(At(rom, s0, env, t), env(t)) {
      end := SearchDecides(rom, s0, env, t);
    } else {
      end := t + 1;
      assert At(rom, s0, env, end) == Clock(rom, At(rom, s0, env, t), env(t));
    }
  }

  /** A pulse that is looked at is answered, within 2^15 + 3 clocks, by what its predecessors make of it. */
  lemma EveryPulseIsAnswered(rom: Rom, s0: Locator, env: Trace, t: nat) returns (end: nat)
    requires RomContract(rom) && PowerUp(s0) && Held(rom, s0, env) && At(rom, s0, env, t).fsm == TestDelta
    ensures t < end <= t + QUARTER + 3 && At(rom, s0, env, end).fsm == SendResult
    ensures env(end).valid && env(end).pulse == env(t).pulse
    ensures IsLocated(rom, MemoryAt(rom, s0, env, t), env(t).pulse, Offset(At(rom, s0, env, end)))
  {
    end := AnswerComes(rom, s0, env, t);
    MemoryMoves(rom, s0, env, t);
    MemoryStays(rom, s0, env, t + 1, end);
    PulsesAreLocated(rom, s0, env, end, MemoryAt(rom, s0, env, t), env(t).pulse);
  }
}
