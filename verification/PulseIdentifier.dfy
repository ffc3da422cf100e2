// The state machine around the polynomial search: it compares a pulse with the one before it.
module PulseIdentifying {
  import opened Clocks
  import opened Lfsr
  import opened PolyFinding
  import opened Pulses

  const RECENT := 1024  // only a pulse this close, in quarters, is compared

  datatype Identifier = Identifier(fsm: Fsm, lastState: Word17, lastTimestamp: nat, nPoly: nat, search: Search)

  /** The wires of one cycle: the offered pulse and whether the result is taken. */
  datatype Wires = Wires(valid: bool, pulse: Pulse, ready: bool)

  predicate PowerUp(s: Identifier) {
    s.fsm == FsmBoot && !s.search.searching
  }

  function Delta(s: Identifier, w: Wires): nat {
    Quarters(w.pulse.timestamp, s.lastTimestamp)
  }

  /** The last step that is compared: two after the distance, cut to ten bits. */
  function LastStep(s: Identifier, w: Wires): (last: nat)
    ensures Delta(s, w) < RECENT - 2 ==> last == Delta(s, w) + 2
  {
    (Delta(s, w) + 2) % TICKS
  }

  predicate Starts(s: Identifier, w: Wires) {
    s.fsm == TestDelta && Delta(s, w) < RECENT
  }

  predicate Transfers(s: Identifier, w: Wires) {
    s.fsm == SendResult && w.ready
  }

  function ProbeOf(s: Identifier, w: Wires): Probe {
    Probe(Starts(s, w), s.lastState, w.pulse.beamWord, LastStep(s, w))
  }

  /** What the flags name: the encoded index, or no polynomial. */
  function NameOf(found: Flags): nat {
    if Clear(found) then NO_POLY else Encode(found)
  }

  function NextFsm(s: Identifier, w: Wires): Fsm {
    match s.fsm
    case FsmBoot => Idle
    case Idle => if w.valid then TestDelta else Idle
    case TestDelta => if Starts(s, w) then WaitFinder else SendResult
    case WaitFinder => if Done(s.search) then SendResult else WaitFinder
    case SendResult => if w.ready then Idle else SendResult
  }

  function Clock(masks: Masks, s: Identifier, w: Wires): Identifier {
    var send := s.fsm == SendResult;
    Identifier(
      NextFsm(s, w),
      if send then w.pulse.beamWord else s.lastState,
      if send then w.pulse.timestamp else s.lastTimestamp,
      if s.fsm == TestDelta && !Starts(s, w) then NO_POLY
      else if s.fsm == WaitFinder && Done(s.search) then NameOf(s.search.found)
      else s.nPoly,
      Next(masks, s.search, ProbeOf(s, w)))
  }

  // The clocked module

  class PulseIdentifier {
    const finder: PolyFinder
    var fsm: Fsm
    var lastState: Word17
    var lastTimestamp: nat
    var nPoly: nat

    ghost predicate Valid()
      reads this, finder
    {
      finder.Valid()
    }

    ghost function State(): Identifier
      reads this, finder, finder.found, finder.states
      requires Valid()
    {
      Identifier(fsm, lastState, lastTimestamp, nPoly, finder.State())
    }

    constructor (masks: Masks)
      ensures Valid() && fresh(finder) && fresh(finder.found) && fresh(finder.states) && finder.masks == masks
      ensures PowerUp(State())
    {
      finder := new PolyFinder(masks);
      fsm, lastState, lastTimestamp, nPoly := FsmBoot, Zero(WIDTH), 0, 0;
    }

    method Tick(w: Wires) returns (out: bool, taken: bool, npoly: nat)
      requires Valid()
      modifies this, finder, finder.found, finder.states
      ensures Valid() && State() == Clock(finder.masks, old(State()), w)
      ensures out == (old(fsm) == SendResult) && taken == (out && w.ready) && npoly == old(nPoly)
    {
      ghost var s := State();
      var start, next := false, fsm;
      var from, delta := lastState, (w.pulse.timestamp - lastTimestamp) % TIME / 4;
      out, npoly := fsm == SendResult, nPoly;
      taken := out && w.ready;
      match fsm {
        case FsmBoot =>
          next := Idle;
        case Idle =>
          if w.valid { next := TestDelta; }
        case TestDelta =>
          if delta < RECENT {
            start, next := true, WaitFinder;
          } else {
            next, nPoly := SendResult, NO_POLY;
          }
        case WaitFinder =>
          if !finder.searching && finder.previous {
            next := SendResult;
            nPoly := finder.Result();
          }
        case SendResult =>
          if taken { next := Idle; }
          lastTimestamp, lastState := w.pulse.timestamp, w.pulse.beamWord;
      }
      assert next == NextFsm(s, w) && start == Starts(s, w);
      finder.Tick(Probe(start, from, w.pulse.beamWord, (delta + 2) % TICKS));
      fsm := next;
    }
  }

  // Runs. The input is held: an offered pulse stays until it is taken.

  type Trace = nat -> Wires

  function At(masks: Masks, s0: Identifier, env: Trace, t: nat): Identifier {
    if t == 0 then s0 else Clock(masks, At(masks, s0, env, t - 1), env(t - 1))
  }

  predicate Holds(s: Identifier, w: Wires, w': Wires) {
    w.valid && !Transfers(s, w) ==> w'.valid && w'.pulse == w.pulse
  }

  predicate HoldsAt(masks: Masks, s0: Identifier, env: Trace, t: nat) {
    Holds(At(masks, s0, env, t), env(t), env(t + 1))
  }

  ghost predicate Held(masks: Masks, s0: Identifier, env: Trace) {
    forall t: nat :: HoldsAt(masks, s0, env, t)
  }

  /** What holds in every reachable cycle: in waitFinder the end of the search is never missed. */
  ghost predicate Inv(masks: Masks, s: Identifier, w: Wires) {
    match s.fsm
    case FsmBoot => !s.search.searching
    case Idle => !s.search.searching
    case TestDelta => w.valid && !s.search.searching
    case WaitFinder =>
      && w.valid
      && if s.search.searching then Running(masks, s.search, s.lastState, w.pulse.beamWord, LastStep(s, w))
         else Done(s.search) && Decided(masks, s.lastState, w.pulse.beamWord, LastStep(s, w), s.search.found)
    case SendResult => w.valid && !s.search.searching && (s.nPoly < POLYS || s.nPoly == NO_POLY)
  }

  lemma StepKeepsInv(masks: Masks, s: Identifier, w: Wires, w': Wires)
    requires Inv(masks, s, w) && Holds(s, w, w')
    ensures Inv(masks, Clock(masks, s, w), w')
  {
    var p := ProbeOf(s, w);
    if Starts(s, w) {
      StartStep(masks, s.search, p);
    } else if s.search.searching {
      RunStep(masks, s.search, p, s.lastState, LastStep(s, w));
    }
  }

  ghost predicate InvAt(masks: Masks, s0: Identifier, env: Trace, t: nat) {
    Inv(masks, At(masks, s0, env, t), env(t))
  }

  lemma InvOn(masks: Masks, s0: Identifier, env: Trace, t: nat, t': nat)
    requires Held(masks, s0, env) && InvAt(masks, s0, env, t) && t' == t + 1
    ensures InvAt(masks, s0, env, t')
  {
    assert HoldsAt(masks, s0, env, t);
    StepKeepsInv(masks, At(masks, s0, env, t), env(t), env(t'));
  }

  lemma Reachable(masks: Masks, s0: Identifier, env: Trace, t: nat)
    requires PowerUp(s0) && Held(masks, s0, env)
    ensures Inv(masks, At(masks, s0, env, t), env(t))
  {
    forall i: nat | InvAt(masks, s0, env, i) ensures InvAt(masks, s0, env, i + 1) {
      InvOn(masks, s0, env, i, i + 1);
    }
    AtEveryTime((i: nat) => InvAt(masks, s0, env, i), t);
  }

  // What a result means

  /** `npoly` names the registers that match at the first matching step of the window. */
  ghost predicate Names(masks: Masks, from: Word17, target: Word17, last: nat, npoly: nat) {
    || (npoly == NO_POLY && NoneIn(masks, from, target, FirstStep(last), last + 1))
    || exists step, found :: NamesAt(masks, from, target, last, npoly, step, found)
  }

  ghost predicate NamesAt(masks: Masks, from: Word17, target: Word17, last: nat, npoly: nat, step: nat, found: Flags) {
    && FirstMatch(masks, from, target, last, step)
    && MatchFlags(masks, from, target, step, found) && npoly == Encode(found)
  }

  lemma DecidedNames(masks: Masks, from: Word17, target: Word17, last: nat, found: Flags)
    requires Decided(masks, from, target, last, found)
    ensures Names(masks, from, target, last, NameOf(found))
  {
    if step :| FirstMatch(masks, from, target, last, step) && MatchFlags(masks, from, target, step, found) {
      assert NamesAt(masks, from, target, last, NameOf(found), step, found);
    }
  }

  /** One matching polynomial: it is the one that is named. */
  lemma OneMatchIsNamed(masks: Masks, from: Word17, target: Word17, last: nat, npoly: nat, step: nat, i: nat)
    requires Names(masks, from, target, last, npoly)
    requires FirstMatch(masks, from, target, last, step) && i < POLYS
    requires forall k :: 0 <= k < POLYS ==> (MatchesAt(masks, from, target, step, k) <==> k == i)
    ensures npoly == i
  {
    assert SomeAt(masks, from, target, step);
    var other, found :| NamesAt(masks, from, target, last, npoly, other, found);
    assert other == step;
    EncodeOfOne(found, i);
  }

  /** Several that match in the same step: the name is the bitwise or of their numbers. */
  lemma MatchesAreNamed(masks: Masks, from: Word17, target: Word17, last: nat, npoly: nat, step: nat, weight: nat)
    requires Names(masks, from, target, last, npoly)
    requires FirstMatch(masks, from, target, last, step) && IsWeight(weight)
    ensures npoly < POLYS
    ensures BitOf(npoly, weight)
      <==> exists k :: 0 <= k < POLYS && MatchesAt(masks, from, target, step, k) && BitOf(k, weight)
  {
    assert SomeAt(masks, from, target, step);
    var other, found :| NamesAt(masks, from, target, last, npoly, other, found);
    assert other == step;
    EncodeIsOr(found, weight);
  }

  lemma WaitStep(masks: Masks, s: Identifier, w: Wires)
    requires Inv(masks, s, w) && s.fsm == WaitFinder
    ensures
      var s' := Clock(masks, s, w);
      && s'.lastState == s.lastState && s'.lastTimestamp == s.lastTimestamp
      && if s.search.searching then
           s'.fsm == WaitFinder && (s'.search.searching ==> s'.search.counter < s.search.counter)
         else s'.fsm == SendResult && Names(masks, s.lastState, w.pulse.beamWord, LastStep(s, w), s'.nPoly)
  {
    if s.search.searching {
      RunStep(masks, s.search, ProbeOf(s, w), s.lastState, LastStep(s, w));
    } else {
      DecidedNames(masks, s.lastState, w.pulse.beamWord, LastStep(s, w), s.search.found);
    }
  }

  predicate Waits(masks: Masks, s0: Identifier, env: Trace, t: nat) {
    At(masks, s0, env, t).fsm == WaitFinder
  }

  ghost predicate WaitsFrom(masks: Masks, s0: Identifier, env: Trace, from: nat, to: nat) {
    forall i :: from <= i < to ==> Waits(masks, s0, env, i)
  }

  lemma WaitsLonger(masks: Masks, s0: Identifier, env: Trace, t: nat, to: nat)
    requires Waits(masks, s0, env, t) && WaitsFrom(masks, s0, env, t + 1, to)
    ensures WaitsFrom(masks, s0, env, t, to)
  {
    forall i | t <= i < to ensures Waits(masks, s0, env, i) {
      assert i == t || t + 1 <= i;
    }
  }

  lemma WaitClock(masks: Masks, s0: Identifier, env: Trace, t: nat)
    requires PowerUp(s0) && Held(masks, s0, env) && Waits(masks, s0, env, t)
    ensures
      var s, s' := At(masks, s0, env, t), At(masks, s0, env, t + 1);
      && s'.lastState == s.lastState && LastStep(s', env(t + 1)) == LastStep(s, env(t))
      && env(t + 1).valid && env(t + 1).pulse == env(t).pulse
      && if s.search.searching then
           s'.fsm == WaitFinder && (s'.search.searching ==> s'.search.counter < s.search.counter)
         else s'.fsm == SendResult && Names(masks, s.lastState, env(t).pulse.beamWord, LastStep(s, env(t)), s'.nPoly)
  {
    Reachable(masks, s0, env, t);
    assert HoldsAt(masks, s0, env, t);
    WaitStep(masks, At(masks, s0, env, t), env(t));
    assert At(masks, s0, env, t + 1) == Clock(masks, At(masks, s0, env, t), env(t));
  }

  lemma {:induction false} WaitEnds(masks: Masks, s0: Identifier, env: Trace, t: nat) returns (end: nat)
    requires PowerUp(s0) && Held(masks, s0, env) && Waits(masks, s0, env, t)
    ensures
      var s := At(masks, s0, env, t);
      && t < end <= t + 1 + (if s.search.searching then s.search.counter + 1 else 0)
      && At(masks, s0, env, end).fsm == SendResult
      && Names(masks, s.lastState, env(t).pulse.beamWord, LastStep(s, env(t)), At(masks, s0, env, end).nPoly)
    ensures WaitsFrom(masks, s0, env, t, end)
    ensures env(end).valid && env(end).pulse == env(t).pulse
    decreases var s := At(masks, s0, env, t); if s.search.searching then s.search.counter + 1 else 0
  {
    WaitClock(masks, s0, env, t);
    end := t + 1;
    if At(masks, s0, env, t).search.searching {
      end := WaitEnds(masks, s0, env, t + 1);
    }
    WaitsLonger(masks, s0, env, t, end);
  }

  lemma StartedStep(masks: Masks, s: Identifier, w: Wires, w': Wires)
    requires Inv(masks, s, w) && Starts(s, w) && w'.pulse == w.pulse
    ensures
      var s' := Clock(masks, s, w);
      && s'.fsm == WaitFinder && s'.lastState == s.lastState && LastStep(s', w') == LastStep(s, w)
      && s'.search.searching && s'.search.counter == LastStep(s, w)
  {
    StartStep(masks, s.search, ProbeOf(s, w));
  }

  /** A comparison that is started at time `t` hands over its result at time `end`, for the same pulse. */
  lemma ComparisonEnds(masks: Masks, s0: Identifier, env: Trace, t: nat) returns (end: nat)
    requires PowerUp(s0) && Held(masks, s0, env) && Starts(At(masks, s0, env, t), env(t))
    ensures
      var s := At(masks, s0, env, t);
      var last := LastStep(s, env(t));
      && t < end <= t + last + 3
      && At(masks, s0, env, end).fsm == SendResult
      && Names(masks, s.lastState, env(t).pulse.beamWord, last, At(masks, s0, env, end).nPoly)
    ensures WaitsFrom(masks, s0, env, t + 1, end)
    ensures env(end).valid && env(end).pulse == env(t).pulse
  {
    Reachable(masks, s0, env, t);
    assert HoldsAt(masks, s0, env, t);
    StartedStep(masks, At(masks, s0, env, t), env(t), env(t + 1));
    assert At(masks, s0, env, t + 1) == Clock(masks, At(masks, s0, env, t), env(t));
    end := WaitEnds(masks, s0, env, t + 1);
  }

  /** The compared steps of a pulse at distance `d`: from one before it to two after it. */
  lemma WindowOf(s: Identifier, w: Wires)
    requires Delta(s, w) < RECENT
    ensures Delta(s, w) < RECENT - 2 ==>
      LastStep(s, w) == Delta(s, w) + 2 && FirstStep(LastStep(s, w)) == if Delta(s, w) == 0 then 0 else Delta(s, w) - 1
    ensures Delta(s, w) >= RECENT - 2 ==> FirstStep(LastStep(s, w)) == 0 && LastStep(s, w) == Delta(s, w) - (RECENT - 2)
  {
  }

  // What a pulse is compared with: the pulse that was handed over before it

  /** The beam word and the time stamp of a pulse. */
  datatype Previous = Previous(word: Word17, timestamp: nat)

  /** The name of the pulse `p`, when `before` is the pulse before it. */
  ghost predicate IsNamed(masks: Masks, before: Previous, p: Pulse, npoly: nat) {
    var d := Quarters(p.timestamp, before.timestamp);
    if d < 1024 then Names(masks, before.word, p.beamWord, (d + 2) % 1024, npoly) else npoly == 63
  }

  function PreviousOf(p: Pulse): Previous {
    Previous(p.beamWord, p.timestamp)
  }

  function PreviousAfter(before: Previous, ps: seq<Pulse>): Previous {
    if ps == [] then before else PreviousOf(ps[|ps| - 1])
  }

  /** The registers hold the pulse before, and the states of the search fit what is to be done. */
  ghost predicate Remembers(masks: Masks, s: Identifier, w: Wires, before: Previous) {
    match s.fsm
    case WaitFinder => IsLast(s, before) && Quarters(w.pulse.timestamp, before.timestamp) < 1024
    case SendResult => IsNamed(masks, before, w.pulse, s.nPoly)
    case _ => IsLast(s, before)
  }

  predicate IsLast(s: Identifier, before: Previous) {
    s.lastState == before.word && s.lastTimestamp == before.timestamp
  }

  /** One clock: a pulse that is handed over is the one before the next. */
  lemma ClockRemembers(masks: Masks, s: Identifier, w: Wires, w': Wires, before: Previous)
    requires Inv(masks, s, w) && Holds(s, w, w') && Remembers(masks, s, w, before)
    ensures Remembers(masks, Clock(masks, s, w), w', if Transfers(s, w) then PreviousOf(w.pulse) else before)
  {
    if s.fsm == WaitFinder {
      WaitStep(masks, s, w);
    }
  }

  /** The pulses that are handed over before clock `t`. */
  function Handed(masks: Masks, s0: Identifier, env: Trace, t: nat): seq<Pulse> {
    if t == 0 then []
    else
      Handed(masks, s0, env, t - 1)
      + if Transfers(At(masks, s0, env, t - 1), env(t - 1)) then [env(t - 1).pulse] else []
  }

  /** The last pulse that was handed over before clock `t`; before the first, what the registers hold at power-up. */
  function PreviousAt(masks: Masks, s0: Identifier, env: Trace, t: nat): Previous {
    PreviousAfter(Previous(s0.lastState, s0.lastTimestamp), Handed(masks, s0, env, t))
  }

  lemma PreviousMoves(masks: Masks, s0: Identifier, env: Trace, t: nat, t': nat)
    requires t' == t + 1
    ensures PreviousAt(masks, s0, env, t')
         == if Transfers(At(masks, s0, env, t), env(t)) then PreviousOf(env(t).pulse) else PreviousAt(masks, s0, env, t)
  {
    var hs := Handed(masks, s0, env, t);
    assert hs + [] == hs;
  }

  ghost predicate RemembersAt(masks: Masks, s0: Identifier, env: Trace, t: nat) {
    Remembers(masks, At(masks, s0, env, t), env(t), PreviousAt(masks, s0, env, t))
  }

  lemma RemembersOn(masks: Masks, s0: Identifier, env: Trace, t: nat, t': nat)
    requires PowerUp(s0) && Held(masks, s0, env) && RemembersAt(masks, s0, env, t) && t' == t + 1
    ensures RemembersAt(masks, s0, env, t')
  {
    Reachable(masks, s0, env, t);
    assert HoldsAt(masks, s0, env, t);
    PreviousMoves(masks, s0, env, t, t');
    ClockRemembers(masks, At(masks, s0, env, t), env(t), env(t'), PreviousAt(masks, s0, env, t));
  }

  lemma HistoryIsRemembered(masks: Masks, s0: Identifier, env: Trace, t: nat)
    requires PowerUp(s0) && Held(masks, s0, env)
    ensures RemembersAt(masks, s0, env, t)
  {
    forall i: nat | RemembersAt(masks, s0, env, i) ensures RemembersAt(masks, s0, env, i + 1) {
      RemembersOn(masks, s0, env, i, i + 1);
    }
    AtEveryTime((i: nat) => RemembersAt(masks, s0, env, i), t);
  }

  /** Every pulse leaves with the name that the pulse before it gives it. */
  lemma PulsesAreNamed(masks: Masks, s0: Identifier, env: Trace, t: nat, before: Previous, p: Pulse)
    requires PowerUp(s0) && Held(masks, s0, env) && At(masks, s0, env, t).fsm == SendResult
    requires before == PreviousAt(masks, s0, env, t) && p == env(t).pulse
    ensures IsNamed(masks, before, p, At(masks, s0, env, t).nPoly)
  {
    HistoryIsRemembered(masks, s0, env, t);
  }

  lemma PreviousWaits(masks: Masks, s0: Identifier, env: Trace, t: nat, t': nat)
    requires Waits(masks, s0, env, t) && t' == t + 1
    ensures PreviousAt(masks, s0, env, t') == PreviousAt(masks, s0, env, t)
  {
    PreviousMoves(masks, s0, env, t, t');
  }

  lemma {:induction false} PreviousStays(masks: Masks, s0: Identifier, env: Trace, t: nat, end: nat)
    requires t <= end && WaitsFrom(masks, s0, env, t, end)
    ensures PreviousAt(masks, s0, env, end) == PreviousAt(masks, s0, env, t)
    decreases end
  {
    if t < end {
      PreviousStays(masks, s0, env, t, end - 1);
      PreviousWaits(masks, s0, env, end - 1, end);
    }
  }

  lemma AnswerComes(masks: Masks, s0: Identifier, env: Trace, t: nat) returns (end: nat)
    requires PowerUp(s0) && Held(masks, s0, env) && At(masks, s0, env, t).fsm == TestDelta
    ensures t < end <= t + 1026 && At(masks, s0, env, end).fsm == SendResult
    ensures env(end).valid && env(end).pulse == env(t).pulse
    ensures WaitsFrom(masks, s0, env, t + 1, end)
  {
    Reachable(masks, s0, env, t);
    assert HoldsAt(masks, s0, env, t);
    if Starts(At(masks, s0, env, t), env(t)) {
      end := ComparisonEnds(masks, s0, env, t);
    } else {
      end := t + 1;
      assert At(masks, s0, env, end) == Clock(masks, At(masks, s0, env, t), env(t));
    }
  }

  /**
   Two pulses in a row: within 1026 clocks the second one is handed over with the name that the
   first one gives it. That is what matches first in the window of their distance, or none; and
   none when they are 1024 quarters apart or more.
   */
  lemma ComparisonDecides(masks: Masks, s0: Identifier, env: Trace, t: nat) returns (end: nat)
    requires PowerUp(s0) && Held(masks, s0, env) && At(masks, s0, env, t).fsm == TestDelta
    ensures t < end <= t + 1026 && At(masks, s0, env, end).fsm == SendResult
    ensures env(end).valid && env(end).pulse == env(t).pulse
    ensures IsNamed(masks, PreviousAt(masks, s0, env, t), env(t).pulse, At(masks, s0, env, end).nPoly)
  {
    end := AnswerComes(masks, s0, env, t);
    PreviousMoves(masks, s0, env, t, t + 1);
    PreviousStays(masks, s0, env, t + 1, end);
    PulsesAreNamed(masks, s0, env, end, PreviousAt(masks, s0, env, t), env(t).pulse);
  }
}
