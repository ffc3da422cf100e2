// A stream crosses from the core clock to the slow clock: the sender toggles `target` for each
// word, two flops later the receiver sees it, takes the word and toggles `hit`, and two flops
// later the sender sees that. The edges of the two clocks come in any order, also together.
module ToggleCrossing {
  import opened Sequences

  /**
   The registers: `popA`, `popB` carry `target` into the slow domain, `pushA`, `pushB` carry
   `hit` back into the core domain; `rValid`, `rData` are the pipe register at the output.
   */
  datatype Crossing<T> = Crossing(
    target: bool, data: T, popA: bool, popB: bool, hit: bool, pushA: bool, pushB: bool, rValid: bool, rData: T)

  /** One instant: which clocks rise in it, and the wires at both ends. */
  datatype Edge<T> = Edge(core: bool, slow: bool, valid: bool, payload: T, ready: bool)

  predicate PowerUp<T>(c: Crossing<T>) {
    !c.target && !c.popA && !c.popB && !c.hit && !c.pushA && !c.pushB && !c.rValid
  }

  predicate Accepts<T>(c: Crossing<T>, e: Edge<T>) {
    e.core && e.valid && c.pushB == c.target
  }

  predicate Delivers<T>(c: Crossing<T>, e: Edge<T>) {
    e.slow && c.rValid && e.ready
  }

  /** The pipe register may be loaded. */
  predicate Open<T>(c: Crossing<T>, e: Edge<T>) {
    !c.rValid || e.ready
  }

  predicate Pending<T>(c: Crossing<T>) {
    c.popB != c.hit
  }

  /** One instant. Both sides read the registers as they were before it. */
  function Step<T>(c: Crossing<T>, e: Edge<T>): Crossing<T> {
    var sent, loads := Accepts(c, e), e.slow && Open(c, e);
    Crossing(
      if sent then !c.target else c.target,
      if sent then e.payload else c.data,
      if e.slow then c.target else c.popA,
      if e.slow then c.popA else c.popB,
      if loads then c.popB else c.hit,
      if e.core then c.hit else c.pushA,
      if e.core then c.pushA else c.pushB,
      if loads then Pending(c) else c.rValid,
      if loads then c.data else c.rData)
  }

  // The clocked module

  class StreamCCByToggle<T(0)> {
    var target: bool
    var data: T
    var popA: bool
    var popB: bool
    var hit: bool
    var pushA: bool
    var pushB: bool
    var rValid: bool
    var rData: T

    function State(): Crossing<T>
      reads this
    {
      Crossing(target, data, popA, popB, hit, pushA, pushB, rValid, rData)
    }

    constructor ()
      ensures PowerUp(State())
    {
      target, popA, popB, hit, pushA, pushB, rValid := false, false, false, false, false, false, false;
    }

    method Tick(e: Edge<T>) returns (accepted: bool, delivered: bool, out: T)
      modifies this
      ensures State() == Step(old(State()), e)
      ensures accepted == Accepts(old(State()), e) && delivered == Delivers(old(State()), e) && out == old(rData)
    {
      var wasTarget, wasData := target, data;
      delivered, out := e.slow && rValid && e.ready, rData;
      accepted := CoreBlock(e);
      SlowBlock(e, wasTarget, wasData);
    }

    /** The registers of the core side; `hit` is still what it was. */
    method CoreBlock(e: Edge<T>) returns (accepted: bool)
      modifies `target, `data, `pushA, `pushB
      ensures accepted == Accepts(old(State()), e)
      ensures target == (if accepted then !old(target) else old(target))
      ensures data == if accepted then e.payload else old(data)
      ensures pushA == (if e.core then hit else old(pushA)) && pushB == if e.core then old(pushA) else old(pushB)
    {
      var pushHit := pushB == target;
      accepted := e.core && e.valid && pushHit;
      if accepted {
        target, data := !target, e.payload;
      }
      if e.core {
        pushA, pushB := hit, pushA;
      }
    }

    /** The registers of the slow side, given what those of the core side were before the instant. */
    method SlowBlock(e: Edge<T>, wasTarget: bool, wasData: T)
      modifies `popA, `popB, `hit, `rValid, `rData
      ensures popA == (if e.slow then wasTarget else old(popA)) && popB == if e.slow then old(popA) else old(popB)
      ensures
        var loads := e.slow && Open(old(State()), e);
        && hit == (if loads then old(popB) else old(hit))
        && rValid == (if loads then Pending(old(State())) else old(rValid))
        && rData == if loads then wasData else old(rData)
    {
      var streamValid, streamReady := popB != hit, !rValid || e.ready;
      if e.slow {
        if streamReady {
          if streamValid { hit := !hit; }
          rValid, rData := streamValid, wasData;
        }
        popA, popB := wasTarget, popA;
      }
    }
  }

  // The invariant: along the ring of toggles there is at most one change

  function Ring<T>(c: Crossing<T>): seq<bool> {
    [c.target, c.popA, c.popB, c.hit, c.pushA, c.pushB]
  }

  function Changes(s: seq<bool>): (n: nat)
    ensures |s| > 0 ==> n < |s|
  {
    if |s| < 2 then 0 else Changes(s[1..]) + (if s[0] != s[1] then 1 else 0)
  }

  predicate Settled<T>(c: Crossing<T>) {
    Changes(Ring(c)) <= 1
  }

  /** The words that were accepted and not yet delivered, oldest first. */
  function InFlight<T>(c: Crossing<T>): (s: seq<T>)
    ensures |s| <= 2
  {
    (if c.rValid then [c.rData] else []) + (if c.target != c.hit then [c.data] else [])
  }

  lemma ChangesOfSix(a: bool, b: bool, c: bool, d: bool, e: bool, f: bool)
    ensures Changes([a, b, c, d, e, f]) ==
            (if a != b then 1 else 0) + (if b != c then 1 else 0) + (if c != d then 1 else 0)
            + (if d != e then 1 else 0) + (if e != f then 1 else 0)
  {
    assert [a, b, c, d, e, f][1..] == [b, c, d, e, f];
    assert [b, c, d, e, f][1..] == [c, d, e, f];
    assert [c, d, e, f][1..] == [d, e, f];
    assert [d, e, f][1..] == [e, f];
    assert [e, f][1..] == [f];
    assert Changes([f]) == 0;
    assert Changes([e, f]) == if e != f then 1 else 0;
    assert Changes([d, e, f]) == Changes([e, f]) + if d != e then 1 else 0;
    assert Changes([c, d, e, f]) == Changes([d, e, f]) + if c != d then 1 else 0;
  }

  lemma StepKeepsSettled<T>(c: Crossing<T>, e: Edge<T>)
    requires Settled(c)
    ensures Settled(Step(c, e))
    ensures Accepts(c, e) ==> c.target == c.hit
  {
    var c' := Step(c, e);
    ChangesOfSix(c.target, c.popA, c.popB, c.hit, c.pushA, c.pushB);
    ChangesOfSix(c'.target, c'.popA, c'.popB, c'.hit, c'.pushA, c'.pushB);
  }

  lemma StepConserves<T>(c: Crossing<T>, e: Edge<T>)
    requires Settled(c)
    ensures InFlight(c) + (if Accepts(c, e) then [e.payload] else [])
         == (if Delivers(c, e) then [c.rData] else []) + InFlight(Step(c, e))
  {
    ChangesOfSix(c.target, c.popA, c.popB, c.hit, c.pushA, c.pushB);
  }

  // Whole runs

  function Run<T>(c: Crossing<T>, es: seq<Edge<T>>): Crossing<T>
    decreases |es|
  {
    if es == [] then c else Run(Step(c, es[0]), es[1..])
  }

  function Accepted<T>(c: Crossing<T>, es: seq<Edge<T>>): seq<T>
    decreases |es|
  {
    if es == [] then []
    else (if Accepts(c, es[0]) then [es[0].payload] else []) + Accepted(Step(c, es[0]), es[1..])
  }

  function Delivered<T>(c: Crossing<T>, es: seq<Edge<T>>): seq<T>
    decreases |es|
  {
    if es == [] then []
    else (if Delivers(c, es[0]) then [c.rData] else []) + Delivered(Step(c, es[0]), es[1..])
  }

  lemma {:induction false} RunConserves<T>(c: Crossing<T>, es: seq<Edge<T>>)
    requires Settled(c)
    ensures Settled(Run(c, es))
    ensures InFlight(c) + Accepted(c, es) == Delivered(c, es) + InFlight(Run(c, es))
    decreases |es|
  {
    if es != [] {
      var c' := Step(c, es[0]);
      StepKeepsSettled(c, es[0]);
      StepConserves(c, es[0]);
      RunConserves(c', es[1..]);
      var p := if Accepts(c, es[0]) then [es[0].payload] else [];
      var q := if Delivers(c, es[0]) then [c.rData] else [];
      Regroup(
        InFlight(c), p, Accepted(c', es[1..]), q, InFlight(c'), Delivered(c', es[1..]), InFlight(Run(c', es[1..])));
    }
  }

  /** From power-up, whatever the two clocks do: every word arrives once and in order. */
  lemma ExactlyOnceInOrder<T>(c: Crossing<T>, es: seq<Edge<T>>)
    requires PowerUp(c)
    ensures Accepted(c, es) == Delivered(c, es) + InFlight(Run(c, es))
    ensures Changes(Ring(Run(c, es))) <= 1
  {
    ChangesOfSix(c.target, c.popA, c.popB, c.hit, c.pushA, c.pushB);
    RunConserves(c, es);
    assert InFlight(c) == [];
  }

  // Progress: the change moves along the ring

  /** How far the change has come: 6 means that there is none and the sender may send. */
  function Position<T>(c: Crossing<T>): (p: nat)
    ensures p <= 6
  {
    if c.target != c.popA then 1
    else if c.popA != c.popB then 2
    else if c.popB != c.hit then 3
    else if c.hit != c.pushA then 4
    else if c.pushA != c.pushB then 5
    else 6
  }

  /** The edge that the change waits for; at the end it is the one that accepts the next word. */
  predicate Moves<T>(c: Crossing<T>, e: Edge<T>) {
    if Position(c) <= 2 then e.slow
    else if Position(c) == 3 then e.slow && Open(c, e)
    else if Position(c) <= 5 then e.core
    else Accepts(c, e)
  }

  /** These edges move the change on by one place, and no other edge moves it. */
  lemma EdgesMoveTheChange<T>(c: Crossing<T>, e: Edge<T>)
    requires Settled(c)
    ensures Position(c) == 6 <==> c.pushB == c.target
    ensures Position(Step(c, e))
         == if !Moves(c, e) then Position(c) else if Position(c) == 6 then 1 else Position(c) + 1
    ensures Position(c) == 3 && Moves(c, e) ==> Step(c, e).rValid && Step(c, e).rData == c.data
    ensures Position(c) < 6 || !Moves(c, e) ==> Step(c, e).data == c.data
  {
    ChangesOfSix(c.target, c.popA, c.popB, c.hit, c.pushA, c.pushB);
  }

  /** How many of the edges move the change. */
  function Moved<T>(c: Crossing<T>, es: seq<Edge<T>>): nat
    decreases |es|
  {
    if es == [] then 0 else (if Moves(c, es[0]) then 1 else 0) + Moved(Step(c, es[0]), es[1..])
  }

  lemma {:induction false} RunMoves<T>(c: Crossing<T>, es: seq<Edge<T>>)
    requires Settled(c) && Position(c) + Moved(c, es) <= 6
    ensures Settled(Run(c, es)) && Position(Run(c, es)) == Position(c) + Moved(c, es) && Run(c, es).data == c.data
    decreases |es|
  {
    if es != [] {
      StepKeepsSettled(c, es[0]);
      EdgesMoveTheChange(c, es[0]);
      RunMoves(Step(c, es[0]), es[1..]);
    }
  }

  function SlowEdges<T>(es: seq<Edge<T>>): nat {
    if es == [] then 0 else (if es[0].slow then 1 else 0) + SlowEdges(es[1..])
  }

  function CoreEdges<T>(es: seq<Edge<T>>): nat {
    if es == [] then 0 else (if es[0].core then 1 else 0) + CoreEdges(es[1..])
  }

  /** On the way through the slow flops every slow edge moves the change, on the way back every core edge. */
  lemma {:induction false} MovedIsCount<T>(c: Crossing<T>, es: seq<Edge<T>>)
    requires Settled(c)
    ensures Position(c) + SlowEdges(es) <= 3 ==> Moved(c, es) == SlowEdges(es)
    ensures 4 <= Position(c) && Position(c) + CoreEdges(es) <= 6 ==> Moved(c, es) == CoreEdges(es)
    decreases |es|
  {
    if es != [] {
      StepKeepsSettled(c, es[0]);
      EdgesMoveTheChange(c, es[0]);
      MovedIsCount(Step(c, es[0]), es[1..]);
    }
  }

  /**
   Progress: behind the edge `e0` that accepts a word come two slow edges among any core edges,
   and then slow edges until the pipe register is open; the first open one, `e`, loads the word.
   The sender waits for two core edges more, among any slow edges, and not for less.
   */
  lemma WordArrives<T>(
      c: Crossing<T>, e0: Edge<T>, way: seq<Edge<T>>, wait: seq<Edge<T>>, e: Edge<T>, back: seq<Edge<T>>)
    requires Settled(c) && Accepts(c, e0) && SlowEdges(way) == 2
    requires
      var c2 := Run(Step(c, e0), way);
      Moved(c2, wait) == 0 && e.slow && Open(Run(c2, wait), e)
    requires CoreEdges(back) <= 2
    ensures
      var loaded := Step(Run(Run(Step(c, e0), way), wait), e);
      && loaded.rValid && loaded.rData == e0.payload
      && var end := Run(loaded, back);
         end.pushB == end.target <==> CoreEdges(back) == 2
  {
    var c1 := Step(c, e0);
    StepKeepsSettled(c, e0);
    EdgesMoveTheChange(c, e0);
    MovedIsCount(c1, way);
    RunMoves(c1, way);
    var c2 := Run(c1, way);
    RunMoves(c2, wait);
    var c3 := Run(c2, wait);
    StepKeepsSettled(c3, e);
    EdgesMoveTheChange(c3, e);
    var loaded := Step(c3, e);
    MovedIsCount(loaded, back);
    RunMoves(loaded, back);
    FreeAtEnd(Run(loaded, back));
  }

  lemma FreeAtEnd<T>(c: Crossing<T>)
    requires Settled(c)
    ensures Position(c) == 6 <==> c.pushB == c.target
  {
    ChangesOfSix(c.target, c.popA, c.popB, c.hit, c.pushA, c.pushB);
  }
}
