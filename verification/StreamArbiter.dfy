// A locking arbiter: once an input is on the output wires it stays there until it is taken.
module StreamArbiters {

  datatype Arbiter = Arbiter(locked: bool, mask0: bool, mask1: bool)

  /** The wires of one cycle: two offers and whether the output is taken. */
  datatype ArbiterWires<T> = ArbiterWires(valid0: bool, payload0: T, valid1: bool, payload1: T, ready: bool)

  predicate Routed0<T>(a: Arbiter, w: ArbiterWires<T>) {
    if a.locked then a.mask0 else w.valid0
  }

  predicate Routed1<T>(a: Arbiter, w: ArbiterWires<T>) {
    if a.locked then a.mask1 else w.valid1 && !w.valid0
  }

  predicate OutValid<T>(a: Arbiter, w: ArbiterWires<T>) {
    (w.valid0 && Routed0(a, w)) || (w.valid1 && Routed1(a, w))
  }

  function OutPayload<T>(a: Arbiter, w: ArbiterWires<T>): T {
    if Routed0(a, w) then w.payload0 else w.payload1
  }

  predicate Ready0<T>(a: Arbiter, w: ArbiterWires<T>) {
    Routed0(a, w) && w.ready
  }

  predicate Ready1<T>(a: Arbiter, w: ArbiterWires<T>) {
    Routed1(a, w) && w.ready
  }

  function Step<T>(a: Arbiter, w: ArbiterWires<T>): Arbiter {
    if OutValid(a, w) then Arbiter(!w.ready, Routed0(a, w), Routed1(a, w)) else a
  }

  class StreamArbiter<T> {
    var locked: bool
    var mask0: bool
    var mask1: bool

    function State(): Arbiter
      reads this
    {
      Arbiter(locked, mask0, mask1)
    }

    constructor ()
      ensures !locked
    {
      locked, mask0, mask1 := false, false, false;
    }

    method Tick(w: ArbiterWires<T>) returns (valid: bool, payload: T, ready0: bool, ready1: bool)
      modifies this
      ensures State() == Step(old(State()), w)
      ensures valid == OutValid(old(State()), w) && payload == OutPayload(old(State()), w)
      ensures ready0 == Ready0(old(State()), w) && ready1 == Ready1(old(State()), w)
    {
      var routed0 := if locked then mask0 else w.valid0;
      var routed1 := if locked then mask1 else w.valid1 && !w.valid0;
      valid := (w.valid0 && routed0) || (w.valid1 && routed1);
      payload := if routed0 then w.payload0 else w.payload1;
      ready0, ready1 := routed0 && w.ready, routed1 && w.ready;
      if valid {
        locked, mask0, mask1 := true, routed0, routed1;
      }
      if valid && w.ready {
        locked := false;
      }
    }
  }

  // What moves

  /** A locked arbiter routes one input. */
  predicate OneRoute(a: Arbiter) {
    a.locked ==> a.mask0 != a.mask1
  }

  /** The words that move in a cycle, as the inputs see them and as the output sees them. */
  function TakenIn0<T>(a: Arbiter, w: ArbiterWires<T>): seq<T> {
    if w.valid0 && Ready0(a, w) then [w.payload0] else []
  }

  function TakenIn1<T>(a: Arbiter, w: ArbiterWires<T>): seq<T> {
    if w.valid1 && Ready1(a, w) then [w.payload1] else []
  }

  function GivenOut<T>(a: Arbiter, w: ArbiterWires<T>): seq<T> {
    if OutValid(a, w) && w.ready then [OutPayload(a, w)] else []
  }

  /** Nothing is dropped, duplicated or changed, and at most one word moves. */
  lemma MergeConserves<T>(a: Arbiter, w: ArbiterWires<T>)
    requires OneRoute(a)
    ensures OneRoute(Step(a, w))
    ensures GivenOut(a, w) == TakenIn0(a, w) + TakenIn1(a, w)
    ensures |GivenOut(a, w)| <= 1
  {
  }

  /** Held inputs make a held output. */
  lemma OutputIsHeld<T>(a: Arbiter, w: ArbiterWires<T>, w': ArbiterWires<T>)
    requires OneRoute(a) && OutValid(a, w) && !w.ready
    requires w.valid0 ==> w'.valid0 && w'.payload0 == w.payload0
    requires w.valid1 ==> w'.valid1 && w'.payload1 == w.payload1
    ensures OutValid(Step(a, w), w') && OutPayload(Step(a, w), w') == OutPayload(a, w)
  {
  }

  /** A locked arbiter waits for an input that still offers. */
  predicate LockHolds<T>(a: Arbiter, w: ArbiterWires<T>) {
    a.locked ==> (a.mask0 ==> w.valid0) && (a.mask1 ==> w.valid1)
  }

  lemma LockIsKept<T>(a: Arbiter, w: ArbiterWires<T>, w': ArbiterWires<T>)
    requires OneRoute(a) && LockHolds(a, w)
    requires w.valid0 && !Ready0(a, w) ==> w'.valid0
    requires w.valid1 && !Ready1(a, w) ==> w'.valid1
    ensures LockHolds(Step(a, w), w')
  {
  }

  /**
   Whenever the output is ready a word gets out if there is one: the one that has been waiting on
   the output, and else that of input 0, and that of input 1 when input 0 has none.
   */
  lemma WhoGetsOut<T>(a: Arbiter, w: ArbiterWires<T>)
    requires OneRoute(a) && LockHolds(a, w)
    ensures OutValid(a, w) <==> w.valid0 || w.valid1
    ensures w.ready && !a.locked ==>
      && TakenIn0(a, w) == (if w.valid0 then [w.payload0] else [])
      && TakenIn1(a, w) == if w.valid1 && !w.valid0 then [w.payload1] else []
    ensures w.ready && a.locked ==>
      && TakenIn0(a, w) == (if a.mask0 then [w.payload0] else [])
      && TakenIn1(a, w) == if a.mask1 then [w.payload1] else []
    ensures Step(a, w).locked <==> OutValid(a, w) && !w.ready
    ensures Step(a, w).locked ==> Step(a, w).mask0 == Routed0(a, w) && Step(a, w).mask1 == Routed1(a, w)
  {
  }
}
