// A FIFO over a memory with a registered read port. The port reads at the next pop pointer
// before the write of the same clock, so a word pushed into an empty FIFO is one clock late;
// the flag `stale` hides the port for that clock.
module StreamFifos {
  import opened Sequences

  datatype Fifo<T> = Fifo(ram: seq<T>, pushPtr: nat, popPtr: nat, rising: bool, stale: bool, read: T)

  /** The wires of one cycle. */
  datatype FifoWires<T> = FifoWires(pushValid: bool, payload: T, popReady: bool, flush: bool)

  predicate Full<T>(f: Fifo<T>) {
    f.pushPtr == f.popPtr && f.rising
  }

  predicate Empty<T>(f: Fifo<T>) {
    f.pushPtr == f.popPtr && !f.rising
  }

  predicate PopValid<T>(f: Fifo<T>) {
    !Empty(f) && !(f.stale && !Full(f))
  }

  predicate Pushing<T>(f: Fifo<T>, w: FifoWires<T>) {
    w.pushValid && !Full(f)
  }

  predicate Popping<T>(f: Fifo<T>, w: FifoWires<T>) {
    PopValid(f) && w.popReady
  }

  predicate PointersValid<T>(f: Fifo<T>) {
    |f.ram| >= 2 && f.pushPtr < |f.ram| && f.popPtr < |f.ram|
  }

  /** The invariant: a word that is offered is the oldest one. */
  ghost predicate Valid<T>(f: Fifo<T>) {
    PointersValid(f) && (PopValid(f) ==> f.read == f.ram[f.popPtr])
  }

  /** The distance from one pointer up to another, around the ring. */
  function Ahead(depth: nat, from: nat, to: nat): (n: nat)
    requires from < depth && to < depth
    ensures n < depth
  {
    if from <= to then to - from else to + depth - from
  }

  function Occupancy<T>(f: Fifo<T>): nat
    requires PointersValid(f)
  {
    (if Full(f) then |f.ram| else 0) + Ahead(|f.ram|, f.popPtr, f.pushPtr)
  }

  function Availability<T>(f: Fifo<T>): nat
    requires PointersValid(f)
  {
    (if Empty(f) then |f.ram| else 0) + Ahead(|f.ram|, f.pushPtr, f.popPtr)
  }

  function Wrap(depth: nat, p: nat): nat {
    if p < depth then p else p - depth
  }

  /** The words in the FIFO, oldest first. */
  function Contents<T>(f: Fifo<T>): (s: seq<T>)
    requires PointersValid(f)
    ensures |s| == Occupancy(f)
  {
    seq(Occupancy(f), i requires 0 <= i < Occupancy(f) => f.ram[Wrap(|f.ram|, f.popPtr + i)])
  }

  function Increment(depth: nat, p: nat, up: bool): nat {
    if !up then p else if p + 1 == depth then 0 else p + 1
  }

  function Step<T>(f: Fifo<T>, w: FifoWires<T>): (f': Fifo<T>)
    requires PointersValid(f)
    ensures PointersValid(f') && |f'.ram| == |f.ram|
  {
    var depth := |f.ram|;
    var pushNext := if w.flush then 0 else Increment(depth, f.pushPtr, Pushing(f, w));
    var popNext := if w.flush then 0 else Increment(depth, f.popPtr, Popping(f, w));
    Fifo(
      if Pushing(f, w) then f.ram[f.pushPtr := w.payload] else f.ram,
      pushNext,
      popNext,
      !w.flush && (if Pushing(f, w) != Popping(f, w) then Pushing(f, w) else f.rising),
      popNext == f.pushPtr,
      f.ram[popNext])
  }

  // The clocked module

  class StreamFifo<T(0)> {
    const ram: array<T>
    var pushPtr: nat
    var popPtr: nat
    var rising: bool
    var stale: bool
    var read: T

    ghost function State(): Fifo<T>
      reads this, ram
    {
      Fifo(ram[..], pushPtr, popPtr, rising, stale, read)
    }

    predicate IsFull()
      reads this
    {
      pushPtr == popPtr && rising
    }

    predicate Offers()
      reads this
    {
      !(pushPtr == popPtr && !rising) && !(stale && !IsFull())
    }

    constructor (depth: nat)
      requires depth >= 2
      ensures fresh(ram) && ram.Length == depth
      ensures Valid(State()) && Empty(State()) && Contents(State()) == []
    {
      ram := new T[depth];
      pushPtr, popPtr, rising, stale := 0, 0, false, false;
    }

    /** One clock of the hardware, which is one step of a queue. */
    method Tick(w: FifoWires<T>) returns (pushed: bool, popped: bool, out: T)
      requires Valid(State())
      modifies this, ram
      ensures State() == Step(old(State()), w) && Valid(State())
      ensures QueueStep(old(State()), w, State())
      ensures pushed == Pushing(old(State()), w) && popped == Popping(old(State()), w)
      ensures popped ==> old(Contents(State())) != [] && out == old(Contents(State()))[0]
    {
      StepRefinesQueue(State(), w);
      pushed, popped, out := Move(w);
    }

    method Move(w: FifoWires<T>) returns (pushed: bool, popped: bool, out: T)
      requires Valid(State())
      modifies this, ram
      ensures State() == Step(old(State()), w)
      ensures pushed == Pushing(old(State()), w) && popped == Popping(old(State()), w) && out == old(read)
    {
      ghost var before := State();
      var matches := pushPtr == popPtr;
      var full := matches && rising;
      pushed := w.pushValid && !full;
      popped := !(matches && !rising) && !(stale && !full) && w.popReady;
      out := read;
      var pushNext, popNext := pushPtr, popPtr;
      if pushed { pushNext := if pushPtr == ram.Length - 1 then 0 else pushPtr + 1; }
      if popped { popNext := if popPtr == ram.Length - 1 then 0 else popPtr + 1; }
      if w.flush { pushNext, popNext := 0, 0; }
      var risingNext := if pushed != popped then pushed else rising;
      read := ram[popNext];
      if pushed { ram[pushPtr] := w.payload; }
      pushPtr, popPtr, rising, stale := pushNext, popNext, risingNext && !w.flush, popNext == pushPtr;
      assert State().ram == Step(before, w).ram;
    }
  }

  // A clock of the FIFO is a step of a queue

  lemma OccupancyIsComplement<T>(f: Fifo<T>)
    requires PointersValid(f)
    ensures Occupancy(f) + Availability(f) == |f.ram|
    ensures Full(f) <==> Occupancy(f) == |f.ram|
    ensures Empty(f) <==> Occupancy(f) == 0
  {
  }

  ghost predicate QueueStep<T>(f: Fifo<T>, w: FifoWires<T>, f': Fifo<T>)
    requires PointersValid(f) && PointersValid(f')
  {
    var n := if Popping(f, w) then 1 else 0;
    && n <= |Contents(f)|
    && Contents(f') == if w.flush then [] else Contents(f)[n..] + (if Pushing(f, w) then [w.payload] else [])
  }

  lemma StepRefinesQueue<T>(f: Fifo<T>, w: FifoWires<T>)
    requires Valid(f)
    ensures Valid(Step(f, w))
    ensures QueueStep(f, w, Step(f, w))
    ensures PopValid(f) ==> Contents(f) != [] && f.read == Contents(f)[0]
  {
    if Occupancy(f) > 0 {
      assert Contents(f)[0] == f.ram[Wrap(|f.ram|, f.popPtr + 0)];
    }
    if !w.flush {
      SlotsStep(f, w);
    }
  }

  lemma OccupancyStep<T>(f: Fifo<T>, w: FifoWires<T>)
    requires PointersValid(f) && !w.flush
    ensures Occupancy(Step(f, w)) == Occupancy(f) + (if Pushing(f, w) then 1 else 0) - (if Popping(f, w) then 1 else 0)
    ensures Wrap(|f.ram|, f.popPtr + Occupancy(f)) == f.pushPtr
  {
  }

  /** Slot by slot: the contents move up by one when the head is popped, a pushed word is the last. */
  lemma SlotsStep<T>(f: Fifo<T>, w: FifoWires<T>)
    requires PointersValid(f) && !w.flush
    ensures
      var n := if Popping(f, w) then 1 else 0;
      && n <= |Contents(f)|
      && Contents(Step(f, w)) == Contents(f)[n..] + (if Pushing(f, w) then [w.payload] else [])
  {
    OccupancyStep(f, w);
    var f' := Step(f, w);
    var n := if Popping(f, w) then 1 else 0;
    var kept := Occupancy(f) - n;
    KeptSlots(f, w, n, kept);
    if Pushing(f, w) {
      LastSlot(f, w, kept);
      assert Contents(f') == Contents(f')[..kept] + [Contents(f')[kept]];
    } else {
      assert Contents(f') == Contents(f')[..kept];
    }
  }

  lemma KeptSlots<T>(f: Fifo<T>, w: FifoWires<T>, n: nat, kept: nat)
    requires PointersValid(f) && !w.flush
    requires n == (if Popping(f, w) then 1 else 0) && kept + n == Occupancy(f)
    ensures kept <= Occupancy(Step(f, w)) && Contents(Step(f, w))[..kept] == Contents(f)[n..]
  {
    OccupancyStep(f, w);
    forall i | 0 <= i < kept ensures Contents(Step(f, w))[i] == Contents(f)[n + i] {
      SlotKept(f, w, n + i);
    }
  }

  lemma LastSlot<T>(f: Fifo<T>, w: FifoWires<T>, kept: nat)
    requires PointersValid(f) && !w.flush && Pushing(f, w)
    requires kept + (if Popping(f, w) then 1 else 0) == Occupancy(f)
    ensures kept < Occupancy(Step(f, w)) && Contents(Step(f, w))[kept] == w.payload
  {
    OccupancyStep(f, w);
    assert Wrap(|f.ram|, Step(f, w).popPtr + kept) == f.pushPtr;
  }

  lemma SlotKept<T>(f: Fifo<T>, w: FifoWires<T>, i: nat)
    requires PointersValid(f) && !w.flush && i < Occupancy(f)
    requires Popping(f, w) ==> i > 0
    ensures
      var n := if Popping(f, w) then 1 else 0;
      var f' := Step(f, w);
      && Wrap(|f.ram|, f'.popPtr + (i - n)) == Wrap(|f.ram|, f.popPtr + i)
      && f'.ram[Wrap(|f.ram|, f.popPtr + i)] == f.ram[Wrap(|f.ram|, f.popPtr + i)]
  {
  }

  /** An offered word stays offered, unchanged, until it is popped. */
  lemma OfferIsHeld<T>(f: Fifo<T>, w: FifoWires<T>)
    requires Valid(f) && PopValid(f) && !w.popReady && !w.flush
    ensures PopValid(Step(f, w)) && Step(f, w).read == f.read
  {
    StepRefinesQueue(f, w);
    StepRefinesQueue(Step(f, w), w);
  }

  /** A FIFO that is not empty offers its oldest word at once or one clock later. */
  lemma OfferedWithinOneClock<T>(f: Fifo<T>, w: FifoWires<T>)
    requires Valid(f) && Contents(f) != [] && !w.flush
    ensures PopValid(f) || (PopValid(Step(f, w)) && Step(f, w).read == Contents(f)[0])
  {
    StepRefinesQueue(f, w);
    StepRefinesQueue(Step(f, w), w);
  }

  // Whole runs

  function Run<T>(f: Fifo<T>, ws: seq<FifoWires<T>>): (f': Fifo<T>)
    requires PointersValid(f)
    ensures PointersValid(f')
    decreases |ws|
  {
    if ws == [] then f else Run(Step(f, ws[0]), ws[1..])
  }

  function Pushed<T>(f: Fifo<T>, ws: seq<FifoWires<T>>): seq<T>
    requires PointersValid(f)
    decreases |ws|
  {
    if ws == [] then []
    else (if Pushing(f, ws[0]) then [ws[0].payload] else []) + Pushed(Step(f, ws[0]), ws[1..])
  }

  /** The words on the output wires in the clocks that pop. */
  function Popped<T>(f: Fifo<T>, ws: seq<FifoWires<T>>): seq<T>
    requires PointersValid(f)
    decreases |ws|
  {
    if ws == [] then []
    else (if Popping(f, ws[0]) then [f.read] else []) + Popped(Step(f, ws[0]), ws[1..])
  }

  /** Everything that was pushed comes out, once and in order, or is still inside. */
  lemma {:induction false} RunConserves<T>(f: Fifo<T>, ws: seq<FifoWires<T>>)
    requires Valid(f)
    requires forall w :: w in ws ==> !w.flush
    ensures Valid(Run(f, ws))
    ensures Contents(f) + Pushed(f, ws) == Popped(f, ws) + Contents(Run(f, ws))
    decreases |ws|
  {
    if ws != [] {
      var f' := Step(f, ws[0]);
      var p := if Pushing(f, ws[0]) then [ws[0].payload] else [];
      var q := if Popping(f, ws[0]) then [f.read] else [];
      StepConserves(f, ws[0]);
      RunConserves(f', ws[1..]);
      Regroup(Contents(f), p, Pushed(f', ws[1..]), q, Contents(f'), Popped(f', ws[1..]), Contents(Run(f', ws[1..])));
    }
  }

  lemma StepConserves<T>(f: Fifo<T>, w: FifoWires<T>)
    requires Valid(f) && !w.flush
    ensures
      var p := if Pushing(f, w) then [w.payload] else [];
      var q := if Popping(f, w) then [f.read] else [];
      Valid(Step(f, w)) && Contents(f) + p == q + Contents(Step(f, w))
  {
    StepRefinesQueue(f, w);
    assert QueueStep(f, w, Step(f, w));
    if Popping(f, w) {
      assert Contents(f) == [f.read] + Contents(f)[1..];
    }
  }
}
