// The slow-clock pipeline, from the pulses of the two sensors to the frames for the UART:
// a small FIFO for each sensor, a merging arbiter, a long FIFO, the polynomial and the offset
// state machine, a pipe register, a second arbiter that mixes in sync frames, a last FIFO.
module Pipelines {
  import opened Lfsr
  import opened OffsetSearch
  import opened PolyFinding
  import opened Pulses
  import opened Sequences
  import opened StreamArbiters
  import opened StreamFifos
  import I = PulseIdentifying
  import L = PulseOffsetFinding

  datatype Frame = SyncFrame | BeamFrame(located: Located)

  /** A register between two stages of a stream. */
  datatype Pipe = Pipe(valid: bool, frame: Frame)

  datatype Pipeline = Pipeline(
    small0: Fifo<Pulse>, small1: Fifo<Pulse>, merge: Arbiter, queue: Fifo<Pulse>,
    ident: I.Identifier, locate: L.Locator,
    beam: Pipe, sync: Pipe, fan: Arbiter, uart: Fifo<Frame>)

  /** What comes from outside in one cycle; the pulse of sensor `s` carries the id `s`. */
  datatype Inputs = Inputs(valid0: bool, pulse0: Pulse, valid1: bool, pulse1: Pulse, syncDue: bool, uartReady: bool)

  predicate Tagged(w: Inputs) {
    w.pulse0.id == 0 && w.pulse1.id == 1
  }

  // The wires, from the output back to the input

  function FanWires(p: Pipeline): ArbiterWires<Frame> {
    ArbiterWires(p.sync.valid, p.sync.frame, p.beam.valid, p.beam.frame, !Full(p.uart))
  }

  predicate BeamOpen(p: Pipeline) {
    !p.beam.valid || Ready1(p.fan, FanWires(p))
  }

  predicate SyncOpen(p: Pipeline) {
    !p.sync.valid || Ready0(p.fan, FanWires(p))
  }

  function LocateWires(p: Pipeline): L.Wires {
    L.Wires(p.ident.fsm == SendResult, Identified(p.ident.nPoly, p.queue.read), BeamOpen(p))
  }

  function IdentWires(p: Pipeline): I.Wires {
    I.Wires(PopValid(p.queue), p.queue.read, L.Transfers(p.locate, LocateWires(p)))
  }

  function MergeWires(p: Pipeline): ArbiterWires<Pulse> {
    ArbiterWires(PopValid(p.small0), p.small0.read, PopValid(p.small1), p.small1.read, !Full(p.queue))
  }

  function QueueWires(p: Pipeline): FifoWires<Pulse> {
    FifoWires(
      OutValid(p.merge, MergeWires(p)), OutPayload(p.merge, MergeWires(p)), I.Transfers(p.ident, IdentWires(p)), false)
  }

  function SmallWires0(p: Pipeline, w: Inputs): FifoWires<Pulse> {
    FifoWires(w.valid0, w.pulse0, Ready0(p.merge, MergeWires(p)), false)
  }

  function SmallWires1(p: Pipeline, w: Inputs): FifoWires<Pulse> {
    FifoWires(w.valid1, w.pulse1, Ready1(p.merge, MergeWires(p)), false)
  }

  function UartWires(p: Pipeline, w: Inputs): FifoWires<Frame> {
    FifoWires(OutValid(p.fan, FanWires(p)), OutPayload(p.fan, FanWires(p)), w.uartReady, false)
  }

  function BeamOf(p: Pipeline): Frame {
    BeamFrame(Located(L.Offset(p.locate), LocateWires(p).pulse))
  }

  predicate Shaped(p: Pipeline) {
    PointersValid(p.small0) && PointersValid(p.small1) && PointersValid(p.queue) && PointersValid(p.uart)
  }

  function Clock(masks: Masks, rom: Rom, p: Pipeline, w: Inputs): (p': Pipeline)
    requires Shaped(p)
    ensures Shaped(p')
  {
    Pipeline(
      StreamFifos.Step(p.small0, SmallWires0(p, w)),
      StreamFifos.Step(p.small1, SmallWires1(p, w)),
      StreamArbiters.Step(p.merge, MergeWires(p)),
      StreamFifos.Step(p.queue, QueueWires(p)),
      I.Clock(masks, p.ident, IdentWires(p)),
      L.Clock(rom, p.locate, LocateWires(p)),
      if BeamOpen(p) then Pipe(p.locate.fsm == SendResult, BeamOf(p)) else p.beam,
      if SyncOpen(p) then Pipe(w.syncDue, SyncFrame) else p.sync,
      StreamArbiters.Step(p.fan, FanWires(p)),
      StreamFifos.Step(p.uart, UartWires(p, w)))
  }

  // The invariant

  predicate FrameSound(rom: Rom, f: Frame) {
    f.BeamFrame? && f.located.offset != 0 ==>
      && f.located.offset < ENGINES * QUARTER
      && Steps(rom[4 * (f.located.identified.npoly % 32)], One(WIDTH), f.located.offset)
         == f.located.identified.pulse.beamWord
  }

  predicate AllFrom(s: nat, ps: seq<Pulse>) {
    forall i :: 0 <= i < |ps| ==> ps[i].id == s
  }

  ghost predicate Inv(masks: Masks, rom: Rom, p: Pipeline) {
    && Valid(p.small0) && Valid(p.small1) && Valid(p.queue) && Valid(p.uart)
    && OneRoute(p.merge) && OneRoute(p.fan)
    && AllFrom(0, Contents(p.small0)) && AllFrom(1, Contents(p.small1))
    && I.Inv(masks, p.ident, IdentWires(p))
    && L.Inv(rom, p.locate, LocateWires(p))
    && (p.sync.valid ==> p.sync.frame.SyncFrame?)
    && (p.beam.valid ==> p.beam.frame.BeamFrame? && FrameSound(rom, p.beam.frame))
  }

  ghost predicate PowerUp(p: Pipeline) {
    && Valid(p.small0) && Valid(p.small1) && Valid(p.queue) && Valid(p.uart)
    && Empty(p.small0) && Empty(p.small1) && Empty(p.queue) && Empty(p.uart)
    && !p.merge.locked && !p.fan.locked && !p.beam.valid && !p.sync.valid
    && I.PowerUp(p.ident) && L.PowerUp(p.locate)
  }

  /** The stages before them hold what they offer to the two state machines. */
  lemma OffersAreHeld(masks: Masks, rom: Rom, p: Pipeline, w: Inputs)
    requires Inv(masks, rom, p)
    ensures I.Holds(p.ident, IdentWires(p), IdentWires(Clock(masks, rom, p, w)))
    ensures L.Holds(p.locate, LocateWires(p), LocateWires(Clock(masks, rom, p, w)))
  {
    if PopValid(p.queue) && !I.Transfers(p.ident, IdentWires(p)) {
      OfferIsHeld(p.queue, QueueWires(p));
    }
  }

  lemma FifosStep(p: Pipeline, w: Inputs)
    requires Valid(p.small0) && Valid(p.small1) && Valid(p.queue) && Valid(p.uart)
    ensures Valid(StreamFifos.Step(p.small0, SmallWires0(p, w))) && Valid(StreamFifos.Step(p.small1, SmallWires1(p, w)))
    ensures Valid(StreamFifos.Step(p.queue, QueueWires(p))) && Valid(StreamFifos.Step(p.uart, UartWires(p, w)))
  {
    StepRefinesQueue(p.small0, SmallWires0(p, w));
    StepRefinesQueue(p.small1, SmallWires1(p, w));
    StepRefinesQueue(p.queue, QueueWires(p));
    StepRefinesQueue(p.uart, UartWires(p, w));
  }

  lemma TagsStay(s: nat, f: Fifo<Pulse>, w: FifoWires<Pulse>)
    requires Valid(f) && AllFrom(s, Contents(f)) && w.payload.id == s
    ensures AllFrom(s, Contents(StreamFifos.Step(f, w)))
  {
    StepRefinesQueue(f, w);
    assert QueueStep(f, w, StreamFifos.Step(f, w));
  }

  lemma BeamIsSound(rom: Rom, p: Pipeline)
    requires L.Inv(rom, p.locate, LocateWires(p)) && p.locate.fsm == SendResult
    ensures FrameSound(rom, BeamOf(p))
  {
  }

  lemma ClockKeepsInv(masks: Masks, rom: Rom, p: Pipeline, w: Inputs)
    requires RomContract(rom) && Tagged(w) && Inv(masks, rom, p)
    ensures Inv(masks, rom, Clock(masks, rom, p, w))
  {
    var p' := Clock(masks, rom, p, w);
    FifosStep(p, w);
    TagsStay(0, p.small0, SmallWires0(p, w));
    TagsStay(1, p.small1, SmallWires1(p, w));
    OffersAreHeld(masks, rom, p, w);
    I.StepKeepsInv(masks, p.ident, IdentWires(p), IdentWires(p'));
    L.StepKeepsInv(rom, p.locate, LocateWires(p), LocateWires(p'));
    MergeConserves(p.merge, MergeWires(p));
    MergeConserves(p.fan, FanWires(p));
    if p.locate.fsm == SendResult {
      BeamIsSound(rom, p);
    }
  }

  // Conservation, sensor by sensor

  /** The pulses of sensor `s` among `ps`, in order. */
  function Of(s: nat, ps: seq<Pulse>): seq<Pulse> {
    if ps == [] then [] else (if ps[0].id == s then [ps[0]] else []) + Of(s, ps[1..])
  }

  /** The pulses that a sequence of frames carries. */
  function PulsesOf(fs: seq<Frame>): seq<Pulse> {
    PulsesIn(BeamsOf(fs))
  }

  /** The beams among the frames, with all that is said about them. */
  function BeamsOf(fs: seq<Frame>): seq<Located> {
    if fs == [] then [] else (if fs[0].BeamFrame? then [fs[0].located] else []) + BeamsOf(fs[1..])
  }

  function PulsesIn(ls: seq<Located>): (ps: seq<Pulse>)
    ensures |ps| == |ls| && forall k :: 0 <= k < |ls| ==> ps[k] == ls[k].identified.pulse
  {
    seq(|ls|, k requires 0 <= k < |ls| => ls[k].identified.pulse)
  }

  lemma {:induction false} OfConcat(s: nat, a: seq<Pulse>, b: seq<Pulse>)
    ensures Of(s, a + b) == Of(s, a) + Of(s, b)
  {
    if a == [] {
      assert a + b == b;
    } else {
      var head := if a[0].id == s then [a[0]] else [];
      OfConcat(s, a[1..], b);
      assert (a + b)[0] == a[0] && (a + b)[1..] == a[1..] + b;
      InOrder(head, Of(s, a[1..]), Of(s, b));
    }
  }

  lemma {:induction false} BeamsOfConcat(a: seq<Frame>, b: seq<Frame>)
    ensures BeamsOf(a + b) == BeamsOf(a) + BeamsOf(b)
  {
    if a == [] {
      assert a + b == b;
    } else {
      var head := if a[0].BeamFrame? then [a[0].located] else [];
      BeamsOfConcat(a[1..], b);
      assert (a + b)[0] == a[0] && (a + b)[1..] == a[1..] + b;
      InOrder(head, BeamsOf(a[1..]), BeamsOf(b));
    }
  }

  lemma PulsesInConcat(a: seq<Located>, b: seq<Located>)
    ensures PulsesIn(a + b) == PulsesIn(a) + PulsesIn(b)
  {
  }

  lemma PulsesOfConcat(a: seq<Frame>, b: seq<Frame>)
    ensures PulsesOf(a + b) == PulsesOf(a) + PulsesOf(b)
  {
    BeamsOfConcat(a, b);
    PulsesInConcat(BeamsOf(a), BeamsOf(b));
  }

  function Small(s: nat, p: Pipeline): Fifo<Pulse> {
    if s == 0 then p.small0 else p.small1
  }

  /** The pulse that sensor `s` offers in this cycle, if there is room for it. */
  function Accepted(s: nat, p: Pipeline, w: Inputs): seq<Pulse> {
    if s == 0 then (if w.valid0 && !Full(p.small0) then [w.pulse0] else [])
    else (if w.valid1 && !Full(p.small1) then [w.pulse1] else [])
  }

  /** The frame that enters the FIFO of the UART in this cycle. */
  function Emitted(p: Pipeline, w: Inputs): seq<Frame> {
    if Pushing(p.uart, UartWires(p, w)) then [OutPayload(p.fan, FanWires(p))] else []
  }

  function PipeBeams(p: Pipeline): seq<Located> {
    BeamsOf(if p.beam.valid then [p.beam.frame] else [])
  }

  function InPipe(p: Pipeline): seq<Pulse> {
    PulsesIn(PipeBeams(p))
  }

  /** What the two state machines hand over in this cycle: the pulse, its polynomial and its offset. */
  function Entering(p: Pipeline): seq<Located> {
    if L.Transfers(p.locate, LocateWires(p)) then
      [Located(L.Offset(p.locate), Identified(p.ident.nPoly, p.queue.read))]
    else []
  }

  /** Past the small FIFOs and before the FIFO of the UART. */
  function Shared(p: Pipeline): seq<Pulse>
    requires Shaped(p)
  {
    InPipe(p) + Contents(p.queue)
  }

  function InFlight(s: nat, p: Pipeline): seq<Pulse>
    requires Shaped(p)
  {
    Of(s, Shared(p)) + Contents(Small(s, p))
  }

  /** What leaves the small FIFO of sensor `s` in this cycle. */
  function Moved(s: nat, p: Pipeline): seq<Pulse> {
    if s == 0 then TakenIn0(p.merge, MergeWires(p)) else TakenIn1(p.merge, MergeWires(p))
  }

  lemma SmallConserves(s: nat, p: Pipeline, w: Inputs)
    requires s < 2 && Valid(p.small0) && Valid(p.small1)
    ensures
      var small' :=
        if s == 0 then StreamFifos.Step(p.small0, SmallWires0(p, w)) else StreamFifos.Step(p.small1, SmallWires1(p, w));
      Contents(Small(s, p)) + Accepted(s, p, w) == Moved(s, p) + Contents(small')
  {
    if s == 0 {
      StepConserves(p.small0, SmallWires0(p, w));
    } else {
      StepConserves(p.small1, SmallWires1(p, w));
    }
  }

  /** The front: what leaves a small FIFO enters the long FIFO, and carries the id of its sensor. */
  lemma FrontConserves(s: nat, p: Pipeline, w: Inputs)
    requires s < 2 && Valid(p.small0) && Valid(p.small1) && OneRoute(p.merge)
    requires AllFrom(0, Contents(p.small0)) && AllFrom(1, Contents(p.small1))
    ensures Of(s, GivenOut(p.merge, MergeWires(p))) == Moved(s, p)
  {
    var taken0, taken1 := TakenIn0(p.merge, MergeWires(p)), TakenIn1(p.merge, MergeWires(p));
    MergeConserves(p.merge, MergeWires(p));
    HeadFrom(0, p.small0, SmallWires0(p, w));
    HeadFrom(1, p.small1, SmallWires1(p, w));
    OfAtMostOne(s, 0, taken0);
    OfAtMostOne(s, 1, taken1);
    OfConcat(s, taken0, taken1);
  }

  /** What a FIFO offers comes from its sensor. */
  lemma HeadFrom(id: nat, f: Fifo<Pulse>, w: FifoWires<Pulse>)
    requires Valid(f) && AllFrom(id, Contents(f))
    ensures PopValid(f) ==> f.read.id == id
  {
    StepRefinesQueue(f, w);
  }

  lemma OfAtMostOne(s: nat, id: nat, a: seq<Pulse>)
    requires |a| <= 1 && AllFrom(id, a)
    ensures Of(s, a) == if s == id then a else []
  {
    if a != [] {
      assert a[1..] == [] && [a[0]] == a;
    }
  }

  /** The back: what leaves the long FIFO passes the state machines into the pipe register. */
  lemma BackConserves(masks: Masks, rom: Rom, p: Pipeline, w: Inputs)
    requires Inv(masks, rom, p)
    ensures
      var p' := Clock(masks, rom, p, w);
      Shared(p) + GivenOut(p.merge, MergeWires(p)) == PulsesOf(Emitted(p, w)) + Shared(p')
  {
    var p' := Clock(masks, rom, p, w);
    var popped := if Popping(p.queue, QueueWires(p)) then [p.queue.read] else [];
    var pushed := GivenOut(p.merge, MergeWires(p));
    StepConserves(p.queue, QueueWires(p));
    assert Contents(p.queue) + pushed == popped + Contents(p'.queue);
    assert popped == if L.Transfers(p.locate, LocateWires(p)) then [p.queue.read] else [];
    PipeConserves(masks, rom, p, w);
    Chain(InPipe(p), popped, PulsesOf(Emitted(p, w)), InPipe(p'), Contents(p.queue), pushed, Contents(p'.queue));
  }

  lemma PipeConserves(masks: Masks, rom: Rom, p: Pipeline, w: Inputs)
    requires Inv(masks, rom, p)
    ensures
      var entering := if L.Transfers(p.locate, LocateWires(p)) then [p.queue.read] else [];
      InPipe(p) + entering == PulsesOf(Emitted(p, w)) + InPipe(Clock(masks, rom, p, w))
  {
    BeamsConserve(masks, rom, p, w);
    PulsesInConcat(PipeBeams(p), Entering(p));
    PulsesInConcat(BeamsOf(Emitted(p, w)), PipeBeams(Clock(masks, rom, p, w)));
  }

  /** The pipe register neither loses nor changes what it is given. */
  lemma BeamsConserve(masks: Masks, rom: Rom, p: Pipeline, w: Inputs)
    requires Inv(masks, rom, p)
    ensures PipeBeams(p) + Entering(p) == BeamsOf(Emitted(p, w)) + PipeBeams(Clock(masks, rom, p, w))
  {
    EmittedBeam(masks, rom, p, w);
    BeamsOfOne(BeamOf(p));
    BeamsOfOne(p.beam.frame);
  }

  lemma EmittedBeam(masks: Masks, rom: Rom, p: Pipeline, w: Inputs)
    requires Inv(masks, rom, p)
    ensures BeamsOf(Emitted(p, w)) == BeamsOf(TakenIn1(p.fan, FanWires(p)))
  {
    var sync, beam := TakenIn0(p.fan, FanWires(p)), TakenIn1(p.fan, FanWires(p));
    MergeConserves(p.fan, FanWires(p));
    BeamsOfConcat(sync, beam);
    BeamsOfOne(p.sync.frame);
    NothingInFront(BeamsOf(beam));
  }

  function SyncsIn(fs: seq<Frame>): nat {
    if fs == [] then 0 else (if fs[0].SyncFrame? then 1 else 0) + SyncsIn(fs[1..])
  }

  function PipeSyncs(p: Pipeline): nat {
    if p.sync.valid then 1 else 0
  }

  /** A sync frame that is due enters its pipe register iff that is empty or just being taken. */
  function DueSyncs(p: Pipeline, w: Inputs): nat {
    if w.syncDue && (!p.sync.valid || Ready0(p.fan, FanWires(p))) then 1 else 0
  }

  /** No sync frame is lost or made up behind that. */
  lemma SyncsConserve(masks: Masks, rom: Rom, p: Pipeline, w: Inputs)
    requires Inv(masks, rom, p)
    ensures PipeSyncs(p) + DueSyncs(p, w) == SyncsIn(Emitted(p, w)) + PipeSyncs(Clock(masks, rom, p, w))
  {
    MergeConserves(p.fan, FanWires(p));
    SyncsOfOne(p.sync.frame);
    SyncsOfOne(p.beam.frame);
  }

  lemma SyncsOfOne(f: Frame)
    ensures SyncsIn([f]) == if f.SyncFrame? then 1 else 0
  {
    assert [f][1..] == [];
  }

  lemma BeamsOfOne(f: Frame)
    ensures BeamsOf([f]) == if f.BeamFrame? then [f.located] else []
  {
    assert [f][1..] == [];
  }

  lemma ClockConserves(masks: Masks, rom: Rom, s: nat, p: Pipeline, w: Inputs)
    requires RomContract(rom) && s < 2 && Tagged(w) && Inv(masks, rom, p)
    ensures InFlight(s, p) + Accepted(s, p, w)
         == Of(s, PulsesOf(Emitted(p, w))) + InFlight(s, Clock(masks, rom, p, w))
  {
    var p' := Clock(masks, rom, p, w);
    var merged := GivenOut(p.merge, MergeWires(p));
    SmallConserves(s, p, w);
    FrontConserves(s, p, w);
    BackConserves(masks, rom, p, w);
    OfConcat(s, Shared(p), merged);
    OfConcat(s, PulsesOf(Emitted(p, w)), Shared(p'));
    Chain(Of(s, Shared(p)), Moved(s, p), Of(s, PulsesOf(Emitted(p, w))), Of(s, Shared(p')),
      Contents(Small(s, p)), Accepted(s, p, w), Contents(Small(s, p')));
  }

  // Whole runs

  function Run(masks: Masks, rom: Rom, p: Pipeline, ws: seq<Inputs>): (p': Pipeline)
    requires Shaped(p)
    ensures Shaped(p')
    decreases |ws|
  {
    if ws == [] then p else Run(masks, rom, Clock(masks, rom, p, ws[0]), ws[1..])
  }

  function AllAccepted(masks: Masks, rom: Rom, s: nat, p: Pipeline, ws: seq<Inputs>): seq<Pulse>
    requires Shaped(p)
    decreases |ws|
  {
    if ws == [] then [] else Accepted(s, p, ws[0]) + AllAccepted(masks, rom, s, Clock(masks, rom, p, ws[0]), ws[1..])
  }

  function AllEmitted(masks: Masks, rom: Rom, p: Pipeline, ws: seq<Inputs>): seq<Frame>
    requires Shaped(p)
    decreases |ws|
  {
    if ws == [] then [] else Emitted(p, ws[0]) + AllEmitted(masks, rom, Clock(masks, rom, p, ws[0]), ws[1..])
  }

  lemma {:induction false} RunConserves(masks: Masks, rom: Rom, s: nat, p: Pipeline, ws: seq<Inputs>)
    requires RomContract(rom) && s < 2 && Inv(masks, rom, p)
    requires forall w :: w in ws ==> Tagged(w)
    ensures Inv(masks, rom, Run(masks, rom, p, ws))
    ensures InFlight(s, p) + AllAccepted(masks, rom, s, p, ws)
         == Of(s, PulsesOf(AllEmitted(masks, rom, p, ws))) + InFlight(s, Run(masks, rom, p, ws))
    decreases |ws|
  {
    if ws != [] {
      var w, p' := ws[0], Clock(masks, rom, p, ws[0]);
      ClockKeepsInv(masks, rom, p, w);
      ClockConserves(masks, rom, s, p, w);
      RunConserves(masks, rom, s, p', ws[1..]);
      var later := AllEmitted(masks, rom, p', ws[1..]);
      PulsesOfConcat(Emitted(p, w), later);
      OfConcat(s, PulsesOf(Emitted(p, w)), PulsesOf(later));
      Regroup(InFlight(s, p), Accepted(s, p, w), AllAccepted(masks, rom, s, p', ws[1..]),
        Of(s, PulsesOf(Emitted(p, w))), InFlight(s, p'), Of(s, PulsesOf(later)),
        InFlight(s, Run(masks, rom, p', ws[1..])));
    }
  }

  lemma {:induction false} FramesAreSound(masks: Masks, rom: Rom, p: Pipeline, ws: seq<Inputs>)
    requires RomContract(rom) && Inv(masks, rom, p)
    requires forall w :: w in ws ==> Tagged(w)
    ensures forall f :: f in AllEmitted(masks, rom, p, ws) ==> FrameSound(rom, f)
    decreases |ws|
  {
    if ws != [] {
      ClockKeepsInv(masks, rom, p, ws[0]);
      FramesAreSound(masks, rom, Clock(masks, rom, p, ws[0]), ws[1..]);
    }
  }

  lemma PowerUpHasInv(masks: Masks, rom: Rom, p: Pipeline, s: nat)
    requires PowerUp(p)
    ensures Inv(masks, rom, p)
    ensures InFlight(s, p) == []
  {
  }

  /**
   From power-up: the frames for the UART, cut down to one sensor, carry exactly the pulses its
   small FIFO accepted, unchanged and in order, but for those still under way; and every
   nonzero offset in a frame is the number of steps from 1 to its beam word.
   */
  lemma FramesCarryThePulses(masks: Masks, rom: Rom, s: nat, p: Pipeline, ws: seq<Inputs>)
    requires RomContract(rom) && s < 2 && PowerUp(p)
    requires forall w :: w in ws ==> Tagged(w)
    ensures AllAccepted(masks, rom, s, p, ws)
         == Of(s, PulsesOf(AllEmitted(masks, rom, p, ws))) + InFlight(s, Run(masks, rom, p, ws))
    ensures forall f :: f in AllEmitted(masks, rom, p, ws) ==> FrameSound(rom, f)
  {
    PowerUpHasInv(masks, rom, p, s);
    RunConserves(masks, rom, s, p, ws);
    FramesAreSound(masks, rom, p, ws);
    NothingInFront(AllAccepted(masks, rom, s, p, ws));
  }
}
