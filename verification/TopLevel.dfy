// The slow-clock pipeline as one object, wired from its components.
module TopLevel {
  import opened Lfsr
  import opened OffsetSearch
  import opened Pipelines
  import opened PolyFinding
  import opened Pulses
  import opened StreamArbiters
  import opened StreamFifos
  import I = PulseIdentifying
  import L = PulseOffsetFinding

  method NewFront(smallDepth: nat, queueDepth: nat)
    returns (
      small0: StreamFifo<Pulse>, small1: StreamFifo<Pulse>, queue: StreamFifo<Pulse>, merge: StreamArbiter<Pulse>)
    requires smallDepth >= 2 && queueDepth >= 2
    ensures fresh({small0, small0.ram, small1, small1.ram, queue, queue.ram, merge})
    ensures small0 != small1 && small0 != queue && small1 != queue
    ensures small0.ram != small1.ram && small0.ram != queue.ram && small1.ram != queue.ram
    ensures StreamFifos.Valid(small0.State()) && StreamFifos.Valid(small1.State()) && StreamFifos.Valid(queue.State())
    ensures Empty(small0.State()) && Empty(small1.State()) && Empty(queue.State()) && !merge.locked
    ensures small0.ram.Length == small1.ram.Length == smallDepth && queue.ram.Length == queueDepth
  {
    small0 := new StreamFifo<Pulse>(smallDepth);
    small1 := new StreamFifo<Pulse>(smallDepth);
    queue := new StreamFifo<Pulse>(queueDepth);
    merge := new StreamArbiter<Pulse>();
  }

  method NewMiddle(masks: Masks, rom: Rom) returns (ident: I.PulseIdentifier, locate: L.PulseOffsetFinder)
    ensures fresh({ident, ident.finder, ident.finder.found, ident.finder.states})
    ensures fresh({locate, locate.finder, locate.finder.engines})
    ensures ident.Valid() && I.PowerUp(ident.State()) && ident.finder.masks == masks
    ensures locate.Valid() && L.PowerUp(locate.State()) && locate.finder.rom == rom
  {
    ident := new I.PulseIdentifier(masks);
    locate := new L.PulseOffsetFinder(rom);
  }

  method NewBack(uartDepth: nat) returns (uart: StreamFifo<Frame>, fan: StreamArbiter<Frame>)
    requires uartDepth >= 2
    ensures fresh({uart, uart.ram, fan})
    ensures StreamFifos.Valid(uart.State()) && Empty(uart.State()) && !fan.locked && uart.ram.Length == uartDepth
  {
    uart := new StreamFifo<Frame>(uartDepth);
    fan := new StreamArbiter<Frame>();
  }

  class SlowClock {
    const small0: StreamFifo<Pulse>
    const small1: StreamFifo<Pulse>
    const queue: StreamFifo<Pulse>
    const uart: StreamFifo<Frame>
    const merge: StreamArbiter<Pulse>
    const fan: StreamArbiter<Frame>
    const ident: I.PulseIdentifier
    const locate: L.PulseOffsetFinder
    var beam: Pipe
    var sync: Pipe

    /** Components of the same type are different objects; the types keep the others apart. */
    ghost predicate Apart() {
      && small0 != small1 && small0 != queue && small1 != queue
      && small0.ram != small1.ram && small0.ram != queue.ram && small1.ram != queue.ram
    }

    // The objects of the three groups of components

    ghost function Front(): set<object> {
      {small0, small0.ram, small1, small1.ram, merge, queue, queue.ram}
    }

    ghost function Middle(): set<object> {
      {ident, ident.finder, ident.finder.found, ident.finder.states, locate, locate.finder, locate.finder.engines}
    }

    ghost function Back(): set<object> {
      {this, fan, uart, uart.ram}
    }

    ghost predicate GroupsApart() {
      (forall o :: o in Front() ==> o !in Middle() && o !in Back()) && (forall o :: o in Middle() ==> o !in Back())
    }

    /** Their types keep the groups apart. */
    lemma TypesApart()
      ensures GroupsApart()
    {
    }

    ghost predicate FrontValid()
      reads Front()
    {
      StreamFifos.Valid(small0.State()) && StreamFifos.Valid(small1.State()) && StreamFifos.Valid(queue.State())
    }

    ghost predicate Valid()
      reads Front(), Middle(), Back()
    {
      Apart() && FrontValid() && ident.Valid() && locate.Valid() && StreamFifos.Valid(uart.State())
    }

    ghost function State(): Pipeline
      requires Valid()
      reads Front(), Middle(), Back()
    {
      Pipeline(small0.State(), small1.State(), merge.State(), queue.State(), ident.State(), locate.State(),
               beam, sync, fan.State(), uart.State())
    }

    /** The depths of the FIFOs are parameters. */
    constructor (masks: Masks, rom: Rom, smallDepth: nat, queueDepth: nat, uartDepth: nat)
      requires smallDepth >= 2 && queueDepth >= 2 && uartDepth >= 2
      ensures Valid() && PowerUp(State())
      ensures ident.finder.masks == masks && locate.finder.rom == rom
      ensures small0.ram.Length == small1.ram.Length == smallDepth
      ensures queue.ram.Length == queueDepth && uart.ram.Length == uartDepth
    {
      var first, second, long, arbiter := NewFront(smallDepth, queueDepth);
      small0, small1, queue, merge := first, second, long, arbiter;
      var identifier, finder := NewMiddle(masks, rom);
      ident, locate := identifier, finder;
      var last, outlet := NewBack(uartDepth);
      uart, fan := last, outlet;
      beam, sync := Pipe(false, SyncFrame), Pipe(false, SyncFrame);
    }

    /** One clock: all wires are read before any register is written. */
    method Tick(w: Inputs)
      requires Valid()
      modifies Front(), Middle(), Back()
      ensures Valid() && State() == Clock(ident.finder.masks, locate.finder.rom, old(State()), w)
    {
      var fan', beam', sync', uart' := BackWires(w);
      var locate', ident' := MiddleWires(fan');
      var small0', small1', merge', queue' := FrontWires(w, ident'.ready);
      TickAll(small0', small1', merge', queue', ident', locate', fan', beam', sync', uart');
    }

    // The wires

    method BackWires(w: Inputs) returns (fan': ArbiterWires<Frame>, beam': Pipe, sync': Pipe, uart': FifoWires<Frame>)
      requires Valid()
      ensures
        var p := State();
        && fan' == FanWires(p) && uart' == UartWires(p, w)
        && beam' == (if BeamOpen(p) then Pipe(p.locate.fsm == SendResult, BeamOf(p)) else p.beam)
        && sync' == (if SyncOpen(p) then Pipe(w.syncDue, SyncFrame) else p.sync)
    {
      fan' := ArbiterWires(sync.valid, sync.frame, beam.valid, beam.frame, !uart.IsFull());
      uart' := FifoWires(OutValid(fan.State(), fan'), OutPayload(fan.State(), fan'), w.uartReady, false);
      beam', sync' := beam, sync;
      if !beam.valid || Ready1(fan.State(), fan') {
        var offset := if locate.finder.found then locate.finder.offset else 0;
        beam' := Pipe(locate.fsm == SendResult, BeamFrame(Located(offset, Identified(ident.nPoly, queue.read))));
      }
      if !sync.valid || Ready0(fan.State(), fan') {
        sync' := Pipe(w.syncDue, SyncFrame);
      }
    }

    method MiddleWires(fan': ArbiterWires<Frame>) returns (locate': L.Wires, ident': I.Wires)
      requires Valid() && fan' == FanWires(State())
      ensures locate' == LocateWires(State()) && ident' == IdentWires(State())
    {
      var beamOpen := !beam.valid || Ready1(fan.State(), fan');
      locate' := L.Wires(ident.fsm == SendResult, Identified(ident.nPoly, queue.read), beamOpen);
      ident' := I.Wires(queue.Offers(), queue.read, locate.fsm == SendResult && beamOpen);
    }

    method FrontWires(w: Inputs, taken: bool)
      returns (
        small0': FifoWires<Pulse>, small1': FifoWires<Pulse>, merge': ArbiterWires<Pulse>, queue': FifoWires<Pulse>)
      requires Valid() && taken == IdentWires(State()).ready
      ensures small0' == SmallWires0(State(), w) && small1' == SmallWires1(State(), w)
      ensures merge' == MergeWires(State()) && queue' == QueueWires(State())
    {
      merge' := ArbiterWires(small0.Offers(), small0.read, small1.Offers(), small1.read, !queue.IsFull());
      queue' := FifoWires(
        OutValid(merge.State(), merge'), OutPayload(merge.State(), merge'), ident.fsm == SendResult && taken, false);
      small0' := FifoWires(w.valid0, w.pulse0, Ready0(merge.State(), merge'), false);
      small1' := FifoWires(w.valid1, w.pulse1, Ready1(merge.State(), merge'), false);
    }

    // The registers

    method TickAll(
        small0': FifoWires<Pulse>, small1': FifoWires<Pulse>, merge': ArbiterWires<Pulse>, queue': FifoWires<Pulse>,
        ident': I.Wires, locate': L.Wires, fan': ArbiterWires<Frame>, beam': Pipe, sync': Pipe, uart': FifoWires<Frame>)
      requires Valid()
      modifies Front(), Middle(), Back()
      ensures Valid()
      ensures
        var p := old(State());
        State() == Pipeline(
          StreamFifos.Step(p.small0, small0'), StreamFifos.Step(p.small1, small1'),
          StreamArbiters.Step(p.merge, merge'), StreamFifos.Step(p.queue, queue'),
          I.Clock(ident.finder.masks, p.ident, ident'), L.Clock(locate.finder.rom, p.locate, locate'),
          beam', sync', StreamArbiters.Step(p.fan, fan'), StreamFifos.Step(p.uart, uart'))
    {
      TypesApart();
      TickFront(small0', small1', merge', queue');
      TickRest(ident', locate', fan', beam', sync', uart');
    }

    method TickRest(
        ident': I.Wires, locate': L.Wires, fan': ArbiterWires<Frame>, beam': Pipe, sync': Pipe, uart': FifoWires<Frame>)
      requires Apart() && ident.Valid() && locate.Valid() && StreamFifos.Valid(uart.State())
      modifies Middle(), Back()
      ensures ident.Valid() && ident.State() == I.Clock(ident.finder.masks, old(ident.State()), ident')
      ensures locate.Valid() && locate.State() == L.Clock(locate.finder.rom, old(locate.State()), locate')
      ensures StreamFifos.Valid(uart.State()) && uart.State() == StreamFifos.Step(old(uart.State()), uart')
      ensures fan.State() == StreamArbiters.Step(old(fan.State()), fan') && beam == beam' && sync == sync'
    {
      TypesApart();
      TickMiddle(ident', locate');
      TickBack(fan', beam', sync', uart');
    }

    method TickFront(small0': FifoWires<Pulse>, small1': FifoWires<Pulse>, merge': ArbiterWires<Pulse>,
                     queue': FifoWires<Pulse>)
      requires Apart() && FrontValid()
      modifies Front()
      ensures FrontValid()
      ensures small0.State() == StreamFifos.Step(old(small0.State()), small0')
      ensures small1.State() == StreamFifos.Step(old(small1.State()), small1')
      ensures merge.State() == StreamArbiters.Step(old(merge.State()), merge')
      ensures queue.State() == StreamFifos.Step(old(queue.State()), queue')
    {
      TickSmall(small0', small1');
      var valid, payload, ready0, ready1 := merge.Tick(merge');
      var pushed, popped, out := queue.Tick(queue');
    }

    method TickSmall(small0': FifoWires<Pulse>, small1': FifoWires<Pulse>)
      requires small0 != small1 && small0.ram != small1.ram
      requires StreamFifos.Valid(small0.State()) && StreamFifos.Valid(small1.State())
      modifies small0, small0.ram, small1, small1.ram
      ensures StreamFifos.Valid(small0.State()) && small0.State() == StreamFifos.Step(old(small0.State()), small0')
      ensures StreamFifos.Valid(small1.State()) && small1.State() == StreamFifos.Step(old(small1.State()), small1')
    {
      var pushed, popped, out := small0.Tick(small0');
      pushed, popped, out := small1.Tick(small1');
    }

    method TickMiddle(ident': I.Wires, locate': L.Wires)
      requires Apart() && ident.Valid() && locate.Valid()
      modifies Middle()
      ensures ident.Valid() && ident.State() == I.Clock(ident.finder.masks, old(ident.State()), ident')
      ensures locate.Valid() && locate.State() == L.Clock(locate.finder.rom, old(locate.State()), locate')
    {
      var out, taken, npoly := ident.Tick(ident');
      var offset;
      out, taken, offset := locate.Tick(locate');
    }

    method TickBack(fan': ArbiterWires<Frame>, beam': Pipe, sync': Pipe, uart': FifoWires<Frame>)
      requires Apart() && StreamFifos.Valid(uart.State())
      modifies Back()
      ensures StreamFifos.Valid(uart.State()) && uart.State() == StreamFifos.Step(old(uart.State()), uart')
      ensures fan.State() == StreamArbiters.Step(old(fan.State()), fan') && beam == beam' && sync == sync'
    {
      beam, sync := beam', sync';
      var valid, payload, ready0, ready1 := fan.Tick(fan');
      var pushed, popped, out := uart.Tick(uart');
    }
  }
}
