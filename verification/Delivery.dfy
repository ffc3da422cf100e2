// The parts from the pulses to the host put together: the pipeline feeds the serialiser through
// the FIFO of the UART, and the host reads the bytes from a frame boundary on.
module Deliveries {
  import opened Bits
  import opened Lfsr
  import opened OffsetSearch
  import opened Pipelines
  import opened PolyFinding
  import opened PrintFrame
  import opened Pulses
  import opened Reports
  import opened Sequences
  import opened Telemetry
  import F = StreamFifos
  import I = PulseIdentifying
  import L = PulseOffsetFinding

  // The fields of all frames fit their bits

  predicate PulseInRange(p: Pulse) {
    p.id < 2 && p.width < 0x1_0000 && p.timestamp < TIME
  }

  predicate AllInRange(ps: seq<Pulse>) {
    forall i :: 0 <= i < |ps| ==> PulseInRange(ps[i])
  }

  /** Width and time stamp come from counters of sixteen and of twenty-four bits. */
  predicate InputsInRange(w: Inputs) {
    Tagged(w) && PulseInRange(w.pulse0) && PulseInRange(w.pulse1)
  }

  ghost predicate Ranges(p: Pipeline)
    requires Shaped(p)
  {
    && AllInRange(F.Contents(p.small0)) && AllInRange(F.Contents(p.small1)) && AllInRange(F.Contents(p.queue))
    && (p.beam.valid ==> InRange(p.beam.frame))
  }

  lemma StaysInRange(f: F.Fifo<Pulse>, w: F.FifoWires<Pulse>)
    requires F.Valid(f) && AllInRange(F.Contents(f)) && (w.pushValid ==> PulseInRange(w.payload))
    ensures AllInRange(F.Contents(F.Step(f, w)))
    ensures F.PopValid(f) ==> PulseInRange(f.read)
  {
    F.StepRefinesQueue(f, w);
    assert F.QueueStep(f, w, F.Step(f, w));
  }

  /** A result that is handed over: its offset is below 2^17 and its polynomial is below 64. */
  lemma BeamInRange(masks: Masks, rom: Rom, p: Pipeline)
    requires Inv(masks, rom, p) && p.locate.fsm == SendResult && PulseInRange(p.queue.read)
    ensures InRange(BeamOf(p))
  {
    BeamIsSound(rom, p);
  }

  lemma ClockKeepsRanges(masks: Masks, rom: Rom, p: Pipeline, w: Inputs)
    requires Inv(masks, rom, p) && Ranges(p) && InputsInRange(w)
    ensures Ranges(Clock(masks, rom, p, w))
    ensures forall f :: f in Emitted(p, w) ==> InRange(f)
  {
    StaysInRange(p.small0, SmallWires0(p, w));
    StaysInRange(p.small1, SmallWires1(p, w));
    StaysInRange(p.queue, QueueWires(p));
    if p.locate.fsm == SendResult {
      BeamInRange(masks, rom, p);
    }
  }

  lemma {:induction false} RunKeepsRanges(masks: Masks, rom: Rom, p: Pipeline, ws: seq<Inputs>)
    requires RomContract(rom) && Inv(masks, rom, p) && Ranges(p)
    requires forall w :: w in ws ==> InputsInRange(w)
    ensures forall f :: f in AllEmitted(masks, rom, p, ws) ==> InRange(f)
    decreases |ws|
  {
    if ws != [] {
      assert ws[0] in ws;
      ClockKeepsInv(masks, rom, p, ws[0]);
      ClockKeepsRanges(masks, rom, p, ws[0]);
      RunKeepsRanges(masks, rom, Clock(masks, rom, p, ws[0]), ws[1..]);
    }
  }

  /** From power-up, with pulses in range, every frame for the UART is in range. */
  lemma FramesAreInRange(masks: Masks, rom: Rom, p: Pipeline, ws: seq<Inputs>)
    requires RomContract(rom) && PowerUp(p)
    requires forall w :: w in ws ==> InputsInRange(w)
    ensures forall f :: f in AllEmitted(masks, rom, p, ws) ==> InRange(f)
  {
    PowerUpHasInv(masks, rom, p, 0);
    RunKeepsRanges(masks, rom, p, ws);
  }

  // The pipeline with the serialiser behind it

  datatype Station = Station(pipe: Pipeline, sender: Serialiser)

  /** What the serialiser sees in a clock; `w.uartReady` says whether the UART takes a byte. */
  function Sends(st: Station, w: Inputs): SendWires {
    SendWires(F.PopValid(st.pipe.uart), st.pipe.uart.read, w.uartReady)
  }

  /** The FIFO is read with the last byte of a frame. */
  function AtFifo(st: Station, w: Inputs): Inputs {
    w.(uartReady := w.uartReady && st.sender.count == FRAME - 1)
  }

  function Next(masks: Masks, rom: Rom, st: Station, w: Inputs): (st': Station)
    requires Shaped(st.pipe)
    ensures Shaped(st'.pipe)
  {
    Station(Clock(masks, rom, st.pipe, AtFifo(st, w)), Send(st.sender, Sends(st, w)))
  }

  function RunOf(masks: Masks, rom: Rom, st: Station, ws: seq<Inputs>): (st': Station)
    requires Shaped(st.pipe)
    ensures Shaped(st'.pipe)
    decreases |ws|
  {
    if ws == [] then st else RunOf(masks, rom, Next(masks, rom, st, ws[0]), ws[1..])
  }

  /** The inputs of the pipeline alone. */
  function AllAtFifo(masks: Masks, rom: Rom, st: Station, ws: seq<Inputs>): (ws': seq<Inputs>)
    requires Shaped(st.pipe)
    ensures |ws'| == |ws|
    decreases |ws|
  {
    if ws == [] then [] else [AtFifo(st, ws[0])] + AllAtFifo(masks, rom, Next(masks, rom, st, ws[0]), ws[1..])
  }

  /** The bytes that the UART takes. */
  function BytesSent(masks: Masks, rom: Rom, st: Station, ws: seq<Inputs>): seq<Byte>
    requires Shaped(st.pipe) && st.sender.count < FRAME
    decreases |ws|
  {
    if ws == [] then []
    else SentIn(st.sender, Sends(st, ws[0])) + BytesSent(masks, rom, Next(masks, rom, st, ws[0]), ws[1..])
  }

  /** The frames that leave the FIFO of the UART. */
  function FramesSent(masks: Masks, rom: Rom, st: Station, ws: seq<Inputs>): seq<Frame>
    requires Shaped(st.pipe)
    decreases |ws|
  {
    if ws == [] then []
    else PoppedIn(st.sender, Sends(st, ws[0])) + FramesSent(masks, rom, Next(masks, rom, st, ws[0]), ws[1..])
  }

  /** The first bytes of the frame in hand. */
  function InHand(st: Station): (s: seq<Byte>)
    requires st.sender.count < FRAME
    ensures |s| == st.sender.count
  {
    Bytes(st.pipe.uart.read)[..st.sender.count]
  }

  ghost predicate Ready(st: Station) {
    && F.Valid(st.pipe.uart) && Shaped(st.pipe) && st.sender.count < FRAME
    && (st.sender.count > 0 ==> F.PopValid(st.pipe.uart))
  }

  /** One clock: bytes of frames popped and in hand, and frames in the FIFO, are conserved. */
  lemma NextConserves(masks: Masks, rom: Rom, st: Station, w: Inputs)
    requires Ready(st)
    ensures
      var st' := Next(masks, rom, st, w);
      && Ready(st')
      && InHand(st) + SentIn(st.sender, Sends(st, w)) == Stream(PoppedIn(st.sender, Sends(st, w))) + InHand(st')
      && F.Contents(st.pipe.uart) + Emitted(st.pipe, AtFifo(st, w))
         == PoppedIn(st.sender, Sends(st, w)) + F.Contents(st'.pipe.uart)
  {
    var wires := UartWires(st.pipe, AtFifo(st, w));
    F.StepConserves(st.pipe.uart, wires);
    SendStep(st.sender, st.pipe.uart.read, Sends(st, w));
    if F.PopValid(st.pipe.uart) && !wires.popReady {
      F.OfferIsHeld(st.pipe.uart, wires);
    }
  }

  lemma {:induction false} RunSends(masks: Masks, rom: Rom, st: Station, ws: seq<Inputs>)
    requires Ready(st)
    ensures
      var end := RunOf(masks, rom, st, ws);
      && Ready(end)
      && InHand(st) + BytesSent(masks, rom, st, ws) == Stream(FramesSent(masks, rom, st, ws)) + InHand(end)
    decreases |ws|
  {
    if ws != [] {
      var w, st' := ws[0], Next(masks, rom, st, ws[0]);
      NextConserves(masks, rom, st, w);
      RunSends(masks, rom, st', ws[1..]);
      Regroup(InHand(st), SentIn(st.sender, Sends(st, w)), BytesSent(masks, rom, st', ws[1..]),
        Stream(PoppedIn(st.sender, Sends(st, w))), InHand(st'), Stream(FramesSent(masks, rom, st', ws[1..])),
        InHand(RunOf(masks, rom, st, ws)));
      StreamOfOneMore(PoppedIn(st.sender, Sends(st, w)), FramesSent(masks, rom, st', ws[1..]));
    } else {
      NothingInFront(InHand(st));
      assert InHand(st) + [] == InHand(st);
    }
  }

  lemma {:induction false} RunPops(masks: Masks, rom: Rom, st: Station, ws: seq<Inputs>)
    requires Ready(st)
    ensures
      var end, ins := RunOf(masks, rom, st, ws), AllAtFifo(masks, rom, st, ws);
      && end.pipe == Run(masks, rom, st.pipe, ins)
      && F.Contents(st.pipe.uart) + AllEmitted(masks, rom, st.pipe, ins)
         == FramesSent(masks, rom, st, ws) + F.Contents(end.pipe.uart)
    decreases |ws|
  {
    if ws != [] {
      var w, st' := ws[0], Next(masks, rom, st, ws[0]);
      var ins' := AllAtFifo(masks, rom, st', ws[1..]);
      NextConserves(masks, rom, st, w);
      RunPops(masks, rom, st', ws[1..]);
      assert AllAtFifo(masks, rom, st, ws)[1..] == ins';
      Regroup(F.Contents(st.pipe.uart), Emitted(st.pipe, AtFifo(st, w)), AllEmitted(masks, rom, st'.pipe, ins'),
        PoppedIn(st.sender, Sends(st, w)), F.Contents(st'.pipe.uart), FramesSent(masks, rom, st', ws[1..]),
        F.Contents(RunOf(masks, rom, st, ws).pipe.uart));
    }
  }

  lemma {:induction false} AllAtFifoInRange(masks: Masks, rom: Rom, st: Station, ws: seq<Inputs>)
    requires Shaped(st.pipe) && forall w :: w in ws ==> InputsInRange(w)
    ensures forall w :: w in AllAtFifo(masks, rom, st, ws) ==> InputsInRange(w)
    decreases |ws|
  {
    if ws != [] {
      assert ws[0] in ws;
      AllAtFifoInRange(masks, rom, Next(masks, rom, st, ws[0]), ws[1..]);
    }
  }

  // What the host makes of it

  function ReadingsOf(ls: seq<Located>): seq<Reading> {
    if ls == [] then [] else [ReadingOf(ls[0])] + ReadingsOf(ls[1..])
  }

  lemma {:induction false} BeamsAreRead(fs: seq<Frame>)
    ensures BeamReadings(fs) == ReadingsOf(BeamsOf(fs))
  {
    if fs != [] {
      BeamsAreRead(fs[1..]);
      if fs[0].BeamFrame? {
        assert BeamsOf(fs)[1..] == BeamsOf(fs[1..]);
      } else {
        NothingInFront(BeamReadings(fs[1..]));
        NothingInFront(BeamsOf(fs[1..]));
      }
    }
  }

  /** A nonzero offset is right: so many steps of the polynomial lead from 1 to the word. */
  predicate OffsetIsRight(rom: Rom, r: Reading) {
    r.offset != 0 ==> r.identity < 32 && r.state == Value(Steps(rom[4 * r.identity], One(WIDTH), r.offset))
  }

  lemma {:induction false} OffsetsOfBeams(rom: Rom, fs: seq<Frame>)
    requires forall f :: f in fs ==> FrameSound(rom, f)
    ensures forall r :: r in BeamReadings(fs) ==> OffsetIsRight(rom, r)
  {
    if fs != [] {
      assert fs[0] in fs;
      OffsetsOfBeams(rom, fs[1..]);
    }
  }

  /** The offsets that the host reads are right. */
  lemma OffsetsAreRight(masks: Masks, rom: Rom, st: Station, ws: seq<Inputs>)
    requires RomContract(rom) && PowerUp(st.pipe) && st.sender.count == 0
    requires forall w :: w in ws ==> InputsInRange(w)
    ensures forall r :: r in Readings(BytesSent(masks, rom, st, ws)) ==> OffsetIsRight(rom, r)
  {
    var end, ins, sent := RunOf(masks, rom, st, ws), AllAtFifo(masks, rom, st, ws), FramesSent(masks, rom, st, ws);
    AllAtFifoInRange(masks, rom, st, ws);
    FramesCarryThePulses(masks, rom, 0, st.pipe, ins);
    AllIsSentOrLeft(masks, rom, st, ws);
    BytesAreRead(masks, rom, st, ws);
    forall f | f in sent ensures FrameSound(rom, f) {
      assert f in sent + F.Contents(end.pipe.uart);
    }
    OffsetsOfBeams(rom, sent);
  }

  /**
   From power-up with pulses in range, whatever the UART takes and when: the host, reading from
   the first byte, gets a reading for each report that has been sent; the reports, with those
   still under way, are right; and for each sensor their pulses, with those in the FIFOs before,
   are exactly the pulses that its small FIFO has accepted, in order.
   */
  lemma HostReadsThePulses(masks: Masks, rom: Rom, s: nat, st: Station, ws: seq<Inputs>)
    requires RomContract(rom) && s < 2 && PowerUp(st.pipe) && st.sender.count == 0
    requires forall w :: w in ws ==> InputsInRange(w)
    ensures
      var end, ins := RunOf(masks, rom, st, ws), AllAtFifo(masks, rom, st, ws);
      var sent := BeamsOf(FramesSent(masks, rom, st, ws));
      var ls := sent + UnderWay(end);
      && Readings(BytesSent(masks, rom, st, ws)) == ReadingsOf(sent)
      && AllRight(masks, rom, StartOf(st.pipe), ls)
      && AllAccepted(masks, rom, s, st.pipe, ins)
         == Of(s, PulsesIn(ls)) + (Of(s, F.Contents(end.pipe.queue)) + F.Contents(Small(s, end.pipe)))
  {
    var end, ins := RunOf(masks, rom, st, ws), AllAtFifo(masks, rom, st, ws);
    var fs := FramesSent(masks, rom, st, ws);
    var ls := BeamsOf(fs) + UnderWay(end);
    AllAtFifoInRange(masks, rom, st, ws);
    AllIsSentOrLeft(masks, rom, st, ws);
    BytesAreRead(masks, rom, st, ws);
    BeamsAreRead(fs);
    SentAndUnderWay(fs, end);
    FramesReportThePulses(masks, rom, st.pipe, ins);
    FramesCarryThePulses(masks, rom, s, st.pipe, ins);
    PulsesOfReports(s, AllEmitted(masks, rom, st.pipe, ins), end.pipe, ls);
  }

  /** The reports that wait for the UART, and the one in the pipe register. */
  function UnderWay(st: Station): seq<Located>
    requires Shaped(st.pipe)
  {
    BeamsOf(F.Contents(st.pipe.uart)) + PipeBeams(st.pipe)
  }

  lemma SentAndUnderWay(fs: seq<Frame>, end: Station)
    requires Shaped(end.pipe)
    ensures BeamsOf(fs + F.Contents(end.pipe.uart)) + PipeBeams(end.pipe) == BeamsOf(fs) + UnderWay(end)
  {
    BeamsOfConcat(fs, F.Contents(end.pipe.uart));
    InOrder(BeamsOf(fs), BeamsOf(F.Contents(end.pipe.uart)), PipeBeams(end.pipe));
  }

  lemma PulsesOfReports(s: nat, fs: seq<Frame>, p: Pipeline, ls: seq<Located>)
    requires Shaped(p) && ls == BeamsOf(fs) + PipeBeams(p)
    ensures Of(s, PulsesOf(fs)) + InFlight(s, p)
         == Of(s, PulsesIn(ls)) + (Of(s, F.Contents(p.queue)) + F.Contents(Small(s, p)))
  {
    var a, b, c, d := Of(s, PulsesOf(fs)), Of(s, InPipe(p)), Of(s, F.Contents(p.queue)), F.Contents(Small(s, p));
    PulsesInConcat(BeamsOf(fs), PipeBeams(p));
    OfConcat(s, PulsesOf(fs), InPipe(p));
    OfConcat(s, InPipe(p), F.Contents(p.queue));
    InOrder(a + b, c, d);
    InOrder(a, b + c, d);
    InOrder(a, b, c);
  }

  lemma AllIsSentOrLeft(masks: Masks, rom: Rom, st: Station, ws: seq<Inputs>)
    requires PowerUp(st.pipe) && st.sender.count == 0
    ensures
      var end, ins := RunOf(masks, rom, st, ws), AllAtFifo(masks, rom, st, ws);
      && end.pipe == Run(masks, rom, st.pipe, ins)
      && AllEmitted(masks, rom, st.pipe, ins) == FramesSent(masks, rom, st, ws) + F.Contents(end.pipe.uart)
  {
    RunPops(masks, rom, st, ws);
    assert F.Contents(st.pipe.uart) == [];
    NothingInFront(AllEmitted(masks, rom, st.pipe, AllAtFifo(masks, rom, st, ws)));
  }

  lemma BytesAreRead(masks: Masks, rom: Rom, st: Station, ws: seq<Inputs>)
    requires RomContract(rom) && PowerUp(st.pipe) && st.sender.count == 0
    requires forall w :: w in ws ==> InputsInRange(w)
    ensures Readings(BytesSent(masks, rom, st, ws)) == BeamReadings(FramesSent(masks, rom, st, ws))
  {
    var end, sent := RunOf(masks, rom, st, ws), FramesSent(masks, rom, st, ws);
    AllAtFifoInRange(masks, rom, st, ws);
    FramesAreInRange(masks, rom, st.pipe, AllAtFifo(masks, rom, st, ws));
    AllIsSentOrLeft(masks, rom, st, ws);
    RunSends(masks, rom, st, ws);
    NothingInFront(BytesSent(masks, rom, st, ws));
    forall f | f in sent ensures InRange(f) {
      assert f in sent + F.Contents(end.pipe.uart);
    }
    ReadingsOfFrames(sent, InHand(end));
  }
}
