// Everything that is accepted gets out: how long a pulse may stay in the pipeline, whatever
// the other pulses, the sync frames and the UART do.
module Progress {
  import opened OffsetSearch
  import opened Pipelines
  import opened PolyFinding
  import opened Pulses
  import opened Reports
  import opened Sequences
  import opened StreamArbiters
  import F = StreamFifos
  import I = PulseIdentifying
  import L = PulseOffsetFinding

  /** No pulse takes longer from the head of the queue to the handover. */
  const LONGEST := 1032 + QUARTER + 5

  // The way of a pulse to the handover, in clocks

  /** The clocks until the queue offers a pulse, if there is one in the queue or before it. */
  function Wait(p: Pipeline): (n: nat)
    ensures n <= 3
  {
    if F.PopValid(p.queue) then 0
    else if !F.Empty(p.queue) then 1
    else if OutValid(p.merge, MergeWires(p)) then 2
    else 3
  }

  function IdentLeft(s: I.Identifier, wait: nat): nat {
    match s.fsm
    case FsmBoot => 1032
    case Idle => 1028 + wait
    case TestDelta => 1027
    case WaitFinder => if s.search.searching then s.search.counter + 2 else 1
    case SendResult => 0
  }

  function LocateLeft(s: L.Locator): nat {
    match s.fsm
    case FsmBoot => QUARTER + 5
    case Idle => QUARTER + 4
    case TestDelta => QUARTER + 3
    case WaitFinder => Remaining(s.finder) + 1
    case SendResult => 0
  }

  function Left(p: Pipeline): nat {
    IdentLeft(p.ident, Wait(p)) + LocateLeft(p.locate)
  }

  lemma IdentMoves(masks: Masks, s: I.Identifier, w: I.Wires, w': I.Wires, n: nat, n': nat)
    requires I.Inv(masks, s, w) && I.Holds(s, w, w')
    requires n <= 3 && n' <= 3 && (w.valid <==> n == 0) && (n > 0 ==> n' < n)
    ensures s.fsm != SendResult ==> IdentLeft(I.Clock(masks, s, w), n') < IdentLeft(s, n)
    ensures s.fsm == SendResult && !w.ready ==> I.Clock(masks, s, w).fsm == SendResult
  {
    if I.Starts(s, w) {
      I.StartedStep(masks, s, w, w');
    } else if s.fsm == WaitFinder {
      I.WaitStep(masks, s, w);
    }
  }

  lemma LocateMoves(rom: Rom, s: L.Locator, w: L.Wires)
    requires L.Inv(rom, s, w)
    ensures LocateLeft(L.Clock(rom, s, w)) <= LocateLeft(s) || s.fsm == SendResult
    ensures w.valid && s.fsm != SendResult ==> LocateLeft(L.Clock(rom, s, w)) < LocateLeft(s)
  {
    if L.Starts(s, w) {
      L.StartedStep(rom, s, w);
    } else if s.fsm == WaitFinder {
      L.WaitStep(rom, s, w);
    }
  }

  lemma LeftIsBounded(masks: Masks, rom: Rom, p: Pipeline)
    requires Inv(masks, rom, p)
    ensures Left(p) <= LONGEST
  {
  }

  // The arbiters

  /** Both arbiters wait for an input that still offers. */
  predicate Patient(p: Pipeline) {
    LockHolds(p.merge, MergeWires(p)) && LockHolds(p.fan, FanWires(p))
  }

  lemma ClockKeepsPatient(masks: Masks, rom: Rom, p: Pipeline, w: Inputs)
    requires Inv(masks, rom, p) && Patient(p)
    ensures Patient(Clock(masks, rom, p, w))
  {
    var p' := Clock(masks, rom, p, w);
    SmallIsHeld(p.small0, SmallWires0(p, w));
    SmallIsHeld(p.small1, SmallWires1(p, w));
    LockIsKept(p.merge, MergeWires(p), MergeWires(p'));
    LockIsKept(p.fan, FanWires(p), FanWires(p'));
  }

  lemma SmallIsHeld(f: F.Fifo<Pulse>, w: F.FifoWires<Pulse>)
    requires F.Valid(f) && !w.flush
    ensures F.PopValid(f) && !w.popReady ==> F.PopValid(F.Step(f, w))
  {
    if F.PopValid(f) && !w.popReady {
      F.OfferIsHeld(f, w);
    }
  }

  // One clock

  /** The pulses before the state machines, and all that are accepted and not yet reported. */
  function Upstream(p: Pipeline): nat
    requires Shaped(p)
  {
    |F.Contents(p.queue)| + |F.Contents(p.small0)| + |F.Contents(p.small1)|
  }

  function Unreported(p: Pipeline): nat
    requires Shaped(p)
  {
    |PipeBeams(p)| + Upstream(p)
  }

  lemma FifoOffers(f: F.Fifo<Pulse>, w: F.FifoWires<Pulse>)
    requires F.Valid(f) && !w.flush && !F.PopValid(f)
    ensures F.Contents(f) != [] ==> F.PopValid(F.Step(f, w))
  {
    if F.Contents(f) != [] {
      F.OfferedWithinOneClock(f, w);
    }
  }

  lemma EmptyIsEmpty(f: F.Fifo<Pulse>)
    requires F.PointersValid(f)
    ensures F.Empty(f) <==> F.Contents(f) == []
  {
    F.OccupancyIsComplement(f);
  }

  lemma WaitMoves(masks: Masks, rom: Rom, p: Pipeline, w: Inputs, p': Pipeline)
    requires RomContract(rom) && Inv(masks, rom, p) && Patient(p) && Tagged(w) && Upstream(p) > 0
    requires p' == Clock(masks, rom, p, w)
    ensures Wait(p) > 0 ==> Wait(p') < Wait(p)
  {
    if !F.PopValid(p.queue) {
      EmptyIsEmpty(p.queue);
      FifoOffers(p.queue, QueueWires(p));
      if F.Empty(p.queue) && !OutValid(p.merge, MergeWires(p)) {
        WhoGetsOut(p.merge, MergeWires(p));
        FifoOffers(p.small0, SmallWires0(p, w));
        FifoOffers(p.small1, SmallWires1(p, w));
        ClockKeepsInv(masks, rom, p, w);
        ClockKeepsPatient(masks, rom, p, w);
        WhoGetsOut(p'.merge, MergeWires(p'));
      }
    }
  }

  /** While the pipe register is free, the head is handed over or comes closer. */
  lemma HeadMoves(masks: Masks, rom: Rom, p: Pipeline, w: Inputs, p': Pipeline)
    requires RomContract(rom) && Inv(masks, rom, p) && Patient(p) && Tagged(w) && Upstream(p) > 0
    requires p' == Clock(masks, rom, p, w) && !p.beam.valid
    ensures p'.beam.valid || Left(p') < Left(p)
  {
    WaitMoves(masks, rom, p, w, p');
    OffersAreHeld(masks, rom, p, w);
    IdentMoves(masks, p.ident, IdentWires(p), IdentWires(p'), Wait(p), Wait(p'));
    LocateMoves(rom, p.locate, LocateWires(p));
  }

  /** A report in the pipe register gets out, or else the FIFO of the UART is full or a sync frame gets out. */
  lemma BeamMoves(masks: Masks, rom: Rom, p: Pipeline, w: Inputs)
    requires Inv(masks, rom, p) && Patient(p)
    ensures |BeamsOf(Emitted(p, w))| <= if p.beam.valid then 1 else 0
    ensures p.beam.valid ==> F.Full(p.uart) || |BeamsOf(Emitted(p, w))| + SyncsIn(Emitted(p, w)) == 1
    ensures p.beam.valid && BeamsOf(Emitted(p, w)) == [] ==> Clock(masks, rom, p, w).beam.valid
  {
    EmittedBeam(masks, rom, p, w);
    BeamsOfOne(p.beam.frame);
    WhoGetsOut(p.fan, FanWires(p));
    SyncsOfOne(p.sync.frame);
    SyncsOfOne(p.beam.frame);
  }

  lemma SmallCounts(masks: Masks, rom: Rom, s: nat, p: Pipeline, w: Inputs, p': Pipeline)
    requires s < 2 && Inv(masks, rom, p) && p' == Clock(masks, rom, p, w)
    ensures |F.Contents(Small(s, p))| + |Accepted(s, p, w)| == |Moved(s, p)| + |F.Contents(Small(s, p'))|
  {
    SmallConserves(s, p, w);
    SameLength(F.Contents(Small(s, p)), Accepted(s, p, w), Moved(s, p), F.Contents(Small(s, p')));
  }

  lemma BackCounts(masks: Masks, rom: Rom, p: Pipeline, w: Inputs, p': Pipeline)
    requires Inv(masks, rom, p) && p' == Clock(masks, rom, p, w)
    ensures |PipeBeams(p)| + |F.Contents(p.queue)| + |Moved(0, p)| + |Moved(1, p)|
         == |BeamsOf(Emitted(p, w))| + |PipeBeams(p')| + |F.Contents(p'.queue)|
  {
    MergeConserves(p.merge, MergeWires(p));
    BackConserves(masks, rom, p, w);
    SameLength(Shared(p), GivenOut(p.merge, MergeWires(p)), PulsesOf(Emitted(p, w)), Shared(p'));
  }

  /** A pulse that is accepted is unreported until its report gets out. */
  lemma ClockCounts(masks: Masks, rom: Rom, p: Pipeline, w: Inputs, p': Pipeline)
    requires Inv(masks, rom, p) && p' == Clock(masks, rom, p, w)
    ensures Unreported(p') + |BeamsOf(Emitted(p, w))| == Unreported(p) + |Accepted(0, p, w)| + |Accepted(1, p, w)|
  {
    SmallCounts(masks, rom, 0, p, w, p');
    SmallCounts(masks, rom, 1, p, w, p');
    BackCounts(masks, rom, p, w, p');
  }

  /**
   Enough clocks for `j` reports, when neither the UART nor a sync frame holds them up; `beam` says
   that the first of them is in the pipe register, `left` is the way of the next one to it.
   */
  function Need(j: nat, beam: bool, left: nat): nat {
    if j == 0 then 0 else (if beam then 1 else left + 2) + (j - 1) * (LONGEST + 2)
  }

  lemma NeedMoves(j: nat, e: nat, beam: bool, left: nat, beam': bool, left': nat, held: nat) returns (j': nat)
    requires 0 < j && left' <= LONGEST
    requires if beam then e == 1 || (e == 0 && beam' && held > 0) else e == 0 && (beam' || left' < left)
    ensures j == j' + e && Need(j', beam', left') < Need(j, beam, left) + held
  {
    j' := j - e;
  }

  /** The reasons for which a report is held up in a clock. */
  function Held(p: Pipeline, w: Inputs): nat {
    (if F.Full(p.uart) then 1 else 0) + SyncsIn(Emitted(p, w))
  }

  lemma ClockBrings(masks: Masks, rom: Rom, p: Pipeline, w: Inputs, p': Pipeline, j: nat) returns (j': nat)
    requires RomContract(rom) && Inv(masks, rom, p) && Patient(p) && Tagged(w)
    requires p' == Clock(masks, rom, p, w) && 0 < j <= Unreported(p)
    ensures j == j' + |BeamsOf(Emitted(p, w))|
    ensures Need(j', p'.beam.valid, Left(p')) < Need(j, p.beam.valid, Left(p)) + Held(p, w)
  {
    BeamMoves(masks, rom, p, w);
    ClockKeepsInv(masks, rom, p, w);
    LeftIsBounded(masks, rom, p');
    if !p.beam.valid {
      HeadMoves(masks, rom, p, w, p');
    }
    var e := |BeamsOf(Emitted(p, w))|;
    j' := NeedMoves(j, e, p.beam.valid, Left(p), p'.beam.valid, Left(p'), Held(p, w));
  }

  // Whole runs

  /** The clocks in which the FIFO of the UART is full. */
  function FullClocks(masks: Masks, rom: Rom, p: Pipeline, ws: seq<Inputs>): nat
    requires Shaped(p)
    decreases |ws|
  {
    if ws == [] then 0
    else (if F.Full(p.uart) then 1 else 0) + FullClocks(masks, rom, Clock(masks, rom, p, ws[0]), ws[1..])
  }

  /** The clocks in which a sync frame is due. */
  function DueClocks(ws: seq<Inputs>): nat {
    if ws == [] then 0 else (if ws[0].syncDue then 1 else 0) + DueClocks(ws[1..])
  }

  /** What `j` reports need, and the sync frame that may come before them. */
  function Ahead(j: nat, p: Pipeline): nat {
    Need(j, p.beam.valid, Left(p)) + PipeSyncs(p)
  }

  lemma OneClock(masks: Masks, rom: Rom, p: Pipeline, w: Inputs, p': Pipeline, j: nat) returns (j': nat)
    requires RomContract(rom) && Inv(masks, rom, p) && Patient(p) && Tagged(w)
    requires p' == Clock(masks, rom, p, w) && 0 < j <= Unreported(p)
    ensures Inv(masks, rom, p') && Patient(p') && j == j' + |BeamsOf(Emitted(p, w))| && j' <= Unreported(p')
    ensures Ahead(j', p') < Ahead(j, p) + (if F.Full(p.uart) then 1 else 0) + if w.syncDue then 1 else 0
  {
    ClockKeepsInv(masks, rom, p, w);
    ClockKeepsPatient(masks, rom, p, w);
    ClockCounts(masks, rom, p, w, p');
    SyncsConserve(masks, rom, p, w);
    j' := ClockBrings(masks, rom, p, w, p', j);
  }

  lemma CountsOfOneMore(masks: Masks, rom: Rom, p: Pipeline, ws: seq<Inputs>, p': Pipeline)
    requires Shaped(p) && ws != [] && p' == Clock(masks, rom, p, ws[0])
    ensures |BeamsOf(AllEmitted(masks, rom, p, ws))|
         == |BeamsOf(Emitted(p, ws[0]))| + |BeamsOf(AllEmitted(masks, rom, p', ws[1..]))|
  {
    BeamsOfConcat(Emitted(p, ws[0]), AllEmitted(masks, rom, p', ws[1..]));
  }

  /** A clock for everything that `j` reports need, and for every clock that may be lost to others. */
  predicate Enough(masks: Masks, rom: Rom, p: Pipeline, ws: seq<Inputs>, j: nat)
    requires Shaped(p)
  {
    |ws| >= Ahead(j, p) + FullClocks(masks, rom, p, ws) + DueClocks(ws)
  }

  lemma EnoughIsSome(masks: Masks, rom: Rom, p: Pipeline, ws: seq<Inputs>, j: nat)
    requires Shaped(p) && Enough(masks, rom, p, ws, j) && j > 0
    ensures ws != []
  {
  }

  lemma EnoughIsLeft(masks: Masks, rom: Rom, p: Pipeline, ws: seq<Inputs>, j: nat, p': Pipeline, j': nat)
    requires Shaped(p) && Enough(masks, rom, p, ws, j) && ws != [] && p' == Clock(masks, rom, p, ws[0])
    requires Ahead(j', p') < Ahead(j, p) + (if F.Full(p.uart) then 1 else 0) + if ws[0].syncDue then 1 else 0
    ensures Enough(masks, rom, p', ws[1..], j')
  {
    assert FullClocks(masks, rom, p, ws) == (if F.Full(p.uart) then 1 else 0) + FullClocks(masks, rom, p', ws[1..]);
    assert DueClocks(ws) == (if ws[0].syncDue then 1 else 0) + DueClocks(ws[1..]);
  }

  /** After enough clocks `j` more reports have got out, whatever else comes in. */
  lemma {:induction false} ReportsGetOut(masks: Masks, rom: Rom, p: Pipeline, ws: seq<Inputs>, j: nat)
    requires RomContract(rom) && Inv(masks, rom, p) && Patient(p) && j <= Unreported(p)
    requires forall w :: w in ws ==> Tagged(w)
    requires Enough(masks, rom, p, ws, j)
    ensures |BeamsOf(AllEmitted(masks, rom, p, ws))| >= j
    decreases |ws|
  {
    if j > 0 {
      EnoughIsSome(masks, rom, p, ws, j);
      var w, p' := ws[0], Clock(masks, rom, p, ws[0]);
      var j' := OneClock(masks, rom, p, w, p', j);
      EnoughIsLeft(masks, rom, p, ws, j, p', j');
      ReportsGetOut(masks, rom, p', ws[1..], j');
      CountsOfOneMore(masks, rom, p, ws, p');
    }
  }

  predicate Quiet(ws: seq<Inputs>) {
    forall w :: w in ws ==> Tagged(w) && !w.valid0 && !w.valid1
  }

  lemma {:induction false} QuietCounts(masks: Masks, rom: Rom, p: Pipeline, ws: seq<Inputs>)
    requires RomContract(rom) && Inv(masks, rom, p) && Quiet(ws)
    ensures Unreported(Run(masks, rom, p, ws)) + |BeamsOf(AllEmitted(masks, rom, p, ws))| == Unreported(p)
    decreases |ws|
  {
    if ws != [] {
      var w, p' := ws[0], Clock(masks, rom, p, ws[0]);
      ClockKeepsInv(masks, rom, p, w);
      ClockCounts(masks, rom, p, w, p');
      QuietCounts(masks, rom, p', ws[1..]);
      CountsOfOneMore(masks, rom, p, ws, p');
    }
  }

  lemma {:induction false} RunKeepsInv(masks: Masks, rom: Rom, p: Pipeline, ws: seq<Inputs>)
    requires RomContract(rom) && Inv(masks, rom, p) && Patient(p)
    requires forall w :: w in ws ==> Tagged(w)
    ensures Inv(masks, rom, Run(masks, rom, p, ws)) && Patient(Run(masks, rom, p, ws))
    decreases |ws|
  {
    if ws != [] {
      ClockKeepsInv(masks, rom, p, ws[0]);
      ClockKeepsPatient(masks, rom, p, ws[0]);
      RunKeepsInv(masks, rom, Clock(masks, rom, p, ws[0]), ws[1..]);
    }
  }

  /** One run and then another, of which the second accepts nothing. */
  lemma {:induction false} ThenQuiet(masks: Masks, rom: Rom, s: nat, p: Pipeline, ws: seq<Inputs>, qs: seq<Inputs>)
    requires Shaped(p) && Quiet(qs)
    ensures Run(masks, rom, p, ws + qs) == Run(masks, rom, Run(masks, rom, p, ws), qs)
    ensures AllAccepted(masks, rom, s, p, ws + qs) == AllAccepted(masks, rom, s, p, ws)
    decreases |ws| + |qs|
  {
    if ws != [] {
      assert (ws + qs)[0] == ws[0] && (ws + qs)[1..] == ws[1..] + qs;
      ThenQuiet(masks, rom, s, Clock(masks, rom, p, ws[0]), ws[1..], qs);
    } else if qs != [] {
      assert ws + qs == qs;
      ThenQuiet(masks, rom, s, Clock(masks, rom, p, qs[0]), ws, qs[1..]);
      assert ws + qs[1..] == qs[1..];
    } else {
      assert ws + qs == [];
    }
  }

  lemma NeedIsBounded(j: nat, beam: bool, left: nat)
    requires left <= LONGEST
    ensures Need(j, beam, left) <= j * (LONGEST + 2)
  {
  }

  lemma IsEnough(masks: Masks, rom: Rom, p: Pipeline, ws: seq<Inputs>, j: nat)
    requires Inv(masks, rom, p)
    requires |ws| > j * (LONGEST + 2) + FullClocks(masks, rom, p, ws) + DueClocks(ws)
    ensures Enough(masks, rom, p, ws, j)
  {
    LeftIsBounded(masks, rom, p);
    NeedIsBounded(j, p.beam.valid, Left(p));
  }

  lemma QuietEmpties(masks: Masks, rom: Rom, p: Pipeline, qs: seq<Inputs>)
    requires RomContract(rom) && Inv(masks, rom, p) && Patient(p) && Quiet(qs)
    requires |qs| > Unreported(p) * (LONGEST + 2) + FullClocks(masks, rom, p, qs) + DueClocks(qs)
    ensures Unreported(Run(masks, rom, p, qs)) == 0
  {
    IsEnough(masks, rom, p, qs, Unreported(p));
    ReportsGetOut(masks, rom, p, qs, Unreported(p));
    QuietCounts(masks, rom, p, qs);
  }

  lemma NothingInFlight(s: nat, p: Pipeline)
    requires Shaped(p) && Unreported(p) == 0
    ensures InFlight(s, p) == [] && PipeBeams(p) == []
  {
  }

  /**
   From power-up: when the sensors fall silent after any run, then after LONGEST + 2 clocks for each
   pulse under way, and one for each clock with a full FIFO or a due sync frame, every pulse that was
   accepted has been reported, once, in the order of its sensor, and with the right name and offset.
   */
  lemma AllIsReported(masks: Masks, rom: Rom, s: nat, p0: Pipeline, ws: seq<Inputs>, qs: seq<Inputs>)
    requires RomContract(rom) && s < 2 && PowerUp(p0) && Quiet(qs)
    requires forall w :: w in ws ==> Tagged(w)
    requires
      var p := Run(masks, rom, p0, ws);
      |qs| > Unreported(p) * (LONGEST + 2) + FullClocks(masks, rom, p, qs) + DueClocks(qs)
    ensures
      var fs := AllEmitted(masks, rom, p0, ws + qs);
      AllAccepted(masks, rom, s, p0, ws) == Of(s, PulsesOf(fs)) && AllRight(masks, rom, StartOf(p0), BeamsOf(fs))
  {
    var end := Run(masks, rom, p0, ws + qs);
    PowerUpHasInv(masks, rom, p0, s);
    RunKeepsInv(masks, rom, p0, ws);
    QuietEmpties(masks, rom, Run(masks, rom, p0, ws), qs);
    ThenQuiet(masks, rom, s, p0, ws, qs);
    NothingInFlight(s, end);
    FramesCarryThePulses(masks, rom, s, p0, ws + qs);
    FramesReportThePulses(masks, rom, p0, ws + qs);
    NothingBehind(Of(s, PulsesOf(AllEmitted(masks, rom, p0, ws + qs))));
    NothingBehind(BeamsOf(AllEmitted(masks, rom, p0, ws + qs)));
  }
}
