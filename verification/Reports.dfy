// What the frames say about the pulses: name and offset of every pulse follow from the pulses
// before it, by a rule that does not mention the state machines.
module Reports {
  import opened Lfsr
  import opened OffsetSearch
  import opened Pipelines
  import opened PolyFinding
  import opened Pulses
  import opened Sequences
  import I = PulseIdentifying
  import L = PulseOffsetFinding

  /** What the registers of the two state machines hold at power-up. */
  datatype Start = Start(before: I.Previous, memory: L.Memory)

  function StartOf(p: Pipeline): Start {
    Start(I.Previous(p.ident.lastState, p.ident.lastTimestamp), L.Memory(p.locate.lastPoly, p.locate.lastTimestamp))
  }

  function IdentifiedIn(ls: seq<Located>): (xs: seq<Identified>)
    ensures |xs| == |ls| && forall k :: 0 <= k < |ls| ==> xs[k] == ls[k].identified
  {
    seq(|ls|, k requires 0 <= k < |ls| => ls[k].identified)
  }

  /** The pulse that comes next to be compared with, and what decides about the next search. */
  function Before(st: Start, ls: seq<Located>): I.Previous {
    I.PreviousAfter(st.before, PulsesIn(ls))
  }

  ghost function Memory(rom: Rom, st: Start, ls: seq<Located>): L.Memory {
    L.MemoryAfter(rom, st.memory, IdentifiedIn(ls))
  }

  /**
   Report `k` is right: the polynomial is the one that its pulse and the pulse before it name,
   and the offset is that of its beam word if the pulse is searched and has one, and else 0.
   */
  ghost predicate IsRight(masks: Masks, rom: Rom, st: Start, ls: seq<Located>, k: nat)
    requires k < |ls|
  {
    var x := ls[k].identified;
    && I.IsNamed(masks, Before(st, ls[..k]), x.pulse, x.npoly)
    && L.IsLocated(rom, Memory(rom, st, ls[..k]), x, ls[k].offset)
  }

  ghost predicate AllRight(masks: Masks, rom: Rom, st: Start, ls: seq<Located>) {
    forall k :: 0 <= k < |ls| ==> IsRight(masks, rom, st, ls, k)
  }

  lemma OneMoreRight(masks: Masks, rom: Rom, st: Start, ls: seq<Located>, l: Located)
    requires AllRight(masks, rom, st, ls)
    requires I.IsNamed(masks, Before(st, ls), l.identified.pulse, l.identified.npoly)
    requires L.IsLocated(rom, Memory(rom, st, ls), l.identified, l.offset)
    ensures AllRight(masks, rom, st, ls + [l])
  {
    forall k | 0 <= k < |ls| + 1 ensures IsRight(masks, rom, st, ls + [l], k) {
      assert (ls + [l])[..k] == ls[..k];
      if k < |ls| {
        assert IsRight(masks, rom, st, ls, k);
      } else {
        assert ls[..k] == ls;
      }
    }
  }

  lemma OneMoreBefore(st: Start, ls: seq<Located>, l: Located)
    ensures Before(st, ls + [l]) == I.PreviousOf(l.identified.pulse)
  {
  }

  lemma OneMoreMemory(rom: Rom, st: Start, ls: seq<Located>, l: Located)
    ensures Memory(rom, st, ls + [l]) == L.NextMemory(rom, Memory(rom, st, ls), l.identified)
  {
    assert IdentifiedIn(ls + [l]) == IdentifiedIn(ls) + [l.identified];
    L.MemoryOfOneMore(rom, st.memory, IdentifiedIn(ls), l.identified);
  }

  /** `ls` has been handed over so far, all of it right, and the state machines remember it. */
  ghost predicate Remembers(masks: Masks, rom: Rom, st: Start, p: Pipeline, ls: seq<Located>) {
    && AllRight(masks, rom, st, ls)
    && I.Remembers(masks, p.ident, IdentWires(p), Before(st, ls))
    && L.Remembers(rom, p.locate, LocateWires(p), Memory(rom, st, ls))
  }

  /** Both state machines hand over the same pulse in the same clock. */
  lemma BothHandOver(masks: Masks, rom: Rom, p: Pipeline)
    requires Inv(masks, rom, p)
    ensures I.Transfers(p.ident, IdentWires(p)) <==> L.Transfers(p.locate, LocateWires(p))
  {
  }

  lemma HandedOver(masks: Masks, rom: Rom, st: Start, p: Pipeline, ls: seq<Located>)
    requires Inv(masks, rom, p) && Remembers(masks, rom, st, p, ls) && L.Transfers(p.locate, LocateWires(p))
    ensures
      var l := Entering(p)[0];
      && AllRight(masks, rom, st, ls + [l])
      && Before(st, ls + [l]) == I.PreviousOf(p.queue.read)
      && Memory(rom, st, ls + [l]) == L.NextMemory(rom, Memory(rom, st, ls), LocateWires(p).pulse)
  {
    var l := Entering(p)[0];
    BothHandOver(masks, rom, p);
    OneMoreRight(masks, rom, st, ls, l);
    OneMoreBefore(st, ls, l);
    OneMoreMemory(rom, st, ls, l);
  }

  lemma ClockRemembers(masks: Masks, rom: Rom, st: Start, p: Pipeline, w: Inputs, ls: seq<Located>)
    requires RomContract(rom) && Inv(masks, rom, p) && Remembers(masks, rom, st, p, ls)
    ensures Remembers(masks, rom, st, Clock(masks, rom, p, w), ls + Entering(p))
  {
    var p' := Clock(masks, rom, p, w);
    OffersAreHeld(masks, rom, p, w);
    BothHandOver(masks, rom, p);
    I.ClockRemembers(masks, p.ident, IdentWires(p), IdentWires(p'), Before(st, ls));
    L.ClockRemembers(rom, p.locate, LocateWires(p), LocateWires(p'), Memory(rom, st, ls));
    if L.Transfers(p.locate, LocateWires(p)) {
      HandedOver(masks, rom, st, p, ls);
    } else {
      assert ls + Entering(p) == ls;
    }
  }

  // Whole runs

  function AllEntering(masks: Masks, rom: Rom, p: Pipeline, ws: seq<Inputs>): seq<Located>
    requires Shaped(p)
    decreases |ws|
  {
    if ws == [] then [] else Entering(p) + AllEntering(masks, rom, Clock(masks, rom, p, ws[0]), ws[1..])
  }

  lemma {:induction false} RunRemembers(
      masks: Masks, rom: Rom, st: Start, p: Pipeline, ws: seq<Inputs>, ls: seq<Located>)
    requires RomContract(rom) && Inv(masks, rom, p) && Remembers(masks, rom, st, p, ls)
    requires forall w :: w in ws ==> Tagged(w)
    ensures AllRight(masks, rom, st, ls + AllEntering(masks, rom, p, ws))
    decreases |ws|
  {
    if ws == [] {
      assert ls + [] == ls;
    } else {
      var p' := Clock(masks, rom, p, ws[0]);
      ClockKeepsInv(masks, rom, p, ws[0]);
      ClockRemembers(masks, rom, st, p, ws[0], ls);
      RunRemembers(masks, rom, st, p', ws[1..], ls + Entering(p));
      InOrder(ls, Entering(p), AllEntering(masks, rom, p', ws[1..]));
    }
  }

  lemma {:induction false} RunConservesBeams(masks: Masks, rom: Rom, p: Pipeline, ws: seq<Inputs>)
    requires RomContract(rom) && Inv(masks, rom, p)
    requires forall w :: w in ws ==> Tagged(w)
    ensures PipeBeams(p) + AllEntering(masks, rom, p, ws)
         == BeamsOf(AllEmitted(masks, rom, p, ws)) + PipeBeams(Run(masks, rom, p, ws))
    decreases |ws|
  {
    if ws == [] {
      NothingInFront(PipeBeams(p));
      assert PipeBeams(p) + [] == PipeBeams(p);
    } else {
      var p' := Clock(masks, rom, p, ws[0]);
      ClockKeepsInv(masks, rom, p, ws[0]);
      BeamsConserve(masks, rom, p, ws[0]);
      RunConservesBeams(masks, rom, p', ws[1..]);
      BeamsOfConcat(Emitted(p, ws[0]), AllEmitted(masks, rom, p', ws[1..]));
      Regroup(PipeBeams(p), Entering(p), AllEntering(masks, rom, p', ws[1..]),
        BeamsOf(Emitted(p, ws[0])), PipeBeams(p'), BeamsOf(AllEmitted(masks, rom, p', ws[1..])),
        PipeBeams(Run(masks, rom, p', ws[1..])));
    }
  }

  lemma PowerUpRemembers(masks: Masks, rom: Rom, p: Pipeline)
    requires PowerUp(p)
    ensures Remembers(masks, rom, StartOf(p), p, []) && PipeBeams(p) == []
  {
  }

  /**
   From power-up: the frames for the UART, with the one that may be in the pipe register, report
   for each pulse the polynomial and the offset that the pulses before it make right.
   */
  lemma FramesReportThePulses(masks: Masks, rom: Rom, p: Pipeline, ws: seq<Inputs>)
    requires RomContract(rom) && PowerUp(p)
    requires forall w :: w in ws ==> Tagged(w)
    ensures AllRight(
      masks, rom, StartOf(p), BeamsOf(AllEmitted(masks, rom, p, ws)) + PipeBeams(Run(masks, rom, p, ws)))
  {
    PowerUpHasInv(masks, rom, p, 0);
    PowerUpRemembers(masks, rom, p);
    RunRemembers(masks, rom, StartOf(p), p, ws, []);
    RunConservesBeams(masks, rom, p, ws);
    NothingInFront(AllEntering(masks, rom, p, ws));
  }
}
