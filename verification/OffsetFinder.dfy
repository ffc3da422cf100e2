// Four engines walk the orbit of the word 1 in parallel, a quarter each, and share one
// `found` and one `offset` register. Engine 0 needs no start word from the ROM, so it runs
// one cycle ahead of the other three.
module OffsetSearch {
  import opened Lfsr

  const ENGINES := 4
  const QUARTER := 32768
  const LAST := 32767  // the highest value of the fifteen-bit counter

  type Rom = r: seq<Word17> | |r| == 128 witness seq(128, i => Zero(WIDTH))

  datatype Phase = Boot | E1 | E2 | E3 | E4 | E5

  /** The registers of one engine; `romOut` is the registered read port of its ROM. */
  datatype Engine = Engine(phase: Phase, romOut: Word17, mask: Word17, lfsr: Word17, count: nat)

  const BLANK := Engine(Boot, Zero(WIDTH), Zero(WIDTH), Zero(WIDTH), 0)

  type Engines = s: seq<Engine> | |s| == ENGINES witness seq(ENGINES, i => BLANK)

  datatype Finder = Finder(engines: Engines, found: bool, offset: nat)

  type Poly = p: nat | p < 32

  /** What is looked for: a word on the orbit of 1 under one of the polynomials. */
  datatype Query = Query(poly: Poly, target: Word17)

  /** What drives the finder in one cycle. */
  datatype Control = Control(start: bool, reset: bool, q: Query)

  /** The ROM: word 4p is the mask of polynomial p, word 4p + k the word k quarters after 1. */
  predicate RomContract(rom: Rom) {
    forall p, k :: 0 <= p < 32 && 0 < k < ENGINES ==>
      rom[4 * p + k] == Steps(rom[4 * p], One(WIDTH), QUARTER * k)
  }

  predicate Matches(e: Engine, c: Control) {
    e.phase == E4 && e.lfsr == c.q.target
  }

  function Address(k: nat, phase: Phase, poly: Poly): (a: nat)
    requires k < ENGINES
    ensures a < 128
  {
    match phase
    case E1 => 4 * poly
    case E5 => 4 * poly
    case E2 => if k == 0 then 0 else 4 * poly + k
    case _ => 0
  }

  function NextPhase(k: nat, e: Engine, found: bool, c: Control): Phase {
    match e.phase
    case Boot => E1
    case E1 => if c.start then E2 else E1
    case E2 => if k == 0 then E4 else E3
    case E3 => E4
    case E4 => if Matches(e, c) || e.count == LAST || found then E5 else E4
    case E5 => if c.reset then E1 else if c.start then E2 else E5
  }

  function NextEngine(rom: Rom, k: nat, e: Engine, found: bool, c: Control): Engine
    requires k < ENGINES
  {
    var advance := e.phase == E4 && NextPhase(k, e, found, c) == E4;
    Engine(
      NextPhase(k, e, found, c),
      rom[Address(k, e.phase, c.q.poly)],
      if e.phase == E2 then e.romOut else e.mask,
      if e.phase == E2 && k == 0 then One(WIDTH)
      else if e.phase == E3 then e.romOut
      else if advance then Step(e.mask, e.lfsr)
      else e.lfsr,
      if e.phase == E1 then 0 else if advance then e.count + 1 else e.count)
  }

  /** What the block of engine `k` makes of the shared registers. */
  function Claim(k: nat, e: Engine, c: Control, found: bool, offset: nat): (bool, nat) {
    if Matches(e, c) then (true, QUARTER * k + e.count)
    else if e.phase == E1 || (e.phase == E5 && c.start) then (false, offset)
    else (found, offset)
  }

  /** The shared registers after the blocks of the first `n` engines: the last writer wins. */
  function Verdict(f: Finder, c: Control, n: nat): (bool, nat)
    requires n <= ENGINES
  {
    if n == 0 then (f.found, f.offset)
    else
      var (found, offset) := Verdict(f, c, n - 1);
      Claim(n - 1, f.engines[n - 1], c, found, offset)
  }

  function Next(rom: Rom, f: Finder, c: Control): Finder
  {
    var (found, offset) := Verdict(f, c, ENGINES);
    Finder(seq(ENGINES, k requires 0 <= k < ENGINES => NextEngine(rom, k, f.engines[k], f.found, c)), found, offset)
  }

  predicate AllIn(f: Finder, phase: Phase) {
    forall k :: 0 <= k < ENGINES ==> f.engines[k].phase == phase
  }

  predicate Done(f: Finder) {
    exists k :: 0 <= k < ENGINES && f.engines[k].phase == E5
  }

  // The clocked module

  class OffsetFinder {
    const rom: Rom
    const engines: array<Engine>
    var found: bool
    var offset: nat

    ghost predicate Valid()
      reads this
    {
      engines.Length == ENGINES
    }

    ghost function State(): Finder
      reads this, engines
      requires Valid()
    {
      Finder(engines[..], found, offset)
    }

    constructor (rom: Rom)
      ensures Valid() && fresh(engines) && this.rom == rom
      ensures AllIn(State(), Boot) && !found && offset == 0
    {
      this.rom := rom;
      engines := new Engine[ENGINES](i => BLANK);
      found, offset := false, 0;
    }

    /** The wire `done`. */
    method HasEnded() returns (done: bool)
      requires Valid()
      ensures done == Done(State())
    {
      done := exists k :: 0 <= k < ENGINES && engines[k].phase == E5;
    }

    method Tick(c: Control)
      requires Valid()
      modifies this, engines
      ensures Valid() && State() == Next(rom, old(State()), c)
    {
      ghost var before := State();
      var wasFound := found;
      for k := 0 to ENGINES
        invariant Valid() && (found, offset) == Verdict(before, c, k)
        invariant forall i :: 0 <= i < k ==> engines[i] == NextEngine(rom, i, before.engines[i], wasFound, c)
        invariant forall i :: k <= i < ENGINES ==> engines[i] == before.engines[i]
      {
        TickEngine(k, wasFound, c);
      }
      assert engines[..] == Next(rom, before, c).engines;
    }

    /** The block of engine `k`; `wasFound` is the value of `found` before the clock edge. */
    method TickEngine(k: nat, wasFound: bool, c: Control)
      requires Valid() && k < ENGINES
      modifies this, engines
      ensures engines[k] == NextEngine(rom, k, old(engines[k]), wasFound, c)
      ensures forall i :: 0 <= i < ENGINES && i != k ==> engines[i] == old(engines[i])
      ensures (found, offset) == Claim(k, old(engines[k]), c, old(found), old(offset))
    {
      var e := engines[k];
      var next := e;
      match e.phase {
        case Boot =>
          next := next.(phase := E1);
        case E1 =>
          next := next.(phase := if c.start then E2 else E1, count := 0);
          found := false;
        case E2 =>
          next := if k == 0 then next.(phase := E4, mask := e.romOut, lfsr := One(WIDTH))
                  else next.(phase := E3, mask := e.romOut);
        case E3 =>
          next := next.(phase := E4, lfsr := e.romOut);
        case E4 =>
          if e.lfsr == c.q.target {
            next := next.(phase := E5);
            found, offset := true, QUARTER * k + e.count;
          } else if e.count == LAST || wasFound {
            next := next.(phase := E5);
          } else {
            next := next.(count := e.count + 1, lfsr := Step(e.mask, e.lfsr));
          }
        case E5 =>
          if c.start {
            next := next.(phase := E2);
            found := false;
          }
          if c.reset {
            next := next.(phase := E1);
          }
      }
      engines[k] := next.(romOut := rom[Address(k, e.phase, c.q.poly)]);
    }
  }

  // One search: the invariant of the engines

  /** Engine `k` has tried its first `n` words and none was the target. */
  predicate NoneBelow(mask: Word17, target: Word17, k: nat, n: nat) {
    forall i :: QUARTER * k <= i < QUARTER * k + n ==> Steps(mask, One(WIDTH), i) != target
  }

  predicate EngineInv(rom: Rom, k: nat, e: Engine, found: bool, q: Query)
    requires k < ENGINES
  {
    var mask := rom[4 * q.poly];
    match e.phase
    case Boot => false
    case E1 => false
    case E2 => e.count == 0 && e.romOut == mask
    case E3 => k > 0 && e.count == 0 && e.mask == mask && e.romOut == rom[4 * q.poly + k]
    case E4 =>
      && e.mask == mask && e.count <= LAST
      && e.lfsr == Steps(mask, One(WIDTH), QUARTER * k + e.count)
      && NoneBelow(mask, q.target, k, e.count)
    case E5 => found || NoneBelow(mask, q.target, k, QUARTER)
  }

  predicate Sound(rom: Rom, f: Finder, q: Query)
  {
    f.found ==> f.offset < ENGINES * QUARTER && Steps(rom[4 * q.poly], One(WIDTH), f.offset) == q.target
  }

  predicate SearchInv(rom: Rom, f: Finder, q: Query)
  {
    && Sound(rom, f, q)
    && forall k :: 0 <= k < ENGINES ==> EngineInv(rom, k, f.engines[k], f.found, q)
  }

  lemma QuarterStart(rom: Rom, k: nat, poly: nat)
    requires RomContract(rom) && 0 < k < ENGINES && poly < 32
    ensures rom[4 * poly + k] == Steps(rom[4 * poly], One(WIDTH), QUARTER * k)
  {
  }

  lemma EngineStep(rom: Rom, k: nat, e: Engine, found: bool, found': bool, c: Control)
    requires RomContract(rom) && k < ENGINES && !c.start && !c.reset
    requires EngineInv(rom, k, e, found, c.q)
    requires (found || Matches(e, c)) ==> found'
    ensures EngineInv(rom, k, NextEngine(rom, k, e, found, c), found', c.q)
  {
    match e.phase {
      case E3 =>
        QuarterStart(rom, k, c.q.poly);
      case E4 =>
        SearchingStep(rom, k, e, found, found', c);
      case _ =>
    }
  }

  lemma SearchingStep(rom: Rom, k: nat, e: Engine, found: bool, found': bool, c: Control)
    requires k < ENGINES && e.phase == E4 && EngineInv(rom, k, e, found, c.q)
    requires (found || Matches(e, c)) ==> found'
    ensures EngineInv(rom, k, NextEngine(rom, k, e, found, c), found', c.q)
  {
    var e' := NextEngine(rom, k, e, found, c);
    if e'.phase == E4 {
      assert e'.lfsr == Steps(rom[4 * c.q.poly], One(WIDTH), QUARTER * k + e.count + 1);
    }
  }

  lemma {:induction false} VerdictSound(rom: Rom, f: Finder, c: Control, n: nat)
    requires n <= ENGINES && !c.start
    requires SearchInv(rom, f, c.q)
    ensures Sound(rom, f.(found := Verdict(f, c, n).0, offset := Verdict(f, c, n).1), c.q)
    ensures Verdict(f, c, n).0 <==> f.found || exists k :: 0 <= k < n && Matches(f.engines[k], c)
  {
    if n > 0 {
      VerdictSound(rom, f, c, n - 1);
      assert EngineInv(rom, n - 1, f.engines[n - 1], f.found, c.q);
    }
  }

  /** A clock of a running search keeps its invariant. */
  lemma SearchStep(rom: Rom, f: Finder, c: Control)
    requires RomContract(rom) && !c.start && !c.reset
    requires SearchInv(rom, f, c.q)
    ensures SearchInv(rom, Next(rom, f, c), c.q)
  {
    VerdictSound(rom, f, c, ENGINES);
    forall k | 0 <= k < ENGINES
      ensures EngineInv(rom, k, Next(rom, f, c).engines[k], Next(rom, f, c).found, c.q)
    {
      EngineStep(rom, k, f.engines[k], f.found, Next(rom, f, c).found, c);
    }
  }

  ghost predicate OnOrbit(rom: Rom, q: Query) {
    exists m :: 0 <= m < ENGINES * QUARTER && Steps(rom[4 * q.poly], One(WIDTH), m) == q.target
  }

  /** When all engines have ended, the search has decided whether the target is on the orbit. */
  lemma EndedSearchDecides(rom: Rom, f: Finder, q: Query)
    requires SearchInv(rom, f, q) && AllIn(f, E5)
    ensures f.found <==> OnOrbit(rom, q)
    ensures f.found ==> f.offset < ENGINES * QUARTER && Steps(rom[4 * q.poly], One(WIDTH), f.offset) == q.target
  {
    var mask := rom[4 * q.poly];
    if !f.found {
      forall m | 0 <= m < ENGINES * QUARTER
        ensures Steps(mask, One(WIDTH), m) != q.target
      {
        assert EngineInv(rom, m / QUARTER, f.engines[m / QUARTER], f.found, q);
      }
    } else {
      assert 0 <= f.offset < ENGINES * QUARTER && Steps(mask, One(WIDTH), f.offset) == q.target;
    }
  }

  // Lock-step: engine 0 is one cycle ahead

  datatype Stage = Loading | Skewed | Running | Ending | Over | Broken

  /** Engines 1 to 3 stand in `phase` with counter `count`. */
  predicate Rest(f: Finder, phase: Phase, count: nat) {
    forall k :: 0 < k < ENGINES ==> f.engines[k].phase == phase && f.engines[k].count == count
  }

  predicate Late(f: Finder) {
    forall k :: 0 <= k < ENGINES ==> f.engines[k].phase == E4 || f.engines[k].phase == E5
  }

  /** Where the four engines of a search stand relative to each other. */
  function StageOf(f: Finder): Stage {
    var lead := f.engines[0];
    if lead.phase == E2 && Rest(f, E2, 0) && !f.found then Loading
    else if lead.phase == E4 && lead.count == 0 && Rest(f, E3, 0) && !f.found then Skewed
    else if lead.phase == E4 && 0 < lead.count <= LAST && Rest(f, E4, lead.count - 1) && !f.found then Running
    else if AllIn(f, E5) then Over
    else if Late(f) && Done(f) && (f.found || (lead.phase == E5 && Rest(f, E4, LAST))) then Ending
    else Broken
  }

  /** An upper bound on the cycles until `Done`. */
  function Remaining(f: Finder): nat {
    match StageOf(f)
    case Loading => LAST + 2
    case Skewed => LAST + 1
    case Running => LAST + 1 - f.engines[0].count
    case _ => 0
  }

  function NextCount(k: nat, e: Engine, found: bool, c: Control): nat {
    if e.phase == E1 then 0
    else if e.phase == E4 && NextPhase(k, e, found, c) == E4 then e.count + 1
    else e.count
  }

  /** Phases, counters and `found` of a running search move as `Next` moves them. */
  predicate Moves(f: Finder, c: Control, f': Finder) {
    && !c.start && !c.reset
    && (f'.found <==> f.found || exists k :: 0 <= k < ENGINES && Matches(f.engines[k], c))
    && forall k :: 0 <= k < ENGINES ==>
         && f'.engines[k].phase == NextPhase(k, f.engines[k], f.found, c)
         && f'.engines[k].count == NextCount(k, f.engines[k], f.found, c)
  }

  /**
   A running search never leaves lock-step. While no engine has ended, every clock brings
   the end closer; one clock after the first engine ended, all four have.
   */
  lemma LockStep(rom: Rom, f: Finder, c: Control)
    requires !c.start && !c.reset && SearchInv(rom, f, c.q)
    requires StageOf(f) != Broken
    ensures StageOf(Next(rom, f, c)) != Broken
    ensures Done(f) ==> StageOf(Next(rom, f, c)) == Over
    ensures !Done(f) ==> Remaining(Next(rom, f, c)) < Remaining(f)
  {
    VerdictSound(rom, f, c, ENGINES);
    assert EngineInv(rom, 0, f.engines[0], f.found, c.q);
    LockStepShape(f, c, Next(rom, f, c));
  }

  lemma LockStepShape(f: Finder, c: Control, f': Finder)
    requires Moves(f, c, f') && StageOf(f) != Broken
    requires f.engines[0].phase == E2 ==> f.engines[0].count == 0
    ensures StageOf(f') != Broken
    ensures Done(f) ==> StageOf(f') == Over
    ensures !Done(f) ==> Remaining(f') < Remaining(f)
  {
    match StageOf(f) {
      case Loading =>
        assert Rest(f', E3, 0);
      case Skewed =>
        assert Rest(f', E4, 0) && f'.engines[1].phase == E4;
      case Running =>
        RunningStep(f, c, f');
      case Ending =>
        assert AllIn(f', E5);
      case Over =>
        assert AllIn(f', E5);
    }
  }

  lemma RunningStep(f: Finder, c: Control, f': Finder)
    requires Moves(f, c, f') && StageOf(f) == Running
    ensures StageOf(f') in {Running, Ending, Over}
    ensures Remaining(f') < Remaining(f)
  {
    assert Late(f');
    if k :| 0 <= k < ENGINES && Matches(f.engines[k], c) {
      assert f'.engines[k].phase == E5;
    } else {
      assert Rest(f', E4, f.engines[0].count);
    }
  }
}
