// Thirty-two shift registers run side by side from one start word; the search looks for the
// target word in the last four of the steps it is given.
module PolyFinding {
  import opened Lfsr

  const POLYS := 32
  const TICKS := 1024  // the tick counter has ten bits

  type Masks = m: seq<Word17> | |m| == POLYS witness seq(POLYS, i => Zero(WIDTH))
  type Flags = b: seq<bool> | |b| == POLYS witness seq(POLYS, i => false)

  /** The registers; `previous` is the value of `searching` one clock ago. */
  datatype Search = Search(searching: bool, previous: bool, counter: nat, found: Flags, states: Masks)

  datatype Probe = Probe(start: bool, from: Word17, target: Word17, maxTick: nat)

  predicate Hit(s: Search, p: Probe, i: nat)
    requires i < POLYS
  {
    s.searching && s.counter < 4 && s.states[i] == p.target
  }

  predicate HitBelow(s: Search, p: Probe, n: nat)
    requires n <= POLYS
  {
    exists i :: 0 <= i < n && Hit(s, p, i)
  }

  predicate AnyHit(s: Search, p: Probe) {
    HitBelow(s, p, POLYS)
  }

  predicate TimedOut(s: Search) {
    s.searching && s.counter == 0
  }

  predicate NextFound(s: Search, p: Probe, i: nat)
    requires i < POLYS
  {
    Hit(s, p, i) || (s.found[i] && !p.start && !TimedOut(s))
  }

  function NextState(masks: Masks, s: Search, p: Probe, i: nat): Word17
    requires i < POLYS
  {
    if s.searching then Step(masks[i], s.states[i]) else if p.start then p.from else s.states[i]
  }

  function NextCounter(s: Search, p: Probe): nat {
    if !s.searching then p.maxTick else if s.counter == 0 then TICKS - 1 else s.counter - 1
  }

  function Next(masks: Masks, s: Search, p: Probe): Search {
    Search(
      !AnyHit(s, p) && (p.start || (s.searching && s.counter != 0)),
      s.searching,
      NextCounter(s, p),
      seq(POLYS, i requires 0 <= i < POLYS => NextFound(s, p, i)),
      seq(POLYS, i requires 0 <= i < POLYS => NextState(masks, s, p, i)))
  }

  predicate Done(s: Search) {
    !s.searching && s.previous
  }

  predicate Clear(found: Flags) {
    forall i :: 0 <= i < POLYS ==> !found[i]
  }

  // The clocked module

  class PolyFinder {
    const masks: Masks
    var searching: bool
    var previous: bool
    var counter: nat
    const found: array<bool>
    const states: array<Word17>

    ghost predicate Valid()
      reads this
    {
      found.Length == POLYS && states.Length == POLYS
    }

    ghost function State(): Search
      reads this, found, states
      requires Valid()
    {
      Search(searching, previous, counter, found[..], states[..])
    }

    constructor (masks: Masks)
      ensures Valid() && fresh(found) && fresh(states) && this.masks == masks && !searching
    {
      this.masks := masks;
      searching, previous, counter := false, false, 0;
      found := new bool[POLYS](i => false);
      states := new Word17[POLYS](i => Zero(WIDTH));
    }

    /** The wires `found` and `polyFound`, read together: the index, or 63 for none. */
    method Result() returns (npoly: nat)
      requires Valid()
      ensures npoly == if Clear(State().found) then 63 else Encode(State().found)
    {
      var none := forall i :: 0 <= i < POLYS ==> !found[i];
      npoly := if none then 63 else Encode(found[..]);
    }

    method Tick(p: Probe)
      requires Valid()
      modifies this, found, states
      ensures Valid() && State() == Next(masks, old(State()), p)
    {
      ghost var before := State();
      var wasSearching, wasCounter := searching, counter;
      previous := wasSearching;
      var clear := p.start;
      if wasSearching {
        counter := if counter == 0 then TICKS - 1 else counter - 1;
        if wasCounter == 0 {
          searching, clear := false, true;
        }
      } else {
        counter := p.maxTick;
      }
      if p.start {
        searching := true;
      }
      ghost var unlessHit := searching;
      for i := 0 to POLYS
        invariant searching == (unlessHit && !HitBelow(before, p, i))
        invariant previous == before.searching && counter == NextCounter(before, p)
        invariant forall k :: 0 <= k < i ==>
          found[k] == NextFound(before, p, k) && states[k] == NextState(masks, before, p, k)
        invariant forall k :: i <= k < POLYS ==> found[k] == before.found[k] && states[k] == before.states[k]
      {
        TickRegister(i, wasSearching, wasCounter, clear, p);
        assert HitBelow(before, p, i + 1) <==> HitBelow(before, p, i) || Hit(before, p, i);
      }
      assert found[..] == Next(masks, before, p).found;
      assert states[..] == Next(masks, before, p).states;
    }

    /** The block of register `i`; the flags are given as they were before the clock edge. */
    method TickRegister(i: nat, wasSearching: bool, wasCounter: nat, clear: bool, p: Probe)
      requires Valid() && i < POLYS
      modifies this`searching, found, states
      ensures
        var hit := wasSearching && wasCounter < 4 && old(states[i]) == p.target;
        && searching == (old(searching) && !hit)
        && found[i] == (hit || (old(found[i]) && !clear))
        && states[i] ==
             if wasSearching then Step(masks[i], old(states[i])) else if p.start then p.from else old(states[i])
      ensures forall k :: 0 <= k < POLYS && k != i ==> found[k] == old(found[k]) && states[k] == old(states[k])
    {
      if clear {
        found[i] := false;
      }
      var state := states[i];
      if p.start {
        states[i] := p.from;
      }
      if wasSearching {
        states[i] := Step(masks[i], state);
        if wasCounter < 4 && state == p.target {
          found[i] := true;
          searching := false;
        }
      }
    }
  }

  // What a search means

  predicate MatchesAt(masks: Masks, from: Word17, target: Word17, step: nat, i: nat)
    requires i < POLYS
  {
    Steps(masks[i], from, step) == target
  }

  predicate SomeAt(masks: Masks, from: Word17, target: Word17, step: nat) {
    exists i :: 0 <= i < POLYS && MatchesAt(masks, from, target, step, i)
  }

  predicate NoneIn(masks: Masks, from: Word17, target: Word17, lo: nat, hi: nat) {
    forall step :: lo <= step < hi ==> !SomeAt(masks, from, target, step)
  }

  /** The first step that is compared, when the last is `last`. */
  function FirstStep(last: nat): nat {
    if last < 3 then 0 else last - 3
  }

  predicate FirstMatch(masks: Masks, from: Word17, target: Word17, last: nat, step: nat) {
    && FirstStep(last) <= step <= last
    && NoneIn(masks, from, target, FirstStep(last), step)
    && SomeAt(masks, from, target, step)
  }

  predicate MatchFlags(masks: Masks, from: Word17, target: Word17, step: nat, found: Flags) {
    forall i :: 0 <= i < POLYS ==> (found[i] <==> MatchesAt(masks, from, target, step, i))
  }

  /** The flags tell which registers match at the first matching step of the window, if there is one. */
  ghost predicate Decided(masks: Masks, from: Word17, target: Word17, last: nat, found: Flags) {
    || (Clear(found) && NoneIn(masks, from, target, FirstStep(last), last + 1))
    || exists step :: FirstMatch(masks, from, target, last, step) && MatchFlags(masks, from, target, step, found)
  }

  predicate Running(masks: Masks, s: Search, from: Word17, target: Word17, last: nat) {
    && s.searching && s.counter <= last && Clear(s.found)
    && (forall i :: 0 <= i < POLYS ==> s.states[i] == Steps(masks[i], from, last - s.counter))
    && NoneIn(masks, from, target, FirstStep(last), last - s.counter)
  }

  lemma StartStep(masks: Masks, s: Search, p: Probe)
    requires !s.searching && p.start
    ensures Running(masks, Next(masks, s, p), p.from, p.target, p.maxTick)
    ensures Next(masks, s, p).counter == p.maxTick
  {
  }

  /** Inside the window a hit is a match at the present step; before it there is none. */
  lemma HitIsMatch(masks: Masks, s: Search, p: Probe, from: Word17, last: nat)
    requires Running(masks, s, from, p.target, last)
    ensures
      var step := last - s.counter;
      && (step >= FirstStep(last) <==> s.counter < 4)
      && (AnyHit(s, p) <==> s.counter < 4 && SomeAt(masks, from, p.target, step))
      && (s.counter < 4 ==>
           forall i :: 0 <= i < POLYS ==> (Hit(s, p, i) <==> MatchesAt(masks, from, p.target, step, i)))
  {
    var step := last - s.counter;
    if i :| 0 <= i < POLYS && MatchesAt(masks, from, p.target, step, i) {
      assert s.counter < 4 ==> Hit(s, p, i);
    }
    if i :| 0 <= i < POLYS && Hit(s, p, i) {
      assert MatchesAt(masks, from, p.target, step, i);
    }
  }

  /** A running search goes on, or ends with the flags of its window decided. */
  lemma RunStep(masks: Masks, s: Search, p: Probe, from: Word17, last: nat)
    requires Running(masks, s, from, p.target, last) && !p.start
    ensures
      var s' := Next(masks, s, p);
      if s'.searching then Running(masks, s', from, p.target, last) && s'.counter < s.counter
      else Done(s') && Decided(masks, from, p.target, last, s'.found)
  {
    HitIsMatch(masks, s, p, from, last);
    var s' := Next(masks, s, p);
    var step := last - s.counter;
    if AnyHit(s, p) {
      assert FirstMatch(masks, from, p.target, last, step);
      assert MatchFlags(masks, from, p.target, step, s'.found);
    } else {
      assert NoneIn(masks, from, p.target, FirstStep(last), step + 1);
      assert Clear(s'.found);
    }
  }

  // The encoder of the flags

  predicate BitOf(i: nat, weight: nat)
    requires weight > 0
  {
    i / weight % 2 == 1
  }

  predicate AnyWith(found: Flags, weight: nat)
    requires weight > 0
  {
    exists i :: 0 <= i < POLYS && found[i] && BitOf(i, weight)
  }

  /** Each output bit is the disjunction of the flags whose index has that bit. */
  function Encode(found: Flags): (n: nat)
    ensures n < POLYS
  {
    (if AnyWith(found, 1) then 1 else 0) + (if AnyWith(found, 2) then 2 else 0) +
    (if AnyWith(found, 4) then 4 else 0) + (if AnyWith(found, 8) then 8 else 0) +
    (if AnyWith(found, 16) then 16 else 0)
  }

  predicate IsWeight(weight: nat) {
    weight == 1 || weight == 2 || weight == 4 || weight == 8 || weight == 16
  }

  lemma BitsOfSum(a: bool, b: bool, c: bool, d: bool, e: bool, n: nat)
    requires n == (if a then 1 else 0) + (if b then 2 else 0) + (if c then 4 else 0) + (if d then 8 else 0)
      + (if e then 16 else 0)
    ensures BitOf(n, 1) == a && BitOf(n, 2) == b && BitOf(n, 4) == c && BitOf(n, 8) == d && BitOf(n, 16) == e
  {
  }

  lemma EncodeIsOr(found: Flags, weight: nat)
    requires IsWeight(weight)
    ensures BitOf(Encode(found), weight) <==> AnyWith(found, weight)
  {
    BitsOfSum(AnyWith(found, 1), AnyWith(found, 2), AnyWith(found, 4), AnyWith(found, 8), AnyWith(found, 16),
      Encode(found));
  }

  lemma EncodeOfOne(found: Flags, i: nat)
    requires i < POLYS && found[i]
    requires forall k :: 0 <= k < POLYS && k != i ==> !found[k]
    ensures Encode(found) == i
  {
    forall weight | weight in {1, 2, 4, 8, 16}
      ensures AnyWith(found, weight) <==> BitOf(i, weight)
    {
    }
  }
}
