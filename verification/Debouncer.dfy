// The group debouncer: a word reaches the output when all of its bits have held long enough.
module Debouncers {

  datatype Debouncer<T> = Debouncer(count: nat, a: T, b: T, out: T, strobe: bool)

  function Step<T(==)>(limit: nat, s: Debouncer<T>, data: T): Debouncer<T> {
    var full := s.count == limit;
    var count := if s.a != s.b || full then 0 else s.count + 1;
    Debouncer(count, data, s.a, if full then s.b else s.out, full && s.out != s.b)
  }

  class GroupDebouncer<T(==)> {
    const limit: nat
    var count: nat
    var a: T
    var b: T
    var out: T
    var strobe: bool

    function State(): Debouncer<T>
      reads this
    {
      Debouncer(count, a, b, out, strobe)
    }

    constructor (limit: nat, zero: T)
      ensures this.limit == limit && State() == Debouncer(0, zero, zero, zero, false)
    {
      this.limit, count, a, b, out, strobe := limit, 0, zero, zero, zero, false;
    }

    method Tick(data: T)
      modifies this
      ensures State() == Step(limit, old(State()), data)
    {
      var full := count == limit;
      strobe := full && out != b;
      count := if a != b || full then 0 else count + 1;
      if full { out := b; }
      a, b := data, a;
    }
  }

  // Runs from power-up

  datatype Bench<T> = Bench(limit: nat, zero: T, data: nat -> T, st: nat -> Debouncer<T>)

  predicate StepAt<T(==)>(r: Bench<T>, t: nat) {
    r.st(t + 1) == Step(r.limit, r.st(t), r.data(t))
  }

  ghost predicate IsRun<T>(r: Bench<T>) {
    r.st(0) == Debouncer(0, r.zero, r.zero, r.zero, false) && forall t: nat :: StepAt(r, t)
  }

  /** The samples; the zeros of power-up count as earlier ones. */
  function Sample<T>(r: Bench<T>, i: int): T {
    if i < 0 then r.zero else r.data(i)
  }

  /** The samples from `from` to `to` are all `v`. */
  ghost predicate Holds<T(!new)>(r: Bench<T>, from: int, to: int, v: T) {
    forall i :: from <= i <= to ==> Sample(r, i) == v
  }

  lemma Pipeline<T>(r: Bench<T>, t: nat)
    requires IsRun(r)
    ensures r.st(t).a == Sample(r, t - 1) && r.st(t).b == Sample(r, t - 2)
  {
    if t > 0 {
      assert StepAt(r, t - 1);
      if t > 1 {
        assert StepAt(r, t - 2);
      }
    }
  }

  /** The counter stays in range, and counts the samples that have held. */
  lemma {:induction false} CountsStable<T(!new)>(r: Bench<T>, t: nat)
    requires IsRun(r)
    ensures r.st(t).count <= r.limit
    ensures Holds(r, t - 2 - r.st(t).count, t - 2, r.st(t).b)
  {
    Pipeline(r, t);
    if t > 0 {
      CountsStable(r, t - 1);
      Pipeline(r, t - 1);
      assert StepAt(r, t - 1);
    }
  }

  /** Safety: what is put out has been held for one sample more than the limit. */
  lemma {:induction false} OnlyStable<T(!new)>(r: Bench<T>, t: nat) returns (last: int)
    requires IsRun(r)
    ensures last <= t - 1 && Holds(r, last - r.limit, last, r.st(t).out)
  {
    if t == 0 {
      last := -1;
    } else {
      assert StepAt(r, t - 1);
      if r.st(t - 1).count == r.limit {
        CountsStable(r, t - 1);
        last := t - 3;
      } else {
        last := OnlyStable(r, t - 1);
      }
    }
  }

  /** The strobe is high in exactly the clocks in which the output has changed. */
  lemma StrobeMarksChange<T>(r: Bench<T>, t: nat)
    requires IsRun(r)
    ensures !r.st(0).strobe
    ensures r.st(t + 1).strobe <==> r.st(t + 1).out != r.st(t).out
  {
    assert StepAt(r, t);
  }

  /** After a change, as long as the new word holds: the count, and an output that does not change. */
  lemma {:induction false} CountsUp<T(!new)>(r: Bench<T>, at: int, v: T, n: nat)
    requires IsRun(r) && at >= -1 && n <= r.limit
    requires Sample(r, at - 1) != v && Holds(r, at, at + n, v)
    ensures r.st(at + 2 + n).count == n && r.st(at + 2 + n).b == v && r.st(at + 2 + n).out == r.st(at + 2).out
  {
    Pipeline(r, at + 2 + n);
    Pipeline(r, at + 1 + n);
    assert StepAt(r, at + 1 + n);
    if n > 0 {
      CountsUp(r, at, v, n - 1);
    }
  }

  /**
   Liveness: a new word that holds for one sample more than the limit is put out exactly
   `limit + 3` clocks after it came; until then, from the clock in which it has come through the
   pipeline, the output does not change.
   */
  lemma StableAppears<T(!new)>(r: Bench<T>, at: nat, v: T)
    requires IsRun(r) && Sample(r, at - 1) != v && Holds(r, at, at + r.limit, v)
    ensures r.st(at + r.limit + 3).out == v
    ensures forall t :: at + 2 <= t <= at + r.limit + 2 ==> r.st(t).out == r.st(at + 2).out
  {
    CountsUp(r, at, v, r.limit);
    assert StepAt(r, at + 2 + r.limit);
    forall t | at + 2 <= t <= at + r.limit + 2 ensures r.st(t).out == r.st(at + 2).out {
      CountsUp(r, at, v, t - at - 2);
    }
  }

  /** A word that then stays remains at the output. */
  lemma {:induction false} StableRemains<T(!new)>(r: Bench<T>, at: nat, v: T, n: nat)
    requires IsRun(r) && Sample(r, at - 1) != v && Holds(r, at, at + r.limit + n, v)
    ensures r.st(at + r.limit + 3 + n).out == v
  {
    if n == 0 {
      StableAppears(r, at, v);
    } else {
      StableRemains(r, at, v, n - 1);
      Pipeline(r, at + r.limit + 2 + n);
      assert StepAt(r, at + r.limit + 2 + n);
    }
  }

  /** A word that holds for fewer samples is not put out. */
  lemma ShortIsIgnored<T(!new)>(r: Bench<T>, t: nat, v: T)
    requires IsRun(r) && r.zero != v
    requires forall i: nat :: Sample(r, i) == v ==> exists j: int :: i < j <= i + r.limit && Sample(r, j) != v
    ensures r.st(t).out != v
  {
    var last := OnlyStable(r, t);
    assert Sample(r, last - r.limit) == r.st(t).out;
  }
}
