// The linear feedback shift register that the beam decoder runs: thirty-two copies of it
// identify a polynomial, four more search for an offset. A word is a sequence of bits,
// bit 0 first; the hardware width is 17, the laws hold for every width.
module Lfsr {
  import opened Bits

  const WIDTH := 17

  /** The words of the hardware. */
  type Word17 = w: Word | |w| == WIDTH witness Zero(WIDTH)

  /** The parity of the bits of `s` that `mask` selects. */
  function Dot(mask: Word, s: Word): bool
    requires |mask| == |s|
  {
    if s == [] then false
    else
      var n := |s| - 1;
      (mask[n] && s[n]) != Dot(mask[..n], s[..n])
  }

  /** One clock: the word moves up one place and the parity enters at bit 0. */
  function Step(mask: Word, s: Word): (t: Word)
    requires |mask| == |s| > 0
    ensures |t| == |s|
  {
    [Dot(mask, s)] + s[..|s| - 1]
  }

  /** The places of the bits of `s` that are tapped and set. */
  function Tapped(mask: Word, s: Word): set<nat>
    requires |mask| == |s|
  {
    set i: nat | i < |s| && mask[i] && s[i]
  }

  lemma TappedAtLast(mask: Word, s: Word, n: nat)
    requires |mask| == |s| == n + 1
    ensures |Tapped(mask, s)| == |Tapped(mask[..n], s[..n])| + if mask[n] && s[n] then 1 else 0
  {
    var rest := Tapped(mask[..n], s[..n]);
    var last: set<nat> := if mask[n] && s[n] then {n} else {};
    assert Tapped(mask, s) == rest + last && n !in rest;
  }

  lemma {:induction false} DotIsParity(mask: Word, s: Word)
    requires |mask| == |s|
    ensures Dot(mask, s) <==> |Tapped(mask, s)| % 2 == 1
  {
    if s != [] {
      var n := |s| - 1;
      DotIsParity(mask[..n], s[..n]);
      TappedAtLast(mask, s, n);
    }
  }

  /** One clock, bit by bit: the word moves up one place, and the parity of the tapped bits enters below. */
  lemma StepBitByBit(mask: Word, s: Word)
    requires |mask| == |s| > 0
    ensures Step(mask, s)[0] <==> |Tapped(mask, s)| % 2 == 1
    ensures forall i :: 0 < i < |s| ==> Step(mask, s)[i] == s[i - 1]
  {
    DotIsParity(mask, s);
  }

  function Steps(mask: Word, s: Word, n: nat): (t: Word)
    requires |mask| == |s| > 0
    ensures |t| == |s|
  {
    if n == 0 then s else Step(mask, Steps(mask, s, n - 1))
  }

  predicate TopTap(mask: Word) {
    mask != [] && mask[|mask| - 1]
  }

  /** The predecessor of a word: the bit that was shifted out is read back from the parity. */
  function Back(mask: Word, t: Word): (s: Word)
    requires |mask| == |t| > 0
    ensures |s| == |t|
  {
    t[1..] + [t[0] != Dot(mask[..|mask| - 1], t[1..])]
  }

  lemma StepIsBijection(mask: Word, s: Word)
    requires |mask| == |s| && TopTap(mask)
    ensures Back(mask, Step(mask, s)) == s
    ensures Step(mask, Back(mask, s)) == s
  {
    var n := |s| - 1;
    assert Step(mask, s)[1..] == s[..n];
    assert s[..n] + [s[n]] == s;
    var b := Back(mask, s);
    assert b[..n] == s[1..];
    assert [s[0]] + s[1..] == s;
  }

  // Linearity over bitwise exclusive or

  function Xor(a: Word, b: Word): (c: Word)
    requires |a| == |b|
    ensures |c| == |a|
  {
    seq(|a|, i requires 0 <= i < |a| => a[i] != b[i])
  }

  lemma {:induction false} DotLinear(mask: Word, a: Word, b: Word)
    requires |mask| == |a| == |b|
    ensures Dot(mask, Xor(a, b)) == (Dot(mask, a) != Dot(mask, b))
  {
    if a != [] {
      var n := |a| - 1;
      DotLinear(mask[..n], a[..n], b[..n]);
      assert Xor(a, b)[..n] == Xor(a[..n], b[..n]);
    }
  }

  lemma {:induction false} StepsLinear(mask: Word, a: Word, b: Word, n: nat)
    requires |mask| == |a| == |b| > 0
    ensures Steps(mask, Xor(a, b), n) == Xor(Steps(mask, a, n), Steps(mask, b, n))
  {
    if n > 0 {
      StepsLinear(mask, a, b, n - 1);
      var x, y := Steps(mask, a, n - 1), Steps(mask, b, n - 1);
      StepLinear(mask, x, y);
    }
  }

  lemma StepLinear(mask: Word, x: Word, y: Word)
    requires |mask| == |x| == |y| > 0
    ensures Step(mask, Xor(x, y)) == Xor(Step(mask, x), Step(mask, y))
  {
    DotLinear(mask, x, y);
    forall i | 0 <= i < |x| ensures Step(mask, Xor(x, y))[i] == Xor(Step(mask, x), Step(mask, y))[i] {
      assert i > 0 ==> Step(mask, Xor(x, y))[i] == Xor(x, y)[i - 1];
    }
  }

  // Orbits

  lemma {:induction false} StepsAdd(mask: Word, s: Word, m: nat, n: nat)
    requires |mask| == |s| > 0
    ensures Steps(mask, s, m + n) == Steps(mask, Steps(mask, s, m), n)
  {
    if n > 0 {
      StepsAdd(mask, s, m, n - 1);
    }
  }

  lemma StepInjective(mask: Word, a: Word, b: Word)
    requires |mask| == |a| == |b| && TopTap(mask)
    requires Step(mask, a) == Step(mask, b)
    ensures a == b
  {
    StepIsBijection(mask, a);
    StepIsBijection(mask, b);
  }

  lemma {:induction false} StepsInjective(mask: Word, a: Word, b: Word, n: nat)
    requires |mask| == |a| == |b| && TopTap(mask)
    requires Steps(mask, a, n) == Steps(mask, b, n)
    ensures a == b
  {
    if n > 0 {
      StepInjective(mask, Steps(mask, a, n - 1), Steps(mask, b, n - 1));
      StepsInjective(mask, a, b, n - 1);
    }
  }

  /** Two equal words on one orbit make the start word recur: there is no tail before the cycle. */
  lemma RepeatReturnsToStart(mask: Word, s: Word, i: nat, j: nat)
    requires |mask| == |s| && TopTap(mask)
    requires i <= j && Steps(mask, s, i) == Steps(mask, s, j)
    ensures Steps(mask, s, j - i) == s
  {
    StepsAdd(mask, s, j - i, i);
    StepsInjective(mask, Steps(mask, s, j - i), s, i);
  }

  /** Numbers below `bound`, more of them than `bound`: two are equal. */
  lemma {:induction false} Pigeonhole(xs: seq<nat>, bound: nat) returns (i: nat, j: nat)
    requires |xs| > bound
    requires forall k :: 0 <= k < |xs| ==> xs[k] < bound
    ensures i < j < |xs| && xs[i] == xs[j]
    decreases bound
  {
    var n := |xs| - 1;
    if k :| 0 <= k < n && xs[k] == xs[n] {
      return k, n;
    }
    // Nobody else sits in hole xs[n]: move whoever sits in the last hole there.
    var hole := xs[n];
    var ys := seq(n, k requires 0 <= k < n => if xs[k] == bound - 1 then hole else xs[k]);
    i, j := Pigeonhole(ys, bound - 1);
  }

  /** The values of the first `n` words of an orbit. */
  function Values(mask: Word, s: Word, n: nat): (xs: seq<nat>)
    requires |mask| == |s| > 0
    ensures |xs| == n && forall k :: 0 <= k < n ==> xs[k] == Value(Steps(mask, s, k)) < Pow2(|s|)
  {
    if n == 0 then [] else Values(mask, s, n - 1) + [Value(Steps(mask, s, n - 1))]
  }

  lemma OrbitReturns(mask: Word, s: Word) returns (p: nat)
    requires |mask| == |s| && TopTap(mask)
    ensures 0 < p <= Pow2(|s|)
    ensures Steps(mask, s, p) == s
  {
    var i, j := Pigeonhole(Values(mask, s, Pow2(|s|) + 1), Pow2(|s|));
    ValueInjective(Steps(mask, s, i), Steps(mask, s, j));
    RepeatReturnsToStart(mask, s, i, j);
    p := j - i;
  }

  /** Every orbit is purely periodic, with a period of at most 2^width. */
  lemma OrbitIsPeriodic(mask: Word, s: Word) returns (p: nat)
    requires |mask| == |s| && TopTap(mask)
    ensures 0 < p <= Pow2(|s|)
    ensures forall n: nat :: Steps(mask, s, n + p) == Steps(mask, s, n)
  {
    p := OrbitReturns(mask, s);
    forall n: nat ensures Steps(mask, s, n + p) == Steps(mask, s, n) {
      StepsAdd(mask, s, p, n);
    }
  }

  /** Below the period an offset is determined by the word it reaches. */
  lemma OffsetIsUnique(mask: Word, s: Word, i: nat, j: nat, period: nat)
    requires |mask| == |s| && TopTap(mask)
    requires i < period && j < period
    requires forall k :: 0 < k < period ==> Steps(mask, s, k) != s
    requires Steps(mask, s, i) == Steps(mask, s, j)
    ensures i == j
  {
    if i < j {
      RepeatReturnsToStart(mask, s, i, j);
    } else if j < i {
      RepeatReturnsToStart(mask, s, j, i);
    }
  }

  // The word 1 and the word 0

  function Zero(width: nat): (w: Word)
    ensures |w| == width
  {
    Constant(false, width)
  }

  function One(width: nat): (w: Word)
    requires width > 0
    ensures |w| == width
  {
    [true] + Zero(width - 1)
  }

  lemma {:induction false} DotZero(mask: Word)
    ensures !Dot(mask, Zero(|mask|))
  {
    if mask != [] {
      var n := |mask| - 1;
      DotZero(mask[..n]);
      assert Zero(|mask|)[..n] == Zero(n);
    }
  }

  lemma {:induction false} ZeroStays(mask: Word, n: nat)
    requires mask != []
    ensures Steps(mask, Zero(|mask|), n) == Zero(|mask|)
  {
    if n > 0 {
      ZeroStays(mask, n - 1);
      DotZero(mask);
      assert Step(mask, Zero(|mask|)) == Zero(|mask|);
    }
  }

  /** A search that starts at 1 never meets the all-zero word. */
  lemma OneNeverReachesZero(mask: Word, n: nat)
    requires TopTap(mask)
    ensures Steps(mask, One(|mask|), n) != Zero(|mask|)
  {
    ZeroStays(mask, n);
    assert One(|mask|)[0] != Zero(|mask|)[0];
    if Steps(mask, One(|mask|), n) == Zero(|mask|) {
      StepsInjective(mask, One(|mask|), Zero(|mask|), n);
    }
  }
}
