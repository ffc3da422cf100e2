// Counting clocks in equal spans.
module Clocks {

  /** The clocks of `j` spans of `n`. */
  function Span(n: nat, j: nat): nat {
    if j == 0 then 0 else Span(n, j - 1) + n
  }

  lemma {:induction false} SpanIsProduct(n: nat, j: nat)
    ensures Span(n, j) == j * n
  {
    if j > 0 {
      SpanIsProduct(n, j - 1);
    }
  }

  /** What holds at power-up and is kept by every clock holds at all times. */
  lemma {:induction false} AtEveryTime(p: nat -> bool, t: nat)
    requires p(0) && forall i: nat :: p(i) ==> p(i + 1)
    ensures p(t)
  {
    if t > 0 {
      AtEveryTime(p, t - 1);
    }
  }
}
