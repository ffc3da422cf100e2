// Facts about sequences that several components share.
module Sequences {

  lemma NothingInFront<T>(s: seq<T>)
    ensures [] + s == s
  {
  }

  lemma NothingBehind<T>(s: seq<T>)
    ensures s + [] == s
  {
  }

  lemma InOrder<T>(a: seq<T>, b: seq<T>, c: seq<T>)
    ensures a + (b + c) == a + b + c
  {
  }

  lemma SameLength<T>(a: seq<T>, b: seq<T>, c: seq<T>, d: seq<T>)
    requires a + b == c + d
    ensures |a| + |b| == |c| + |d|
  {
    assert |a + b| == |c + d|;
  }

  /** Two conserving steps in a row conserve: `a` takes in `p` and gives out `q`, and so on. */
  lemma Regroup<T>(a: seq<T>, p: seq<T>, p': seq<T>, q: seq<T>, b: seq<T>, q': seq<T>, c: seq<T>)
    requires a + p == q + b && b + p' == q' + c
    ensures a + (p + p') == (q + q') + c
  {
    assert a + (p + p') == (q + b) + p' == q + (b + p');
  }

  /** Two conserving stages, the second feeding `x` to the first, conserve together. */
  lemma Chain<T>(a: seq<T>, x: seq<T>, e: seq<T>, a': seq<T>, q: seq<T>, p: seq<T>, q': seq<T>)
    requires a + x == e + a' && q + p == x + q'
    ensures (a + q) + p == e + (a' + q')
  {
    assert (a + q) + p == a + (x + q') == (e + a') + q';
  }
}
