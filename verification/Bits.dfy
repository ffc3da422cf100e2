// Words as bit sequences, bit 0 first, and their unsigned values.
module Bits {

  type Word = seq<bool>

  type Octet = w: Word | |w| == 8 witness Constant(false, 8)

  /** The number of a bit in an octet. */
  type Index = i: nat | i < 8

  type Byte = n: nat | n < 256

  function Pow2(n: nat): (p: nat)
    ensures p > 0
  {
    if n == 0 then 1 else 2 * Pow2(n - 1)
  }

  lemma Pow2Of8()
    ensures Pow2(8) == 256
  {
    assert Pow2(4) == 16;
  }

  /** The unsigned value of a word. */
  function Value(w: Word): (v: nat)
    ensures v < Pow2(|w|)
  {
    if w == [] then 0 else (if w[0] then 1 else 0) + 2 * Value(w[1..])
  }

  /** The low `width` bits of a number. */
  function ToBits(n: nat, width: nat): (w: Word)
    ensures |w| == width
    decreases width, n
  {
    if width == 0 then [] else [n % 2 == 1] + ToBits(n / 2, width - 1)
  }

  function Constant(bit: bool, width: nat): (w: Word)
    ensures |w| == width
  {
    seq(width, i => bit)
  }

  lemma {:induction false} ValueInjective(a: Word, b: Word)
    requires |a| == |b| && Value(a) == Value(b)
    ensures a == b
  {
    if a != [] {
      ValueInjective(a[1..], b[1..]);
      assert a == [a[0]] + a[1..] && b == [b[0]] + b[1..];
    }
  }

  lemma {:induction false} ValueOfBits(n: nat, width: nat)
    requires n < Pow2(width)
    ensures Value(ToBits(n, width)) == n
    decreases width
  {
    if width > 0 {
      ValueOfBits(n / 2, width - 1);
    }
  }

  lemma {:induction false} BitsOfValue(w: Word)
    ensures ToBits(Value(w), |w|) == w
  {
    if w != [] {
      BitsOfValue(w[1..]);
      assert w == [w[0]] + w[1..];
    }
  }

  lemma {:induction false} ValueConcat(a: Word, b: Word)
    ensures Value(a + b) == Value(a) + Pow2(|a|) * Value(b)
  {
    if a == [] {
      assert a + b == b;
    } else {
      ValueConcat(a[1..], b);
      assert (a + b)[1..] == a[1..] + b;
      MulAssoc(2, Pow2(|a| - 1), Value(b));
    }
  }

  lemma MulAssoc(x: nat, y: nat, z: nat)
    ensures x * (y * z) == (x * y) * z
  {
  }

  lemma DivMod(r: nat, m: nat, q: nat)
    requires r < m
    ensures (r + m * q) % m == r
    ensures (r + m * q) / m == q
  {
    var n := r + m * q;
    if n / m > q {
      MulGrows(m, q + 1, n / m);
    } else if n / m < q {
      MulGrows(m, n / m + 1, q);
    }
  }

  lemma MulGrows(m: nat, a: nat, b: nat)
    requires a <= b
    ensures m * a <= m * b
  {
  }

  lemma {:induction false} ValueOfZeros(n: nat)
    ensures Value(Constant(false, n)) == 0
  {
    if n > 0 {
      ValueOfZeros(n - 1);
      assert Constant(false, n)[1..] == Constant(false, n - 1);
    }
  }

  lemma {:induction false} ValueOfOnes(n: nat)
    ensures Value(Constant(true, n)) == Pow2(n) - 1
  {
    if n > 0 {
      ValueOfOnes(n - 1);
      assert Constant(true, n)[1..] == Constant(true, n - 1);
    }
  }

  /** A number of 32 bits is made up of its four bytes. */
  lemma FourBytes(n: nat, n1: nat, n2: nat, n3: nat)
    requires n < 0x1_0000_0000 && n1 == n / 0x100 && n2 == n / 0x10000 && n3 == n / 0x1000000
    ensures n == n % 0x100 + 0x100 * (n1 % 0x100 + 0x100 * (n2 % 0x100 + 0x100 * (n3 % 0x100)))
  {
    SecondByte(n, n1, n2);
    ThirdByte(n, n2, n3);
  }

  lemma SecondByte(n: nat, n1: nat, n2: nat)
    requires n1 == n / 0x100 && n2 == n / 0x10000
    ensures n2 == n1 / 0x100
  {
    var q, r := n1 / 0x100, 0x100 * (n1 % 0x100) + n % 0x100;
    assert n == 0x10000 * q + r && r < 0x10000;
  }

  lemma ThirdByte(n: nat, n2: nat, n3: nat)
    requires n2 == n / 0x10000 && n3 == n / 0x1000000
    ensures n3 == n2 / 0x100
  {
    var q, r := n2 / 0x100, 0x10000 * (n2 % 0x100) + n % 0x10000;
    assert n == 0x1000000 * q + r && r < 0x1000000;
  }
}
