// The bits and bytes that the JTAG driver sends and receives.
module JtagWords {
  import opened Bits
  import opened Sequences
  import opened TapController

  function ByteBits(s: seq<Byte>): (w: Word)
    ensures |w| == 8 * |s|
  {
    if s == [] then [] else ToBits(s[0], 8) + ByteBits(s[1..])
  }

  /** The whole bytes of a word. */
  function Packed(w: Word): (s: seq<Byte>)
    ensures |s| == |w| / 8
  {
    if |w| < 8 then [] else ValueOfByte(w[..8]); [Value(w[..8])] + Packed(w[8..])
  }

  lemma ValueOfByte(w: Word)
    requires |w| == 8
    ensures Value(w) < 256
  {
    Pow2Of8();
  }

  lemma {:induction false} PackedConcat(a: Word, b: Word)
    requires |a| % 8 == 0
    ensures Packed(a + b) == Packed(a) + Packed(b)
    decreases |a|
  {
    if a == [] {
      assert a + b == b;
    } else {
      var head, tail := a[..8], a[8..];
      PackedConcat(tail, b);
      PackedByte(head, tail + b);
      PackedByte(head, tail);
      assert head + tail == a;
      InOrder(head, tail, b);
      InOrder([Value(head)], Packed(tail), Packed(b));
    }
  }

  lemma ValueOfBytes(s: seq<Byte>)
    requires s != []
    ensures Value(ByteBits(s)) == s[0] + 0x100 * Value(ByteBits(s[1..]))
  {
    Pow2Of8();
    ValueConcat(ToBits(s[0], 8), ByteBits(s[1..]));
    ValueOfBits(s[0], 8);
  }

  function LittleEndian(n: nat): (s: seq<Byte>)
    ensures |s| == 4
  {
    [n % 0x100, n / 0x100 % 0x100, n / 0x10000 % 0x100, n / 0x1000000 % 0x100]
  }

  lemma LittleEndianBits(n: nat)
    requires n < 0x1_0000_0000
    ensures ByteBits(LittleEndian(n)) == ToBits(n, 32)
  {
    var s := LittleEndian(n);
    ValueOfBytes(s);
    ValueOfBytes(s[1..]);
    ValueOfBytes(s[2..]);
    ValueOfBytes(s[3..]);
    assert s[1..][1..] == s[2..] && s[2..][1..] == s[3..] && s[3..][1..] == [];
    FourBytes(n, n / 0x100, n / 0x10000, n / 0x1000000);
    assert Value(ByteBits(s[3..][1..])) == 0;
    assert Value(ByteBits(s)) == n;
    BitsOfValue(ByteBits(s));
  }

  lemma {:induction false} LowBits(n: nat, width: nat, k: nat)
    requires k <= width
    ensures ToBits(n, width)[..k] == ToBits(n, k)
    decreases width
  {
    if k > 0 {
      LowBits(n / 2, width - 1, k - 1);
    }
  }

  lemma {:induction false} OnesInBytes(s: seq<Byte>)
    requires forall i :: 0 <= i < |s| ==> s[i] == 255
    ensures forall k :: 0 <= k < 8 * |s| ==> ByteBits(s)[k]
  {
    if s != [] {
      OnesInBytes(s[1..]);
      AllOnes();
    }
  }

  lemma AllOnes()
    ensures ToBits(255, 8) == Constant(true, 8)
  {
    Pow2Of8();
    ValueOfOnes(8);
    BitsOfValue(Constant(true, 8));
  }

  /** The address as it is sent: shifted by two in 32 bits, with both low bits set. */
  function Tagged(address: nat): (t: nat)
    ensures t < 0x1_0000_0000
  {
    address * 4 % 0x1_0000_0000 + 3
  }

  function AddressBits(address: nat): (w: Word)
    ensures |w| == 32
  {
    ToBits(Tagged(address), 32)
  }

  /** Both low bits are set, and the low thirty bits of the address stand above them. */
  lemma AddressIsTagged(address: nat)
    ensures AddressBits(address) == [true, true] + ToBits(address, 30)
  {
    var n, width := address * 4 % 0x1_0000_0000, 30;
    FourTimes(address, n);
    TwoLowBits(n + 3, width);
    PowerOfThirty();
    ModBits(address, width);
  }

  lemma FourTimes(address: nat, n: nat)
    requires n == address * 4 % 0x1_0000_0000
    ensures (n + 3) % 2 == 1 && (n + 3) / 2 % 2 == 1 && (n + 3) / 2 / 2 == address % 0x4000_0000
  {
    var low := address % 0x4000_0000;
    assert n == 4 * low;
    assert (n + 3) / 2 == 2 * low + 1;
  }

  lemma TwoLowBits(n: nat, width: nat)
    ensures ToBits(n, width + 2) == [n % 2 == 1, n / 2 % 2 == 1] + ToBits(n / 2 / 2, width)
  {
  }

  lemma PowerOfThirty()
    ensures Pow2(30) == 0x4000_0000
  {
    Pow2Of8();
    assert Pow2(12) == 0x1000;
    assert Pow2(16) == 0x1_0000;
    assert Pow2(20) == 0x10_0000;
    assert Pow2(24) == 0x100_0000;
    assert Pow2(28) == 0x1000_0000;
  }

  lemma {:induction false} ModBits(n: nat, k: nat)
    ensures ToBits(n % Pow2(k), k) == ToBits(n, k)
    decreases k
  {
    if k > 0 {
      HalfOfMod(n, Pow2(k - 1));
      ModBits(n / 2, k - 1);
    }
  }

  lemma HalfOfMod(n: nat, m: nat)
    requires m > 0
    ensures n % (2 * m) / 2 == n / 2 % m && n % (2 * m) % 2 == n % 2
  {
    var q, r, b := n / 2 / m, n / 2 % m, n % 2;
    assert n == (b + 2 * r) + 2 * m * q by {
      assert n == 2 * (n / 2) + b && n / 2 == m * q + r;
    }
    DivMod(b + 2 * r, 2 * m, q);
  }

  /**
   The data scan of a request: the address, and for more than one word the low four bits of one
   less than the count. Otherwise nothing is held back, and the exit takes the address's top bit
   in a second time.
   */
  function Request(address: nat, len: nat): (w: Word)
    ensures |w| == if len > 1 then 36 else 33
  {
    AddressBits(address) + if len > 1 then ToBits(len - 1, 4) else [AddressBits(address)[31]]
  }

  /** The address in front, and behind it the count as a number of four bits, or the address's top bit. */
  lemma RequestCarries(address: nat, len: nat)
    ensures Request(address, len)[..32] == AddressBits(address)
    ensures len > 1 ==> Value(Request(address, len)[32..]) == (len - 1) % 16
    ensures len <= 1 ==> Request(address, len)[32..] == [ToBits(address, 30)[29]]
  {
    var tail := if len > 1 then ToBits(len - 1, 4) else [AddressBits(address)[31]];
    Apart(AddressBits(address), tail);
    if len > 1 {
      ValueOfLowBits(len - 1, 4);
      assert Pow2(4) == 16;
    } else {
      AddressIsTagged(address);
    }
  }

  /** A scan that was left open: the exit takes the bit that is still on the pin. */
  function WithExit(w: Word): Word
    requires w != []
  {
    w + [w[|w| - 1]]
  }

  /** What a write sends: the address, the bytes, and the first two bits of the byte behind them. */
  function WriteBits(address: nat, data: seq<Byte>, len: nat): (w: Word)
    requires 4 * len < |data|
    ensures |w| == 32 * len + 34
  {
    AddressBits(address) + ByteBits(data)[..32 * len + 2]
  }

  /** What comes in while `n` ones go out; the exit takes the last of them in a second time. */
  function OnesBits(n: nat): Word {
    Constant(true, n) + [n > 0]
  }

  // The loop over the bits

  /** Its variables: the bit of the byte, the bytes that come in and go out, the next byte, the packed bytes. */
  datatype Progress = Progress(charbit: Index, indata: Byte, outdata: Byte, txAt: nat, got: seq<Byte>)

  /** Where it must get to: the scan that is to be done, and the bytes that are to come in. */
  datatype Goal = Goal(chip: Chip, hold: bool, end: Tap, whole: seq<Byte>)

  function Loaded(p: Progress, bytes: seq<Byte>): Progress
    requires p.charbit == 0 ==> p.txAt < |bytes|
  {
    if p.charbit == 0 then p.(outdata := bytes[p.txAt], txAt := p.txAt + 1) else p
  }

  /** One turn, behind the load: `tdo` comes in. */
  function Turned(p: Progress, tdo: bool): Progress {
    var q := p.(indata := ShiftIn(p.indata, tdo), outdata := Half(p.outdata));
    if p.charbit == 7 then q.(charbit := 0, indata := 0, got := p.got + [q.indata]) else q.(charbit := p.charbit + 1)
  }

  /** The bits left of the byte at hand. */
  function Left(charbit: Index): nat {
    if charbit == 0 then 0 else 8 - charbit
  }

  /**
   With `bits` still to go: they are what is left to send; the scan with them gets to its end; and
   what has come in, packed or not, makes the bytes with what is still to come. `cur` is the byte
   that has begun to come in.
   */
  ghost predicate InLoop(g: Goal, t: Tap, bytes: seq<Byte>, p: Progress, bits: Word, cur: Word) {
    && p.txAt <= |bytes| && Feeds(bits, p.outdata, Left(p.charbit), bytes[p.txAt..])
    && |cur| == p.charbit && Holds(p.indata, cur) && Ahead(g, t, bits, cur, p.got)
  }

  ghost predicate Feeds(bits: Word, outdata: Byte, left: nat, more: seq<Byte>) {
    |bits| <= left + 8 * |more| && bits == (ToBits(outdata, left) + ByteBits(more))[..|bits|]
  }

  lemma LoadByte(bits: Word, outdata: Byte, more: seq<Byte>)
    requires bits != [] && Feeds(bits, outdata, 0, more)
    ensures more != [] && Feeds(bits, more[0], 8, more[1..])
  {
    assert ToBits(outdata, 0) + ByteBits(more) == ByteBits(more);
  }

  lemma SendBit(bits: Word, outdata: Byte, left: nat, more: seq<Byte>)
    requires 0 < left && bits != [] && Feeds(bits, outdata, left, more)
    ensures bits[0] == (outdata % 2 == 1) && Feeds(bits[1..], Half(outdata), left - 1, more)
  {
    var a, b := ToBits(outdata / 2, left - 1), ByteBits(more);
    assert ToBits(outdata, left) + b == [outdata % 2 == 1] + (a + b);
  }

  ghost predicate Ahead(g: Goal, t: Tap, bits: Word, cur: Word, got: seq<Byte>) {
    Scan(g.chip, t, bits, g.hold) == g.end && got + Packed(cur + Seen(g.chip, t, bits)) == g.whole
  }

  lemma BeforeAll(chip: Chip, t: Tap, bytes: seq<Byte>, bits: Word, hold: bool)
    requires |bits| <= 8 * |bytes| && bits == ByteBits(bytes)[..|bits|]
    ensures InLoop(
      Goal(chip, hold, Scan(chip, t, bits, hold), Packed(Seen(chip, t, bits))),
      t, bytes, Progress(0, 0, 0, 0, []), bits, [])
  {
    NothingInFront(Seen(chip, t, bits));
    assert ToBits(0, 0) + ByteBits(bytes) == ByteBits(bytes) && bytes[0..] == bytes;
    NothingIn();
  }

  /** What the next bit is, and which byte it is taken from. */
  lemma LoadKeeps(bytes: seq<Byte>, p: Progress, bits: Word)
    requires bits != [] && p.txAt <= |bytes| && Feeds(bits, p.outdata, Left(p.charbit), bytes[p.txAt..])
    ensures p.charbit == 0 ==> p.txAt < |bytes|
    ensures
      var q := Loaded(p, bytes);
      && q.txAt <= |bytes| && bits[0] == (q.outdata % 2 == 1)
      && Feeds(bits[1..], Half(q.outdata), 7 - q.charbit, bytes[q.txAt..])
  {
    var more := bytes[p.txAt..];
    if p.charbit == 0 {
      LoadByte(bits, p.outdata, more);
      SendBit(bits, more[0], 8, more[1..]);
      assert more[0] == bytes[p.txAt] && more[1..] == bytes[p.txAt + 1..];
    } else {
      SendBit(bits, p.outdata, 8 - p.charbit, more);
    }
  }

  /** The tap behind the clock that sends the first of `bits`. */
  ghost function NextTap(g: Goal, t: Tap, bits: Word): Tap
    requires bits != []
  {
    var t' := t.(tdi := bits[0]);
    if |bits| == 1 && g.hold then t' else Pulse(g.chip, t')
  }

  lemma AheadKeeps(g: Goal, t: Tap, bits: Word, cur: Word, got: seq<Byte>)
    requires bits != [] && Ahead(g, t, bits, cur, got)
    ensures Ahead(g, NextTap(g, t, bits), bits[1..], cur + [Tdo(g.chip, t)], got)
  {
    ScanNext(g.chip, t, bits, g.hold, cur, cur + Seen(g.chip, t, bits));
  }

  lemma PackKeeps(g: Goal, t: Tap, bytes: seq<Byte>, q: Progress, tdo: bool, bits: Word, cur: Word) returns (cur': Word)
    requires q.txAt <= |bytes| && Feeds(bits, Half(q.outdata), 7 - q.charbit, bytes[q.txAt..])
    requires |cur| == q.charbit + 1 && Holds(ShiftIn(q.indata, tdo), cur) && Ahead(g, t, bits, cur, q.got)
    ensures InLoop(g, t, bytes, Turned(q, tdo), bits, cur')
  {
    if q.charbit < 7 {
      cur' := cur;
    } else {
      cur' := [];
      PackLast(g, t, bytes, q, tdo, bits, cur);
    }
  }

  lemma PackLast(g: Goal, t: Tap, bytes: seq<Byte>, q: Progress, tdo: bool, bits: Word, cur: Word)
    requires q.charbit == 7 && q.txAt <= |bytes| && Feeds(bits, Half(q.outdata), 0, bytes[q.txAt..])
    requires |cur| == 8 && Holds(ShiftIn(q.indata, tdo), cur) && Ahead(g, t, bits, cur, q.got)
    ensures InLoop(g, t, bytes, Turned(q, tdo), bits, [])
  {
    PackByte(g, t, bits, ShiftIn(q.indata, tdo), cur, q.got);
  }

  /** One turn keeps the invariant. */
  lemma TurnKeeps(g: Goal, t: Tap, bytes: seq<Byte>, p: Progress, bits: Word, cur: Word) returns (cur': Word)
    requires bits != [] && InLoop(g, t, bytes, p, bits, cur)
    ensures p.charbit == 0 ==> p.txAt < |bytes|
    ensures bits[0] == (Loaded(p, bytes).outdata % 2 == 1)
    ensures InLoop(g, NextTap(g, t, bits), bytes, Turned(Loaded(p, bytes), Tdo(g.chip, t)), bits[1..], cur')
  {
    LoadKeeps(bytes, p, bits);
    cur' := ShiftKeeps(g, t, bytes, Loaded(p, bytes), bits, cur);
  }

  lemma ShiftKeeps(g: Goal, t: Tap, bytes: seq<Byte>, q: Progress, bits: Word, cur: Word) returns (cur': Word)
    requires bits != [] && q.txAt <= |bytes| && Feeds(bits[1..], Half(q.outdata), 7 - q.charbit, bytes[q.txAt..])
    requires |cur| == q.charbit && Holds(q.indata, cur) && Ahead(g, t, bits, cur, q.got)
    ensures InLoop(g, NextTap(g, t, bits), bytes, Turned(q, Tdo(g.chip, t)), bits[1..], cur')
  {
    AheadKeeps(g, t, bits, cur, q.got);
    TakeBit(q.indata, cur, Tdo(g.chip, t));
    cur' := PackKeeps(g, NextTap(g, t, bits), bytes, q, Tdo(g.chip, t), bits[1..], cur + [Tdo(g.chip, t)]);
  }

  lemma PackByte(g: Goal, t: Tap, bits: Word, indata: Byte, cur: Word, got: seq<Byte>)
    requires |cur| == 8 && Holds(indata, cur) && Ahead(g, t, bits, cur, got)
    ensures Ahead(g, t, bits, [], got + [indata]) && Holds(0, [])
  {
    var rest := Seen(g.chip, t, bits);
    WholeByte(indata, cur);
    PackedByte(cur, rest);
    NothingInFront(rest);
    NothingIn();
    InOrder(got, [indata], Packed(rest));
  }

  lemma WholeByte(indata: Byte, cur: Word)
    requires |cur| == 8 && Holds(indata, cur)
    ensures indata == Value(cur)
  {
    assert Constant(false, 0) + cur == cur;
  }

  lemma AfterAll(g: Goal, t: Tap, bytes: seq<Byte>, p: Progress, cur: Word)
    requires InLoop(g, t, bytes, p, [], cur)
    ensures t == g.end && p.got == g.whole
  {
    assert Packed(cur + []) == [];
  }

  lemma PackedByte(cur: Word, rest: Word)
    requires |cur| == 8
    ensures Value(cur) < 256 && Packed(cur + rest) == [Value(cur)] + Packed(rest)
  {
    ValueOfByte(cur);
    Apart(cur, rest);
  }

  lemma Apart(a: Word, b: Word)
    ensures (a + b)[..|a|] == a && (a + b)[|a|..] == b
  {
  }

  function Half(b: Byte): Byte {
    b / 2
  }

  lemma NothingIn()
    ensures Holds(0, [])
  {
    ValueOfZeros(8);
    assert Constant(false, 8) + [] == Constant(false, 8);
  }

  function ShiftIn(indata: Byte, b: bool): Byte {
    indata / 2 + if b then 128 else 0
  }

  /** The bits that have come in are the top ones of the byte. */
  ghost predicate Holds(indata: Byte, cur: Word) {
    |cur| <= 8 && indata == Value(Constant(false, 8 - |cur|) + cur)
  }

  lemma TakeBit(indata: Byte, cur: Word, b: bool)
    requires |cur| < 8
    ensures Holds(indata, cur) ==> Holds(ShiftIn(indata, b), cur + [b])
  {
    if Holds(indata, cur) {
      var w := Constant(false, 8 - |cur|) + cur;
      assert w[1..] + [b] == Constant(false, 7 - |cur|) + (cur + [b]);
      ValueConcat(w[1..], [b]);
      assert Pow2(7) == 128 by { Pow2Of8(); }
      assert Value([b]) == if b then 1 else 0;
    }
  }

  // The fields of an information word

  function Low(info: Word): Byte
    requires |info| == 32
  {
    Pow2Of8();
    Value(info[..8])
  }

  function Vendor(info: Word): nat
    requires |info| == 32
  {
    Value(info[8..19])
  }

  function Kind(info: Word): Byte
    requires |info| == 32
  {
    Pow2Of8();
    Value(info[19..27])
  }

  lemma {:induction false} HighBits(n: nat, width: nat, k: nat)
    requires k <= width
    ensures ToBits(n, width)[k..] == ToBits(n / Pow2(k), width - k)
    decreases k
  {
    if k > 0 {
      HighBits(n / 2, width - 1, k - 1);
      DivTwice(n, Pow2(k - 1));
      assert ToBits(n, width)[k..] == ToBits(n / 2, width - 1)[k - 1..];
    }
  }

  lemma DivTwice(n: nat, m: nat)
    requires m > 0
    ensures n / 2 / m == n / (2 * m)
  {
    HalfOfMod(n, m);
    var q, r, b := n / 2 / m, n / 2 % m, n % 2;
    assert n == (b + 2 * r) + 2 * m * q by {
      assert n == 2 * (n / 2) + b && n / 2 == m * q + r;
    }
    DivMod(b + 2 * r, 2 * m, q);
  }

  lemma ValueOfLowBits(n: nat, m: nat)
    ensures Value(ToBits(n, m)) == n % Pow2(m)
  {
    ModBits(n, m);
    ValueOfBits(n % Pow2(m), m);
  }

  lemma BitsOfField(n: nat, width: nat, k: nat, m: nat, high: nat)
    requires k + m <= width && high == n / Pow2(k)
    ensures ToBits(n, width)[k..k + m] == ToBits(high, m)
  {
    HighBits(n, width, k);
    LowBits(high, width - k, m);
    FromAndUpTo(ToBits(n, width), k, m);
  }

  /** The bits from `k` on, `m` of them, as a number. */
  lemma FieldOf(n: nat, width: nat, k: nat, m: nat, high: nat)
    requires k + m <= width && high == n / Pow2(k)
    ensures Value(ToBits(n, width)[k..k + m]) == high % Pow2(m)
  {
    BitsOfField(n, width, k, m, high);
    ValueOfLowBits(high, m);
  }

  lemma FromAndUpTo(w: Word, k: nat, m: nat)
    requires k + m <= |w|
    ensures w[k..k + m] == w[k..][..m]
  {
  }

  /** The fields of a word as the driver shifts and masks them out of it. */
  lemma FieldsOfInfo(n: nat)
    ensures
      var info := ToBits(n, 32);
      Low(info) == n % 0x100 && Vendor(info) == n / 0x100 % 0x800 && Kind(info) == n / 0x8_0000 % 0x100
  {
    var width := 32;
    Pow2Of8();
    assert Pow2(11) == 0x800;
    assert Pow2(15) == 0x8000;
    assert Pow2(19) == 0x8_0000;
    FieldOf(n, width, 0, 8, n);
    FieldOf(n, width, 8, 11, n / 0x100);
    FieldOf(n, width, 19, 8, n / 0x8_0000);
  }

  predicate IsVjtag(info: Word)
    requires |info| == 32
  {
    Kind(info) == JTAG_ID_VJTAG && Vendor(info) == JTAG_VENDOR_ID
  }

  const JTAG_VENDOR_ID := 0x6E
  const JTAG_ID_VJTAG := 0x84

  /** `bits` is the least width in which the numbers 0 .. `slaves` fit. */
  predicate Addresses(bits: nat, slaves: nat) {
    slaves < Pow2(bits) && (bits > 0 ==> Pow2(bits - 1) <= slaves)
  }

  const JBC_WRITE := 0
  const JBC_READ := 1

  /** Bitwise or with a number below 2. */
  function OrBit(n: nat, b: nat): nat {
    if b == 1 && n % 2 == 0 then n + 1 else n
  }

  /** The slave's number above the instruction. */
  function VirCode(id: Byte, virSize: Byte, instruction: nat): nat {
    OrBit((id + 1) * Pow2(virSize), instruction)
  }

  /** The scan of a virtual instruction; where it has no width, the bit on the pin goes in with the exit. */
  function VirScan(id: Byte, virSize: Byte, slaveBits: nat, instruction: nat): (w: Word)
    ensures |w| > 0
  {
    if virSize + slaveBits == 0 then [false] else ToBits(VirCode(id, virSize, instruction), virSize + slaveBits)
  }

  /**
   After a successful search the scan is exactly as wide as the code: the instruction in the low
   bits, and above it the number of our slave, counted from 1.
   */
  lemma VirNamesSlave(id: Byte, virSize: Byte, slaveBits: nat, slaves: nat, instruction: nat)
    requires id < slaves && Addresses(slaveBits, slaves) && virSize > 0 && instruction <= JBC_READ
    ensures VirScan(id, virSize, slaveBits, instruction) == ToBits(instruction, virSize) + ToBits(id + 1, slaveBits)
  {
    var a, b := ToBits(instruction, virSize), ToBits(id + 1, slaveBits);
    ValueOfBits(instruction, virSize);
    ValueOfBits(id + 1, slaveBits);
    assert Value(a + b) == VirCode(id, virSize, instruction) by {
      ValueConcat(a, b);
      OrIsSum(id + 1, Pow2(virSize), Pow2(virSize - 1), instruction);
    }
    BitsOfValue(a + b);
  }

  lemma OrIsSum(n: nat, p: nat, half: nat, b: nat)
    requires p == 2 * half && b <= 1
    ensures OrBit(n * p, b) == b + p * n
  {
    assert n * p == 2 * (n * half);
  }

  lemma {:induction false} ZeroBits(n: nat)
    ensures ToBits(0, n) == Constant(false, n)
  {
    if n > 0 {
      ZeroBits(n - 1);
    }
  }
}
