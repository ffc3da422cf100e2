// The two nested escape layers between the SPI wire and the bus transactions of the FPGA core:
// the byte layer keeps idle bytes apart from data, the packet layer marks where a packet begins
// and ends. A decoder reads past its input when that ends inside an escape, so the decoders are
// modelled on the whole buffer `s` and on the length `n` that is scanned.
module SpiPacketCodec {
  import opened Bits
  import opened Sequences

  const IDLE: Byte := 0x4a
  const BYTE_ESC: Byte := 0x4d
  const SOP: Byte := 0x7a
  const EOP: Byte := 0x7b
  const CHANNEL: Byte := 0x7c
  const ESC: Byte := 0x7d

  /** Exclusive or with 0x20. */
  function Xor20(b: Byte): Byte {
    if b / 32 % 2 == 1 then b - 32 else b + 32
  }

  // The byte layer

  predicate ByteSpecial(b: Byte) {
    b == IDLE || b == BYTE_ESC
  }

  function EscapeByte(b: Byte): seq<Byte> {
    if ByteSpecial(b) then [BYTE_ESC, Xor20(b)] else [b]
  }

  function EscapeBytes(s: seq<Byte>): seq<Byte> {
    if s == [] then [] else EscapeByte(s[0]) + EscapeBytes(s[1..])
  }

  function UnescapeBytes(s: seq<Byte>, n: int): (r: seq<Byte>)
    requires |s| >= n + 1
    decreases |s|
  {
    if n <= 0 then []
    else if s[0] == IDLE then UnescapeBytes(s[1..], n - 1)
    else if s[0] == BYTE_ESC then [Xor20(s[1])] + UnescapeBytes(s[2..], n - 2)
    else [s[0]] + UnescapeBytes(s[1..], n - 1)
  }

  /** The wire holds the escaped data, with idle bytes anywhere between two symbols. */
  predicate Carries(wire: seq<Byte>, data: seq<Byte>)
    decreases |wire|
  {
    if wire == [] then data == []
    else if wire[0] == IDLE then Carries(wire[1..], data)
    else data != [] && EscapeByte(data[0]) <= wire && Carries(wire[|EscapeByte(data[0])|..], data[1..])
  }

  lemma CarriesMore(wire: seq<Byte>, data: seq<Byte>)
    requires data != [] && Carries(wire, data[1..])
    ensures Carries(EscapeByte(data[0]) + wire, data)
  {
    InFrontOf(EscapeByte(data[0]), wire);
  }

  lemma InFrontOf(a: seq<Byte>, b: seq<Byte>)
    ensures a <= a + b && (a + b)[|a|..] == b
    ensures a != [] ==> (a + b)[0] == a[0]
  {
  }

  lemma {:induction false} EscapedCarries(data: seq<Byte>)
    ensures Carries(EscapeBytes(data), data)
  {
    if data != [] {
      EscapedCarries(data[1..]);
      CarriesMore(EscapeBytes(data[1..]), data);
    }
  }

  /** Unescaping gives back what the wire carries, and then whatever the buffer holds behind it. */
  lemma {:induction false} UnescapeInvertsEscape(wire: seq<Byte>, rest: seq<Byte>, data: seq<Byte>, n: nat)
    requires Carries(wire, data) && |wire| <= n < |wire + rest|
    ensures UnescapeBytes(wire + rest, n) == data + UnescapeBytes(rest, n - |wire|)
    decreases |wire|
  {
    if wire == [] {
      assert wire + rest == rest;
    } else if wire[0] == IDLE {
      SkipIdle(wire, rest, n);
      UnescapeInvertsEscape(wire[1..], rest, data, n - 1);
    } else {
      var k := |EscapeByte(data[0])|;
      TakeSymbol(wire, rest, data[0], n);
      UnescapeInvertsEscape(wire[k..], rest, data[1..], n - k);
      HeadInFront(data, UnescapeBytes(rest, n - |wire|));
    }
  }

  lemma SkipIdle(wire: seq<Byte>, rest: seq<Byte>, n: nat)
    requires wire != [] && wire[0] == IDLE && |wire| <= n < |wire + rest|
    ensures UnescapeBytes(wire + rest, n) == UnescapeBytes(wire[1..] + rest, n - 1)
  {
    assert (wire + rest)[1..] == wire[1..] + rest;
  }

  lemma TakeSymbol(wire: seq<Byte>, rest: seq<Byte>, b: Byte, n: nat)
    requires EscapeByte(b) <= wire && |wire| <= n < |wire + rest|
    ensures UnescapeBytes(wire + rest, n)
         == [b] + UnescapeBytes(wire[|EscapeByte(b)|..] + rest, n - |EscapeByte(b)|)
  {
    var k := |EscapeByte(b)|;
    assert (wire + rest)[k..] == wire[k..] + rest;
    assert wire[0] == EscapeByte(b)[0] && (k == 2 ==> wire[1] == Xor20(b));
  }

  lemma HeadInFront(data: seq<Byte>, rest: seq<Byte>)
    requires data != []
    ensures [data[0]] + (data[1..] + rest) == data + rest
  {
  }

  /** Where the scan of the first `n` bytes stays inside the buffer. */
  predicate Inside(s: seq<Byte>, i: nat, n: nat)
    decreases n - i
  {
    i < n ==> i < |s| && if s[i] == BYTE_ESC then i + 1 < |s| && Inside(s, i + 2, n) else Inside(s, i + 1, n)
  }

  lemma {:induction false} InsideOrNot(s: seq<Byte>, i: nat, n: nat)
    requires i <= |s| + 1
    ensures n < |s| ==> Inside(s, i, n)
    ensures |s| < n && i <= |s| ==> !Inside(s, i, n)
    decreases n - i
  {
    if i < n && i < |s| {
      InsideOrNot(s, if s[i] == BYTE_ESC then i + 2 else i + 1, n);
    }
  }

  lemma {:induction false} UnescapeShortens(s: seq<Byte>, n: int)
    requires |s| >= n + 1 && n >= -1
    ensures |UnescapeBytes(s, n)| <= if n < 0 then 0 else n
    decreases |s|
  {
    if n > 0 {
      UnescapeShortens(s[1..], n - 1);
      UnescapeShortens(s[2..], n - 2);
    }
  }

  lemma {:induction false} UnescapeZeros(s: seq<Byte>, n: nat)
    requires |s| >= n + 1 && forall i :: 0 <= i < |s| ==> s[i] == 0
    ensures |UnescapeBytes(s, n)| == n
  {
    if n > 0 {
      UnescapeZeros(s[1..], n - 1);
    }
  }

  // The packet layer

  predicate PacketSpecial(b: Byte) {
    SOP <= b <= ESC
  }

  function EscapeSymbol(b: Byte): seq<Byte> {
    if PacketSpecial(b) then [ESC, Xor20(b)] else [b]
  }

  /** The data of a packet, with the end mark before the last byte. */
  function Payload(x: seq<Byte>): seq<Byte> {
    if x == [] then []
    else if |x| == 1 then [EOP] + EscapeSymbol(x[0])
    else EscapeSymbol(x[0]) + Payload(x[1..])
  }

  /** What is sent: the packet of channel 0. */
  function Packet(x: seq<Byte>): seq<Byte> {
    [SOP, CHANNEL, 0] + Payload(x)
  }

  /** What the core answers: it names the channel before the packet begins. */
  function Answer(x: seq<Byte>): seq<Byte> {
    [CHANNEL, 0, SOP] + Payload(x)
  }

  /** A byte that makes the parser take the next one flipped. */
  predicate Flips(b: Byte) {
    b == ESC || b == CHANNEL || b == SOP
  }

  function ParseBody(s: seq<Byte>, n: int): seq<Byte>
    requires |s| >= n + 2
    decreases |s|
  {
    if n <= 0 then []
    else if Flips(s[0]) then [Xor20(s[1])] + ParseBody(s[2..], n - 2)
    else if s[0] == EOP then (if Flips(s[1]) then [Xor20(s[2])] else [s[1]])
    else [s[0]] + ParseBody(s[1..], n - 1)
  }

  function Parse(s: seq<Byte>, n: int): seq<Byte>
    requires |s| >= n + 2
    decreases |s|
  {
    if n <= 0 then []
    else if s[0] == SOP then ParseBody(s[1..], n - 1)
    else Parse(s[1..], n - 1)
  }

  lemma {:induction false} BodyOfPayload(x: seq<Byte>, s: seq<Byte>, n: nat)
    requires x != [] && Payload(x) <= s && |Payload(x)| <= n && |s| >= n + 2
    ensures ParseBody(s, n) == x
    decreases |x|
  {
    if |x| > 1 {
      var k := |EscapeSymbol(x[0])|;
      assert Payload(x)[k..] == Payload(x[1..]);
      assert s[k..][..|Payload(x[1..])|] == Payload(x)[k..];
      BodyOfPayload(x[1..], s[k..], n - k);
    }
  }

  lemma BodyFlips(b: Byte, c: Byte, s: seq<Byte>, n: nat)
    requires Flips(b) && 2 <= n <= |s|
    ensures ParseBody([b] + ([c] + s), n) == [Xor20(c)] + ParseBody(s, n - 2)
  {
    var t := [b] + ([c] + s);
    assert t[0] == b && t[1] == c && t[2..] == s;
  }

  /** Read back, a printed packet is its data behind the flipped channel number. */
  lemma ParseInvertsPrint(x: seq<Byte>, rest: seq<Byte>, n: nat)
    requires x != [] && |Packet(x)| <= n <= |Packet(x) + rest| - 2
    ensures Parse(Packet(x) + rest, n) == [0x20] + x
  {
    var s := Payload(x) + rest;
    InOrder([SOP, CHANNEL, 0], Payload(x), rest);
    InFront(SOP, CHANNEL, 0, s);
    BodyOfPayload(x, s, n - 3);
    ParseChannel(0, s, n);
  }

  lemma ParseChannel(channel: Byte, s: seq<Byte>, n: nat)
    requires 3 <= n <= |s| + 1
    ensures Parse([SOP] + ([CHANNEL] + ([channel] + s)), n) == [Xor20(channel)] + ParseBody(s, n - 3)
  {
    ParseStarts([CHANNEL] + ([channel] + s), n);
    BodyFlips(CHANNEL, channel, s, n - 1);
  }

  lemma ParseSkips(b: Byte, s: seq<Byte>, n: nat)
    requires b != SOP && 0 < n <= |s| - 1
    ensures Parse([b] + s, n) == Parse(s, n - 1)
  {
    assert ([b] + s)[1..] == s;
  }

  lemma ParseStarts(s: seq<Byte>, n: nat)
    requires 0 < n <= |s| - 1
    ensures Parse([SOP] + s, n) == ParseBody(s, n - 1)
  {
    assert ([SOP] + s)[1..] == s;
  }

  lemma InFront(a: Byte, b: Byte, c: Byte, s: seq<Byte>)
    ensures [a, b, c] + s == [a] + ([b] + ([c] + s)) == [a] + ([b, c] + s)
  {
  }

  /** An answer is read as its data, whatever follows it in the buffer and in the scan. */
  lemma AnswerIsRead(x: seq<Byte>, rest: seq<Byte>, n: nat)
    requires x != [] && |Answer(x)| <= n <= |Answer(x) + rest| - 2
    ensures Parse(Answer(x) + rest, n) == x
  {
    var s := Payload(x) + rest;
    AnswerInFront(x, rest);
    BodyOfPayload(x, s, n - 3);
    ParseThird(CHANNEL, 0, s, n);
  }

  lemma ParseThird(a: Byte, b: Byte, s: seq<Byte>, n: nat)
    requires a != SOP && b != SOP && 3 <= n <= |s| + 1
    ensures Parse([a] + ([b] + ([SOP] + s)), n) == ParseBody(s, n - 3)
  {
    ParseStarts(s, n - 2);
    ParseSkips(b, [SOP] + s, n - 1);
    ParseSkips(a, [b] + ([SOP] + s), n);
  }

  lemma AnswerInFront(x: seq<Byte>, rest: seq<Byte>)
    ensures Answer(x) + rest == [CHANNEL] + ([0] + ([SOP] + (Payload(x) + rest)))
  {
    InOrder([CHANNEL, 0, SOP], Payload(x), rest);
    InFront(CHANNEL, 0, SOP, Payload(x) + rest);
  }

  // Both layers

  /** What goes over the wire for a packet with the data `x`. */
  function Wire(x: seq<Byte>): seq<Byte> {
    EscapeBytes(Packet(x))
  }

  /** One byte of data on the wire. */
  function Symbol(b: Byte): seq<Byte> {
    EscapeBytes(EscapeSymbol(b))
  }

  function Symbols(x: seq<Byte>): seq<Byte> {
    if x == [] then [] else EscapeSymbol(x[0]) + Symbols(x[1..])
  }

  lemma {:induction false} EscapeConcat(a: seq<Byte>, b: seq<Byte>)
    ensures EscapeBytes(a + b) == EscapeBytes(a) + EscapeBytes(b)
  {
    if a == [] {
      assert a + b == b;
    } else {
      EscapeConcat(a[1..], b);
      assert (a + b)[0] == a[0] && (a + b)[1..] == a[1..] + b;
      InOrder(EscapeByte(a[0]), EscapeBytes(a[1..]), EscapeBytes(b));
    }
  }

  lemma {:induction false} PayloadShape(y: seq<Byte>, last: Byte)
    ensures Payload(y + [last]) == Symbols(y) + ([EOP] + EscapeSymbol(last))
    decreases |y|
  {
    var x := y + [last];
    if y == [] {
      assert x == [last];
    } else {
      PayloadShape(y[1..], last);
      assert x[1..] == y[1..] + [last];
      InOrder(EscapeSymbol(y[0]), Symbols(y[1..]), [EOP] + EscapeSymbol(last));
    }
  }

  /** No idle byte and no mark. */
  ghost predicate Plain(s: seq<Byte>) {
    forall i :: 0 <= i < |s| ==> s[i] != IDLE && s[i] != SOP && s[i] != EOP
  }

  /** How many bytes of `x` are escaped, by the packet layer alone or by both layers. */
  function Doubled(x: seq<Byte>, both: bool): (n: nat)
    ensures n <= |x|
  {
    if x == [] then 0
    else (if PacketSpecial(x[0]) || (both && ByteSpecial(x[0])) then 1 else 0) + Doubled(x[1..], both)
  }

  lemma SymbolIsPlain(b: Byte)
    ensures Plain(Symbol(b))
    ensures |Symbol(b)| == if PacketSpecial(b) || ByteSpecial(b) then 2 else 1
  {
    if PacketSpecial(b) {
      assert Symbol(b) == EscapeByte(ESC) + EscapeBytes([ESC, Xor20(b)][1..]);
      assert EscapeBytes([Xor20(b)]) == EscapeByte(Xor20(b)) + [];
    } else {
      assert EscapeSymbol(b) == [b];
      assert Symbol(b) == EscapeByte(b) + EscapeBytes([b][1..]);
    }
  }

  lemma {:induction false} SymbolsArePlain(x: seq<Byte>)
    ensures Plain(EscapeBytes(Symbols(x)))
    ensures |EscapeBytes(Symbols(x))| == |x| + Doubled(x, true)
  {
    if x != [] {
      EscapeConcat(EscapeSymbol(x[0]), Symbols(x[1..]));
      SymbolIsPlain(x[0]);
      SymbolsArePlain(x[1..]);
    }
  }

  lemma WireShape(y: seq<Byte>, last: Byte)
    ensures Wire(y + [last]) == [SOP] + ([CHANNEL, 0] + (EscapeBytes(Symbols(y)) + ([EOP] + Symbol(last))))
  {
    PayloadShape(y, last);
    HeadEscaped(Payload(y + [last]));
    EscapeConcat(Symbols(y), [EOP] + EscapeSymbol(last));
    PlainEscaped(EOP, EscapeSymbol(last));
  }

  lemma HeadEscaped(p: seq<Byte>)
    ensures EscapeBytes([SOP, CHANNEL, 0] + p) == [SOP] + ([CHANNEL, 0] + EscapeBytes(p))
  {
    InFront(SOP, CHANNEL, 0, p);
    PlainEscaped(SOP, [CHANNEL] + ([0] + p));
    PlainEscaped(CHANNEL, [0] + p);
    PlainEscaped(0, p);
    InFront(SOP, CHANNEL, 0, EscapeBytes(p));
  }

  lemma PlainEscaped(b: Byte, s: seq<Byte>)
    requires !ByteSpecial(b)
    ensures EscapeBytes([b] + s) == [b] + EscapeBytes(s)
  {
    assert ([b] + s)[1..] == s;
  }

  /**
   Framing: idle bytes and the start mark do not occur behind the first byte, and the one end
   mark stands directly before the symbol of the last byte of data.
   */
  lemma Framing(y: seq<Byte>, last: Byte)
    ensures
      var w := Wire(y + [last]);
      var e := |w| - |Symbol(last)| - 1;
      && 0 < e && w[e + 1..] == Symbol(last)
      && forall i :: 0 <= i < |w| ==> w[i] != IDLE && (w[i] == SOP <==> i == 0) && (w[i] == EOP <==> i == e)
  {
    WireShape(y, last);
    SymbolsArePlain(y);
    SymbolIsPlain(last);
    MarksApart(EscapeBytes(Symbols(y)), Symbol(last));
  }

  lemma MarksApart(m: seq<Byte>, t: seq<Byte>)
    requires Plain(m) && Plain(t)
    ensures
      var w := [SOP] + ([CHANNEL, 0] + (m + ([EOP] + t)));
      && |w| == 4 + |m| + |t| && w[|m| + 4..] == t
      && forall i :: 0 <= i < |w| ==> w[i] != IDLE && (w[i] == SOP <==> i == 0) && (w[i] == EOP <==> i == |m| + 3)
  {
    var w := [SOP] + ([CHANNEL, 0] + (m + ([EOP] + t)));
    forall i | 0 <= i < |w|
      ensures w[i] == if i == 0 then SOP else if i == 1 then CHANNEL else if i == 2 then 0
                      else if i < |m| + 3 then m[i - 3] else if i == |m| + 3 then EOP else t[i - |m| - 4]
    {
    }
  }

  /** The exact lengths: four bytes more than the data, and one for every escaped byte. */
  lemma {:induction false} Lengths(x: seq<Byte>)
    requires x != []
    ensures |Packet(x)| == |x| + 4 + Doubled(x, false)
    ensures |Wire(x)| == |x| + 4 + Doubled(x, true)
  {
    var y, last := x[..|x| - 1], x[|x| - 1];
    assert x == y + [last];
    WireShape(y, last);
    SymbolsArePlain(y);
    SymbolIsPlain(last);
    DoubledBehind(y, last, true);
    PayloadLength(x);
  }

  lemma {:induction false} PayloadLength(x: seq<Byte>)
    requires x != []
    ensures |Payload(x)| == |x| + 1 + Doubled(x, false)
  {
    if |x| > 1 {
      PayloadLength(x[1..]);
    } else {
      assert Doubled(x[1..], false) == 0;
    }
  }

  lemma {:induction false} DoubledBehind(y: seq<Byte>, last: Byte, both: bool)
    ensures Doubled(y + [last], both)
         == Doubled(y, both) + if PacketSpecial(last) || (both && ByteSpecial(last)) then 1 else 0
  {
    if y == [] {
      assert Doubled((y + [last])[1..], both) == 0;
    } else {
      DoubledBehind(y[1..], last, both);
      assert (y + [last])[1..] == y[1..] + [last];
    }
  }

  /**
   Through both layers, with idle bytes on the wire and anything behind it in the buffer that is
   scanned: what is unescaped is parsed as the data, for a packet behind the flipped channel
   number. `m` is the length of the first scan, `n` that of the second, and `stale` is what the
   second buffer held behind the unescaped bytes.
   */
  lemma RoundTrip(x: seq<Byte>, wire: seq<Byte>, rest: seq<Byte>, m: nat, stale: seq<Byte>, n: nat)
    requires x != [] && |wire| <= m < |wire + rest|
    requires |Packet(x)| <= n <= |UnescapeBytes(wire + rest, m) + stale| - 2
    ensures Carries(wire, Packet(x)) ==> Parse(UnescapeBytes(wire + rest, m) + stale, n) == [0x20] + x
    ensures Carries(wire, Answer(x)) ==> Parse(UnescapeBytes(wire + rest, m) + stale, n) == x
  {
    var behind := UnescapeBytes(rest, m - |wire|);
    if Carries(wire, Packet(x)) {
      UnescapeInvertsEscape(wire, rest, Packet(x), m);
      InOrder(Packet(x), behind, stale);
      ParseInvertsPrint(x, behind + stale, n);
    }
    if Carries(wire, Answer(x)) {
      UnescapeInvertsEscape(wire, rest, Answer(x), m);
      InOrder(Answer(x), behind, stale);
      AnswerIsRead(x, behind + stale, n);
    }
  }

  // The loops over the buffers

  /** Stores a byte behind the `len` bytes that are there. */
  method Put(out: array<Byte>, len: nat, b: Byte) returns (next: nat)
    requires len < out.Length
    modifies out
    ensures next == len + 1 && out[..next] == old(out[..len]) + [b] && out[next..] == old(out[next..])
  {
    out[len] := b;
    next := len + 1;
  }

  /** The part in front of what is to come moves behind what is done. */
  lemma Ahead(done: seq<Byte>, part: seq<Byte>, rest: seq<Byte>, whole: seq<Byte>)
    requires done + (part + rest) == whole
    ensures (done + part) + rest == whole
    ensures |done| + |part| <= |whole|
  {
  }

  lemma EscapeNext(s: seq<Byte>, i: nat)
    requires i < |s|
    ensures EscapeBytes(s[i..]) == EscapeByte(s[i]) + EscapeBytes(s[i + 1..])
  {
    assert s[i..][1..] == s[i + 1..];
  }

  method EscapeInto(data: array<Byte>, n: nat, out: array<Byte>) returns (len: nat)
    requires n <= data.Length && data != out && |EscapeBytes(data[..n])| <= out.Length
    modifies out
    ensures len == |EscapeBytes(data[..n])| && out[..len] == EscapeBytes(data[..n])
  {
    ghost var s, done := data[..n], [];
    len := 0;
    for i := 0 to n
      invariant data[..n] == s && len <= out.Length && out[..len] == done
      invariant done + EscapeBytes(s[i..]) == EscapeBytes(s)
    {
      var b := data[i];
      EscapeNext(s, i);
      Ahead(done, EscapeByte(b), EscapeBytes(s[i + 1..]), EscapeBytes(s));
      if b == IDLE || b == BYTE_ESC {
        len := Put(out, len, BYTE_ESC);
        len := Put(out, len, Xor20(b));
      } else {
        len := Put(out, len, b);
      }
      done := done + EscapeByte(b);
    }
  }

  method UnescapeInto(buffer: array<Byte>, n: nat, out: array<Byte>) returns (len: nat)
    requires n < buffer.Length && buffer != out && |UnescapeBytes(buffer[..], n)| <= out.Length
    modifies out
    ensures len == |UnescapeBytes(buffer[..], n)| && out[..len] == UnescapeBytes(buffer[..], n)
    ensures out[len..] == old(out[len..])
  {
    ghost var s, done, whole, stale := buffer[..], [], UnescapeBytes(buffer[..], n), out[..];
    len := 0;
    var i := 0;
    while i < n
      invariant buffer[..] == s && len <= out.Length && out[..len] == done && out[len..] == stale[len..]
      invariant i <= n + 1 && Scanned(s, n, i, done, whole)
    {
      var b := buffer[i];
      ScanNext(s, n, i, done, whole);
      if b == IDLE {
        i := i + 1;
      } else {
        if b == BYTE_ESC {
          i := i + 1;
          b := Xor20(buffer[i]);
        }
        len := Put(out, len, b);
        i := i + 1;
        done := done + [b];
      }
    }
  }

  /** The first `i` bytes are done. */
  ghost predicate Scanned(s: seq<Byte>, n: nat, i: nat, done: seq<Byte>, whole: seq<Byte>)
    requires i <= n + 1 && n < |s|
  {
    done + UnescapeBytes(s[i..], n - i) == whole
  }

  lemma ScanNext(s: seq<Byte>, n: nat, i: nat, done: seq<Byte>, whole: seq<Byte>)
    requires i < n < |s| && Scanned(s, n, i, done, whole)
    ensures
      if s[i] == IDLE then Scanned(s, n, i + 1, done, whole)
      else
        var b := if s[i] == BYTE_ESC then Xor20(s[i + 1]) else s[i];
        |done| < |whole| && Scanned(s, n, if s[i] == BYTE_ESC then i + 2 else i + 1, done + [b], whole)
  {
    UnescapeNext(s, i, n);
    if s[i] == BYTE_ESC {
      Ahead(done, [Xor20(s[i + 1])], UnescapeBytes(s[i + 2..], n - i - 2), whole);
    } else if s[i] != IDLE {
      Ahead(done, [s[i]], UnescapeBytes(s[i + 1..], n - i - 1), whole);
    }
  }

  lemma UnescapeNext(s: seq<Byte>, i: nat, n: nat)
    requires i < n < |s|
    ensures UnescapeBytes(s[i..], n - i)
         == if s[i] == IDLE then UnescapeBytes(s[i + 1..], n - i - 1)
            else if s[i] == BYTE_ESC then [Xor20(s[i + 1])] + UnescapeBytes(s[i + 2..], n - i - 2)
            else [s[i]] + UnescapeBytes(s[i + 1..], n - i - 1)
  {
    assert s[i..][1..] == s[i + 1..];
    if s[i] == BYTE_ESC {
      assert s[i..][2..] == s[i + 2..];
    }
  }

  method PrintInto(data: array<Byte>, n: nat, out: array<Byte>) returns (len: nat)
    requires n <= data.Length && data != out && |Packet(data[..n])| <= out.Length
    modifies out
    ensures len == |Packet(data[..n])| && out[..len] == Packet(data[..n])
  {
    ghost var s, whole := data[..n], Packet(data[..n]);
    len := PutHead(out);
    ghost var done := out[..len];
    for i := 0 to n
      invariant data[..n] == s && len <= out.Length && out[..len] == done
      invariant Printed(s, i, done, whole)
    {
      var b := data[i];
      PrintNext(s, i, done, whole);
      done := done + Marked(s, i);
      if i == n - 1 {
        len := Put(out, len, EOP);
      }
      if b == SOP || b == EOP || b == CHANNEL || b == ESC {
        len := Put(out, len, ESC);
        len := Put(out, len, Xor20(b));
      } else {
        len := Put(out, len, b);
      }
    }
  }

  /** The first `i` bytes of data are done. */
  ghost predicate Printed(s: seq<Byte>, i: nat, done: seq<Byte>, whole: seq<Byte>)
    requires i <= |s|
  {
    done + Payload(s[i..]) == whole
  }

  lemma PrintNext(s: seq<Byte>, i: nat, done: seq<Byte>, whole: seq<Byte>)
    requires i < |s| && Printed(s, i, done, whole)
    ensures |done| + |Marked(s, i)| <= |whole| && Printed(s, i + 1, done + Marked(s, i), whole)
  {
    PayloadNext(s, i);
    Ahead(done, Marked(s, i), Payload(s[i + 1..]), whole);
  }

  method PutHead(out: array<Byte>) returns (len: nat)
    requires out.Length >= 3
    modifies out
    ensures len == 3 && out[..len] == [SOP, CHANNEL, 0]
  {
    len := Put(out, 0, SOP);
    len := Put(out, len, CHANNEL);
    len := Put(out, len, 0);
  }

  /** The symbol of one byte of data, behind the end mark if the byte is the last. */
  ghost function Marked(s: seq<Byte>, i: nat): seq<Byte>
    requires i < |s|
  {
    (if i == |s| - 1 then [EOP] else []) + EscapeSymbol(s[i])
  }

  lemma PayloadNext(s: seq<Byte>, i: nat)
    requires i < |s|
    ensures Payload(s[i..]) == Marked(s, i) + Payload(s[i + 1..])
  {
    assert s[i..][1..] == s[i + 1..];
    if i == |s| - 1 {
      assert Payload(s[i + 1..]) == [];
    }
  }

  /** Where the data after the first start mark begins; `n` when there is none. */
  method AfterStart(buffer: array<Byte>, n: nat) returns (i: nat)
    requires n + 2 <= buffer.Length
    ensures i <= n && ParseBody(buffer[i..], n - i) == Parse(buffer[..], n)
  {
    i := 0;
    while i < n
      invariant i <= n && Parse(buffer[i..], n - i) == Parse(buffer[..], n)
    {
      assert buffer[i..][1..] == buffer[i + 1..];
      i := i + 1;
      if buffer[i - 1] == SOP { break; }
    }
  }

  method ParseInto(buffer: array<Byte>, n: nat, out: array<Byte>) returns (len: nat)
    requires n + 2 <= buffer.Length && buffer != out && |Parse(buffer[..], n)| <= out.Length
    modifies out
    ensures len == |Parse(buffer[..], n)| && out[..len] == Parse(buffer[..], n)
    ensures out[len..] == old(out[len..])
  {
    ghost var s, done, whole, stale := buffer[..], [], Parse(buffer[..], n), out[..];
    len := 0;
    var i := AfterStart(buffer, n);
    while i < n
      invariant buffer[..] == s && i <= n + 1 && len <= out.Length && out[..len] == done && out[len..] == stale[len..]
      invariant done + ParseBody(s[i..], n - i) == whole
    {
      var b, next := NextByte(buffer, i, n);
      Ahead(done, [b], ParseBody(s[next..], n - next), whole);
      len := Put(out, len, b);
      i := next;
      done := done + [b];
    }
  }

  /** The next byte of the data, and where to go on: behind the end mark, at the end. */
  method NextByte(buffer: array<Byte>, at: nat, n: nat) returns (b: Byte, next: nat)
    requires at < n && n + 2 <= buffer.Length
    ensures at < next <= n + 1
    ensures ParseBody(buffer[at..], n - at) == [b] + ParseBody(buffer[next..], n - next)
  {
    BodyNext(buffer[..], at, n);
    var i, end := at, buffer[at] == EOP;
    if end { i := i + 1; }
    b := buffer[i];
    if b == ESC || b == CHANNEL || b == SOP {
      i := i + 1;
      b := Xor20(buffer[i]);
    }
    next := if end then n else i + 1;
  }

  lemma BodyNext(s: seq<Byte>, i: nat, n: nat)
    requires i < n <= |s| - 2
    ensures ParseBody(s[i..], n - i)
         == if Flips(s[i]) then [Xor20(s[i + 1])] + ParseBody(s[i + 2..], n - i - 2)
            else if s[i] == EOP then (if Flips(s[i + 1]) then [Xor20(s[i + 2])] else [s[i + 1]])
            else [s[i]] + ParseBody(s[i + 1..], n - i - 1)
  {
    assert s[i..][1..] == s[i + 1..] && s[i..][2..] == s[i + 2..];
  }

  // The bus transactions

  const HEADER_LEN := 8
  const RESPONSE_LEN := 4
  const DATA_MAX := 1024
  const TRANSACTION_BUFFER := 1032
  const PACKET_BUFFER := 2068
  const BYTE_BUFFER := 4136

  predicate Writes(kind: Byte) {
    kind == 0x04 || kind == 0x00
  }

  predicate Reads(kind: Byte) {
    kind == 0x14 || kind == 0x10
  }

  function Header(kind: Byte, size: nat, address: nat): (h: seq<Byte>)
    ensures |h| == HEADER_LEN
  {
    [kind, 0, size / 0x100 % 0x100, size % 0x100,
     address / 0x1000000 % 0x100, address / 0x10000 % 0x100, address / 0x100 % 0x100, address % 0x100]
  }

  function TwoBytes(high: nat, low: nat): nat {
    0x100 * high + low
  }

  /** The header holds the kind of the transaction, and the size and the address, high byte first. */
  lemma HeaderHolds(kind: Byte, size: nat, address: nat)
    requires size < 0x10000 && address < 0x1_0000_0000
    ensures
      var h := Header(kind, size, address);
      && h[0] == kind && h[1] == 0 && size == TwoBytes(h[2], h[3])
      && address == 0x10000 * TwoBytes(h[4], h[5]) + TwoBytes(h[6], h[7])
  {
    FourBytes(address, address / 0x100, address / 0x10000, address / 0x1000000);
  }

  /** The driver scans eight times the doubled length of the longest packet of an answer. */
  function ScanLength(responseLength: nat): nat {
    16 * (2 * responseLength + 4)
  }

  const LENGTH_INSIDE := 127
  const LENGTH_SUFFICES := 62

  /**
   The scan stays inside the static byte buffer up to answers of 127 bytes, and for longer ones it
   leaves the buffer, whatever the buffer holds.
   */
  lemma ScanStaysInside(s: seq<Byte>, responseLength: nat)
    requires |s| == BYTE_BUFFER
    ensures Inside(s, 0, ScanLength(responseLength)) <==> responseLength <= LENGTH_INSIDE
  {
    InsideOrNot(s, 0, ScanLength(responseLength));
  }

  /** The static packet buffer holds what is unescaped, for all bytes in the byte buffer, up to 62 bytes. */
  lemma PacketBufferSuffices(responseLength: nat)
    requires responseLength <= LENGTH_INSIDE
    ensures
      (forall s: seq<Byte> | |s| == BYTE_BUFFER :: |UnescapeBytes(s, ScanLength(responseLength))| <= PACKET_BUFFER)
      <==> responseLength <= LENGTH_SUFFICES
  {
    var n := ScanLength(responseLength);
    if responseLength <= LENGTH_SUFFICES {
      forall s: seq<Byte> | |s| == BYTE_BUFFER ensures |UnescapeBytes(s, n)| <= PACKET_BUFFER {
        UnescapeShortens(s, n);
      }
    } else {
      var zeros: seq<Byte> := seq(BYTE_BUFFER, i => 0);
      UnescapeZeros(zeros, n);
    }
  }

  /** What is unescaped is parsed as the answer; the parser writes no more than it scans. */
  lemma AnswerComesBack(
      x: seq<Byte>, reply: seq<Byte>, k: nat, received: seq<Byte>, packet: seq<Byte>, len: nat)
    requires k <= |reply| && reply <= received && |received| == BYTE_BUFFER && |x| <= LENGTH_INSIDE
    requires k <= ScanLength(|x|) && Carries(reply[..k], Answer(x))
    requires len <= |packet| == PACKET_BUFFER && packet[..len] == UnescapeBytes(received, ScanLength(|x|))
    ensures |Parse(packet, 2 * |x| + 4)| <= 2 * |x| + 4
    ensures x <= Parse(packet, 2 * |x| + 4)
  {
    ParseShortens(packet, 2 * |x| + 4);
    PacketFits(x);
    if x != [] {
      assert received == reply[..k] + received[k..];
      assert packet == packet[..len] + packet[len..];
      RoundTrip(x, reply[..k], received[k..], ScanLength(|x|), packet[len..], 2 * |x| + 4);
    }
  }

  class Spi {
    const transaction: array<Byte>
    const response: array<Byte>
    const sendPacket: array<Byte>
    const responsePacket: array<Byte>
    const sendByte: array<Byte>
    const responseByte: array<Byte>

    ghost predicate Valid() {
      && transaction.Length == response.Length == TRANSACTION_BUFFER
      && sendPacket.Length == responsePacket.Length == PACKET_BUFFER
      && sendByte.Length == responseByte.Length == BYTE_BUFFER
      && transaction !in [response, sendPacket, responsePacket, sendByte, responseByte]
      && response !in [sendPacket, responsePacket, sendByte, responseByte]
      && sendPacket !in [responsePacket, sendByte, responseByte]
      && responsePacket !in [sendByte, responseByte]
      && sendByte != responseByte
    }

    constructor ()
      ensures Valid() && fresh({transaction, response, sendPacket, responsePacket, sendByte, responseByte})
    {
      transaction, response := new Byte[TRANSACTION_BUFFER], new Byte[TRANSACTION_BUFFER];
      sendPacket, responsePacket := new Byte[PACKET_BUFFER], new Byte[PACKET_BUFFER];
      sendByte, responseByte := new Byte[BYTE_BUFFER], new Byte[BYTE_BUFFER];
    }

    /** What the byte buffer holds when `reply` has come in: the old bytes stay behind it. */
    ghost function Received(reply: seq<Byte>): (s: seq<Byte>)
      requires Valid() && |reply| <= BYTE_BUFFER
      reads responseByte
      ensures |s| == BYTE_BUFFER
    {
      reply + responseByte[|reply|..]
    }

    /** The scan for an answer of this length stays inside the buffers. */
    ghost predicate Scannable(reply: seq<Byte>, responseLength: nat)
      requires Valid()
      reads responseByte
    {
      && |reply| <= BYTE_BUFFER && responseLength <= LENGTH_INSIDE
      && |UnescapeBytes(Received(reply), ScanLength(responseLength))| <= PACKET_BUFFER
    }

    /** What the packet buffer holds behind the scan. */
    ghost function Unpacked(reply: seq<Byte>, responseLength: nat): (s: seq<Byte>)
      requires Valid() && Scannable(reply, responseLength)
      reads responseByte, responsePacket
      ensures |s| == PACKET_BUFFER
    {
      var u := UnescapeBytes(Received(reply), ScanLength(responseLength));
      u + responsePacket[|u|..]
    }

    /** What the response buffer holds in the end. */
    ghost function Response(reply: seq<Byte>, responseLength: nat): (s: seq<Byte>)
      requires Valid() && Scannable(reply, responseLength)
      reads responseByte, responsePacket, response
      ensures |s| == TRANSACTION_BUFFER
    {
      var packet := Unpacked(reply, responseLength);
      ParseShortens(packet, 2 * responseLength + 4);
      var r := Parse(packet, 2 * responseLength + 4);
      r + response[|r|..]
    }

    /** The answer `x` comes in within the scan, in the first `k` bytes of the reply. */
    predicate Answers(reply: seq<Byte>, k: nat, x: seq<Byte>) {
      k <= |reply| && k <= ScanLength(|x|) && Carries(reply[..k], Answer(x))
    }

    /** Whatever the buffers held before and whatever comes behind it, the answer is the response. */
    lemma AnswerIsResponse(reply: seq<Byte>, k: nat, x: seq<Byte>)
      requires Valid() && Scannable(reply, |x|) && Answers(reply, k, x)
      ensures Response(reply, |x|)[..|x|] == x
    {
      var packet := Unpacked(reply, |x|);
      var len := |UnescapeBytes(Received(reply), ScanLength(|x|))|;
      assert packet[..len] == UnescapeBytes(Received(reply), ScanLength(|x|));
      AnswerComesBack(x, reply, k, Received(reply), packet, len);
    }

    /** For answers of up to 62 bytes any reply may be scanned, with any bytes in the buffers. */
    lemma ShortIsScannable(reply: seq<Byte>, responseLength: nat)
      requires Valid() && |reply| <= BYTE_BUFFER && responseLength <= LENGTH_SUFFICES
      ensures Scannable(reply, responseLength)
    {
      UnescapeShortens(Received(reply), ScanLength(responseLength));
    }

    /**
     Sends the first `n` bytes of the packet buffer, takes in the reply, and unescapes the first
     bytes of the byte buffer, stale ones too. `max` is the length of the longest packet.
     */
    method ByteToCoreConvert(n: nat, max: nat, reply: seq<Byte>, ghost responseLength: nat) returns (sent: nat)
      requires Valid() && n <= PACKET_BUFFER && max == 2 * responseLength + 4 && Scannable(reply, responseLength)
      modifies sendByte, responseByte, responsePacket
      ensures sent <= BYTE_BUFFER && sendByte[..sent] == EscapeBytes(sendPacket[..n])
      ensures responsePacket[..] == old(Unpacked(reply, responseLength))
    {
      ghost var packet, received, stale := sendPacket[..n], Received(reply), responsePacket[..];
      EscapedAtMostTwice(packet);
      sent := EscapeInto(sendPacket, n, sendByte);
      ghost var wire := sendByte[..sent];
      forall i | 0 <= i < |reply| {
        responseByte[i] := reply[i];
      }
      assert responseByte[..] == received;
      var len := UnescapeInto(responseByte, 16 * max, responsePacket);
      assert sendPacket[..n] == packet && sendByte[..sent] == wire;
      Halves(responsePacket[..], stale, len);
    }

    /**
     Sends the first `n` bytes of the transaction as a packet and parses what has come in.
     */
    method PacketToByteConvert(data: array<Byte>, n: nat, responseLength: nat, reply: seq<Byte>) returns (sent: nat)
      requires Valid() && data !in [response, sendPacket, responsePacket, sendByte, responseByte]
      requires n <= data.Length && n <= TRANSACTION_BUFFER && Scannable(reply, responseLength)
      modifies response, sendPacket, responsePacket, sendByte, responseByte
      ensures 2 * sent <= BYTE_BUFFER && sendByte[..sent] == Wire(data[..n])
      ensures response[..] == old(Response(reply, responseLength))
    {
      PacketFits(data[..n]);
      var packetLength := PrintInto(data, n, sendPacket);
      var max := 2 * responseLength + 4;
      sent := ByteToCoreConvert(packetLength, max, reply, responseLength);
      ghost var stale := response[..];
      ParseShortens(responsePacket[..], max);
      var len := ParseInto(responsePacket, max, response);
      Halves(response[..], stale, len);
    }

    /**
     A write sends header and data and compares the acknowledged size; a read sends the header
     and hands over the response. `ok` is what the call returns. The transfer takes in twice as
     many bytes as it sends, and these fit.
     */
    method DoTransaction(
        kind: Byte, size: nat, address: nat, data: array<Byte>, reply: seq<Byte>, ghost k: nat, ghost x: seq<Byte>)
      returns (ok: bool, sent: nat)
      requires Valid() && data !in [transaction, response, sendPacket, responsePacket, sendByte, responseByte]
      requires size <= DATA_MAX && size <= data.Length && address < 0x1_0000_0000
      requires |reply| <= BYTE_BUFFER && (Reads(kind) ==> Scannable(reply, size))
      modifies data, transaction, response, sendPacket, responsePacket, sendByte, responseByte
      ensures 2 * sent <= BYTE_BUFFER
      ensures Writes(kind) ==>
        && sendByte[..sent] == Wire(Header(kind, size, address) + old(data[..size])) && data[..] == old(data[..])
        && ok == (size == TwoBytes(response[2], response[3]))
        && (Answers(reply, k, x) && |x| == RESPONSE_LEN ==> ok == (size == TwoBytes(x[2], x[3])))
      ensures Reads(kind) ==>
        && sendByte[..sent] == Wire(Header(kind, size, address)) && ok
        && data[..] == response[..size] + old(data[size..])
        && (Answers(reply, k, x) && |x| == size ==> data[..size] == x)
      ensures Writes(kind) ==> old(Scannable(reply, RESPONSE_LEN)) && response[..] == old(Response(reply, RESPONSE_LEN))
      ensures Reads(kind) ==> response[..] == old(Response(reply, size))
      ensures !Writes(kind) && !Reads(kind) ==> data[..] == old(data[..]) && sent == 0 && !ok
    {
      ok, sent := false, 0;
      if Writes(kind) {
        ShortIsScannable(reply, RESPONSE_LEN);
        if Answers(reply, k, x) && |x| == RESPONSE_LEN {
          AnswerIsResponse(reply, k, x);
        }
        ok, sent := WriteTransaction(kind, size, address, data, reply);
        assert response[..RESPONSE_LEN][2] == response[2] && response[..RESPONSE_LEN][3] == response[3];
      } else if Reads(kind) {
        if Answers(reply, k, x) && |x| == size {
          AnswerIsResponse(reply, k, x);
        }
        sent := ReadTransaction(kind, size, address, data, reply);
        ok := true;
      }
    }

    method WriteTransaction(kind: Byte, size: nat, address: nat, data: array<Byte>, reply: seq<Byte>)
      returns (ok: bool, sent: nat)
      requires Valid() && data !in [transaction, response, sendPacket, responsePacket, sendByte, responseByte]
      requires size <= DATA_MAX && size <= data.Length && Scannable(reply, RESPONSE_LEN)
      modifies transaction, response, sendPacket, responsePacket, sendByte, responseByte
      ensures 2 * sent <= BYTE_BUFFER && sendByte[..sent] == Wire(Header(kind, size, address) + old(data[..size]))
      ensures response[..] == old(Response(reply, RESPONSE_LEN)) && ok == (size == TwoBytes(response[2], response[3]))
    {
      ghost var bytes := Header(kind, size, address) + data[..size];
      PutHeader(kind, size, address, transaction);
      forall i | 0 <= i < size {
        transaction[HEADER_LEN + i] := data[i];
      }
      assert transaction[..size + HEADER_LEN] == bytes;
      sent := PacketToByteConvert(transaction, size + HEADER_LEN, RESPONSE_LEN, reply);
      ok := size == TwoBytes(response[2], response[3]);
    }

    method ReadTransaction(kind: Byte, size: nat, address: nat, data: array<Byte>, reply: seq<Byte>)
      returns (sent: nat)
      requires Valid() && data !in [transaction, response, sendPacket, responsePacket, sendByte, responseByte]
      requires size <= data.Length && Scannable(reply, size)
      modifies data, response, sendPacket, responsePacket, sendByte, responseByte
      ensures 2 * sent <= BYTE_BUFFER && sendByte[..sent] == Wire(Header(kind, size, address))
      ensures response[..] == old(Response(reply, size)) && data[..] == response[..size] + old(data[size..])
    {
      var head := new Byte[HEADER_LEN];
      PutHeader(kind, size, address, head);
      assert head[..HEADER_LEN] == Header(kind, size, address);
      sent := PacketToByteConvert(head, HEADER_LEN, size, reply);
      forall i | 0 <= i < size {
        data[i] := response[i];
      }
      assert data[..] == response[..size] + old(data[size..]);
    }
  }

  lemma Halves(s: seq<Byte>, stale: seq<Byte>, len: nat)
    requires len <= |s| == |stale| && s[len..] == stale[len..]
    ensures s == s[..len] + stale[len..]
  {
  }

  method PutHeader(kind: Byte, size: nat, address: nat, out: array<Byte>)
    requires out.Length >= HEADER_LEN
    modifies out
    ensures out[..HEADER_LEN] == Header(kind, size, address)
  {
    out[0], out[1], out[2], out[3] := kind, 0, size / 0x100 % 0x100, size % 0x100;
    out[4], out[5] := address / 0x1000000 % 0x100, address / 0x10000 % 0x100;
    out[6], out[7] := address / 0x100 % 0x100, address % 0x100;
  }

  lemma PacketFits(x: seq<Byte>)
    ensures |Packet(x)| <= 2 * |x| + 4 && |Answer(x)| == |Packet(x)| && |Wire(x)| <= 2 * |x| + 4
  {
    if x != [] {
      Lengths(x);
    } else {
      HeadEscaped([]);
    }
  }

  lemma {:induction false} ParseShortens(s: seq<Byte>, n: int)
    requires |s| >= n + 2 && n >= 0
    ensures |Parse(s, n)| <= n
    decreases |s|
  {
    if n > 0 {
      if s[0] == SOP {
        BodyShortens(s[1..], n - 1);
      } else {
        ParseShortens(s[1..], n - 1);
      }
    }
  }

  lemma {:induction false} BodyShortens(s: seq<Byte>, n: int)
    requires |s| >= n + 2
    ensures |ParseBody(s, n)| <= if n < 0 then 0 else n
    decreases |s|
  {
    if n > 0 {
      BodyShortens(s[1..], n - 1);
      BodyShortens(s[2..], n - 2);
    }
  }

  lemma {:induction false} EscapedAtMostTwice(s: seq<Byte>)
    ensures |s| <= |EscapeBytes(s)| <= 2 * |s|
  {
    if s != [] {
      EscapedAtMostTwice(s[1..]);
    }
  }
}
