// One frame of the counter-based UART, sent with `n` clocks per bit and received with `m`.
module UartTolerance {
  import opened Bits
  import opened Clocks
  import opened UartLink
  import opened UartTiming
  import T = UartTx
  import R = UartRx

  /** A single offer, at time `t`. */
  function Alone(t: nat, byte: Octet): T.Trace {
    (x: nat) => T.Offer(x == t, byte)
  }

  /** The sample of the last data bit falls into the last data bit. */
  predicate Fits(n: nat, m: nat)
    requires m > 0
  {
    8 * n <= 8 * m + (m - 1) / 2 + 1 < 9 * n
  }

  ghost predicate FirstReportIs(rx: R.Run, byte: Octet) {
    exists x: nat :: R.Reports(rx, x) == [byte]
  }

  // The line

  lemma {:induction false} QuietBefore(n: nat, tx: T.Run, t: nat, byte: Octet, x: nat)
    requires T.IsRun(n, Alone(t, byte), tx) && T.Quiet(tx(0)) && x <= t
    ensures T.Quiet(tx(x))
  {
    if x > 0 {
      QuietBefore(n, tx, t, byte, x - 1);
      assert T.StepAt(n, Alone(t, byte), tx, x - 1);
    }
  }

  lemma {:induction false} QuietBehind(n: nat, tx: T.Run, t: nat, byte: Octet, k: nat)
    requires n > 0 && T.IsRun(n, Alone(t, byte), tx) && T.Quiet(tx(0))
    ensures T.Quiet(tx(T.NextIdle(n, t) + k))
  {
    if k == 0 {
      QuietBefore(n, tx, t, byte, t);
      T.FrameEnds(n, Alone(t, byte), tx, t);
    } else {
      QuietBehind(n, tx, t, byte, k - 1);
      assert T.StepAt(n, Alone(t, byte), tx, T.NextIdle(n, t) + k - 1);
    }
  }

  /** The line `o` clocks after it has gone low, in bit `j` or behind all of them. */
  lemma LineIn(n: nat, tx: T.Run, t: nat, byte: Octet, o: nat, j: nat)
    requires n > 0 && T.IsRun(n, Alone(t, byte), tx) && T.Quiet(tx(0))
    requires j <= 9 && j * n <= o && (j < 9 ==> o < (j + 1) * n)
    ensures tx(t + 2 + o).serial == Level(byte, j)
  {
    QuietBefore(n, tx, t, byte, t);
    if o < 10 * n {
      var c := o - j * n;
      assert c < n by { assert (j + 1) * n == j * n + n; }
      SpanIsProduct(n, j);
      T.SendsFrame(n, Alone(t, byte), tx, t, j, c);
    } else {
      QuietBehind(n, tx, t, byte, o - 10 * n);
    }
  }

  // The receiver

  ghost predicate OneFrame(n: nat, m: nat, t: nat, byte: Octet, tx: T.Run, rx: R.Run) {
    n > 1 && m > 1 && Linked(n, Alone(t, byte), tx, m, rx) && T.Quiet(tx(0))
  }

  /** It sees the line `o` clocks after it has gone low. */
  lemma SeesLine(n: nat, m: nat, t: nat, byte: Octet, tx: T.Run, rx: R.Run, o: nat, j: nat)
    requires OneFrame(n, m, t, byte, tx, rx)
    requires j <= 9 && j * n <= o && (j < 9 ==> o < (j + 1) * n)
    ensures rx(t + 4 + o).second == Level(byte, j)
  {
    LineIn(n, tx, t, byte, o, j);
    R.TwoFlops(m, Wire(tx), rx, t + 4 + o);
  }

  lemma ReadyAtFirst(n: nat, m: nat, t: nat, byte: Octet, tx: T.Run, rx: R.Run)
    requires OneFrame(n, m, t, byte, tx, rx)
    ensures R.Ready(rx(t + 4).core) && !rx(t + 4).second && R.Reports(rx, t + 4) == []
  {
    forall x | 0 <= x < t + 4 ensures rx(x).second {
      R.TwoFlops(m, Wire(tx), rx, x);
      if x >= 2 {
        QuietBefore(n, tx, t, byte, if x - 2 <= t then x - 2 else t);
        assert T.StepAt(n, Alone(t, byte), tx, t);
      }
    }
    R.StaysReady(m, Wire(tx), rx, 0, t + 4);
    SeesLine(n, m, t, byte, tx, rx, 0, 0);
  }

  /** A low start bit in its middle: a byte is reported, and these are its bits. */
  lemma ReportsSamples(n: nat, m: nat, t: nat, byte: Octet, tx: T.Run, rx: R.Run) returns (end: nat)
    requires OneFrame(n, m, t, byte, tx, rx) && !rx(t + 4 + (R.Half(m) + 1)).second
    ensures
      && R.Reports(rx, end) == [] && R.Reports(rx, end + 1) == [rx(end).core.byte]
      && forall k :: 0 <= k < 8 ==> rx(end).core.byte[k] == rx(t + 4 + Offset(m, k)).second
  {
    ReadyAtFirst(n, m, t, byte, tx, rx);
    end := t + 6 + R.Half(m) + 9 * m;
    R.Receives(m, Wire(tx), rx, t + 4, t + 6 + R.Half(m), end);
    forall k | 0 <= k < 8 ensures rx(end).core.byte[k] == rx(t + 4 + Offset(m, k)).second {
      SpanIsProduct(m, k);
      assert (k + 1) * m == k * m + m;
      assert R.SampleTime(m, t + 6 + R.Half(m), k) == t + 4 + Offset(m, k);
    }
  }

  /** How long after the line has gone low data bit `k` is sampled. */
  function Offset(m: nat, k: nat): nat
    requires m > 0
  {
    (k + 1) * m + R.Half(m) + 1
  }

  /** If the last sample fits then all do, and so does the look at the start bit. */
  lemma AllFit(n: nat, m: nat, j: nat)
    requires n > 1 && m > 1 && j <= 8 && Fits(n, m)
    ensures j * n <= j * m + R.Half(m) + 1 < (j + 1) * n
  {
    if n >= m {
      MulGrows(n - m, j, 8);
      assert j * n == j * m + (n - m) * j;
    } else {
      MulGrows(m - n, j, 8);
      assert j * m == j * n + (m - n) * j;
    }
  }

  lemma GoodFrame(n: nat, m: nat, t: nat, byte: Octet, tx: T.Run, rx: R.Run)
    requires OneFrame(n, m, t, byte, tx, rx) && Fits(n, m)
    ensures FirstReportIs(rx, byte)
  {
    AllFit(n, m, 0);
    SeesLine(n, m, t, byte, tx, rx, R.Half(m) + 1, 0);
    var end := ReportsSamples(n, m, t, byte, tx, rx);
    forall k | 0 <= k < 8 ensures rx(end).core.byte[k] == byte[k] {
      AllFit(n, m, k + 1);
      SeesLine(n, m, t, byte, tx, rx, Offset(m, k), k + 1);
    }
    assert rx(end).core.byte == byte;
  }

  lemma OtherReport(rx: R.Run, byte: Octet, end: nat)
    requires R.Reports(rx, end) == [] && R.Reports(rx, end + 1) == [rx(end).core.byte] && rx(end).core.byte != byte
    ensures !FirstReportIs(rx, byte)
  {
    forall x: nat ensures R.Reports(rx, x) != [byte] {
      if x <= end {
        R.ReportsGrow(rx, x, end);
      } else {
        R.ReportsGrow(rx, end + 1, x);
        assert R.Reports(rx, x)[0] == rx(end).core.byte;
      }
    }
  }

  /** Sampled too early, the last bit is taken for an earlier one. */
  lemma EarlyFrame(n: nat, m: nat, t: nat, tx: T.Run, rx: R.Run)
    requires OneFrame(n, m, t, LAST, tx, rx) && Offset(m, 7) < 8 * n
    ensures !FirstReportIs(rx, LAST)
  {
    SeesLine(n, m, t, LAST, tx, rx, R.Half(m) + 1, 0);
    var end := ReportsSamples(n, m, t, LAST, tx, rx);
    var o := Offset(m, 7);
    InSomeBit(n, o, 8);
    SeesLine(n, m, t, LAST, tx, rx, o, o / n);
    OtherReport(rx, LAST, end);
  }

  lemma InSomeBit(n: nat, o: nat, bits: nat)
    requires n > 0 && o < bits * n
    ensures o / n < bits && (o / n) * n <= o < (o / n + 1) * n
  {
    if o / n >= bits {
      MulGrows(n, bits, o / n);
    }
  }

  /** Sampled too late, the last bit is taken for the stop bit; or the start bit is not noticed. */
  lemma LateFrame(n: nat, m: nat, t: nat, tx: T.Run, rx: R.Run)
    requires OneFrame(n, m, t, NONE, tx, rx) && Offset(m, 7) >= 9 * n
    ensures !FirstReportIs(rx, NONE)
  {
    var o := R.Half(m) + 1;
    if o < 9 * n {
      InSomeBit(n, o, 9);
      SeesLine(n, m, t, NONE, tx, rx, o, o / n);
      var end := ReportsSamples(n, m, t, NONE, tx, rx);
      SeesLine(n, m, t, NONE, tx, rx, Offset(m, 7), 9);
      OtherReport(rx, NONE, end);
    } else {
      forall x: nat ensures R.Reports(rx, x) == [] {
        NothingReported(n, m, t, NONE, tx, rx, x);
      }
    }
  }

  lemma NothingReported(n: nat, m: nat, t: nat, byte: Octet, tx: T.Run, rx: R.Run, x: nat)
    requires OneFrame(n, m, t, byte, tx, rx) && R.Half(m) + 1 >= 9 * n
    ensures R.Reports(rx, x) == []
  {
    var end := t + 6 + R.Half(m);
    ReadyAtFirst(n, m, t, byte, tx, rx);
    SeesLine(n, m, t, byte, tx, rx, R.Half(m) + 1, 9);
    R.Starts(m, Wire(tx), rx, t + 4);
    if x <= end {
      R.ReportsGrow(rx, x, end);
    } else {
      forall y | end <= y < x ensures rx(y).second {
        SeesLine(n, m, t, byte, tx, rx, y - (t + 4), 9);
      }
      R.StaysReady(m, Wire(tx), rx, end, x - end);
    }
  }

  const LAST: Octet := [false, false, false, false, false, false, false, true]
  const NONE: Octet := [false, false, false, false, false, false, false, false]

  /** A frame is read right, whatever byte it carries, if and only if the last sample fits. */
  lemma Tolerance(n: nat, m: nat, t: nat)
    requires n > 1 && m > 1
    ensures (forall byte, tx, rx :: OneFrame(n, m, t, byte, tx, rx) ==> FirstReportIs(rx, byte)) <==> Fits(n, m)
  {
    if Fits(n, m) {
      forall byte, tx, rx | OneFrame(n, m, t, byte, tx, rx) ensures FirstReportIs(rx, byte) {
        GoodFrame(n, m, t, byte, tx, rx);
      }
    } else {
      var byte := if Offset(m, 7) < 8 * n then LAST else NONE;
      var tx := T.RunFrom(n, T.Tx(Idle, 0, 0, NONE, true, false, false), Alone(t, byte));
      var rx := R.RunFrom(m, R.Rx(R.Core(Idle, 0, 0, NONE, false), true, true), Wire(tx));
      assert OneFrame(n, m, t, byte, tx, rx);
      if byte == LAST {
        EarlyFrame(n, m, t, tx, rx);
      } else {
        LateFrame(n, m, t, tx, rx);
      }
    }
  }

  // One clock per bit

  const ONES: Octet := Constant(true, 8)

  lemma OneLowClock(t: nat, tx: T.Run, rx: R.Run, y: nat)
    requires Linked(1, Alone(t, ONES), tx, 1, rx) && T.Quiet(tx(0))
    ensures rx(y).second == (y != t + 4)
  {
    R.TwoFlops(1, Wire(tx), rx, y);
    if y >= t + 4 {
      var o := y - (t + 4);
      LineIn(1, tx, t, ONES, o, if o < 9 then o else 9);
    } else if y >= 2 {
      QuietBefore(1, tx, t, ONES, if y - 2 <= t then y - 2 else t);
      QuietBefore(1, tx, t, ONES, t);
      HighWhenIdle(1, Alone(t, ONES), tx, t);
    }
  }

  /** With one clock per bit the look at the start bit comes when it is over: a byte of ones is never reported. */
  lemma OneClockLoses(t: nat, tx: T.Run, rx: R.Run, x: nat)
    requires Linked(1, Alone(t, ONES), tx, 1, rx) && T.Quiet(tx(0))
    ensures R.Reports(rx, x) == []
  {
    forall y: nat ensures rx(y).second == (y != t + 4) {
      OneLowClock(t, tx, rx, y);
    }
    R.StaysReady(1, Wire(tx), rx, 0, t + 4);
    R.Starts(1, Wire(tx), rx, t + 4);
    if x <= t + 6 {
      R.ReportsGrow(rx, x, t + 6);
    } else {
      R.StaysReady(1, Wire(tx), rx, t + 6, x - (t + 6));
    }
  }
}
