// The transmitter wired to the receiver: with the same clocks per bit every byte arrives, and
// with different ones it is known exactly when a frame still comes through.
module UartLink {
  import opened Bits
  import opened Clocks
  import opened UartTiming
  import T = UartTx
  import R = UartRx

  /** The line is the transmitter's register. */
  function Wire(tx: T.Run): R.Line {
    (t: nat) => tx(t).serial
  }

  /** From power-up; the line register of the transmitter has no initial value. */
  ghost predicate Linked(n: nat, env: T.Trace, tx: T.Run, m: nat, rx: R.Run)
    requires m > 0
  {
    T.IsRun(n, env, tx) && R.IsRun(m, Wire(tx), rx) && tx(0).stage == Idle && R.PowerUp(rx(0))
  }

  // The same clocks per bit

  /**
   The transmitter is idle at `t`; the receiver is ready at `u`, by when it has reported all
   that was accepted before `t`, and since then it has seen, or will see, the line high.
   */
  ghost predicate Synced(n: nat, env: T.Trace, tx: T.Run, rx: R.Run, t: nat, u: nat) {
    && tx(t).stage == Idle && R.Ready(rx(u).core) && u <= t + 4
    && R.Reports(rx, u) == T.Accepted(env, tx, t)
    && forall x: nat :: u <= x <= t + 2 ==> SeesHigh(rx, x)
  }

  predicate SeesHigh(rx: R.Run, x: nat) {
    rx(x).second
  }

  lemma Sees(n: nat, env: T.Trace, tx: T.Run, rx: R.Run, x: nat)
    requires n > 0 && Linked(n, env, tx, n, rx)
    ensures rx(x).second == (x < 2 || tx(x - 2).serial)
  {
    R.TwoFlops(n, Wire(tx), rx, x);
  }

  lemma HighWhenIdle(n: nat, env: T.Trace, tx: T.Run, t: nat)
    requires T.IsRun(n, env, tx) && tx(t).stage == Idle
    ensures tx(t + 1).serial
    ensures !env(t).valid ==> tx(t + 1).stage == Idle && T.Accepted(env, tx, t + 1) == T.Accepted(env, tx, t)
  {
    assert T.StepAt(n, env, tx, t);
  }

  lemma StaysSynced(n: nat, env: T.Trace, tx: T.Run, rx: R.Run, t: nat, u: nat)
    requires n > 0 && Linked(n, env, tx, n, rx) && Synced(n, env, tx, rx, t, u) && !env(t).valid
    ensures Synced(n, env, tx, rx, t + 1, u)
  {
    HighWhenIdle(n, env, tx, t);
    Sees(n, env, tx, rx, t + 3);
  }

  // Power-up with the line low

  /** Nothing has been accepted, and the receiver has not yet come to the middle of what it takes for a start bit. */
  ghost predicate Waking(n: nat, env: T.Trace, tx: T.Run, t: nat)
    requires n > 0
  {
    !tx(0).serial && t <= R.Half(n) && tx(t).stage == Idle && T.Accepted(env, tx, t) == []
  }

  lemma SeesLow(n: nat, env: T.Trace, tx: T.Run, rx: R.Run)
    requires n > 0 && Linked(n, env, tx, n, rx) && !tx(0).serial
    ensures R.Ready(rx(2).core) && !rx(2).second && R.Reports(rx, 2) == []
  {
    Sees(n, env, tx, rx, 0);
    Sees(n, env, tx, rx, 1);
    Sees(n, env, tx, rx, 2);
    R.StaysReady(n, Wire(tx), rx, 0, 2);
  }

  /** With nothing accepted until then, the middle of the start bit rejects the low clock. */
  lemma Rejects(n: nat, env: T.Trace, tx: T.Run, rx: R.Run, t: nat)
    requires n > 0 && Linked(n, env, tx, n, rx) && Waking(n, env, tx, t) && t == R.Half(n)
    ensures Synced(n, env, tx, rx, t, t + 4)
  {
    SeesLow(n, env, tx, rx);
    HighWhenIdle(n, env, tx, t);
    Sees(n, env, tx, rx, t + 3);
    R.Starts(n, Wire(tx), rx, 2);
  }

  // Frames

  /** The receiver's view of a frame that is accepted at `t`: bit `j`, clock `c`. */
  lemma SeesBit(n: nat, env: T.Trace, tx: T.Run, rx: R.Run, t: nat, j: nat, c: nat)
    requires n > 0 && Linked(n, env, tx, n, rx) && T.Accepts(tx(t), env(t)) && j <= 9 && c < n
    ensures rx(t + 4 + Span(n, j) + c).second == Level(env(t).byte, j)
  {
    T.SendsFrame(n, env, tx, t, j, c);
    R.TwoFlops(n, Wire(tx), rx, t + 4 + Span(n, j) + c);
  }

  /**
   The receiver takes the clock `v` for the beginning of the frame that is accepted at `t`. It is
   early when it has seen the line low since power-up, but by no more than half a bit.
   */
  ghost predicate Catches(n: nat, env: T.Trace, tx: T.Run, rx: R.Run, t: nat, v: nat)
    requires n > 0
  {
    && T.Accepts(tx(t), env(t)) && v <= t + 4 <= v + R.Half(n) + 1
    && R.Ready(rx(v).core) && !rx(v).second && !rx(v + 1 + R.Half(n)).second
    && R.Reports(rx, v) == T.Accepted(env, tx, t)
  }

  lemma SeesSamples(n: nat, env: T.Trace, tx: T.Run, rx: R.Run, t: nat, v: nat, k: nat)
    requires n > 1 && Linked(n, env, tx, n, rx) && Catches(n, env, tx, rx, t, v) && k < 8
    ensures rx(R.SampleTime(n, v + 2 + R.Half(n), k)).second == env(t).byte[k]
  {
    var c := v + R.Half(n) + 1 - (t + 4);
    SeesBit(n, env, tx, rx, t, k + 1, c);
    assert R.SampleTime(n, v + 2 + R.Half(n), k) == t + 4 + Span(n, k + 1) + c;
  }

  lemma HighUntilStart(n: nat, env: T.Trace, tx: T.Run, rx: R.Run, t: nat, u: nat)
    requires n > 1 && Linked(n, env, tx, n, rx) && Synced(n, env, tx, rx, t, u)
    ensures forall x :: u <= x < t + 4 ==> rx(x).second
  {
    HighWhenIdle(n, env, tx, t);
    Sees(n, env, tx, rx, t + 3);
    forall x | u <= x < t + 4 ensures rx(x).second {
      assert SeesHigh(rx, x);
    }
  }

  lemma StartIsLow(n: nat, env: T.Trace, tx: T.Run, rx: R.Run, t: nat, x: nat)
    requires n > 1 && Linked(n, env, tx, n, rx) && T.Accepts(tx(t), env(t)) && t + 4 <= x < t + 4 + n
    ensures !rx(x).second
  {
    SeesBit(n, env, tx, rx, t, 0, x - (t + 4));
  }

  /** The receiver is still ready when it sees the start bit. */
  lemma StartArrives(n: nat, env: T.Trace, tx: T.Run, rx: R.Run, t: nat, u: nat)
    requires n > 1 && Linked(n, env, tx, n, rx) && Synced(n, env, tx, rx, t, u) && env(t).valid
    ensures Catches(n, env, tx, rx, t, t + 4)
  {
    HighUntilStart(n, env, tx, rx, t, u);
    R.StaysReady(n, Wire(tx), rx, u, t + 4 - u);
    StartIsLow(n, env, tx, rx, t, t + 4);
    StartIsLow(n, env, tx, rx, t, t + 4 + 1 + R.Half(n));
  }

  /** The receiver still waits for the middle when the start bit comes. */
  lemma StartArrivesEarly(n: nat, env: T.Trace, tx: T.Run, rx: R.Run, t: nat)
    requires n > 1 && Linked(n, env, tx, n, rx) && Waking(n, env, tx, t) && t < R.Half(n) && env(t).valid
    ensures Catches(n, env, tx, rx, t, 2)
  {
    SeesLow(n, env, tx, rx);
    StartIsLow(n, env, tx, rx, t, 3 + R.Half(n));
  }

  /** When the receiver is ready again after a frame. */
  function ReadyAgain(n: nat, v: nat): nat
    requires n > 0
  {
    v + 3 + R.Half(n) + 9 * n
  }

  lemma ByteArrives(n: nat, env: T.Trace, tx: T.Run, rx: R.Run, t: nat, v: nat, byte: Octet)
    requires n > 1 && Linked(n, env, tx, n, rx) && Catches(n, env, tx, rx, t, v)
    requires forall k :: 0 <= k < 8 ==> byte[k] == rx(R.SampleTime(n, v + 2 + R.Half(n), k)).second
    ensures byte == env(t).byte
  {
    forall k | 0 <= k < 8 ensures byte[k] == env(t).byte[k] {
      SeesSamples(n, env, tx, rx, t, v, k);
    }
  }

  lemma FrameArrives(n: nat, env: T.Trace, tx: T.Run, rx: R.Run, t: nat, v: nat)
    requires n > 1 && Linked(n, env, tx, n, rx) && Catches(n, env, tx, rx, t, v)
    ensures R.Ready(rx(ReadyAgain(n, v)).core)
    ensures R.Reports(rx, ReadyAgain(n, v)) == T.Accepted(env, tx, t) + [env(t).byte]
  {
    var start, end := v + 2 + R.Half(n), ReadyAgain(n, v) - 1;
    R.Receives(n, Wire(tx), rx, v, start, end);
    ByteArrives(n, env, tx, rx, t, v, rx(end).core.byte);
  }

  lemma HighBehindFrame(n: nat, env: T.Trace, tx: T.Run, rx: R.Run, t: nat, v: nat, x: nat)
    requires n > 1 && Linked(n, env, tx, n, rx) && Catches(n, env, tx, rx, t, v)
    requires ReadyAgain(n, v) <= x <= T.NextIdle(n, t) + 2
    ensures SeesHigh(rx, x)
  {
    SpanIsProduct(n, 9);
    if x < T.NextIdle(n, t) + 2 {
      SeesBit(n, env, tx, rx, t, 9, x - (t + 4 + 9 * n));
    } else {
      T.FrameEnds(n, env, tx, t);
      Sees(n, env, tx, rx, x);
    }
  }

  lemma FrameSynced(n: nat, env: T.Trace, tx: T.Run, rx: R.Run, t: nat, v: nat)
    requires n > 1 && Linked(n, env, tx, n, rx) && Catches(n, env, tx, rx, t, v)
    ensures Synced(n, env, tx, rx, T.NextIdle(n, t), ReadyAgain(n, v))
  {
    FrameArrives(n, env, tx, rx, t, v);
    T.FrameEnds(n, env, tx, t);
    forall x: nat | ReadyAgain(n, v) <= x <= T.NextIdle(n, t) + 2 ensures SeesHigh(rx, x) {
      HighBehindFrame(n, env, tx, rx, t, v, x);
    }
  }

  // Whole runs

  /** The clocks in which the transmitter is idle: one clock on, or behind the next frame. */
  function IdleTime(n: nat, env: T.Trace, k: nat): nat {
    if k == 0 then 0
    else
      var t := IdleTime(n, env, k - 1);
      if env(t).valid then T.NextIdle(n, t) else t + 1
  }

  /** Either the receiver is ready, or it is still busy with the low clock of power-up. */
  ghost predicate Follows(n: nat, env: T.Trace, tx: T.Run, rx: R.Run, t: nat, u: nat)
    requires n > 0
  {
    Synced(n, env, tx, rx, t, u) || (u == 0 && t < R.Half(n) && Waking(n, env, tx, t))
  }

  lemma AtFirst(n: nat, env: T.Trace, tx: T.Run, rx: R.Run) returns (u: nat)
    requires n > 0 && Linked(n, env, tx, n, rx)
    ensures Follows(n, env, tx, rx, 0, u)
  {
    u := 0;
    if tx(0).serial {
      forall x: nat | x <= 2 ensures SeesHigh(rx, x) {
        Sees(n, env, tx, rx, x);
      }
    } else if R.Half(n) == 0 {
      Rejects(n, env, tx, rx, 0);
      u := 4;
    }
  }

  lemma FollowsOn(n: nat, env: T.Trace, tx: T.Run, rx: R.Run, t: nat, u: nat) returns (u': nat)
    requires n > 1 && Linked(n, env, tx, n, rx) && Follows(n, env, tx, rx, t, u)
    ensures Follows(n, env, tx, rx, if env(t).valid then T.NextIdle(n, t) else t + 1, u')
  {
    u' := u;
    if env(t).valid {
      var v := t + 4;
      if Synced(n, env, tx, rx, t, u) {
        StartArrives(n, env, tx, rx, t, u);
      } else {
        StartArrivesEarly(n, env, tx, rx, t);
        v := 2;
      }
      FrameSynced(n, env, tx, rx, t, v);
      u' := ReadyAgain(n, v);
    } else if Synced(n, env, tx, rx, t, u) {
      StaysSynced(n, env, tx, rx, t, u);
    } else {
      HighWhenIdle(n, env, tx, t);
      if t + 1 == R.Half(n) {
        Rejects(n, env, tx, rx, t + 1);
        u' := t + 5;
      }
    }
  }

  /**
   Every byte arrives once, in order and unchanged: up to four clocks after each idle clock of
   the transmitter, what has been reported is what has been accepted. The level of the line at
   power-up does not matter.
   */
  lemma {:induction false} AllArrive(n: nat, env: T.Trace, tx: T.Run, rx: R.Run, k: nat) returns (u: nat)
    requires n > 1 && Linked(n, env, tx, n, rx)
    ensures k <= IdleTime(n, env, k) && u <= IdleTime(n, env, k) + 4
    ensures R.Reports(rx, u) == T.Accepted(env, tx, IdleTime(n, env, k))
    ensures Follows(n, env, tx, rx, IdleTime(n, env, k), u)
  {
    if k == 0 {
      u := AtFirst(n, env, tx, rx);
    } else {
      u := AllArrive(n, env, tx, rx, k - 1);
      u := FollowsOn(n, env, tx, rx, IdleTime(n, env, k - 1), u);
    }
  }
}
