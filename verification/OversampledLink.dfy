// The oversampling transmitter wired to the receiver, tick by tick, over a line that may flip
// some of the samples.
module OversampledLink {
  import opened Bits
  import opened UartFrames
  import T = OversampledTx
  import R = OversampledRx

  /**
   By the number of the sampling tick: the offers, the transmitter, which samples are flipped,
   what the receiver samples, the majorities, and the receiver's state machine. A sample shows
   the transmitter of `lag` ticks ago.
   */
  datatype Link = Link(
    cfg: Config, lag: nat, offer: nat -> T.Offer, tx: nat -> T.Tx, noise: nat -> bool, sample: nat -> bool,
    value: R.Values, rx: R.Run)

  predicate TxAt(l: Link, k: nat) {
    l.tx(k + 1) == T.OnTick(l.cfg, l.tx(k), l.offer(k))
  }

  /** An offered byte stays until it is taken. */
  predicate HeldAt(l: Link, k: nat) {
    l.offer(k).valid && !T.TakesByte(l.cfg, l.tx(k)) ==> l.offer(k + 1) == l.offer(k)
  }

  predicate MayFlip(s: T.Tx) {
    s.phase == Data || s.phase == Check
  }

  /** The first two samples may be low, before the line has come through the flops. */
  predicate SampleAt(l: Link, k: nat) {
    k >= 2 ==>
      l.sample(k) == if k < l.lag then true else T.Txd(l.tx(k - l.lag), l.offer(k - l.lag)) != l.noise(k)
  }

  function Sample(l: Link, k: int): bool {
    k < 0 || l.sample(k)
  }

  predicate ValueAt(l: Link, k: nat) {
    l.value(k)
    == R.Majority(Sample(l, k), Sample(l, k - 1), Sample(l, k - 2), Sample(l, k - 3), Sample(l, k - 4))
  }

  function Flips(l: Link, k: nat): nat {
    R.Count(l.noise(k))
  }

  /** Only samples of data and parity bits are flipped, and of the five that count at most two. */
  predicate MildAt(l: Link, k: nat) {
    k >= l.lag && k >= 2 ==>
      var s := l.tx(k - l.lag);
      && (l.noise(k) ==> MayFlip(s))
      && (MayFlip(s) && s.tick == 5 && k >= 4 ==>
           Flips(l, k) + Flips(l, k - 1) + Flips(l, k - 2) + Flips(l, k - 3) + Flips(l, k - 4) <= 2)
  }

  ghost predicate Linked(l: Link) {
    && l.lag <= 3 && l.tx(0).phase == Idle && l.tx(0).tick == 0 && l.rx(0).phase == Idle
    && R.IsRun(l.cfg, l.value, l.rx)
    && (forall k: nat :: TxAt(l, k))
    && (forall k: nat :: HeldAt(l, k))
    && (forall k: nat :: SampleAt(l, k))
    && (forall k: nat :: ValueAt(l, k))
    && (forall k: nat :: MildAt(l, k))
  }

  /** The bytes taken before tick `k`, in their low bits. */
  function Accepted(l: Link, k: nat): seq<Word> {
    if k == 0 then []
    else
      Accepted(l, k - 1) + if T.TakesByte(l.cfg, l.tx(k - 1)) then [DataOf(l.cfg, l.offer(k - 1).byte)] else []
  }

  function Received(l: Link, k: nat): seq<Word> {
    R.Received(l.cfg, l.value, l.rx, k)
  }

  // The transmitter

  /** Tick `k` is tick `i` of bit `j` of the byte that was offered at tick `m`. */
  predicate Sending(l: Link, m: nat, k: nat, j: nat, i: nat) {
    && T.InBit(l.cfg, l.tx(k), l.offer(m).byte, j, i)
    && (j <= l.cfg.len + 1 ==> l.offer(k) == l.offer(m))
    && Accepted(l, k) == Accepted(l, m) + if j <= l.cfg.len + 1 then [] else [DataOf(l.cfg, l.offer(m).byte)]
  }

  predicate Begins(l: Link, m: nat) {
    T.Free(l.cfg, l.tx(m)) && l.offer(m).valid
  }

  lemma {:induction false} SendsFrame(l: Link, m: nat, k: nat, j: nat, i: nat)
    requires Linked(l) && Begins(l, m) && j < FrameLength(l.cfg) && i < 8 && k == m + 1 + 8 * j + i
    ensures Sending(l, m, k, j, i)
    decreases j, i
  {
    if i > 0 {
      SendsFrame(l, m, k - 1, j, i - 1);
      SendsNext(l, m, k - 1, j, i - 1);
    } else if j > 0 {
      SendsFrame(l, m, k - 1, j - 1, 7);
      SendsNext(l, m, k - 1, j - 1, 7);
    } else {
      assert k == m + 1 && TxAt(l, m) && HeldAt(l, m);
      T.NextFrame(l.cfg, l.tx(m), l.offer(m));
    }
  }

  lemma SendsNext(l: Link, m: nat, k: nat, j: nat, i: nat)
    requires Linked(l) && l.offer(m).valid && j < FrameLength(l.cfg) && i < 8 && Sending(l, m, k, j, i)
    ensures i < 7 ==> Sending(l, m, k + 1, j, i + 1)
    ensures i == 7 && j + 1 < FrameLength(l.cfg) ==> Sending(l, m, k + 1, j + 1, 0)
  {
    assert TxAt(l, k) && HeldAt(l, k);
    T.NextTick(l.cfg, l.tx(k), l.offer(k), l.offer(m).byte, j, i);
    T.ShowsBit(l.cfg, l.tx(k), l.offer(k), l.offer(m).byte, j, i);
  }

  /** When the transmitter is free again. */
  function NextFree(l: Link, m: nat): nat {
    m + 8 * if l.offer(m).valid then FrameLength(l.cfg) else 1
  }

  lemma FrameSent(l: Link, m: nat)
    requires Linked(l) && Begins(l, m)
    ensures T.Free(l.cfg, l.tx(NextFree(l, m)))
    ensures Accepted(l, NextFree(l, m)) == Accepted(l, m) + [DataOf(l.cfg, l.offer(m).byte)]
  {
    var k, last := NextFree(l, m), FrameLength(l.cfg) - 1;
    SendsFrame(l, m, k, last, 7);
    T.ShowsBit(l.cfg, l.tx(k), l.offer(k), l.offer(m).byte, last, 7);
  }

  /** An idle bit, or the first seven ticks after power-up. */
  lemma {:induction false} IdlesOn(l: Link, m: nat, n: nat)
    requires Linked(l) && n < 8 && l.tx(m).phase == Idle && l.tx(m).tick == 0
    ensures l.tx(m + n).phase == Idle && l.tx(m + n).tick == n && Accepted(l, m + n) == Accepted(l, m)
  {
    if n > 0 {
      IdlesOn(l, m, n - 1);
      assert TxAt(l, m + n - 1);
    }
  }

  // The line

  /** Where the frame that begins at tick `m` is first sampled. */
  function FirstSample(l: Link, m: nat): nat {
    m + 1 + l.lag
  }

  lemma SampleOfBit(l: Link, m: nat, j: nat, i: nat)
    requires Linked(l) && Begins(l, m) && j < FrameLength(l.cfg) && i < 8 && m >= 1
    ensures
      var k := FirstSample(l, m) + 8 * j + i;
      && l.sample(k) == (FrameBit(l.cfg, DataOf(l.cfg, l.offer(m).byte), j) != l.noise(k))
      && (l.noise(k) ==> PhaseOf(l.cfg, j) == Data || PhaseOf(l.cfg, j) == Check)
  {
    var k := FirstSample(l, m) + 8 * j + i;
    SendsFrame(l, m, k - l.lag, j, i);
    T.ShowsBit(l.cfg, l.tx(k - l.lag), l.offer(k - l.lag), l.offer(m).byte, j, i);
    assert SampleAt(l, k) && MildAt(l, k);
  }

  lemma FewFlips(l: Link, m: nat, j: nat)
    requires Linked(l) && Begins(l, m) && j < FrameLength(l.cfg) && m >= 1
    requires PhaseOf(l.cfg, j) == Data || PhaseOf(l.cfg, j) == Check
    ensures
      var k := FirstSample(l, m) + 8 * j + 5;
      Flips(l, k) + Flips(l, k - 1) + Flips(l, k - 2) + Flips(l, k - 3) + Flips(l, k - 4) <= 2
  {
    var k := FirstSample(l, m) + 8 * j + 5;
    SendsFrame(l, m, k - l.lag, j, 5);
    assert MildAt(l, k);
  }

  /** The majority for bit `j` is bit `j`. */
  lemma ValueOfBit(l: Link, m: nat, j: nat)
    requires Linked(l) && Begins(l, m) && j < FrameLength(l.cfg) && m >= 1
    ensures l.value(FirstSample(l, m) + 8 * j + 5) == FrameBit(l.cfg, DataOf(l.cfg, l.offer(m).byte), j)
  {
    SampleOfBit(l, m, j, 1);
    SampleOfBit(l, m, j, 2);
    SampleOfBit(l, m, j, 3);
    SampleOfBit(l, m, j, 4);
    SampleOfBit(l, m, j, 5);
    assert ValueAt(l, FirstSample(l, m) + 8 * j + 5);
    if PhaseOf(l.cfg, j) == Data || PhaseOf(l.cfg, j) == Check {
      FewFlips(l, m, j);
    }
  }

  // Frame by frame

  ghost predicate HighIn(l: Link, from: nat, to: nat) {
    forall k :: from <= k < to ==> l.sample(k)
  }

  /**
   At tick `m` the transmitter is free; what has been taken has been received, and the receiver is
   idle two ticks before a frame from here would be sampled, with six high samples before that.
   */
  ghost predicate Synced(l: Link, m: nat) {
    var a := FirstSample(l, m);
    && m >= 7 && T.Free(l.cfg, l.tx(m))
    && l.rx(a - 2).phase == Idle && HighIn(l, a - 6, a)
    && Received(l, a - 2) == Accepted(l, m)
  }

  /** With three of the five samples high the majority is high. */
  lemma MostlyHigh(l: Link, k: nat, to: nat)
    requires Linked(l) && k >= 4 && k - 2 < to && HighIn(l, k - 4, to)
    ensures l.value(k)
  {
    assert ValueAt(l, k);
  }

  lemma AtFirst(l: Link)
    requires Linked(l)
    ensures Synced(l, 7)
  {
    IdlesOn(l, 0, 7);
    var a := FirstSample(l, 7);
    forall k | 2 <= k < a ensures l.sample(k) {
      if k >= l.lag {
        IdlesOn(l, 0, k - l.lag);
      }
      assert SampleAt(l, k) && MildAt(l, k);
    }
    forall k | 0 <= k < a - 2 ensures l.value(k) {
      assert ValueAt(l, k);
    }
    R.StaysIdle(l.cfg, l.value, l.rx, 0, a - 2);
  }

  lemma IdleSamples(l: Link, m: nat)
    requires Linked(l) && Synced(l, m) && !l.offer(m).valid
    ensures HighIn(l, FirstSample(l, m), FirstSample(l, m) + 8)
    ensures T.Free(l.cfg, l.tx(m + 8)) && Accepted(l, m + 8) == Accepted(l, m)
  {
    var a := FirstSample(l, m);
    T.NextFrame(l.cfg, l.tx(m), l.offer(m));
    assert TxAt(l, m);
    IdlesOn(l, m + 1, 7);
    forall k | a <= k < a + 8 ensures l.sample(k) {
      IdlesOn(l, m + 1, k - a);
      assert SampleAt(l, k) && MildAt(l, k);
    }
  }

  lemma IdleBit(l: Link, m: nat)
    requires Linked(l) && Synced(l, m) && !l.offer(m).valid
    ensures Synced(l, m + 8)
  {
    var a := FirstSample(l, m);
    IdleSamples(l, m);
    forall k | a - 2 <= k < a + 6 ensures l.value(k) {
      MostlyHigh(l, k, a + 8);
    }
    R.StaysIdle(l.cfg, l.value, l.rx, a - 2, 8);
  }

  /** The start bit is noticed at its third sample. */
  lemma StartNoticed(l: Link, m: nat)
    requires Linked(l) && Synced(l, m) && l.offer(m).valid
    ensures
      var d := FirstSample(l, m) + 2;
      l.rx(d).phase == Idle && !l.value(d) && Received(l, d) == Accepted(l, m)
  {
    var a := FirstSample(l, m);
    SampleOfBit(l, m, 0, 0);
    SampleOfBit(l, m, 0, 1);
    SampleOfBit(l, m, 0, 2);
    forall k | a - 2 <= k < a + 2 ensures l.value(k) {
      MostlyHigh(l, k, a);
    }
    assert ValueAt(l, a + 2);
    R.StaysIdle(l.cfg, l.value, l.rx, a - 2, 4);
  }

  lemma FrameReceived(l: Link, m: nat)
    requires Linked(l) && Synced(l, m) && l.offer(m).valid
    ensures
      var a := FirstSample(l, NextFree(l, m));
      && l.rx(a - 2).phase == Idle && HighIn(l, a - 6, a)
      && Received(l, a - 2) == Accepted(l, m) + [DataOf(l.cfg, l.offer(m).byte)]
  {
    var a, w := FirstSample(l, m), DataOf(l.cfg, l.offer(m).byte);
    var d := a + 2;
    StartNoticed(l, m);
    forall j: nat | j < FrameLength(l.cfg) ensures R.ShowsBit(l.cfg, l.value, d, w, j) {
      ValueOfBit(l, m, j);
      assert R.SampleTick(d, j) == a + 8 * j + 5;
    }
    R.Receives(l.cfg, l.value, l.rx, d, w);
    var last := FrameLength(l.cfg) - 1;
    forall k | a + 8 * last + 2 <= k < a + 8 * last + 8 ensures l.sample(k) {
      SampleOfBit(l, m, last, k - (a + 8 * last));
    }
  }

  lemma StaysSynced(l: Link, m: nat)
    requires Linked(l) && Synced(l, m)
    ensures Synced(l, NextFree(l, m))
  {
    if l.offer(m).valid {
      FrameSent(l, m);
      FrameReceived(l, m);
    } else {
      IdleBit(l, m);
    }
  }

  /** The ticks at which a frame may begin: behind the last one, or behind an idle bit. */
  function FreeTick(l: Link, n: nat): nat {
    if n == 0 then 7 else NextFree(l, FreeTick(l, n - 1))
  }

  lemma FreeLater(l: Link, m: nat)
    ensures NextFree(l, m) >= m + 8
  {
  }

  lemma {:induction false} FreeTicksSynced(l: Link, n: nat)
    requires Linked(l)
    ensures FreeTick(l, n) >= 7 + 8 * n && Synced(l, FreeTick(l, n))
  {
    if n == 0 {
      AtFirst(l);
    } else {
      FreeTicksSynced(l, n - 1);
      StaysSynced(l, FreeTick(l, n - 1));
      FreeLater(l, FreeTick(l, n - 1));
    }
  }

  /** Every byte that is taken is received, once, in order, and with the same low bits. */
  lemma AllArrive(l: Link, n: nat)
    requires Linked(l)
    ensures FreeTick(l, n) >= 7 + 8 * n && Synced(l, FreeTick(l, n))
    ensures Received(l, FirstSample(l, FreeTick(l, n)) - 2) == Accepted(l, FreeTick(l, n))
  {
    FreeTicksSynced(l, n);
  }
}
