// The host program: it scans the byte stream for twelve bytes of ones and then takes twelve
// bytes at a time.
module PrintFrame {
  import opened Bits
  import opened Lfsr
  import opened Pulses
  import opened Pipelines
  import opened Sequences
  import opened Telemetry

  // Waiting for sync

  predicate OnesAt(src: seq<Byte>, w: nat) {
    w + FRAME <= |src| && forall i :: w <= i < w + FRAME ==> src[i] == 255
  }

  /** `w` is the first place where twelve bytes of ones begin. */
  predicate FirstOnes(src: seq<Byte>, w: nat) {
    OnesAt(src, w) && forall v :: 0 <= v < w ==> !OnesAt(src, v)
  }

  method WaitForSync(src: seq<Byte>) returns (found: bool, pos: nat)
    ensures found ==> FRAME <= pos <= |src| && FirstOnes(src, pos - FRAME)
    ensures !found ==> forall w: nat :: !OnesAt(src, w)
  {
    var sync: seq<Byte> := seq(FRAME, i => 255);
    var syncBuffer: seq<Byte> := seq(FRAME, i => 0);
    pos := 0;
    while sync != syncBuffer
      invariant pos <= |src| && |syncBuffer| == FRAME
      invariant forall i :: 0 <= i < FRAME ==>
        syncBuffer[i] == if pos + i < FRAME then 0 else src[pos + i - FRAME]
      invariant forall v :: 0 <= v && v + FRAME < pos ==> !OnesAt(src, v)
      decreases |src| - pos
    {
      if pos >= FRAME {
        assert !OnesAt(src, pos - FRAME) by {
          var i :| 0 <= i < FRAME && syncBuffer[i] != sync[i];
          assert src[pos - FRAME + i] != 255;
        }
      }
      if pos == |src| {
        return false, pos;
      }
      syncBuffer := syncBuffer + [src[pos]];
      syncBuffer := syncBuffer[1..];
      pos := pos + 1;
    }
    assert syncBuffer[0] == 255;
    forall i | pos - FRAME <= i < pos ensures src[i] == 255 {
      assert sync[i - (pos - FRAME)] == 255;
    }
    found := true;
  }

  // Reading frames

  /** The readings that are not skipped, from a stream that starts on a frame. */
  function Readings(src: seq<Byte>): seq<Reading>
    decreases |src|
  {
    if |src| < FRAME then []
    else (if Parse(src[..FRAME]).state == 0xff_ffff then [] else [Parse(src[..FRAME])]) + Readings(src[FRAME..])
  }

  method ReadFrames(src: seq<Byte>) returns (readings: seq<Reading>)
    ensures readings == Readings(src)
  {
    readings := [];
    var rest := src;
    while |rest| >= FRAME
      invariant readings + Readings(rest) == Readings(src)
      decreases |rest|
    {
      var fields := Parse(rest[..FRAME]);
      if fields.state != 0xff_ffff {
        readings := readings + [fields];
      }
      rest := rest[FRAME..];
    }
  }

  // Where the boundary is found, on a stream of blocks of twelve bytes

  type Block = b: seq<Byte> | |b| == FRAME witness seq(FRAME, i => 0)

  function Join(bs: seq<Block>): (s: seq<Byte>)
    ensures |s| == FRAME * |bs|
  {
    if bs == [] then [] else bs[0] + Join(bs[1..])
  }

  predicate Sync(b: Block) {
    forall i :: 0 <= i < FRAME ==> b[i] == 255
  }

  /** The blocks of beams: the third byte of the offset and of the word hold one bit each. */
  predicate Narrow(b: Block) {
    b[5] <= 1 && b[8] <= 1
  }

  predicate FirstSync(bs: seq<Block>, j: nat) {
    j < |bs| && Sync(bs[j]) && forall k :: 0 <= k < j ==> Narrow(bs[k])
  }

  /** How many bytes at the end of a block are ones; the fourth from the end of a beam is not. */
  function OnesAtEnd(b: Block): (n: nat)
    ensures n <= 3 && (n == 0 <==> b[FRAME - 1] != 255)
  {
    if b[11] != 255 then 0 else if b[10] != 255 then 1 else if b[9] != 255 then 2 else 3
  }

  lemma OnesBehind(a: Block, t: seq<Byte>, v: nat)
    requires v >= FRAME
    ensures OnesAt(a + t, v) <==> OnesAt(t, v - FRAME)
  {
    if OnesAt(t, v - FRAME) {
      assert forall i :: v <= i < v + FRAME ==> (a + t)[i] == t[i - FRAME];
    }
    if OnesAt(a + t, v) {
      assert forall i :: v - FRAME <= i < v ==> t[i] == (a + t)[i + FRAME];
    }
  }

  /** Twelve ones cannot begin in a narrow block, but in the ones at its end before a sync block. */
  lemma NoOnesInNarrow(a: Block, t: seq<Byte>, v: nat)
    requires Narrow(a) && v < FRAME
    requires v < FRAME - OnesAtEnd(a) || (|t| > 5 ==> t[5] <= 1)
    ensures !OnesAt(a + t, v)
  {
    if v + FRAME <= |a + t| {
      var i := if v <= 8 then 8 else if v < FRAME - OnesAtEnd(a) then FRAME - 1 - OnesAtEnd(a) else FRAME + 5;
      assert (a + t)[i] != 255;
    }
  }

  lemma OnesBeforeSync(a: Block, b: Block, t: seq<Byte>)
    requires Sync(b)
    ensures OnesAt(a + (b + t), FRAME - OnesAtEnd(a))
  {
    var s, w := a + (b + t), FRAME - OnesAtEnd(a);
    forall i | w <= i < w + FRAME ensures s[i] == 255 {
      assert s[i] == if i < FRAME then a[i] else b[i - FRAME];
    }
  }

  /** Where the first match begins, when the first sync block is number `j`. */
  function MatchAt(bs: seq<Block>, j: nat): nat
    requires j < |bs|
    decreases j
  {
    if j == 0 then 0
    else if j == 1 then FRAME - OnesAtEnd(bs[0])
    else FRAME + MatchAt(bs[1..], j - 1)
  }

  lemma {:induction false} MatchIsEarly(bs: seq<Block>, j: nat)
    requires j < |bs|
    ensures MatchAt(bs, j) == FRAME * j - (if j == 0 then 0 else OnesAtEnd(bs[j - 1]))
    decreases j
  {
    if j > 1 {
      MatchIsEarly(bs[1..], j - 1);
    }
  }

  /**
   The first match comes at the first sync block, early by as many bytes as the block before it
   ends in ones, which are at most three.
   */
  lemma {:induction false} FirstMatchIsFirstSync(bs: seq<Block>, j: nat)
    requires FirstSync(bs, j)
    ensures FirstOnes(Join(bs), MatchAt(bs, j))
    decreases j
  {
    var a, t := bs[0], Join(bs[1..]);
    if j == 0 {
      assert forall i :: 0 <= i < FRAME ==> Join(bs)[i] == a[i];
    } else {
      var b := bs[1];
      assert t == b + Join(bs[1..][1..]);
      if j == 1 {
        OnesBeforeSync(a, b, Join(bs[1..][1..]));
        forall v | 0 <= v < MatchAt(bs, j) ensures !OnesAt(a + t, v) {
          NoOnesInNarrow(a, t, v);
        }
      } else {
        FirstMatchIsFirstSync(bs[1..], j - 1);
        MatchBehind(a, t, MatchAt(bs[1..], j - 1));
      }
    }
  }

  lemma MatchBehind(a: Block, t: seq<Byte>, w: nat)
    requires Narrow(a) && |t| >= FRAME && t[5] <= 1 && FirstOnes(t, w)
    ensures FirstOnes(a + t, FRAME + w)
  {
    OnesBehind(a, t, FRAME + w);
    forall v | 0 <= v < FRAME + w ensures !OnesAt(a + t, v) {
      if v < FRAME {
        NoOnesInNarrow(a, t, v);
      } else {
        OnesBehind(a, t, v);
      }
    }
  }

  /** Without a sync block there is no match. */
  lemma {:induction false} NoSyncNoMatch(bs: seq<Block>, v: nat)
    requires forall k :: 0 <= k < |bs| ==> Narrow(bs[k])
    ensures !OnesAt(Join(bs), v)
  {
    if bs != [] {
      var a, t := bs[0], Join(bs[1..]);
      if v < FRAME {
        assert bs[1..] != [] ==> t[5] == bs[1][5];
        NoOnesInNarrow(a, t, v);
      } else {
        OnesBehind(a, t, v);
        NoSyncNoMatch(bs[1..], v - FRAME);
      }
    }
  }

  // The blocks of frames

  function Blocks(fs: seq<Frame>): (bs: seq<Block>)
    ensures |bs| == |fs|
  {
    if fs == [] then [] else [Bytes(fs[0])] + Blocks(fs[1..])
  }

  lemma {:induction false} BlocksOf(fs: seq<Frame>)
    ensures Join(Blocks(fs)) == Stream(fs)
    ensures forall k :: 0 <= k < |fs| ==> Blocks(fs)[k] == Bytes(fs[k])
  {
    if fs != [] {
      BlocksOf(fs[1..]);
      assert Blocks(fs)[1..] == Blocks(fs[1..]);
    }
  }

  lemma NarrowByte(w: Word)
    requires |w| == 8 && forall i :: 1 <= i < 8 ==> !w[i]
    ensures Value(w) <= 1
  {
    assert w[1..] == Constant(false, 7);
    ValueOfZeros(7);
  }

  lemma FrameIsSyncOrNarrow(f: Frame)
    ensures f.SyncFrame? ==> Sync(Bytes(f))
    ensures f.BeamFrame? ==> Narrow(Bytes(f))
  {
    if f.SyncFrame? {
      SyncIsSkipped();
    } else {
      PartsOf(f.located);
      NarrowByteOf(f, 5, OffsetBits(f.located)[16..]);
      NarrowByteOf(f, 8, StateBits(f.located)[16..]);
    }
  }

  lemma NarrowByteOf(f: Frame, k: nat, w: Word)
    requires k < FRAME && w == FrameBits(f)[8 * k..8 * k + 8]
    requires forall i :: 1 <= i < 8 ==> !w[i]
    ensures Bytes(f)[k] <= 1
  {
    NarrowByte(w);
  }

  // The whole program

  /** The readings of the beams among the frames. */
  function BeamReadings(fs: seq<Frame>): seq<Reading> {
    if fs == [] then []
    else (if fs[0].BeamFrame? then [ReadingOf(fs[0].located)] else []) + BeamReadings(fs[1..])
  }

  lemma ReadsBlock(b: Block, t: seq<Byte>)
    ensures Readings(b + t) == (if Parse(b).state == 0xff_ffff then [] else [Parse(b)]) + Readings(t)
  {
    assert (b + t)[..FRAME] == b && (b + t)[FRAME..] == t;
  }

  lemma ReadingOfFrame(f: Frame)
    requires InRange(f)
    ensures Parse(Bytes(f)).state == 0xff_ffff <==> f.SyncFrame?
    ensures f.BeamFrame? ==> Parse(Bytes(f)) == ReadingOf(f.located)
  {
    if f.BeamFrame? {
      ParseInvertsPack(f.located);
      BeamIsNotSkipped(f.located);
    } else {
      SyncIsSkipped();
    }
  }

  /** On a frame boundary; the stream may end inside a frame. */
  lemma {:induction false} ReadingsOfFrames(fs: seq<Frame>, rest: seq<Byte>)
    requires |rest| < FRAME && forall f :: f in fs ==> InRange(f)
    ensures Readings(Stream(fs) + rest) == BeamReadings(fs)
  {
    if fs == [] {
      NothingInFront(rest);
    } else {
      assert fs[0] in fs;
      InOrder(Bytes(fs[0]), Stream(fs[1..]), rest);
      ReadsBlock(Bytes(fs[0]), Stream(fs[1..]) + rest);
      ReadingOfFrame(fs[0]);
      ReadingsOfFrames(fs[1..], rest);
    }
  }

  lemma {:induction false} StreamFrom(fs: seq<Frame>, k: nat)
    requires k <= |fs|
    ensures Stream(fs)[FRAME * k..] == Stream(fs[k..])
  {
    if k > 0 {
      StreamFrom(fs[1..], k - 1);
      assert fs[1..][k - 1..] == fs[k..];
      assert Stream(fs)[FRAME * k..] == Stream(fs[1..])[FRAME * (k - 1)..];
    }
  }

  lemma OneFirst(src: seq<Byte>, v: nat, w: nat)
    requires FirstOnes(src, v) && FirstOnes(src, w)
    ensures v == w
  {
  }

  predicate FirstSyncFrame(fs: seq<Frame>, j: nat) {
    j < |fs| && fs[j].SyncFrame? && forall k :: 0 <= k < j ==> fs[k].BeamFrame?
  }

  lemma FramesToBlocks(fs: seq<Frame>, j: nat)
    requires FirstSyncFrame(fs, j)
    ensures FirstSync(Blocks(fs), j) && Join(Blocks(fs)) == Stream(fs)
    ensures MatchAt(Blocks(fs), j) == FRAME * j - (if j == 0 then 0 else OnesAtEnd(Bytes(fs[j - 1])))
  {
    BlocksOf(fs);
    forall k | 0 <= k <= j
      ensures fs[k].SyncFrame? ==> Sync(Blocks(fs)[k])
      ensures fs[k].BeamFrame? ==> Narrow(Blocks(fs)[k])
    {
      FrameIsSyncOrNarrow(fs[k]);
    }
    MatchIsEarly(Blocks(fs), j);
  }

  lemma ReadingsFrom(fs: seq<Frame>, j: nat)
    requires j < |fs| && forall f :: f in fs ==> InRange(f)
    ensures Readings(Stream(fs)[FRAME * (j + 1)..]) == BeamReadings(fs[j + 1..])
  {
    StreamFrom(fs, j + 1);
    ReadingsOfFrames(fs[j + 1..], []);
    assert Stream(fs[j + 1..]) + [] == Stream(fs[j + 1..]);
  }

  lemma TimeBytes(l: Located)
    requires InRange(BeamFrame(l))
    ensures Little(Bytes(BeamFrame(l))[9..12]) == l.identified.pulse.timestamp
  {
    TimeIsRead(l);
    TailFields(l);
  }

  lemma TopByte(s: seq<Byte>)
    requires |s| == 3
    ensures s[2] == Little(s) / 0x1_0000
    ensures Little(s) == TIME - 1 ==> s[0] == s[1] == s[2] == 255
  {
  }

  /** The last byte of a beam is the top byte of its time stamp. */
  lemma LastByteIsTime(l: Located)
    requires InRange(BeamFrame(l))
    ensures Bytes(BeamFrame(l))[FRAME - 1] == l.identified.pulse.timestamp / 0x1_0000
  {
    TimeBytes(l);
    TopByte(Bytes(BeamFrame(l))[9..12]);
  }

  lemma ThreeOnes(l: Located)
    requires InRange(BeamFrame(l)) && l.identified.pulse.timestamp == TIME - 1
    ensures OnesAtEnd(Bytes(BeamFrame(l))) == 3
  {
    var s := Bytes(BeamFrame(l));
    TimeBytes(l);
    TopByte(s[9..12]);
    assert s[9..12][0] == s[9] && s[9..12][1] == s[10] && s[9..12][2] == s[11];
  }

  /** The program on a stream of a beam and a sync frame stops three bytes early for the last time stamp. */
  lemma EarlyMatch(l: Located)
    requires InRange(BeamFrame(l)) && l.identified.pulse.timestamp == TIME - 1
    ensures
      var fs := [BeamFrame(l), SyncFrame];
      FirstSyncFrame(fs, 1) && FirstOnes(Stream(fs), FRAME - 3)
  {
    var fs := [BeamFrame(l), SyncFrame];
    ThreeOnes(l);
    FramesToBlocks(fs, 1);
    FirstMatchIsFirstSync(Blocks(fs), 1);
  }

  /** There is such a beam. */
  lemma EarlyMatchHappens()
    ensures
      var l := Located(0, Identified(NO_POLY, Pulse(0, 0, TIME - 1, Zero(WIDTH))));
      InRange(BeamFrame(l)) && FirstOnes(Stream([BeamFrame(l), SyncFrame]), FRAME - 3)
  {
    EarlyMatch(Located(0, Identified(NO_POLY, Pulse(0, 0, TIME - 1, Zero(WIDTH)))));
  }

  /** The time stamps that make the host stop early when a sync frame follows. */
  predicate StopsEarly(f: Frame) {
    f.BeamFrame? && f.located.identified.pulse.timestamp >= 0xff_0000
  }

  /**
   From the first byte of the scan to the last reading: when the stream holds a sync frame, the
   host finds it, and it starts on a frame boundary iff the time stamp of the beam before the
   first sync frame is below 0xff0000, that is, iff the byte before it is not 0xff; then it reads
   every beam after that, exactly.
   */
  method PrintFrames(src: seq<Byte>, ghost fs: seq<Frame>, ghost j: nat)
    returns (synced: bool, pos: nat, readings: seq<Reading>)
    requires src == Stream(fs) && FirstSyncFrame(fs, j) && forall f :: f in fs ==> InRange(f)
    ensures synced && FRAME * (j + 1) - 3 <= pos <= FRAME * (j + 1) <= |src|
    ensures pos == FRAME * (j + 1) <==> j == 0 || !StopsEarly(fs[j - 1])
    ensures pos == FRAME * (j + 1) ==> readings == BeamReadings(fs[j + 1..])
  {
    FramesToBlocks(fs, j);
    FirstMatchIsFirstSync(Blocks(fs), j);
    if j > 0 {
      assert fs[j - 1] in fs;
      LastByteIsTime(fs[j - 1].located);
    }
    synced, pos := WaitForSync(src);
    if !synced {
      return synced, pos, [];
    }
    OneFirst(src, pos - FRAME, MatchAt(Blocks(fs), j));
    readings := ReadFrames(src[pos..]);
    ReadingsFrom(fs, j);
  }
}
