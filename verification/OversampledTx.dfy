// The transmitter of the oversampling UART. Its state moves with the sampling ticks, eight to a
// bit; the line is a register behind it.
module OversampledTx {
  import opened Bits
  import opened UartFrames

  datatype Tx = Tx(tick: Index, count: Index, phase: Phase, parity: bool)

  datatype Offer = Offer(valid: bool, byte: Octet)

  function Up(i: Index): Index {
    if i == 7 then 0 else i + 1
  }

  /** The level that goes into the line register. */
  function Txd(s: Tx, w: Offer): bool {
    match s.phase
    case Start => false
    case Data => w.byte[s.count]
    case Check => s.parity
    case _ => true
  }

  predicate TakesByte(cfg: Config, s: Tx) {
    s.tick == 7 && s.phase == Data && s.count == cfg.len
  }

  /** A sampling tick. */
  function OnTick(cfg: Config, s: Tx, w: Offer): Tx {
    if s.tick < 7 then s.(tick := s.tick + 1)
    else
      var s' := s.(tick := 0, count := Up(s.count), parity := s.parity != Txd(s, w));
      match s.phase
      case Idle => s'.(phase := if w.valid then Start else Idle)
      case Start => s'.(parity := cfg.parity == Odd, count := 0, phase := Data)
      case Data =>
        if s.count != cfg.len then s'
        else s'.(count := 0, phase := if cfg.parity == NoParity then Stop else Check)
      case Check => s'.(count := 0, phase := Stop)
      case Stop =>
        if s.count != (if cfg.two then 1 else 0) then s' else s'.(phase := if w.valid then Start else Idle)
  }

  class UartCtrlTx {
    var tick: Index
    var count: Index
    var phase: Phase
    var parity: bool
    var txd: bool

    function State(): Tx
      reads this
    {
      Tx(tick, count, phase, parity)
    }

    /** The counter and the parity have no initial value. */
    constructor (count: Index, parity: bool)
      ensures State() == Tx(0, count, Idle, parity) && txd
    {
      this.count, this.parity := count, parity;
      tick, phase, txd := 0, Idle, true;
    }

    method Tick(cfg: Config, sampling: bool, w: Offer) returns (ready: bool)
      modifies this
      ensures State() == if sampling then OnTick(cfg, old(State()), w) else old(State())
      ensures txd == Txd(old(State()), w)
      ensures ready == (sampling && TakesByte(cfg, old(State())))
    {
      var bitEnds := sampling && tick == 7;
      var level := true;
      match phase {
        case Idle =>
        case Start => level := false;
        case Data => level := w.byte[count];
        case Check => level := parity;
        case Stop =>
      }
      ready := bitEnds && phase == Data && count == cfg.len;
      txd := level;
      if sampling { tick := if tick == 7 then 0 else tick + 1; }
      if bitEnds {
        var was := count;
        count, parity := if count == 7 then 0 else count + 1, parity != level;
        match phase {
          case Idle =>
            if w.valid { phase := Start; }
          case Start =>
            parity, count, phase := cfg.parity == Odd, 0, Data;
          case Data =>
            if was == cfg.len {
              count := 0;
              phase := if cfg.parity == NoParity then Stop else Check;
            }
          case Check =>
            count, phase := 0, Stop;
          case Stop =>
            if was == (if cfg.two then 1 else 0) {
              phase := if w.valid then Start else Idle;
            }
        }
      }
    }
  }

  // Frames

  /** In tick `i` of bit `j` of the frame that carries `byte`. */
  predicate InBit(cfg: Config, s: Tx, byte: Octet, j: nat, i: nat) {
    && s.tick == i && s.phase == PhaseOf(cfg, j) && (j > 0 ==> s.count == CountIn(cfg, j))
    && (1 <= j <= cfg.len + 1 ==> s.parity == ParityOf(cfg, byte[..j - 1]))
    && (s.phase == Check ==> s.parity == ParityOf(cfg, DataOf(cfg, byte)))
  }

  /** At the end of the last bit of a frame, or of an idle bit. */
  predicate Free(cfg: Config, s: Tx) {
    s.tick == 7 && (s.phase == Idle || (s.phase == Stop && s.count == if cfg.two then 1 else 0))
  }

  /** In the bits that need the byte it is there, and in them the line shows the frame. */
  lemma ShowsBit(cfg: Config, s: Tx, w: Offer, byte: Octet, j: nat, i: nat)
    requires InBit(cfg, s, byte, j, i) && j < FrameLength(cfg)
    requires s.phase == Data ==> w.byte == byte
    ensures Txd(s, w) == FrameBit(cfg, DataOf(cfg, byte), j)
    ensures TakesByte(cfg, s) <==> j == cfg.len + 1 && i == 7
    ensures j == FrameLength(cfg) - 1 && i == 7 ==> Free(cfg, s)
  {
  }

  lemma NextTick(cfg: Config, s: Tx, w: Offer, byte: Octet, j: nat, i: nat)
    requires InBit(cfg, s, byte, j, i) && j < FrameLength(cfg) && i < 8
    requires s.phase == Data ==> w.byte == byte
    ensures i < 7 ==> InBit(cfg, OnTick(cfg, s, w), byte, j, i + 1)
    ensures i == 7 && j + 1 < FrameLength(cfg) ==> InBit(cfg, OnTick(cfg, s, w), byte, j + 1, 0)
  {
    if i == 7 && 1 <= j <= cfg.len + 1 {
      assert byte[..j][..j - 1] == byte[..j - 1];
    }
  }

  /** The next frame begins, or an idle bit. */
  lemma NextFrame(cfg: Config, s: Tx, w: Offer)
    requires Free(cfg, s)
    ensures w.valid ==> InBit(cfg, OnTick(cfg, s, w), w.byte, 0, 0)
    ensures !w.valid ==> OnTick(cfg, s, w).phase == Idle && OnTick(cfg, s, w).tick == 0
    ensures !TakesByte(cfg, s) && Txd(s, w)
  {
  }
}
