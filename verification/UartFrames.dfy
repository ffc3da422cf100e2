// The frames of the oversampling UART: what they consist of, bit by bit.
module UartFrames {
  import opened Bits

  datatype Parity = NoParity | Even | Odd

  /** `len` is one less than the number of data bits; `two` asks for two stop bits. */
  datatype Config = Config(len: Index, parity: Parity, two: bool)

  datatype Phase = Idle | Start | Data | Check | Stop

  function DataOf(cfg: Config, byte: Octet): (w: Word)
    ensures |w| == cfg.len + 1
  {
    byte[..cfg.len + 1]
  }

  /** The parity of a word, on top of what the configuration asks for. */
  function ParityOf(cfg: Config, w: Word): bool {
    if w == [] then cfg.parity == Odd else ParityOf(cfg, w[..|w| - 1]) != w[|w| - 1]
  }

  function Ones(w: Word): set<nat> {
    set i: nat | i < |w| && w[i]
  }

  lemma OnesOfLast(w: Word, n: nat)
    requires |w| == n + 1
    ensures |Ones(w)| == |Ones(w[..n])| + if w[n] then 1 else 0
  {
    var rest := Ones(w[..n]);
    var last: set<nat> := if w[n] then {n} else {};
    assert Ones(w) == rest + last && n !in rest;
  }

  predicate IsEven(n: nat) {
    n % 2 == 0
  }

  /** With the parity bit the number of ones is odd for odd parity and even otherwise. */
  lemma {:induction false} ParityCounts(cfg: Config, w: Word)
    ensures IsEven(|Ones(w)| + if ParityOf(cfg, w) then 1 else 0) <==> cfg.parity != Odd
    decreases |w|
  {
    if w != [] {
      var n := |w| - 1;
      ParityCounts(cfg, w[..n]);
      OnesOfLast(w, n);
    }
  }

  /** The number of the first stop bit. */
  function FirstStop(cfg: Config): nat {
    cfg.len + 2 + if cfg.parity == NoParity then 0 else 1
  }

  function FrameLength(cfg: Config): nat {
    FirstStop(cfg) + if cfg.two then 2 else 1
  }

  /** Bit `j` of the frame that carries `w`. */
  function FrameBit(cfg: Config, w: Word, j: nat): bool
    requires |w| == cfg.len + 1
  {
    if j == 0 then false
    else if j <= cfg.len + 1 then w[j - 1]
    else if j < FirstStop(cfg) then ParityOf(cfg, w)
    else true
  }

  /** What bit `j` is. */
  function PhaseOf(cfg: Config, j: nat): Phase {
    if j == 0 then Start else if j <= cfg.len + 1 then Data else if j < FirstStop(cfg) then Check else Stop
  }

  /** The count within the phase. */
  function CountIn(cfg: Config, j: nat): nat {
    if 1 <= j <= cfg.len + 1 then j - 1 else if j > FirstStop(cfg) then j - FirstStop(cfg) else 0
  }
}
