// What the transmitter and the receiver of the counter-based UART share.
module UartTiming {
  import opened Bits

  datatype Stage = Idle | StartBit | DataBits | StopBit | Cleanup

  /** The line in bit `j` of a frame: start bit, eight data bits, then high. */
  function Level(byte: Octet, j: nat): bool {
    if j == 0 then false else if j <= 8 then byte[j - 1] else true
  }
}
