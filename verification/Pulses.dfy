// The records that travel down the slow-clock pipeline.
module Pulses {
  import opened Lfsr

  const TIME := 0x100_0000  // the timestamp counter has twenty-four bits
  const NO_POLY := 63

  datatype Pulse = Pulse(id: nat, width: nat, timestamp: nat, beamWord: Word17)

  /** A pulse with its polynomial: an index below 32, or NO_POLY. */
  datatype Identified = Identified(npoly: nat, pulse: Pulse)

  datatype Located = Located(offset: nat, identified: Identified)

  /** The states of the two state machines that hold a pulse while they look something up. */
  datatype Fsm = FsmBoot | Idle | TestDelta | WaitFinder | SendResult

  /** The wrapping difference of two timestamps, in units of four ticks. */
  function Quarters(now: nat, before: nat): (d: nat)
    ensures d < TIME / 4
  {
    (now - before) % TIME / 4
  }

  /** `d` ticks later, also across the wrap of the counter. */
  lemma QuartersOfLater(before: nat, d: nat)
    requires before < TIME && d < TIME
    ensures Quarters((before + d) % TIME, before) == d / 4
  {
    assert (before + d) % TIME == if before + d < TIME then before + d else before + d - TIME;
  }
}
