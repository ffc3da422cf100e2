# Clocked protocols and codecs, verified in Dafny

This project models the protocol parts of the FPGA and driver repository and proves what they do
over whole runs. A hardware module is a class whose `Tick` is one clock; its contract equates the
new registers with a step function of the old ones, and the theorems are about runs of that
function, for every parameter (depth, clocks per bit, divider, count). Driver code is a class with
the driver's fields or a set of methods over its buffers. Sizes of words are explicit: a word is a
sequence of bits, lowest first.

- **Lighthouse pipeline**: `Bits`, `Lfsr`, `OffsetFinder`, `PulseOffsetFinder`, `PolyFinder`,
  `PulseIdentifier`, `Pulses`, `StreamFifo`, `ToggleCrossing`, `StreamArbiter`, `Pipeline`,
  `Reports`, `Progress`, `TopLevel`, `Telemetry`, `PrintFrame`, `Delivery`, `Sequences`. Pulses of two sensors pass FIFOs,
  a merging arbiter, the search for the polynomial and the search for the offset, and leave as
  frames, byte by byte, that the host parses; `Reports` says what every
  frame must say, without the state machines; `Progress` that everything gets out; `Delivery` puts
  the parts together.
- **SPI packet codec**: `SpiPacketCodec`. Two nested escape layers with printer, parser and
  fixed buffers.
- **JTAG driver**: `TapController` (the device, drawn from IEEE Std 1149.1-2013, clause 6.1),
  `JtagWords`, `Jtag`. The driver keeps its own copy of the controller's state; the methods
  require and ensure that copy and device agree, and say which scans the device updates and under
  which instruction.
- **Counter-based UART**: `Clocks`, `UartTiming`, `UartTx`, `UartRx`, `UartLink`, `UartTolerance`.
- **Oversampling UART**: `UartFrames`, `OversampledTx`, `OversampledRx`, `OversampledLink`,
  `UartCtrl`.
- **SPI master** and **group debouncer**: `SpiMaster`, `Debouncer`.

## What the proofs found

- A comparison of pulses 1022 or 1023 quarters apart looks at the wrong window, because the step
  count is cut to ten bits (`PulseIdentifying.WindowOf`).
- The host's search for the sync frame can stop up to three bytes early, and then it goes on
  off the frame boundary; it is exact if and only if the time stamp before the first sync frame is
  below 0xff0000 (`PrintFrame.PrintFrames`, `PrintFrame.EarlyMatchHappens`).
- A result is handed over with a reset even when no search was needed; the reset then meets idle
  engines and does nothing (`PulseOffsetFinding.WrapperInLockStep`).
- Sync frames go before reports: each one holds up the report in the pipe register by one clock, and one
  that is due while the last one still waits is lost; nothing else holds a report up but a full FIFO, so
  every accepted pulse is reported in a bounded time (`Pipelines.SyncsConserve`, `Progress.AllIsReported`).
- The comment in `uart_tx.v` says that the done output is high for one clock; the code keeps it
  high for two (`UartTx.FrameEnds`).
- The counter-based receiver reads every byte of a foreign clock right if and only if its last
  sample falls into the last data bit (`UartTolerance.Tolerance`).
- A JTAG write leaves its data scan open; the reset at the start of the next call is what updates
  it, with one bit more than the driver sent: the last bit again, or a one when the next call is the
  search (`JtagDriver.Host.WriteBuffer`, `JtagDriver.Host.Session`). A read of one word likewise sends
  the top bit of the address twice (`JtagDriver.Host.ReadBuffer`).
- The comment on the static SPI buffers says that they suffice for transactions of up to 1024 bytes.
  For sending they do. For receiving the scan is longer than the reply: it stays inside the byte
  buffer up to 127 bytes, and the packet buffer suffices whatever the stale bytes are up to 62
  (`SpiPacketCodec.ScanStaysInside`, `SpiPacketCodec.PacketBufferSuffices`).
- The line register of the counter-based transmitter has no initial value. When it is low at
  power-up the first frame may be sampled early, by up to half a bit, and still every byte arrives
  (`UartLink.AllArrive`).

## Model

| member | source | states |
|---|---|---|
| Lfsr.StepBitByBit | fpga_icestorm2/LighthouseTopLevel.v.delete:1735-1740 | one shift: the new lowest bit is set iff the number of tapped bits that are set is odd, and every other bit is the one below it |
| Lfsr.StepIsBijection | fpga_icestorm2/LighthouseTopLevel.v.delete:1735-1740 | the feedback shift has an inverse on 17-bit words for every mask whose top bit is set |
| Lfsr.StepsLinear | fpga_icestorm2/LighthouseTopLevel.v.delete:425-511 | any number of shifts is linear over exclusive or |
| Lfsr.StepsAdd | fpga_icestorm2/LighthouseTopLevel.v.delete:1735-1740 | steps compose: m steps and then n are m + n steps |
| Lfsr.OrbitReturns | fpga_icestorm2/LighthouseTopLevel.v.delete:1735-1740 | every word comes back to itself after at least one and at most 2^17 steps: orbits have no tail |
| Lfsr.OrbitIsPeriodic | fpga_icestorm2/LighthouseTopLevel.v.delete:1735-1740 | the steps from a word repeat with the period of its orbit |
| Lfsr.OffsetIsUnique | fpga_icestorm2/LighthouseTopLevel.v.delete:1628-1717 | below the period a word has one offset, so the offset that a search reports is determined |
| Lfsr.OneNeverReachesZero | fpga_icestorm2/LighthouseTopLevel.v.delete:1727-1730 | the zero word is on no orbit of the start word 1 |
| OffsetSearch.OffsetFinder.Tick | fpga_icestorm2/LighthouseTopLevel.v.delete:1476-1817 | one clock of the four engine blocks, in source order, with `found` and `offset` written last by the highest engine that writes |
| OffsetSearch.VerdictSound | fpga_icestorm2/LighthouseTopLevel.v.delete:1628-1717 | whichever engine writes last, a raised `found` comes with an offset that many steps from 1 to the target; it is raised exactly when it was raised or some engine matches |
| OffsetSearch.SearchStep | fpga_icestorm2/LighthouseTopLevel.v.delete:1476-1817 | a clock of a running search keeps: each engine is at its counter's word of its quarter and has missed the target before it |
| OffsetSearch.EndedSearchDecides | fpga_icestorm2/LighthouseTopLevel.v.delete:1476-1817 | when all four engines have ended, `found` holds iff some offset below 2^17 leads from 1 to the target, and then the offset is such a one |
| OffsetSearch.LockStep | fpga_icestorm2/LighthouseTopLevel.v.delete:1476-1660 | the one-cycle start skew never breaks: one clock after the first engine ends all four have ended, and until then every clock brings the end closer |
| PulseOffsetFinding.PulseOffsetFinder.Tick | fpga_icestorm2/LighthouseTopLevel.v.delete:3329-3468 | one clock of the state machine around the search, with the start and reset pulses of its transitions |
| PulseOffsetFinding.Reachable | fpga_icestorm2/LighthouseTopLevel.v.delete:3371-3445 | in every reachable clock, with a held input, engines and state machine are in lock-step and a stale `done` is never seen |
| PulseOffsetFinding.ResultIsSound | fpga_icestorm2/LighthouseTopLevel.v.delete:3329-3335 | in every run, a nonzero offset on the output is that many steps from 1 to the beam word of the pulse on the output |
| PulseOffsetFinding.ZeroIsNeverFound | fpga_icestorm2/LighthouseTopLevel.v.delete:1476-1817 | the zero beam word is never given an offset |
| PulseOffsetFinding.SearchDecides | fpga_icestorm2/LighthouseTopLevel.v.delete:3371-3445 | every search that starts hands over its result within 2^15 + 3 clocks, and says found iff the beam word is on the orbit |
| PulseOffsetFinding.WrapperInLockStep | fpga_icestorm2/LighthouseTopLevel.v.delete:3371-3445 | each start finds all engines in their first state with clear counters and flag; each reset finds all four ended, or none started |
| PulseOffsetFinding.ResultIsHeld | fpga_icestorm2/LighthouseTopLevel.v.delete:3335-3470 | an output that is not taken stays valid with the same offset |
| Pulses.QuartersOfLater | fpga_icestorm2/LighthouseTopLevel.v.delete:3322-3322 | the distance of a time stamp d ticks later is d / 4, also across the wrap of the counter |
| PulseOffsetFinding.SearchBegins | fpga_icestorm2/LighthouseTopLevel.v.delete:3286-3287 | in every run from power-up, after any pulses: a search begins for exactly the pulses that have a polynomial, and that another one than the pulse handed over last, or more than 2048 quarters after the last pulse that was found |
| PulseOffsetFinding.PulsesAreLocated | fpga_icestorm2/LighthouseTopLevel.v.delete:3329-3468 | every pulse that is handed over carries an offset that leads from 1 to its beam word, if it is searched and there is one below 2^17, and else 0 |
| PulseOffsetFinding.EveryPulseIsAnswered | fpga_icestorm2/LighthouseTopLevel.v.delete:3371-3468 | every pulse that is looked at leaves, within 2^15 + 3 clocks, with the answer that the pulses before it make right |
| PolyFinding.PolyFinder.Tick | fpga_icestorm2/LighthouseTopLevel.v.delete:457-828 | one clock of the 32 registers searched in parallel, with the shared flag and counter |
| PolyFinding.RunStep | fpga_icestorm2/LighthouseTopLevel.v.delete:488-511 | a clock of a search either goes on inside the window or has decided: the flags tell which registers match at the first matching step, or that none does |
| PolyFinding.EncodeOfOne | fpga_icestorm2/LighthouseTopLevel.v.delete:389-422 | a single flag is encoded as its own number |
| PulseIdentifying.PulseIdentifier.Tick | fpga_icestorm2/LighthouseTopLevel.v.delete:3112-3246 | one clock of the state machine that compares a pulse with the one before it |
| PulseIdentifying.Reachable | fpga_icestorm2/LighthouseTopLevel.v.delete:3162-3244 | in every reachable clock the invariant of the search holds, so its one-clock done pulse is never missed |
| PulseIdentifying.WaitEnds | fpga_icestorm2/LighthouseTopLevel.v.delete:3162-3244 | a wait ends within the counter's clocks plus one, with the same pulse still on the input |
| PulseIdentifying.PulsesAreNamed | fpga_icestorm2/LighthouseTopLevel.v.delete:3222-3239 | in every run from power-up, after any pulses: a pulse is handed over with the name that its beam word gets from that of the pulse handed over before it, in the window of their distance; and with 63 when they are 1024 quarters apart or more |
| PulseIdentifying.ComparisonDecides | fpga_icestorm2/LighthouseTopLevel.v.delete:3076-3081 | of two pulses in a row the second is handed over within 1026 clocks with the name that the first one gives it, or 63 |
| PulseIdentifying.ComparisonEnds | fpga_icestorm2/LighthouseTopLevel.v.delete:3162-3244 | every comparison that starts hands over its result within last + 3 clocks, for the same pulse |
| PulseIdentifying.MatchesAreNamed | fpga_icestorm2/LighthouseTopLevel.v.delete:389-422 | of the polynomials that match at the first matching step the bitwise or of the numbers is named |
| PulseIdentifying.OneMatchIsNamed | fpga_icestorm2/LighthouseTopLevel.v.delete:3118-3246 | if a single polynomial matches at the first matching step, it is the one that is named |
| PulseIdentifying.WindowOf | fpga_icestorm2/LighthouseTopLevel.v.delete:3076-3081 | for a distance d below 1022 the window is max(0, d - 1) .. d + 2; for 1022 and 1023 the ten-bit count wraps and it is 0 .. d - 1022 |
| StreamFifos.StreamFifo.constructor | fpga_icestorm2/LighthouseTopLevel.v.delete:2885-2930 | power-up is a valid empty FIFO |
| StreamFifos.StreamFifo.Tick | fpga_icestorm2/LighthouseTopLevel.v.delete:2885-3034 | one clock of pointers, RAM and registered read port is one step of a queue, and what is popped is its head |
| StreamFifos.OccupancyIsComplement | fpga_icestorm2/LighthouseTopLevel.v.delete:2656-2797 | occupancy and availability add up to the depth; full and empty are the two ends |
| StreamFifos.StepRefinesQueue | fpga_icestorm2/LighthouseTopLevel.v.delete:2885-3034 | for every depth from 2: a push appends, a pop removes the head, a flush empties, and the read register shows the head whenever pop is valid |
| StreamFifos.OfferIsHeld | fpga_icestorm2/LighthouseTopLevel.v.delete:3605-3739 | an offered word stays offered and unchanged until it is popped |
| StreamFifos.OfferedWithinOneClock | fpga_icestorm2/LighthouseTopLevel.v.delete:2885-3034 | a FIFO that is not empty offers its head at once or one clock later |
| StreamFifos.RunConserves | fpga_icestorm2/LighthouseTopLevel.v.delete:2885-3034 | over every run: contents plus pushed words are popped words plus contents, in order |
| ToggleCrossing.StreamCCByToggle.Tick | fpga_icestorm2/LighthouseTopLevel.v.delete:2566-2654 | one instant of either clock or both, all registers read before they are written |
| ToggleCrossing.StepKeepsSettled | fpga_icestorm2/LighthouseTopLevel.v.delete:80-108 | along the ring of six toggles there is at most one change, whichever clock rises |
| ToggleCrossing.ExactlyOnceInOrder | fpga_icestorm2/LighthouseTopLevel.v.delete:2566-2654 | from power-up, for every interleaving of the clocks: accepted words are delivered words, then the pipe register, then the pending word |
| ToggleCrossing.EdgesMoveTheChange | fpga_icestorm2/LighthouseTopLevel.v.delete:2566-2654 | the one edge that the change waits for moves it on by one place, and no other edge moves it |
| ToggleCrossing.WordArrives | fpga_icestorm2/LighthouseTopLevel.v.delete:2566-2654 | over a run: behind the accepting edge come two slow edges among any core edges, and then the first slow edge that finds the pipe register open loads the word; the sender is free after exactly two core edges more, among any slow edges |
| StreamArbiters.StreamArbiter.Tick | fpga_icestorm2/LighthouseTopLevel.v.delete:2817-2883 | one clock of the locking arbiter |
| StreamArbiters.MergeConserves | fpga_icestorm2/LighthouseTopLevel.v.delete:2817-2883 | what the output gives is what one of the inputs gave, unchanged; nothing else moves |
| StreamArbiters.OutputIsHeld | fpga_icestorm2/LighthouseTopLevel.v.delete:3472-3526 | held inputs make a held output, because the choice is locked |
| StreamArbiters.LockIsKept | fpga_icestorm2/LighthouseTopLevel.v.delete:2848-2883 | with inputs that hold, a locked arbiter never waits for an input that has gone |
| StreamArbiters.WhoGetsOut | fpga_icestorm2/LighthouseTopLevel.v.delete:2848-2883 | whenever the output is ready a word gets out if there is one: that which has been waiting there, else that of input 0, else that of input 1; it is locked iff the output was refused |
| TopLevel.SlowClock.constructor | fpga_icestorm2/LighthouseTopLevel.v.delete:4438-4660 | the components of the slow clock at power-up, for any depths of the FIFOs |
| TopLevel.SlowClock.Tick | fpga_icestorm2/LighthouseTopLevel.v.delete:4438-4660 | one clock of all components, wired as in the top level, is one step of the pipeline |
| Pipelines.OffersAreHeld | fpga_icestorm2/LighthouseTopLevel.v.delete:4438-4660 | in the wired pipeline both state machines get held inputs, which is what their proofs need |
| Pipelines.ClockKeepsInv | fpga_icestorm2/LighthouseTopLevel.v.delete:4438-4660 | a clock of the whole pipeline keeps the invariants of all its parts |
| Pipelines.ClockConserves | fpga_icestorm2/LighthouseTopLevel.v.delete:4838-4846 | in every clock, sensor by sensor: what is under way plus what is accepted is what is emitted plus what is under way |
| Pipelines.BeamsConserve | fpga_icestorm2/LighthouseTopLevel.v.delete:4801-4846 | in every clock: what is in the pipe register and what the state machines hand over, pulse, polynomial and offset, is what is emitted and what stays in the register |
| Pipelines.SyncsConserve | fpga_icestorm2/LighthouseTopLevel.v.delete:4838-4846 | in every clock: a sync frame that finds its pipe register open is emitted or is in the register |
| Pipelines.FramesCarryThePulses | fpga_icestorm2/LighthouseTopLevel.v.delete:4438-4660 | from power-up: the frames cut down to one sensor carry exactly the pulses its small FIFO accepted, in order and unchanged, but for those under way; every nonzero offset is right |
| Reports.ClockRemembers | fpga_icestorm2/LighthouseTopLevel.v.delete:4438-4660 | in every clock of the whole pipeline the registers of both state machines hold what the pulses handed over so far leave behind |
| Reports.FramesReportThePulses | fpga_icestorm2/LighthouseTopLevel.v.delete:4438-4660 | from power-up: every frame, and the one in the pipe register, reports its pulse with the polynomial that the pulse before names and with the offset of its orbit, or 0 iff it is not searched or has none |
| Progress.HeadMoves | fpga_icestorm2/LighthouseTopLevel.v.delete:4438-4660 | while the pipe register is free every clock hands a pulse over or brings the first one closer to it, wherever it is |
| Progress.ReportsGetOut | fpga_icestorm2/LighthouseTopLevel.v.delete:4438-4660 | from every reachable state, whatever comes in: of the pulses under way j are reported after at most 33805 + 2 clocks for each, and one more for each clock with a full FIFO or a due sync frame |
| Progress.AllIsReported | fpga_icestorm2/LighthouseTopLevel.v.delete:4438-4660 | from power-up: when the sensors fall silent after any run, then after that time every accepted pulse has been reported, once, in the order of its sensor, and with the right polynomial and offset |
| Telemetry.ParseInvertsPack | fpga_icestorm2/LighthouseTopLevel.v.delete:4801-4801 | the host's fields of the twelve bytes of a frame are id, polynomial index, found flag, width, offset, beam word and timestamp |
| Telemetry.SyncIsSkipped | ip-cores/UART_debug_interface/print_frame.py:72-74 | a sync frame is twelve bytes of ones and is read as the state that the host skips |
| Telemetry.BeamIsNotSkipped | ip-cores/UART_debug_interface/print_frame.py:72-74 | no beam frame is read as that state |
| Telemetry.ByteSerialiser.Tick | fpga_icestorm2/LighthouseTopLevel.v.delete:4675-4714 | the byte on the wire is byte `count` of the frame, and the frame is popped with its twelfth byte |
| Telemetry.SerialiserSendsFrames | fpga_icestorm2/LighthouseTopLevel.v.delete:4848-4870 | over every run with held frames: the bytes sent are the popped frames end to end and the first bytes of the one in hand |
| PrintFrame.WaitForSync | ip-cores/UART_debug_interface/print_frame.py:38-46 | the scan stops behind the first twelve bytes of ones, and fails iff there are none |
| PrintFrame.ReadFrames | ip-cores/UART_debug_interface/print_frame.py:50-74 | the readings are those of the whole frames that are left, without the skipped ones |
| PrintFrame.FirstMatchIsFirstSync | ip-cores/UART_debug_interface/print_frame.py:38-46 | the first match comes at the first sync frame, early by as many bytes as the frame before it ends in ones, at most three |
| PrintFrame.NoSyncNoMatch | ip-cores/UART_debug_interface/print_frame.py:38-46 | without a sync frame there is no match |
| PrintFrame.ReadingsOfFrames | ip-cores/UART_debug_interface/print_frame.py:52-66 | on a frame boundary the host reads every beam, exactly and in order, also when the stream ends inside a frame |
| PrintFrame.PrintFrames | ip-cores/UART_debug_interface/print_frame.py:36-88 | the whole program on a stream with a sync frame: it lands on a frame boundary iff the time stamp of the beam before the first sync frame is below 0xff0000, and then reads every later beam exactly |
| PrintFrame.LastByteIsTime | fpga_icestorm2/LighthouseTopLevel.v.delete:4801-4801 | the last byte of a beam frame is the top byte of its time stamp, so it is 0xff iff the stamp is at least 0xff0000 |
| PrintFrame.EarlyMatchHappens | ip-cores/UART_debug_interface/print_frame.py:38-46 | a receivable stream for which the scan stops early: a beam with the last time stamp and a sync frame, three bytes early |
| Deliveries.FramesAreInRange | fpga_icestorm2/LighthouseTopLevel.v.delete:4438-4660 | from power-up, with widths of 16 and time stamps of 24 bits coming in, every emitted frame fits its fields |
| Deliveries.NextConserves | fpga_icestorm2/LighthouseTopLevel.v.delete:4848-4870 | one clock of pipeline and serialiser: bytes sent are frames popped and the start of the frame in hand, and frames are conserved in the FIFO of the UART |
| Deliveries.HostReadsThePulses | fpga_icestorm2/LighthouseTopLevel.v.delete:4438-4870 | from power-up, for every run and whatever the UART takes: the host, reading from the first byte, gets one reading for each report sent, with identity, found flag and offset; the reports, with those under way, are right; and their pulses are for each sensor exactly the accepted ones in order, but for those in the FIFOs before |
| Deliveries.OffsetsAreRight | fpga_icestorm2/LighthouseTopLevel.v.delete:4438-4870 | every nonzero offset in a reading is that many steps of the named polynomial from 1 to the beam word |
| SpiPacketCodec.UnescapeInvertsEscape | vidor_basic/software/nina/component/SPIbus/src/SPIbus.cpp:575-602 | unescaping gives back what a wire carries, with idle bytes anywhere between symbols, and then what is scanned behind it in the buffer |
| SpiPacketCodec.ScanStaysInside | vidor_basic/software/nina/component/SPIbus/src/SPIbus.cpp:575-602 | the driver's scan of 16 (2 n + 4) bytes stays inside the static byte buffer iff n <= 127, whatever the buffer holds |
| SpiPacketCodec.PacketBufferSuffices | vidor_basic/software/nina/component/SPIbus/src/SPIbus.cpp:575-602 | the static packet buffer holds the result of the scan, for all bytes in the byte buffer, iff n <= 62 |
| SpiPacketCodec.EscapedCarries | vidor_basic/software/nina/component/SPIbus/src/SPIbus.cpp:538-561 | the escaped data carries the data |
| SpiPacketCodec.ParseInvertsPrint | vidor_basic/software/nina/component/SPIbus/src/SPIbus.cpp:765-814 | parsing a printed packet gives 0x20 and then the data |
| SpiPacketCodec.AnswerIsRead | vidor_basic/software/nina/component/SPIbus/src/SPIbus.cpp:765-814 | an answer of the core is read as its data, however long the scan and whatever the buffer holds behind it |
| SpiPacketCodec.RoundTrip | vidor_basic/software/nina/component/SPIbus/src/SPIbus.cpp:503-609 | both layers together, with stale bytes behind the wire in the scan and behind the result of it: packets come back behind 0x20, answers as they are |
| SpiPacketCodec.Framing | vidor_basic/software/nina/component/SPIbus/src/SPIbus.cpp:704-755 | on the wire: no idle byte, one start mark, in front, and one end mark, directly before the symbol of the last byte |
| SpiPacketCodec.Lengths | vidor_basic/software/nina/component/SPIbus/src/SPIbus.cpp:682-684 | a packet is four bytes longer than its data plus one byte for every escaped one, and both layers together count likewise, so neither exceeds 2n + 4 |
| SpiPacketCodec.EscapeInto | vidor_basic/software/nina/component/SPIbus/src/SPIbus.cpp:538-561 | the loop writes exactly the escaped bytes |
| SpiPacketCodec.UnescapeInto | vidor_basic/software/nina/component/SPIbus/src/SPIbus.cpp:575-602 | the loop writes exactly the unescaped bytes of the scan and nothing else |
| SpiPacketCodec.PrintInto | vidor_basic/software/nina/component/SPIbus/src/SPIbus.cpp:699-755 | the loop writes exactly the packet |
| SpiPacketCodec.AfterStart | vidor_basic/software/nina/component/SPIbus/src/SPIbus.cpp:765-770 | the search for the first start mark |
| SpiPacketCodec.ParseInto | vidor_basic/software/nina/component/SPIbus/src/SPIbus.cpp:775-814 | the loop writes exactly what the parser reads and nothing else |
| SpiPacketCodec.HeaderHolds | vidor_basic/software/nina/component/SPIbus/src/SPIbus.cpp:896-903 | the kind is the first byte of the header, behind a zero come size and address, high byte first |
| SpiPacketCodec.Spi.ByteToCoreConvert | vidor_basic/software/nina/component/SPIbus/src/SPIbus.cpp:503-609 | for every packet in the buffer the send buffer suffices and holds its escaped form; the packet buffer gets what the scan of reply and stale bytes gives |
| SpiPacketCodec.Spi.PacketToByteConvert | vidor_basic/software/nina/component/SPIbus/src/SPIbus.cpp:659-820 | for up to 1032 bytes all send buffers suffice, and so does the byte buffer for the reply, which is twice as long; the response is what both decoders make of reply and stale bytes |
| SpiPacketCodec.Spi.AnswerIsResponse | vidor_basic/software/nina/component/SPIbus/src/SPIbus.cpp:575-814 | an answer that comes in within the scan is the response, whatever comes behind it and whatever all buffers held before |
| SpiPacketCodec.Spi.ShortIsScannable | vidor_basic/software/nina/component/SPIbus/src/SPIbus.cpp:575-602 | for up to 62 bytes any reply over any stale bytes may be scanned |
| SpiPacketCodec.Spi.DoTransaction | vidor_basic/software/nina/component/SPIbus/src/SPIbus.cpp:880-980 | for any reply: a write sends header and data and succeeds iff the response acknowledges the size; a read sends the header and hands over the response; with a well-formed answer these are the answer; any other kind does nothing |
| JtagDriver.TableIsStandard | vidor_basic/software/vidorSAM/jtag.c:4-22 | the host's table of states is the TAP controller of IEEE Std 1149.1-2013, clause 6.1, for all 16 states |
| TapController.OnesReset | vidor_basic/software/vidorSAM/jtag.c:331-337 | five clocks with TMS high reset the controller from every state |
| TapController.ScanStays | vidor_basic/software/vidorSAM/jtag.c:138-156 | clocks that only set TDI while shifting leave the controller's state alone |
| TapController.ScanOfData | vidor_basic/software/vidorSAM/jtag.c:138-156 | such clocks append exactly the bits to the data scan, the last one held back if asked |
| TapController.ScanOfInstruction | vidor_basic/software/vidorSAM/jtag.c:138-156 | such clocks move exactly the bits through the instruction register |
| TapController.InstructionPasses | vidor_basic/software/vidorSAM/jtag.c:399-405 | ten bits with the last on the pin: what was captured comes out, what is sent goes in with the exit clock |
| JtagDriver.Host.AdvanceJSM | vidor_basic/software/vidorSAM/jtag.c:249-256 | one clock with TMS set; agreement of host and device is kept |
| JtagDriver.Host.UpdateDr | vidor_basic/software/vidorSAM/jtag.c:270-280 | from data shifting, two clocks to the update, the pin's bit going in with the exit; otherwise it fails and does nothing |
| JtagDriver.Host.ShiftDr | vidor_basic/software/vidorSAM/jtag.c:294-322 | from an update, a reset or idling, to data shifting; otherwise it fails and does nothing |
| JtagDriver.Host.RunIdle | vidor_basic/software/vidorSAM/jtag.c:352-366 | from any device state, with a host that is out of step but not in an update state, it ends in agreement in the idle state |
| JtagDriver.Host.ReadTDO | vidor_basic/software/vidorSAM/jtag.c:138-156 | the bits of the number go out lowest first, what TDO showed comes back, and the clocks do not move the state |
| JtagDriver.Host.LoadJI | vidor_basic/software/vidorSAM/jtag.c:384-416 | it fails iff 0x155 was not captured; on success the device's instruction is `action` in the update state, on failure the device is left shifting; host and device agree either way |
| JtagDriver.Host.SetupChain | vidor_basic/software/vidorSAM/jtag.c:433-454 | the same without a look at what was captured |
| JtagDriver.Host.CheckStatus | vidor_basic/software/vidorSAM/jtag.c:476-515 | with the instruction CHECK_STATUS loaded it clocks 409 zeros, reads the next bit of the boundary scan, and returns to idling; the error is the complement of that bit; an open scan is updated, and then the zeros under that instruction |
| JtagDriver.Host.LoadVir | vidor_basic/software/vidorSAM/jtag.c:517-532 | unless cached, the device gets exactly virSize + slaveBits bits of the code in one updated data scan, the last with the exit clock, or the bit on the pin when there are none; the cache is written on success only |
| JtagWords.VirNamesSlave | vidor_basic/software/vidorSAM/jtag.c:521-521 | after a successful search these bits are the instruction and above it the slave's number, in exactly their widths |
| JtagDriver.Host.SelectHub | vidor_basic/software/vidorSAM/jtag.c:547-551 | one scan of 64 zeros and the exit bit with USER1_VIR loaded, and then USER0_VDR is loaded |
| JtagDriver.Host.ReadInfo | vidor_basic/software/vidorSAM/jtag.c:556-562 | eight scans of a nibble, each updated under the instruction in place, give the 32 bits that the line showed, lowest first |
| JtagDriver.WidthFor | vidor_basic/software/vidorSAM/jtag.c:570-570 | the least width in which the numbers up to the number of slaves fit |
| JtagDriver.Host.FindSlave | vidor_basic/software/vidorSAM/jtag.c:573-588 | the first word with our kind and vendor, and no earlier one; exactly the words up to it are scanned |
| JtagDriver.Host.Enumerate | vidor_basic/software/vidorSAM/jtag.c:547-589 | the updates of the search are the zeros under USER1_VIR and eight nibbles under USER0_VDR for each word that was read |
| JtagWords.FieldsOfInfo | vidor_basic/software/vidorSAM/jtag.c:566-582 | width, vendor and kind are the bits 0 to 7, 8 to 18 and 19 to 26 of a word |
| JtagWords.AddressIsTagged | vidor_basic/software/vidorSAM/jtag.c:616-617 | the address goes out as two ones and then its low thirty bits |
| JtagWords.RequestCarries | vidor_basic/software/vidorSAM/jtag.c:632-638 | behind the address a request carries one less than the count in four bits, and for one word the top bit of the address again |
| JtagDriver.Host.Init | vidor_basic/software/vidorSAM/jtag.c:534-591 | from any device state it ends in agreement; it goes on iff the status bit is set; on success id, number of slaves and width are what the hub's words say, and on failure no slave is ours; an open scan is updated with a high pin, then come the status scan and the scans of the search, each under its instruction |
| JtagDriver.Host.ShiftBytes | vidor_basic/software/vidorSAM/jtag.c:202-233 | the loop over the bits: exactly the bytes' bits go out and whole bytes of what TDO showed come in |
| JtagDriver.Host.ReadTDOBuf | vidor_basic/software/vidorSAM/jtag.c:202-233 | the same between buffers: it stores whole bytes only, and changes nothing else |
| JtagWords.LittleEndianBits | vidor_basic/software/vidorSAM/jtag.c:617-618 | a 32-bit number sent from memory goes out lowest bit first |
| JtagDriver.Host.Reload | vidor_basic/software/vidorSAM/jtag.c:602-606 | it loads the instruction that reconfigures the device; an open scan is updated and agreement is kept |
| JtagDriver.Host.WriteBuffer | vidor_basic/software/vidorSAM/jtag.c:608-621 | one data scan gets the 32 bits of address * 4 + 3, the bytes lowest bit first, and two bits more, and is left open; updated are the scan that was open before and the virtual instruction unless cached; it fails only when the chain is broken and the instruction was not cached |
| JtagDriver.Host.ReadBuffer | vidor_basic/software/vidorSAM/jtag.c:623-652 | with an intact chain the updates are the scan that was open before, the write instruction unless cached, the request and the read instruction; the request is the address with four bits of len - 1 or, for one word, with its top bit again; `data` gets the bytes that the line showed |
| JtagDriver.Host.Session | vidor_basic/software/vidorSAM/jtag.c:534-652 | from power-up with any state of the device, after the first search and any sequence of calls, whatever they return, host and device agree; with an intact chain every write but one at the end, with the bit on the pin behind it, and every request are among the updates in the order of the calls |
| JtagDriver.OneCallMore | vidor_basic/software/vidorSAM/jtag.c:534-652 | the next call, whatever it is, updates the write that the call before it has left open |
| TapController.OnesConserve | vidor_basic/software/vidorSAM/jtag.c:352-366 | on the way to a reset an open data scan is updated, once, with the bit on the pin |
| UartTx.UartTransmitter.Tick | ip-cores/UART/uart_tx.v:47-150 | one clock of the transmitter |
| UartTx.SendsFrame | ip-cores/UART/uart_tx.v:60-128 | bit j of an accepted byte is on the line in its n clocks, for every n, and nothing else is accepted meanwhile |
| UartTx.FrameEnds | ip-cores/UART/uart_tx.v:114-138 | 10 n + 2 clocks after a byte was accepted the transmitter is idle with the line high; done is high in exactly two clocks |
| UartRx.UartReceiver.Tick | ip-cores/UART/uart_rx.v:33-136 | one clock of the two flops and the receiver |
| UartRx.Starts | ip-cores/UART/uart_rx.v:45-76 | the middle of the start bit decides between sampling and waiting |
| UartRx.Receives | ip-cores/UART/uart_rx.v:41-136 | a frame is reported once, with the bits that the line showed every m clocks from the middle of the start bit |
| UartLink.AllArrive | ip-cores/UART/uart_rx.v:33-136 | from power-up with the line register at either level, for equal clocks per bit from 2 on and every sequence of offers: what is reported is what was accepted, in order, each byte once |
| UartLink.Rejects | ip-cores/UART/uart_rx.v:58-76 | a low clock of power-up is rejected in the middle of the start bit |
| UartLink.StartArrivesEarly | ip-cores/UART/uart_rx.v:58-76 | a frame that comes before that middle is caught early, by no more than half a bit |
| UartTolerance.AllFit | ip-cores/UART/uart_rx.v:79-104 | if the last sample falls into the last data bit then every sample falls into its bit |
| UartTolerance.GoodFrame | ip-cores/UART/uart_rx.v:41-136 | then the first report of a single frame is its byte |
| UartTolerance.EarlyFrame | ip-cores/UART/uart_rx.v:79-104 | sampled too early, the byte 0x80 is not reported first |
| UartTolerance.LateFrame | ip-cores/UART/uart_rx.v:58-104 | sampled too late, the byte 0x00 is not reported first |
| UartTolerance.Tolerance | ip-cores/UART/uart_rx.v:41-136 | for every n and m from 2: all bytes are read right first iff 8 n <= 8 m + (m - 1) / 2 + 1 < 9 n |
| UartTolerance.OneClockLoses | ip-cores/UART/uart_rx.v:58-76 | with one clock per bit on both sides the middle of the start bit comes when it is over: a byte of ones is never reported, so two is the least |
| OversampledTx.UartCtrlTx.Tick | ip-cores/UART/UartCtrl.v:177-296 | one clock of the oversampling transmitter |
| OversampledTx.ShowsBit | ip-cores/UART/UartCtrl.v:184-220 | in bit j of a frame the line shows bit j, for every data length, parity and stop setting; the byte is taken with the last data bit's last tick |
| UartFrames.ParityCounts | ip-cores/UART/UartCtrl.v:269-277 | with the parity bit the number of ones is even, but odd for odd parity |
| OversampledRx.UartCtrlRx.Tick | ip-cores/UART/UartCtrl.v:343-506 | one clock of flops, samples, majority and state machine |
| OversampledRx.AnyThree | ip-cores/UART/UartCtrl.v:415-415 | the sum of products is the majority of five |
| OversampledRx.FalseStart | ip-cores/UART/UartCtrl.v:424-431 | a start bit whose majority is high sends the machine back to idle, and nothing is received |
| OversampledRx.Receives | ip-cores/UART/UartCtrl.v:402-466 | a frame whose majorities are right at its sampling points is received once, and the machine is idle before the last bit ends |
| OversampledRx.WrongParity | ip-cores/UART/UartCtrl.v:444-453 | a wrong parity bit drops the byte |
| OversampledLink.SendsFrame | ip-cores/UART/UartCtrl.v:225-297 | tick by tick, the transmitter goes through the bits of the offered byte |
| OversampledLink.ValueOfBit | ip-cores/UART/UartCtrl.v:402-416 | the majority for bit j is bit j, with at most two of its five samples flipped |
| OversampledLink.AllArrive | ip-cores/UART/UartCtrl.v:177-506 | for every sequence of bytes: what is received is what was taken |
| UartCtrls.UartCtrl.Tick | ip-cores/UART/UartCtrl.v:87-97 | one clock of the divider and both halves |
| UartCtrls.Refines | ip-cores/UART/UartCtrl.v:87-97 | for every divider value the clocked run is a run by sampling ticks, with a fixed lag through line register and flops |
| UartCtrls.EndToEnd | ip-cores/UART/UartCtrl.v:22-506 | clock by clock, for every configuration, divider and sequence of held bytes, with mild noise: the payloads with a valid pulse are the bytes taken, in their low bits, each once |
| SpiMasters.SpiMaster.Tick | ip-cores/spiMaster/SPI_Master.v:86-236 | one clock of edge generator, MOSI shifter and MISO sampler |
| SpiMasters.SpiMaster.constructor | ip-cores/spiMaster/SPI_Master.v:74-81 | the idle level and the phase are those of SPI_MODE, and the master is in its reset state |
| SpiMasters.ModesAreNumbered | ip-cores/spiMaster/SPI_Master.v:74-81 | modes 2 and 3 idle high, modes 1 and 3 sample on the trailing edge |
| SpiMasters.Transfers | ip-cores/spiMaster/SPI_Master.v:86-139 | for every mode and half-bit length from 2, half bit i of a byte comes in its clocks, with counters, flags and shifters as they should be |
| SpiMasters.SixteenEdges | ip-cores/spiMaster/SPI_Master.v:86-139 | the clock output changes from half bit to half bit, sixteen times |
| SpiMasters.MosiAtEdge | ip-cores/spiMaster/SPI_Master.v:161-190 | at the k-th sampling edge, and in the clock before it, MOSI is bit 7 - k |
| SpiMasters.Ends | ip-cores/spiMaster/SPI_Master.v:86-139 | 16 n + 2 clocks after its offer a byte is over: ready, idle clock level, and the received byte is the sampled answer |
| SpiMasters.AllAnswered | ip-cores/spiMaster/SPI_Master.v:194-222 | for every sequence of bytes offered when ready: one pulse for each, with the bits the slave showed, highest first |
| SpiMasters.LoopReturns | ip-cores/spiMaster/SPI_Master.v:144-222 | with MISO tied to MOSI the bytes that were sent come back |
| SpiMasters.ReadyIsResting | ip-cores/spiMaster/SPI_Master.v:86-139 | in every clock of every run: counter, edges left and clock level fit together, and ready means at rest |
| SpiMasters.LinesRest | ip-cores/spiMaster/SPI_Master.v:144-236 | at rest the clock output idles and MOSI keeps its level |
| SpiMasters.SilentAtFirst | ip-cores/spiMaster/SPI_Master.v:86-236 | from reset to the first byte the clock output idles, MOSI is low and nothing is received |
| Debouncers.GroupDebouncer.Tick | ip-cores/spi_master_slave/trunk/syn/grp_debouncer.vhd:161-202 | one clock of counter, pipeline, output and strobe |
| Debouncers.CountsStable | ip-cores/spi_master_slave/trunk/syn/grp_debouncer.vhd:161-171 | the counter never exceeds the limit and counts the samples that have held |
| Debouncers.OnlyStable | ip-cores/spi_master_slave/trunk/syn/grp_debouncer.vhd:176-191 | what is put out has been held for one sample more than the limit; zeros of power-up count |
| Debouncers.StableAppears | ip-cores/spi_master_slave/trunk/syn/grp_debouncer.vhd:161-191 | a new word that holds that long is put out exactly limit + 3 clocks after it came, and the output does not change before |
| Debouncers.StableRemains | ip-cores/spi_master_slave/trunk/syn/grp_debouncer.vhd:176-191 | a word that stays remains at the output |
| Debouncers.ShortIsIgnored | ip-cores/spi_master_slave/trunk/syn/grp_debouncer.vhd:161-191 | a word that never holds that long is never put out |
| Debouncers.StrobeMarksChange | ip-cores/spi_master_slave/trunk/syn/grp_debouncer.vhd:192-202 | the strobe is high in exactly the clocks in which the output has changed |

## Left out

- The numbers in the ROM of start words: the searches assume that word 4p is mask p and word 4p + k the state 32768 k steps after 1.
- The constants of the 32 feedback masks: they are a parameter, and only `Lfsr` asks for anything, that the top bit is set.
- The pulse timers, the decoder of the beam's bit stream, the sensor set-up, the warm boot, the pads, the blinkers and the command handler of the top level: board and vendor parts.
- The core side of the top level that puts the last beam word into a pulse: the pipeline takes whole pulses as its inputs.
- Metastability: a synchroniser is two ideal flops.
- StreamArbiters.WhoGetsOut: input 1 waits as long as input 0 has a word in every clock, as in the hardware; `Progress` counts the reports of both sensors together.
- Pipelines.SyncsConserve: a sync frame that is due while its pipe register is full and not being taken is lost, as in the hardware.
- PulseOffsetFinding.ResultIsSound: an offset of 0 on the wire means both that the beam word is 1 and that there is none, as in the hardware; the flag `found` tells them apart inside.
- PrintFrame.ReadFrames: printing and the angles, which are floating point, are not modelled; a reading is the tuple of its fields.
- SpiPacketCodec.Spi.DoTransaction: a read must be one whose scan stays inside the static buffers, which is so for up to 62 bytes, never for more than 127, and between depends on the stale bytes; the transfer itself is a parameter, and the heap variant of the buffers is the same code with other sizes.
- The ESP driver calls, the register helpers and `fpga_read`: I/O or finite facts about eight bits.
- JtagDriver.Host.ReadTDO: the result is a word of any width; for 64 bits the driver shifts beyond its 32-bit word and drops the result.
- JtagDriver.Host.LoadVir: the code is a number without a bound; where it does not fit 32 bits the shift in the driver is undefined.
- JtagDriver.Host.ShiftBytes: the packed bytes are collected in a sequence and stored by the caller in one piece, while the driver stores each byte as it is complete.
- JtagDriver.Host.WriteBuffer: `data` needs one spare byte, for the two bits behind it.
- `Js_Reset`, `jtagDeinit`, pin and port registers, and the mailbox functions: unused, or I/O on top of the calls that are modelled.
- The reset input of the SPI master in the middle of a byte: runs begin at reset.
- SpiMasters.AllAnswered: a byte offered while the master is busy is excluded, as its comment demands.
- UartTolerance.Tolerance: it is about the first report of a frame on a quiet line; with few clocks per bit on the receiving side the rest of a slow frame can look like another start bit.
- OversampledRx.Receives: the bits of the payload above the data length are those of an earlier byte, so only the low ones are stated.
- The other variants of FIFO, arbiter, UART and synchroniser in the Lighthouse file: the same modules for other payloads.
- The UART frame senders, the SPI slave and the network, ROS and container code: no settled protocol, not compilable as written, or plumbing.
