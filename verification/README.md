# Verification of the Atalanta microcontroller's state machines

A Dafny model of the parts of Atalanta that carry real protocol, concurrency or arithmetic
obligations, with proofs of what they promise. `dafny verify dfyconfig.toml` checks everything.

| Part | Files |
|---|---|
| Preemptible interrupt trampolines | `Rv32e`, `TrapFrame`, `NestedTraps`, `ExampleImage`, `Nested`, `Interrupts` |
| Interrupt-driven UART software | `CircularBuffer`, `PatternBuffer`, `PacketStream`, `UartTx`, `Uart` |
| Machine timer, hardware and driver | `ApbMtimer`, `MTimer`, `OneShot` |
| Bus and clock-crossing machines | `ObiSram`, `ObiToApb`, `IrqPulseCdc`, `ClockDivider` |
| JTAG driver of the simulation testbench | `Bits`, `Dtm`, `JtagTap`, `DmiBackoff`, `Testbench` |
| Shared | `Arith`, `Bytes` |

Code that changes state is a class whose methods are proved against a function of the old
state; the properties of whole runs are lemmas about those functions. Hardware modules are
clocked classes: one method call is one clock edge.

## How the parts are modelled

**Trampolines.** `Rv32e` is a machine with sixteen registers, word memory, `mepc`, `mcause`, MIE
and the interrupt level; trap entry and `mret` follow section 3.1.6.1 of the RISC-V Privileged
Specification v1.12, and the fields of `mcause` the CLIC draft. `NestedTraps` runs the emitted
code: any handler or the main program may be preempted between any two instructions while MIE
is set, to any depth. Handlers and the main program are arbitrary transition relations over what
code can observe (pc, registers, MIE, level, the stack at and above `sp`). Assumed of a handler
is only this: in an *uninterrupted* execution from its entry, with `ra` at the unwinding code, up
to its return, it leaves the stack above its entry `sp` alone, keeps `sp` aligned and not above
the entry value, and returns with the EABI's callee-saved registers of `archi.rs`, `gp` and `tp`
as they were; in between it uses its own stack as it likes. That preemption does not disturb this
is proved, and so is that the assumptions can be met: `ExampleImage` is an image of machine code
whose handler saves registers in a stack frame. Each taken interrupt is assumed to find 36 bytes of
stack plus what its handler declares to use, and the stack is accessed in aligned words.

**UART.** `UartTx` splits `write_serial` into its single reads and writes of shared state and lets
an atomic handler activation occur between any two; the ring has any size from 2 to 255. A 16550
reports the transmit interrupt only while IER bit 1 is set. `Uart` is the handler itself over the
ring and window objects. Its device follows a script: at each reading of the interrupt id any
number of bytes may arrive and any id be reported, but for transmit without IER bit 1 and receive
without a byte. The readings made are recorded, so what the receive loop does is stated by what
the device told it. Its transmit branch is proved equal to the handler step of `UartTx`.
The ring's fields are not `volatile` in C; the spinning loop is taken to read them afresh.

**Timer.** `ApbMtimer` keeps the 64-bit registers as two halves. The driver's operations are bus
traces with arbitrary traffic of others (`gap`) between their own accesses.

**Buses and clocks.** Properties are about all input traces from reset; reset is not asserted again
within a trace.

**JTAG.** The TAP controller follows IEEE 1149.1, clause 6.1, and the debug transport RISC-V
External Debug Support 0.13.2, sections 6.1.4 and 6.1.5, where an access to `dmi` (Capture-DR or
Update-DR) during a running operation sets the sticky busy status. A debug module is any function from
the history of accesses to an answer and a latency, so it covers every module that answers. One
`jtag_tick` is one TCK cycle.

## What came out

Properties that do not hold as one would expect, each stated exactly:

- `jtag_read_dmi_exp_backoff` ends for all debug modules of latency at most L if and only if
  L <= 2^30 + 108, not up to 2^31: the 32-bit `wait_cycles` doubles to 2^31 and then wraps to 0,
  and one trial is lost to the request that is dropped while the previous one is in flight.
  (The 29th trial counts an `int` to 2^31, which C++ leaves undefined; it is taken as 2^31 ticks.)
- `irq_pulse_cdc` is faithful if and only if the divisor is below 2^$clog2(DivMax): with the
  peripheral clock's `DivMax` = 4, divisors 1 to 3 work and 4 to 15 do not. The header promises
  every divisor from 2 on; divisor 1 works too.
- Divider value 0 of the FPGA clock divider divides by four.
- The receive loop reads the interrupt id twice and looks for a 2 in the first reading and a 6 in
  the second. With a device that always reports a waiting byte it still ends early, with room in the
  ring and a byte left, if and only if its last reading is a 2; a 6 that turns into a 2 between the
  readings does that.
- `circular_buffer_size` is the number of queued bytes if and only if `tail <= head`, and too
  large otherwise; a push on a full ring empties it.
- After the last `write_serial`, the ring empties if and only if at most one byte is queued (and
  its interrupt comes): each transmit interrupt disarms itself and only a later push arms it again.
- `set_counter` loses the carry exactly when the low word overflows before the high write.
- `OneShot::start` divides by the clock divider, and panics if that register holds 0.
- `Interrupt::from_number` rejects the numbers 18 to 31 that `number` produces.
- `xilinx_sp_BRAM` calls itself write-first; its output register samples the word from before
  the write.
- The documentation of `MTimer::reset` says the compare value becomes `u32::MAX`; the code sets
  all 64 bits.
- An OBI memory of any number of words from 2 on translates its range correctly; a power of two
  is not needed.

## Model

| member | source | states |
|---|---|---|
| Rv32e.CauseRoundTrip | examples/smoke_tests/src/csr_tests/csr_tests.c:94-105 | writing back what was read from `mcause` restores every field, so mpie, mpp and mpil survive the trip through memory |
| TrapFrame.StoreLoadRoundTrip | examples/atalanta-bsp/macros/src/trampoline.rs:38-57 | for every list of distinct registers without `sp`: the loading code after the storing code restores all of them, whatever happened to other registers and memory outside the frame; nothing else is written |
| TrapFrame.RegisterPartition | examples/atalanta-bsp/macros/src/archi.rs:2-35 | every register is in exactly one of the caller-save list, the callee-save list and {x0, x3, x4}, and which ones those are |
| NestedTraps.CodeAt | examples/atalanta-bsp/macros/src/trampoline.rs:88-147 | the instruction at each position of the emitted entry and shared routine |
| NestedTraps.NextPosition | examples/atalanta-bsp/macros/src/trampoline.rs:99-142 | each trampoline instruction takes the invariant of its position to that of the next |
| NestedTraps.CallHandler | examples/atalanta-bsp/macros/src/trampoline.rs:108-133 | the handler is entered at its address with the frame complete and `ra` at the unwinding code |
| NestedTraps.Returned | examples/atalanta-bsp/macros/src/trampoline.rs:133-136 | what the calling convention promises at the handler's return is what the unwinding code needs |
| NestedTraps.ReturnFromTrap | examples/atalanta-bsp/macros/src/trampoline.rs:136-142 | `mret` gives the interrupted code back everything it can observe |
| NestedTraps.SameView | examples/atalanta-bsp/macros/src/trampoline.rs:106-108 | a suspended activation is in order again in any machine with the same observable state |
| NestedTraps.StepKeepsInv | examples/atalanta-bsp/macros/src/trampoline.rs:88-147 | every step of program, hardware or trampoline keeps the invariant of all live activations |
| NestedTraps.RunKeepsInv | examples/atalanta-bsp/macros/src/trampoline.rs:88-147 | the invariant holds in every reachable state, at any nesting depth |
| NestedTraps.PcFollowsCode | examples/atalanta-bsp/macros/src/trampoline.rs:98-142 | in every reachable state the pc is at the trampoline instruction the activation is at |
| NestedTraps.FramesHoldOwnContext | examples/atalanta-bsp/macros/src/trampoline.rs:81-142 | every frame past its save point holds its own activation's registers, `mcause` and `mepc`, and the stack above it is untouched |
| NestedTraps.FramesDisjoint | examples/atalanta-bsp/macros/src/trampoline.rs:90-100 | live frames are aligned disjoint 36-byte blocks, later ones strictly lower |
| NestedTraps.EnabledMeansAllSaved | examples/atalanta-bsp/macros/src/trampoline.rs:99-107 | while MIE is set no live activation's cause or return address is only in the CSRs |
| NestedTraps.InterruptIsTransparent | examples/atalanta-bsp/macros/src/trampoline.rs:88-147 | from a taken interrupt to its matching `mret`, with any nesting inside: same pc, all 16 registers, MIE, level and stack at and above `sp` |
| NestedTraps.PreemptionIsInvisible | examples/atalanta-bsp/macros/src/trampoline.rs:106-134 | what main and every live handler have observed is an uninterrupted execution of their own code |
| NestedTraps.FramesBoundedByLevels | examples/atalanta-bsp/macros/src/trampoline.rs:88-147 | if preemption needs a strictly higher level, the live frames never outnumber the levels, at most 255 |
| NestedTraps.Convention | examples/atalanta-bsp/macros/src/archi.rs:22-35 | the calling convention, assumed of uninterrupted executions from the handler's entry, applies to the views a live handler has had |
| ExampleImage.FramedHandlerIsAbi | examples/atalanta-bsp/macros/src/archi.rs:22-35 | machine code that makes a stack frame, saves `ra` and a callee-saved register, changes and restores both and returns meets the assumption on handlers, at any address |
| ExampleImage.ImageExists | examples/atalanta-bsp/macros/src/trampoline.rs:88-147 | all assumptions on a linked program hold together for a concrete one with the emitted routines in memory |
| Nested.NestedRestoresTrapState | examples/atalanta-bsp/src/interrupt.rs:103-131 | around any closure that returns with its `sp` and the two words, `nested` restores `mcause`, `mepc` and `sp`, ends with interrupts off and changes only two temporaries |
| Nested.WordsSurvive | examples/atalanta-bsp/src/interrupt.rs:107-120 | in every run, the two words survive a closure that follows the calling convention and every interrupt taken during it |
| Nested.NestedInRun | examples/atalanta-bsp/src/interrupt.rs:103-131 | in every run, a handler that calls `nested` gets back its `mcause`, `mepc` and `sp`, whatever interrupts are taken during the closure, to any depth |
| Nested.Entered | examples/atalanta-bsp/src/interrupt.rs:107-116 | the closure starts with interrupts on and both CSRs in the two words below the old `sp` |
| Interrupts.LookupInvertsNumber | examples/atalanta-bsp/src/interrupt.rs:58-91 | a number is looked up to its interrupt if and only if it is not in 18 to 31 |
| Interrupts.NumbersDiffer | examples/atalanta-bsp/src/interrupt.rs:10-63 | no two interrupts share a number, and all fit in eight bits |
| Interrupts.NumbersMatchLines | src/ip/rt_peripherals.sv:44-51 | the software's numbers are those of the lines the hardware connects |
| CircularBuffer.QueuedAfterPush | examples/smoke_tests/include/circular_buffer.h:19-28 | what writing the head slot and moving on does to the queued bytes, around the end of the ring too |
| CircularBuffer.QueuedAfterPop | examples/smoke_tests/include/circular_buffer.h:30-39 | the queue is the byte at the tail followed by the queue from the next slot |
| CircularBuffer.CircularBuffer.Init | examples/smoke_tests/include/circular_buffer.h:13-18 | an empty ring |
| CircularBuffer.CircularBuffer.Push | examples/smoke_tests/include/circular_buffer.h:19-28 | appends the byte, or empties a full ring; nothing without a buffer |
| CircularBuffer.CircularBuffer.Pop | examples/smoke_tests/include/circular_buffer.h:30-39 | takes the oldest byte; on an empty ring everything but one slot then looks queued |
| CircularBuffer.CircularBuffer.Show | examples/smoke_tests/include/circular_buffer.h:41-43 | the oldest byte |
| CircularBuffer.CircularBuffer.Empty | examples/smoke_tests/include/circular_buffer.h:45-49 | if and only if nothing is queued |
| CircularBuffer.CircularBuffer.Full | examples/smoke_tests/include/circular_buffer.h:51-61 | if and only if size - 1 bytes are queued |
| CircularBuffer.CircularBuffer.Size | examples/smoke_tests/include/circular_buffer.h:63-65 | the number of queued bytes if and only if `tail <= head`; otherwise 256 - size more |
| PatternBuffer.PatternBuffer.Init | examples/smoke_tests/include/pattern_buffer.h:16-24 | the initial positions and payload |
| PatternBuffer.Slide | examples/smoke_tests/include/pattern_buffer.h:29-32 | overwriting the oldest slot of the circular array slides the window by one byte |
| PatternBuffer.PatternBuffer.Push | examples/smoke_tests/include/pattern_buffer.h:27-36 | the window slides by the byte and `payload` is the byte that left it |
| PatternBuffer.PatternBuffer.ResetBuffer | examples/smoke_tests/include/pattern_buffer.h:39-48 | a window of zeros, payload and count zero |
| PatternBuffer.PatternBuffer.CheckPattern | examples/smoke_tests/include/pattern_buffer.h:51-57 | true if and only if the window is the stored pattern read backwards |
| PacketStream.PatternSpells | examples/smoke_tests/include/uart_interrupt.h:35-38 | the packet pattern is "SOCHUB", stored backwards |
| PacketStream.NoOverlap | examples/smoke_tests/include/uart_interrupt.h:35-38 | "SOCHUB" has no border: occurrences never overlap |
| PacketStream.LastEndIsLast | examples/smoke_tests/include/uart_interrupt.h:109-122 | the position the matcher restarts from is the end of the last occurrence |
| PacketStream.WindowMatches | examples/smoke_tests/include/uart_interrupt.h:113-117 | the window since the last reset shows the pattern if and only if the stream ends with an occurrence |
| PacketStream.EvictedByteIsPayload | examples/smoke_tests/include/uart_interrupt.h:113-118 | the byte pushed out by the matching byte is the one before the occurrence, or 0 at the start or right after another occurrence |
| PacketStream.MatcherState | examples/smoke_tests/include/uart_interrupt.h:109-122 | window and recorded payloads of the reset-on-match matcher as functions of the whole stream |
| PacketStream.RecordsEveryPacket | examples/smoke_tests/include/uart_interrupt.h:109-122 | for every byte stream the recorded payloads are, in order, those of all occurrences in it: resetting loses no match |
| PacketStream.FiresOnOccurrence | examples/smoke_tests/include/uart_interrupt.h:113-117 | the matcher fires on exactly the bytes that complete an occurrence |
| Uart.PacketDetector.constructor | examples/smoke_tests/include/uart_interrupt.h:56-60 | the static buffers start as the matcher's start state, with the pattern stored backwards |
| Uart.PacketDetector.Take | examples/smoke_tests/include/uart_interrupt.h:113-121 | both windows follow the matcher for the stream extended by the byte |
| Uart.PayloadWindowShowsLastPackets | examples/smoke_tests/include/uart_interrupt.h:117-121 | the payload window main polls shows the payloads of the last three packets of the stream |
| Uart.PacketDetector.PollPayload | examples/smoke_tests/src/uart_rx/uart_rx.c:32-32 | main's wait ends if and only if the last three packets of the stream carried A, B and C |
| Uart.PayloadPatternSpells | examples/smoke_tests/include/uart_interrupt.h:40-43 | the payload pattern is "ABC", stored backwards |
| Uart.UartDriver.StartTx | examples/smoke_tests/include/uart_interrupt.h:78-86 | sends the oldest queued byte, if any |
| Uart.UartDriver.Transmit | examples/smoke_tests/include/uart_interrupt.h:101-106 | the transmit branch is the handler step of the interleaving model |
| Uart.UartDriver.ReceiveReported | examples/smoke_tests/include/uart_interrupt.h:109-109 | which of the device's reports the two readings of the interrupt id consume, and what they decide |
| Uart.UartDriver.MoreReceived | examples/smoke_tests/include/uart_interrupt.h:109-109 | no reading and false if the debug ring is full; else true if and only if the first reading is 2 or, failing that, the second is 6; when it says true a byte is waiting |
| Uart.UartDriver.TimeoutThenData | examples/smoke_tests/include/uart_interrupt.h:109-109 | a device that reports a 6 at the first reading and a 2 at the second ends the loop with a received byte waiting and room in the ring |
| Uart.UartDriver.ReceiveByte | examples/smoke_tests/include/uart_interrupt.h:110-121 | the oldest received byte leaves the device and enters the detector and the debug ring, the latter twice if it completes a packet; a push on a full ring empties it |
| Uart.UartDriver.ReceiveLoop | examples/smoke_tests/include/uart_interrupt.h:109-122 | with bytes arriving between the reads, the detector has seen exactly a prefix of all that arrives, in order; the loop ends for every finite input, and not before the ring is full or the last two readings were not 2 and not 6 |
| Uart.NothingLeftUnlessFilling | examples/smoke_tests/include/uart_interrupt.h:109-122 | for a device that reports 2 or 6 whenever a byte is waiting: when the loop ends with room in the ring a byte is left if and only if the last reading was a 2, the one before it a 6 or made with nothing waiting |
| Uart.UartDriver.UartHandler | examples/smoke_tests/include/uart_interrupt.h:98-124 | one activation: transmit side as in the interleaving model, receive side in order and without loss until the ring is full or the device reports no byte to the loop, never both |
| UartTx.MainKeepsInv | examples/smoke_tests/include/uart_interrupt.h:172-183 | every single statement of `write_serial` keeps the protocol's invariant, also with the head one past the end |
| UartTx.HandlerKeepsInv | examples/smoke_tests/include/uart_interrupt.h:98-106 | a handler activation at any point keeps it |
| UartTx.PushUndisturbed | examples/smoke_tests/include/uart_interrupt.h:179-181 | IER is only ever 0 or 2, and 0 from its clearing to the end of the push: under no interleaving can a transmit interrupt be reported in between |
| UartTx.NoLossNoReordering | examples/smoke_tests/include/uart_interrupt.h:98-106 | under every interleaving, bytes sent followed by bytes queued are the bytes pushed |
| UartTx.SpinIsArmed | examples/smoke_tests/include/uart_interrupt.h:178-181 | a writer spinning on a full ring has the transmit interrupt armed |
| UartTx.SpinIsReleased | examples/smoke_tests/include/uart_interrupt.h:101-106 | once a transmit interrupt has come while the writer waits, at whichever of its statements, its next completed test for room passes, whatever handler activations come in between |
| UartTx.WriteSerialAlone | examples/smoke_tests/include/uart_interrupt.h:178-181 | the nine statements without interruption queue the byte last and arm the interrupt |
| UartTx.OneByteSentPerWrite | examples/smoke_tests/include/uart_interrupt.h:102-102 | no more bytes are sent than writes completed |
| UartTx.DrainsIffAtMostOneQueued | examples/smoke_tests/include/uart_interrupt.h:101-106 | with main code idle the ring empties if and only if it holds at most one byte whose interrupt is armed and comes |
| ApbMtimer.ApbMtimer.Clock | src/ip/apb_mtimer.sv:33-105 | one clock edge and the read data as functions of registers and bus |
| ApbMtimer.AddressDecoded | src/ip/apb_mtimer.sv:30-31 | two bus cycles whose addresses differ only outside bits 4 to 2 have the same next registers and read data; the driver's constants are the full addresses from 0x30200 |
| ApbMtimer.SilentUntilEnabled | src/ip/apb_mtimer.sv:33-63 | out of reset the line is low and time stands until the control register is written |
| ApbMtimer.NextKeepsTimerOk | src/ip/apb_mtimer.sv:50-63 | the prescaler counter never passes the prescaler, even when a write lowers it in mid-count |
| ApbMtimer.ValueOfIncrement | src/ip/apb_mtimer.sv:60-60 | the carry between the halves is plus one modulo 2^64 |
| ApbMtimer.SteadyRun | src/ip/apb_mtimer.sv:50-85 | traffic that leaves count and settings alone advances `mtime` by the ticks |
| ApbMtimer.TickRate | src/ip/apb_mtimer.sv:50-63 | over n cycles with w writes, ticks * (p+1) + counter grows by at least n - w*(p+1) and at most n - w |
| ApbMtimer.MtimeAdvances | src/ip/apb_mtimer.sv:50-63 | unless written, `mtime` advances by the ticks modulo 2^64 |
| ApbMtimer.CompareKept | src/ip/apb_mtimer.sv:65-86 | the compare register changes only by writes to its halves |
| ApbMtimer.CtrlKept | src/ip/apb_mtimer.sv:72-84 | the settings change only by writes to the control register |
| ApbMtimer.StoppedStays | src/ip/apb_mtimer.sv:50-63 | a stopped timer left alone keeps its count and settings |
| MTimer.MTimer.Counter | examples/atalanta-bsp/src/mtimer.rs:50-55 | the two reads and the value they join to |
| MTimer.SplitRead | examples/atalanta-bsp/src/mtimer.rs:50-55 | the value is behind `mtime` at the low read by 2^32 per rollover in between, and exact if and only if there was none |
| MTimer.MTimer.SetCounter | examples/atalanta-bsp/src/mtimer.rs:58-61 | the two writes, in order |
| MTimer.SplitWrite | examples/atalanta-bsp/src/mtimer.rs:58-61 | the counter ends at cnt plus the ticks in between if and only if the low word does not overflow before the high write |
| MTimer.SetCounterKeepsRest | examples/atalanta-bsp/src/mtimer.rs:58-61 | `set_counter` leaves compare value and settings alone |
| MTimer.MTimer.Reset | examples/atalanta-bsp/src/mtimer.rs:67-73 | the five writes, in order |
| MTimer.ResetSilencesIrq | examples/atalanta-bsp/src/mtimer.rs:67-73 | from its first write on, at every cycle, the interrupt line is low |
| MTimer.ResetResult | examples/atalanta-bsp/src/mtimer.rs:67-73 | it leaves the timer stopped at 0 with compare 2^64-1 and prescaler 0 |
| MTimer.MTimer.SetCmp | examples/atalanta-bsp/src/mtimer.rs:90-97 | the three writes, in order |
| MTimer.CompareNeverDips | examples/atalanta-bsp/src/mtimer.rs:90-97 | at every cycle of `set_cmp` compare is at least the old value until the second write and at least the new one after it, so the line never rises early; at the end it is the new value |
| MTimer.SetCmpKeepsRest | examples/atalanta-bsp/src/mtimer.rs:90-97 | `set_cmp` leaves the settings and, but for its ticks, the count alone |
| MTimer.MTimer.Cmp | examples/atalanta-bsp/src/mtimer.rs:81-84 | the two reads and the value they join to |
| MTimer.CmpReadsBack | examples/atalanta-bsp/src/mtimer.rs:81-84 | if nobody writes it in between, the value read is the compare value |
| MTimer.SetCmpReadsBack | examples/atalanta-bsp/src/mtimer.rs:81-97 | `cmp` after `set_cmp(c)` gives c, whatever other traffic comes between |
| MTimer.OnlyTimePasses | examples/atalanta-bsp/src/mtimer.rs:50-55 | traffic that does not write the timer, as the accesses of `counter` and `cmp`, changes nothing but the count by its ticks |
| MTimer.MTimer.EnableWithPrescaler | examples/atalanta-bsp/src/mtimer.rs:26-31 | one write of the control register |
| MTimer.EnabledWithPrescaler | examples/atalanta-bsp/src/mtimer.rs:26-31 | the timer runs with the given prescaler afterwards, at the same count |
| MTimer.MTimer.Enable | examples/atalanta-bsp/src/mtimer.rs:35-37 | a read and a write of the control register with bit 0 set |
| MTimer.MTimerLo.SetCmp | examples/atalanta-bsp/src/mtimer.rs:170-177 | the 32-bit variant issues the writes of the 64-bit one |
| OneShot.OneShot.Start | examples/atalanta-bsp/src/mtimer.rs:188-195 | the accesses of `start` and their values, or a panic on a zero divider |
| OneShot.StartFires | examples/atalanta-bsp/src/mtimer.rs:188-195 | on a running timer, with no rollover between the reads, the count has advanced by k between k*(p+1) - c + 4 and k*(p+1) - c + 4*(p+1) cycles after the low read, and the line is high exactly then |
| OneShot.ReadExactly | examples/atalanta-bsp/src/mtimer.rs:192-192 | with no rollover between the two reads the count read is the count at the low read, and the settings are unchanged |
| OneShot.OneShotFires | examples/atalanta-bsp/src/mtimer.rs:192-194 | the same from the low read on |
| OneShot.ArmStartsStopped | examples/atalanta-bsp/src/mtimer.rs:192-194 | on a stopped timer `start` leaves count and prescaler setting and starts it with the prescaler counter at 0 |
| OneShot.OneShotOnStoppedTimer | examples/atalanta-bsp/src/mtimer.rs:188-195 | from there the line rises after exactly k*(p+1) cycles |
| IrqPulseCdc.IrqPulseCdc.Edge | src/ip/irq_pulse_cdc.sv:21-49 | one edge of the fast clock, with or without the slow one |
| IrqPulseCdc.PulseDMeansCounting | src/ip/irq_pulse_cdc.sv:33-41 | the decoded reduction is high if and only if the counter runs |
| IrqPulseCdc.CounterIsAge | src/ip/irq_pulse_cdc.sv:24-31 | a running counter is the age of the last pulse, however close together the pulses are |
| IrqPulseCdc.EveryPulseShows | src/ip/irq_pulse_cdc.sv:21-49 | for every train, spaced or not, the output is high from a slow edge within d cycles of each pulse |
| IrqPulseCdc.OneHighCyclePerPulse | src/ip/irq_pulse_cdc.sv:21-49 | at any phase, pulses at least d apart give exactly one high slow cycle each, back to back too |
| IrqPulseCdc.FaithfulIffCounterReachesDivisor | src/ip/irq_pulse_cdc.sv:19-31 | faithful for all trains and phases if and only if the divisor is below the counter's modulus |
| IrqPulseCdc.ParameterRange | src/ip/irq_pulse_cdc.sv:8-19 | for every `DivMax`, divisors below it are handled and those from twice its value on are not |
| IrqPulseCdc.PeripheralDivisors | src/ip/rt_peripherals.sv:160-168 | with the four-bit divisor exactly the divisors 1 to 3 are handled |
| ClockDivider.ClockDivider.Clock | fpga/hdl/src/configurable_clock_divider_fpga.sv:37-60 | one clock edge of the divider |
| ClockDivider.RunIs | fpga/hdl/src/configurable_clock_divider_fpga.sv:37-66 | from any registers and any earlier configuration: the divider register holds a steady configuration one cycle later, the counter counts for it and the enable marks the cycles after a zero |
| ClockDivider.CounterRange | fpga/hdl/src/configurable_clock_divider_fpga.sv:29-38 | the counter's range is that of its width, two bits |
| ClockDivider.Settles | fpga/hdl/src/configurable_clock_divider_fpga.sv:51-60 | from any counter value, within four cycles the counter is below the period and counts modulo it from then on |
| ClockDivider.OneEnablePerPeriod | fpga/hdl/src/configurable_clock_divider_fpga.sv:51-60 | from any registers, once settled, the clock enable is high in exactly one of every period of consecutive cycles |
| ClockDivider.DividesAtSomePhase | fpga/hdl/src/configurable_clock_divider_fpga.sv:51-66 | the settled divider is a slow clock at some phase of the pulse synchronizer |
| ClockDivider.DividedClockSeesEveryPulse | src/ip/rt_peripherals.sv:140-168 | divider and synchronizer together, the one clocked by the other's enable, from any state of both: after five cycles without a pulse, six if the divisor is new, every pulse of a spaced train is seen exactly once |
| ObiSram.ObiHandshakeFsm.Clock | src/ip/obi_handshake_fsm.sv:27-56 | grant, response and next state of one cycle |
| ObiSram.XilinxSpBram.Clock | fpga/hdl/src/xilinx_sp_BRAM.sv:65-80 | enabled lanes are written in place and the output samples the word from before |
| ObiSram.AddressTranslation | src/ip/obi_sram_intf.sv:13-19 | within the mapped range the translated address is the word index, for any size |
| ObiSram.ObiSram.Clock | src/ip/obi_sram_intf.sv:13-45 | handshake, translation and memory composed into one step |
| ObiSram.RunHoldsFlat | fpga/hdl/src/xilinx_sp_BRAM.sv:65-72 | after any trace the words are the bytes of a flat memory under the byte-enabled writes |
| ObiSram.SramIsFlatMemory | src/ip/obi_sram_intf.sv:13-45 | for any request trace: granted at once, answered exactly one cycle later and never otherwise, with the bytes left by all earlier accepted writes |
| ObiToApb.ObiToApb.Clock | src/ip/obi_to_apb_intf.sv:35-64 | outputs and next state of one cycle |
| ObiToApb.AccessFollowsSetup | src/ip/obi_to_apb_intf.sv:22-57 | every access phase starts with a PSEL-high, PENABLE-low cycle with the same address, direction, data and strobes throughout |
| ObiToApb.PhaseCarriesRequest | src/ip/obi_to_apb_intf.sv:22-48 | setup cycle and access phase carry the address, direction, data and strobes of the same OBI request throughout; PSEL is high exactly while there is a request |
| ObiToApb.TransfersAreRequests | src/ip/obi_to_apb_intf.sv:22-57 | for every run the completed APB transfers are the granted OBI requests, in order and field by field |
| ObiToApb.GrantIsTransfer | src/ip/obi_to_apb_intf.sv:44-52 | a grant is exactly a completed APB transfer and is answered exactly once, in the next cycle |
| ObiToApb.OneOutstanding | src/ip/obi_to_apb_intf.sv:35-56 | grants minus responses is 1 right after a grant and 0 otherwise |
| ObiToApb.GrantedWhenReady | src/ip/obi_to_apb_intf.sv:42-48 | a held request is granted in the first later cycle in which the slave is ready |
| Dtm.WordLayout | verilator/vip/src/Testbench.h:180-183 | the driver's word is op, data and the low seven address bits, shifted one after the other |
| Dtm.UpdateUnpacks | verilator/vip/src/Testbench.h:176-189 | the DTM performs the operation the driver packed |
| Dtm.CapturedUnpacks | verilator/vip/src/Testbench.h:280-281 | op and data that the driver extracts are the DTM's status, 3 for busy and 0 otherwise, and its result |
| JtagTap.ClimbStep | verilator/vip/src/Testbench.h:97-97 | each cycle with TMS high gets closer to Test-Logic-Reset, passing Update-DR at most once |
| Testbench.Testbench.JtagSoftreset | verilator/vip/src/Testbench.h:94-103 | from any TAP state: Run-Test/Idle with IDCODE selected, at most one Update-DR on the way |
| Testbench.Testbench.WriteTms | verilator/vip/src/Testbench.h:110-113 | one TCK cycle with this TMS |
| Testbench.Testbench.WriteBits | verilator/vip/src/Testbench.h:115-122 | shifts exactly the low bits in, leaves the shift state on the last one if asked, and TMS low |
| Testbench.Testbench.ScanIr | verilator/vip/src/Testbench.h:130-136 | eleven cycles that select the opcode's low five bits |
| Testbench.Testbench.SetIr | verilator/vip/src/Testbench.h:124-138 | keeps the cache invariant; the opcode is selected afterwards unless it is all ones under the reset mark |
| Testbench.Testbench.ShiftDr | verilator/vip/src/Testbench.h:140-144 | Shift-DR with the selected register captured in the third cycle |
| Testbench.Testbench.ReadwriteBits | verilator/vip/src/Testbench.h:146-158 | returns the bits shifted out while shifting the given ones in |
| Testbench.Testbench.UpdateDr | verilator/vip/src/Testbench.h:160-165 | exactly one Update-DR, back in Run-Test/Idle, one more shift from Shift-DR |
| Testbench.Testbench.GetIdcode | verilator/vip/src/Testbench.h:167-174 | the identification code if IDCODE is selected after `set_ir`; else the low 32 bits of what the selected register captured, 0 from a bypass register |
| Testbench.Testbench.JtagWriteDmi | verilator/vip/src/Testbench.h:176-189 | from idle to idle with exactly one Update-DR of the 41-bit register, with operation 2 and exactly this data and address |
| Testbench.DmiUpdateInNumbers | verilator/vip/src/Testbench.h:176-189 | such an update is one of instruction 0x11 with the operation's low bit first, and its 41 bits have the value op + 4 * data + 2^34 * (addr mod 128) |
| Testbench.Testbench.WaitIdle | verilator/vip/src/Testbench.h:219-221 | only time passes |
| Testbench.Testbench.WriteDtmcs | verilator/vip/src/Testbench.h:223-229 | exactly one Update-DR of instruction 0x10 with these 32 bits |
| Testbench.Testbench.ResetDmi | verilator/vip/src/Testbench.h:231-234 | one update of instruction 0x10 with 0x10000, which clears the sticky error and leaves an access in flight |
| Testbench.Testbench.JtagReadDmi | verilator/vip/src/Testbench.h:236-261 | two DMI scans, operation 1 and then 0, with the wait in between; the word is what the second one captures |
| Testbench.Testbench.JtagReadDmiExpBackoff | verilator/vip/src/Testbench.h:263-287 | for every debug module within the limit, from any sticky or in-flight state: ends within k+2 trials (8*2^k covers the latency), at most 29, with the module's answer to a read of this address as its last access |
| DmiBackoff.WaitIs | verilator/vip/src/Testbench.h:269-282 | the wait doubles 28 times and is 0 from then on |
| DmiBackoff.TrialFacts | verilator/vip/src/Testbench.h:275-282 | what one trial does from any state: dropped or one read more, and how much of it may still be running |
| DmiBackoff.BackoffTerminates | verilator/vip/src/Testbench.h:272-284 | some trial below k+2 and below 29 is not busy |
| DmiBackoff.ReplyAnswers | verilator/vip/src/Testbench.h:278-286 | a reply that is not busy is the answer to the read just made |
| DmiBackoff.LaggardLags | verilator/vip/src/Testbench.h:272-284 | a debug module one cycle slower than the limit for which every trial is busy |
| DmiBackoff.BackoffLimit | verilator/vip/src/Testbench.h:263-287 | the loop ends for all debug modules of latency at most L, from all states, if and only if L <= 2^30 + 108 |

## Left out

- NestedTraps.InterruptIsTransparent: assumes stack for the frame and the handler at every taken interrupt, and handlers that from entry to return follow the EABI lists of `archi.rs`; a handler compiled for another RV32E convention (where x6, x7 and x14 are temporaries) is outside it. Memory below `sp` is not preserved.
- NestedTraps.PreemptionIsInvisible: `mcause` and `mepc` are not observable by programs in this model; a handler that reads `mcause` after a preemption sees what the later trap left.
- Nested.NestedInRun: the closure is assumed to follow the calling convention in uninterrupted executions, and the few instructions of `nested` itself, before interrupts go on and after they go off, are one step each; the source does not tell the compiler that its two temporaries change, so what the surrounding Rust code keeps in them is not covered; which register `t1` is depends on the assembler's naming and is a parameter.
- UartTx.WriteSerialAlone: `write_serial` is a transition function with one step per statement, not a method, because what counts is what the handler does between its statements; compiler reordering of the ring's plain accesses around the device writes is not modelled.
- UartTx.SpinIsReleased: that the UART goes on raising transmit interrupts is the device's part and is not proved.
- Uart.UartDriver.ReceiveByte: overruns of the device's own FIFO are not modelled, and the debug ring, which gets a matching byte twice after one check for room, may be emptied by the second.
- Uart.UartDriver.UartHandler: the handler is atomic; main code polling a window while the handler pushes is not covered.
- MTimer.ResetResult: bus traffic of others during `reset` must not write the timer; the same holds for `OneShot.StartFires`.
- ObiToApb.GrantIsTransfer: read data through the bridge is left out: it depends on the clock crossing holding `prdata`, which is not part of this model.
- ObiSram.SramIsFlatMemory: the memory starts out as zeros, as in the FPGA build; the simulation and technology memories behind the same interface are not part of this model.
- Testbench.Testbench.JtagReadDmiExpBackoff: needs a latency limit of at most 2^30 + 108, without which the loop need not end (`DmiBackoff.BackoffLimit`).
- Testbench.Testbench.JtagTick: one TCK cycle; the clock ticks inside it, the pins' timing around the edges and wave tracing are not modelled.
- `jtag_reset` (the asynchronous TRST pin), `jtag_write` with its waits and `jtag_init`: their loops end when a debug-module register says so.
- The ELF loader and JTAG memory access: file input, and a word loop that reads past the section buffer.
- The PCS trampoline: its correctness lives in the hardware stacking of the core, which is not part of this model.
- CLIC arbitration, interconnect, clock crossings, UART, DMA and timer-group hardware: external libraries.
- MTimer.MTimer.EnableWithPrescaler: only for prescalers up to 7, as its documentation demands; the assertion is absent from release builds.
- `disable`, `cancel` and register accessors: single accesses.
- The configuration of UART and CLIC, the polled variant of `write_serial`, printing and hexadecimal conversion.
- The text formatting of the assembly: the generators are modelled on instructions, and `la` as its two-instruction expansion.
- Reset in the middle of a trace, and requests outside the mapped range of the memory.
- The periodic benchmark, GPIO, LEDs, build scripts and constraints.
