# Verification of an AoIP receiver for the ESP32-P4

A Dafny model of the stateful cores of an eight-channel audio-over-IP receiver, with
proofs that hold for every input and every run. Each core keeps the form of the
firmware: an object edited in place becomes a class whose methods are proved against a
small specification (a state machine on values), and what the firmware promises is
proved about that specification as lemmas.

`dafny verify dfyconfig.toml` checks the whole project.

| files | what they model |
|---|---|
| `JitterRing`, `JitterBuffer` | the I2S driver's DMA ring used as a jitter buffer (`main/jitterbuf.c`) |
| `EmacFrames`, `EmacRx`, `EmacTx` | the EMAC descriptor rings and the receive task (`components/esp_eth/src/mac/`) |
| `LowEdge`, `ServoSpec`, `ServoLaws`, `PtpServo` | the PTP servo: order-statistic filter, gain-switched PI, lock, jumps and strikes (`main/ptp_servo.c`) |
| `PathDelay`, `SlaveSpec`, `PtpSlave` | the PTPv1 slave: pairing, epochs, path delay (`main/ptpv1.c`; IEEE 1588-2002, clause 8) |
| `MediaSpec`, `MediaClock`, `MclkHw`, `Playout` | the media clock, its sigma-delta actuator, and both together with the jitter buffer (`main/media_clock.c`, `main/mclk_hw.c`) |
| `Latency` | the latency budget across rate, clock and buffer |
| `FlowTable`, `Subscriptions`, `Subscriber` | the subscription reconciler: four flow slots, make-before-break (`main/subscriber.c`) |
| `WebUpdate` | the streaming firmware upload (`main/web.c`) |
| `Arith`, `Prelude` | C division, clamps, circular indices; Option and bytes |

## Main results

- **Jitter buffer.** However plays, coalesced interrupts, packets, anchors and steps
  interleave, each frame the DMA plays is, per output, the last value written for its
  sample since the timeline was mapped, or silence (`PlayedFrameIsLastWritten`). The
  class that stores bytes in buffers takes exactly these steps, and what was sent as 24 bits
  on channel ch is what output 7 - ch plays (`SentIsHeard`).
- **EMAC receive.** With the DMA running between any two steps of the CPU, every
  complete frame is consumed exactly once, in order, as its error flag, its length and
  the allocator decide (`RxTask`, `ReceiveAll`); the local patch of the
  remaining-frames walk takes the same decisions (`GetRemainFrames`).
- **EMAC transmit.** On two rings in equal states the two senders do the same, descriptor
  for descriptor, if and only if the chain fits the ring and the buffers have no empty
  tail, or a descriptor both need is the DMA's (`SendBoth`).
- **Servo.** The counters are what an outside observer would count, the rate estimate is
  always the clamped integral times the gain of the mode, and the output clamp never
  acts (`EveryRun`; of the object itself, `CountersAreObserved`). An update that
  feeds the loop pushes against the filtered offset, never so hard that a second of it
  carries it past zero; one that steps takes out exactly the offset (`UpdateCorrects`).
- **PTP slave.** Every path-delay sample ever accepted rests on Syncs paired with their own
  Follow_Up and stamped, like t3, since the last step of our clock (`HandleDelayResp`). The
  t2 - t1 used is the last Sync's own exactly when that Sync was not tracked or is itself the
  second lowest in the filter (`OneSyncExactly`); else it is that of another of its up to 32
  Syncs, brought forward to now (`SomeSyncBehind`).
- **Media clock.** The bounds, the slew limit, and the two and only two reasons for
  stepping playout, over every run (`RunInv`); the rate is pushed the way that closes the
  error (`TickInNumbers`); the dither loses nothing in any run exactly when the nominal
  word leaves room for the trim (`ConservedExactly`).
- **Subscriptions.** A new transmitter always finds a slot, a rebuild is
  make-before-break unless a replacement is refused, and after it every active channel
  is on its own device's flow exactly when no bind failure met a channel whose flow had
  died (`RebuildIsSoundExactly`). An active channel that is received plays what its own
  names resolved to (`PlaysWhatItSays`).
- **Firmware upload.** Acceptance depends on the file alone, signature included
  (`UpdatePost`), and so does the verdict, except exactly where a bad header meets a flash fault that the chunk
  completing the header may or may not reach (`VerdictIgnoresChunksExactly`).

## Where the code and its description differ

The model follows the code. What the proofs brought out:

- The unlock streak (`main/ptp_servo.c:242-246`) can never count: a locked low edge over
  10 microseconds is also over 8, and the jump branch takes it first (`ServoSpec.EveryRun`).
- The jump run is not cleared by a coarse step, so "eight in a row" means eight locked
  updates with no calm locked one between (`ServoSpec.JumpIsEight`).
- The mean path delay can exceed every sample: halving 17 samples gives 8 with half the
  sum. The least bound is 10/9 of the largest (`PathDelay.MeanBoundExactly`); "at most the
  largest" holds exactly up to 17 samples (`PathDelay.MeanIsAtMostLargestExactly`).
- While locked, the path delay is measured from the low edge of the last up to 32 Syncs,
  so from the Sync that precedes the Delay_Req only if that is the low edge
  (`SlaveSpec.OneSyncExactly`, `SlaveSpec.LateIsReplaced`).
- The dither makes the mean exact only if the nominal word is in 53 .. 4193402; outside,
  the clamp of the register loses what it cuts off (`MclkHw.ConservedExactly`).
- Which error a refused upload reports can depend on how it was cut
  (`WebUpdate.TwoVerdicts`).
- The media clock's integral limit of 1000000 never acts; the integral stops at 653334
  (`MediaSpec.IntegralLimitIsIdle`).
- The buffer map is learned wrongly if an interrupt of the first lap covers two
  descriptors; afterwards coalescing is harmless
  (`JitterBuffer.FirstLapLearnsExactlyWhenUncoalesced`).
- A socket that cannot be bound leaves the channel statuses alone, so a channel whose flow
  had died stays active with nothing received, and the retry of pending channels does not
  see it (`Subscriptions.StallThenBindFailureStrands`, `Subscriber.AnyPending`).
- The limit of eight slots in a flow never acts: there are eight channels
  (`Subscriptions.PlannedExactly`).
- "Old flow kept playing" (`main/subscriber.c:447-448`) cannot be logged: a refused
  replacement always stops the old flow and clears the note first
  (`FlowTable.RefusalBreaks`).
- The scatter-gather sender appends an empty descriptor when the last buffer is empty and
  the total is a multiple of the buffer size (`EmacTx.SendersAgreeExactly`); beyond the capacity
  of the ring it queues a chain with no last segment (`EmacTx.TxRing.TransmitExt`).

## Model

| member | source | states |
|---|---|---|
| JitterRing.PlayedFrameIsLastWritten | main/jitterbuf.c:107-282 | Over every run of DMA plays, coalesced interrupts, packet writes, anchors and steps from power-up, the frame the DMA plays is, output by output, the last value written for that sample since the timeline was last mapped, or silence. |
| JitterRing.RunInv | main/jitterbuf.c:107-282 | The ring holds exactly one lap starting at the acknowledged position, and nothing is written beyond the window, in every state of every run. |
| JitterRing.StepInv | main/jitterbuf.c:107-282 | Each single event keeps that invariant. |
| JitterRing.OldAudioNeverReturns | main/jitterbuf.c:107-131 | Once a slot has been acknowledged, the slot one lap later is silent and has nothing written to it: audio never comes back from another lap. |
| JitterRing.LandedPacketMeaning | main/jitterbuf.c:221-282 | A packet changes the meaning of exactly the samples at or past the read head that it carries, on the outputs it carries, and of no other. |
| JitterRing.LandedFrameIsHeard | main/jitterbuf.c:221-282 | A frame of a packet that landed is played, with exactly its values, when the DMA gets to its slot, unless something else is written or mapped in between. |
| JitterRing.QuietRunIsHeard | main/jitterbuf.c:221-282 | Between writes and mappings the DMA plays out what each sample means. |
| JitterRing.PutFromRing | main/jitterbuf.c:246-273 | Writing the frames into the buffers is the abstract write: the ring changes as the timeline does. |
| JitterRing.PutInv | main/jitterbuf.c:250-270 | A write inside the window cannot alias a slot not yet played or not yet cleared. |
| JitterRing.AcknowledgeInv | main/jitterbuf.c:119-131 | Finishing and zeroing any number of buffers at once keeps one clean lap. |
| JitterBuffer.SearchIsExact | main/jitterbuf.c:119-129 | For distinct buffers and 1 to N finished descriptors, the search formula gives exactly that number, and the next expected index stays congruent to the count modulo N. |
| JitterBuffer.FirstLapLearnsExactlyWhenUncoalesced | main/jitterbuf.c:111-117 | During the first lap the buffer map is learned correctly if and only if no interrupt covers two descriptors. |
| JitterBuffer.ScaledIsSafe | main/jitterbuf.c:262-269 | A sample scaled by any gain is a 32-bit word: it saturates at full scale, keeps the order of samples, and is unchanged at 0 dB. |
| JitterBuffer.AmplifiedExactly | main/jitterbuf.c:262-269 | The output word is fixed in numbers: the 24-bit sample times 256 times the gain over 65536, rounded down and clipped; at 0 dB it is 256 times the sample. |
| JitterBuffer.SentIsOutput | main/jitterbuf.c:255-271 | Channel ch of a packet, three bytes per sample, most significant first, comes out on DAC output 7 - ch with exactly that word. |
| JitterBuffer.SentIsHeard | main/jitterbuf.c:221-282 | What was sent is what is heard: a sample of a packet that arrived, from the read head on, is what the DMA plays at its slot, unless something is written or mapped in between. |
| JitterBuffer.OutputIsLastMapped | main/jitterbuf.c:255-271 | A frame of a packet writes an output exactly when some slot is mapped to it, with the sample of the last such slot. |
| JitterBuffer.JitterBuffer.constructor | main/jitterbuf.c:96-103 | The ring starts unlearned, silent, at position 0. |
| JitterBuffer.JitterBuffer.DmaPosNow | main/jitterbuf.c:152-164 | The estimated position is the last interrupt plus the elapsed frames, clamped to 0 .. 2F. |
| JitterBuffer.JitterBuffer.PlayoutIdx | main/jitterbuf.c:187-192 | The absolute sample at the DAC. |
| JitterBuffer.JitterBuffer.Search | main/jitterbuf.c:119-127 | The loop finds the finished buffer and the number of descriptors since the last interrupt, exactly. |
| JitterBuffer.JitterBuffer.IsrSent | main/jitterbuf.c:107-131 | The position advances by exactly the descriptors finished, in the first lap and after. |
| JitterBuffer.JitterBuffer.OnSent | main/jitterbuf.c:107-131 | Interrupt and zeroing together are one acknowledge step of the ring. |
| JitterBuffer.JitterBuffer.DmaPlay | main/audio_out.c:28-32 | What the DMA reads is what the samples mean. |
| JitterBuffer.JitterBuffer.ClearRing | main/jitterbuf.c:166-173 | Every learned buffer is silent. |
| JitterBuffer.JitterBuffer.Reset | main/jitterbuf.c:175-185 | Anchoring is one re-map step of the ring; ignored until the ring is learned. |
| JitterBuffer.JitterBuffer.StepPlayout | main/jitterbuf.c:202-212 | Stepping is one step event of the ring. |
| JitterBuffer.JitterBuffer.WriteRow | main/jitterbuf.c:255-272 | One frame is laid over its row; every other row is as it was. |
| JitterBuffer.JitterBuffer.WriteFrames | main/jitterbuf.c:246-273 | All frames at or past the read head are laid into the ring. |
| JitterBuffer.JitterBuffer.Write | main/jitterbuf.c:221-282 | A packet is accepted exactly when it is not malformed, the ring is anchored, at least one frame is past the read head (16 frames past the DMA) and none more than 2048 past it; then the ring takes exactly one write step, the head moves to its end, and every sample from the read head on means what was sent. |
| EmacFrames.FirstFrameDecides | components/esp_eth/src/mac/esp_eth_mac_esp_dma.c:348-378 | A stretch of descriptors holds a complete frame exactly when its first frame is complete. |
| EmacFrames.StopsAtFirst | components/esp_eth/src/mac/esp_eth_mac_esp_dma.c:356-376 | Stopping at the first last-descriptor bit is enough to know that a frame is there. |
| EmacFrames.FramesCount | components/esp_eth/src/mac/esp_eth_mac_esp_dma.c:348-378 | The number of complete frames is the number of last-descriptor bits. |
| EmacFrames.WireRoundTrip | components/esp_eth/src/mac/esp_eth_mac_esp_dma.c:410-470 | A payload cut into buffers with its CRC arrives as a good frame, and what must become of it is its delivery, exactly, if it fits a packet and there is memory. |
| EmacFrames.IncomingIsStream | components/esp_eth/src/mac/esp_eth_mac_esp_dma.c:314-490 | Any payloads, each with its own CRC, and any frames in error between them, are a stream the receive ring may be given. |
| EmacFrames.DeliveredIsSent | components/esp_eth/src/mac/esp_eth_mac_esp.c:444-493 | End to end: the i-th outcome is exactly what had to become of the i-th arrival: an error dropped, else delivered byte for byte if there was memory and it fits a packet; and once all is taken every arrival has an outcome. |
| EmacRx.CopiedOutcome | components/esp_eth/src/mac/esp_eth_mac_esp.c:463-475 | A copy as long as the frame is its delivery; a shorter one means truncation. |
| EmacRx.RxRing.constructor | components/esp_eth/src/mac/esp_eth_mac_esp_dma.c:62-88 | After a reset every receive descriptor is the DMA's and nothing has been consumed. |
| EmacRx.RxRing.DmaRuns | components/esp_eth/src/mac/esp_eth_mac_esp_dma.c:314-490 | However far the DMA runs, CPU-owned descriptors remain one circular run of arrivals in order. |
| EmacRx.RxRing.GiveBack | components/esp_eth/src/mac/esp_eth_mac_esp_dma.c:462-466 | Returning the oldest descriptor shortens the run by exactly it. |
| EmacRx.RxRing.ReturnRest | components/esp_eth/src/mac/esp_eth_mac_esp_dma.c:446-466 | The rest of a frame is returned, up to its last descriptor and no further; the pointer is at the next frame. |
| EmacRx.RxRing.Flush | components/esp_eth/src/mac/esp_eth_mac_esp_dma.c:472-490 | The head frame is dropped without being read, with all its descriptors and only those. |
| EmacRx.RxRing.WalkHead | components/esp_eth/src/mac/esp_eth_mac_esp_dma.c:314-346 | The walk finds the end of the head frame exactly when it is complete, with the DMA running in between. |
| EmacRx.RxRing.GetValidRecvLen | components/esp_eth/src/mac/esp_eth_mac_esp_dma.c:314-346 | Length 0 exactly for an incomplete frame; a frame in error is dropped at once; otherwise the length without the CRC. |
| EmacRx.RxRing.AllocRecvBuf | components/esp_eth/src/mac/esp_eth_mac_esp_dma.c:380-408 | The size reported is the frame's; the buffer holds at most the size asked for, and none without memory. |
| EmacRx.RxRing.CopyOut | components/esp_eth/src/mac/esp_eth_mac_esp_dma.c:431-445 | Exactly the first bytes of the frame are copied, across descriptors, each returned as soon as it is read. |
| EmacRx.RxRing.ReceiveFrame | components/esp_eth/src/mac/esp_eth_mac_esp_dma.c:410-470 | The copy is the frame's prefix and all its descriptors, no others, go back. |
| EmacRx.RxRing.GetRemainFrames | components/esp_eth/src/mac/esp_eth_mac_esp_dma.c:348-378 | The unpatched walk counts every complete frame; the patched one answers the minimum of 1 and that count, nonzero exactly when the head frame is complete. |
| EmacRx.RxRing.Settle | components/esp_eth/src/mac/esp_eth_mac_esp.c:452-486 | A frame settled moves the head to the next frame and is logged once. |
| EmacRx.RxRing.Deliver | components/esp_eth/src/mac/esp_eth_mac_esp.c:456-475 | The frame is passed up byte for byte, or dropped if truncated. |
| EmacRx.RxRing.RxOne | components/esp_eth/src/mac/esp_eth_mac_esp.c:452-486 | One pass settles the head frame, if complete, as its error flag, length and the allocator decide, and does nothing else. |
| EmacRx.RxRing.RxTask | components/esp_eth/src/mac/esp_eth_mac_esp.c:444-493 | Every frame that arrived is consumed exactly once, in order, and the receive loop sleeps only when no complete frame is left. |
| EmacRx.RxRing.LogIsFate | components/esp_eth/src/mac/esp_eth_mac_esp.c:444-493 | The ring and the wire together: the log says of each arrival, in order, exactly what had to become of it. |
| EmacRx.ReceiveAll | components/esp_eth/src/mac/esp_eth_mac_esp.c:444-493 | From reset on, with memory to be had, every payload stored whole that fits a packet is delivered, in order. |
| EmacTx.PiecesConcat | components/esp_eth/src/mac/esp_eth_mac_esp_dma.c:130-184 | The pieces a frame is cut into make up the frame. |
| EmacTx.SendersAgreeExactly | components/esp_eth/src/mac/esp_eth_mac_esp_dma.c:130-312 | From the same lap of the ring the two senders return the same, advance alike and hand the DMA the same descriptors (owner, flags, sizes, bytes), if and only if the chain fits the ring and the buffers have no empty tail, or a descriptor both need is the DMA's. |
| EmacTx.SendBoth | components/esp_eth/src/mac/esp_eth_mac_esp_dma.c:130-312 | The same of the two methods themselves, run on two rings in equal states. |
| EmacTx.FittingBuffersAgree | components/esp_eth/src/mac/esp_eth_mac_esp_dma.c:197-312 | Non-empty buffers whose total fits the ring always go out as their concatenation would. |
| EmacTx.PieceAt | components/esp_eth/src/mac/esp_eth_mac_esp_dma.c:130-184 | Where each byte of the frame goes. |
| EmacTx.QueuedIsSent | components/esp_eth/src/mac/esp_eth_mac_esp_dma.c:146-192 | What goes on the wire is the frame: the DMA's descriptors hold exactly its bytes, with the first and last bits on the first and last descriptor. |
| EmacTx.ControlBits | components/esp_eth/src/mac/esp_eth_mac_esp_dma.c:155-167 | The flags of the first segment are on the first descriptor, that of the last on the last, and every other bit is what it was. |
| EmacTx.TxRing.constructor | components/esp_eth/src/mac/esp_eth_mac_esp_dma.c:90-105 | After a reset every transmit descriptor is the CPU's. |
| EmacTx.TxRing.LoadNext | components/esp_eth/src/mac/esp_eth_mac_esp_dma.c:149-184 | One more descriptor is loaded, if it is the CPU's, and nothing else changes. |
| EmacTx.TxRing.HandOver | components/esp_eth/src/mac/esp_eth_mac_esp_dma.c:186-192 | The loaded descriptors become the DMA's, in order, and the cursor moves past them. |
| EmacTx.TxRing.Transmit | components/esp_eth/src/mac/esp_eth_mac_esp_dma.c:130-195 | Either the whole chain is queued with its flags, sizes and bytes, or 0 is returned and ownership and cursor are unchanged. |
| EmacTx.TxRing.FillOne | components/esp_eth/src/mac/esp_eth_mac_esp_dma.c:222-283 | One descriptor takes as much from the remaining buffers as fits. |
| EmacTx.TxRing.Gather | components/esp_eth/src/mac/esp_eth_mac_esp_dma.c:197-283 | The descriptors loaded are those of the gathered chain, up to the first the DMA still owns. |
| EmacTx.TxRing.TransmitExt | components/esp_eth/src/mac/esp_eth_mac_esp_dma.c:197-312 | The scatter-gather sender queues the gathered chain as far as the ring goes, or returns 0 with ownership and cursor unchanged when a needed descriptor is the DMA's. |
| LowEdge.SecondLowestByCount | main/ptp_servo.c:60-87 | The filter is at most b exactly when two samples (or the only one) are: an order statistic, whatever the order of arrival. |
| LowEdge.SecondLowestExactly | main/ptp_servo.c:60-87 | A value is the filtered one exactly when at least two samples (or the only one) are at most it and at most one (none, if alone) is below. |
| LowEdge.SecondLowestIsOne | main/ptp_servo.c:60-87 | The filtered value is always one of the samples. |
| LowEdge.LateSamplesCannotRaise | main/ptp_servo.c:60-87 | If two samples are at most B so is the result, however late the rest are. |
| LowEdge.OneGlitchCannotLower | main/ptp_servo.c:60-87 | If at most one sample is below A the result is at least A. |
| LowEdge.SortSorts | main/ptp_servo.c:79-84 | Insertion sort sorts and permutes. |
| LowEdge.InsertInPlace | main/ptp_servo.c:79-84 | The inner loop inserts one sample in place, as the specification does. |
| LowEdge.SortInPlace | main/ptp_servo.c:79-84 | The in-place sort is the specified one. |
| ServoSpec.GainSwitchKeepsRate | main/ptp_servo.c:197-200 | Rescaling the integral for either gain changes the rate estimate by exactly nothing. |
| ServoSpec.UpdateInv | main/ptp_servo.c:137-253 | Every measurement keeps rate equal to the clamped integral times the gain of its mode, the bounds, and the unlock streak at zero. |
| ServoSpec.CommandBounds | main/ptp_servo.c:214-230 | The command stays within 150000 ppb, so the 200000 clamp never acts. |
| ServoSpec.WindowGrowth | main/ptp_servo.c:66-73 | The filter looks at 8 samples until locked, then a quarter more per update, always between 1 and 32 and never more than it has. |
| ServoSpec.TracksNext | main/ptp_servo.c:137-253 | One more measurement, and the servo's counters still agree with an observer's. |
| ServoSpec.LockGained | main/ptp_servo.c:232-241 | Lock is gained exactly on the eighth consecutive steered update under 3 microseconds. |
| ServoSpec.LockLost | main/ptp_servo.c:143-204 | Lock is lost exactly by an offset beyond 1 ms or by a jump that is the third, each less than 30 s after the one before, since a jump last cost the lock. |
| ServoSpec.JumpIsEight | main/ptp_servo.c:177-204 | A completed jump is made of exactly eight locked updates beyond 8 microseconds with no calm locked one between. |
| ServoSpec.RunTracks | main/ptp_servo.c:42-253 | The counters agree with the observer's over every run. |
| ServoSpec.EveryRun | main/ptp_servo.c:42-253 | From power-up, in every reachable state: rate is the clamped integral times the current gain, the bounds hold, and the unlock streak is 0. |
| ServoLaws.UpdateCorrects | main/ptp_servo.c:137-253 | In numbers: an offset beyond 1 ms is taken out by a step; a fed update pushes against the low edge, with the gains 300 to 700 thousandths and 20000 or 40000 millionths; a jump is taken out by a step with the lock kept; until then the rate is held. |
| ServoLaws.PushesBack | main/ptp_servo.c:218-228 | The phase term is on the side that takes the offset down, and one second of it never carries the offset past zero. |
| ServoLaws.EstimateTakesOut | main/ptp_servo.c:105-135 | The frequency estimate changes the command by exactly minus the drift seen, within 100 ppm, after 4 s and 12 Syncs. |
| ServoLaws.RateFalls | main/ptp_servo.c:206-216 | A larger integral never asks for a higher rate. |
| ServoLaws.CompensationIsMovement | main/ptp_servo.c:170-175 | An older sample is brought forward by what the phase term has moved the clock since. |
| ServoLaws.EdgeIsASample | main/ptp_servo.c:60-87 | What is filtered is the newest offset itself, or an older sample brought forward. |
| ServoLaws.TwoSamples | main/ptp_servo.c:60-87 | Of two samples after a clear, the filter takes the later, the first read as of now. |
| PtpServo.PtpServo.ClearFilter | main/ptp_servo.c:42-47 | The window is emptied and the compensation zeroed. |
| PtpServo.PtpServo.Forget | main/ptp_servo.c:42-47 | Called from outside after a step: the same, and one more input of the run. |
| PtpServo.PtpServo.Store | main/ptp_servo.c:62-64 | The circular store keeps the newest 32 samples. |
| PtpServo.PtpServo.CopyNewest | main/ptp_servo.c:76-78 | The n newest samples are copied out. |
| PtpServo.PtpServo.WindowPush | main/ptp_servo.c:60-87 | The filtered value is the second lowest of exactly the newest samples the growth rule asks for. |
| PtpServo.PtpServo.Estimate | main/ptp_servo.c:105-135 | The frequency estimate seeds rate and integral consistently. |
| PtpServo.PtpServo.Jump | main/ptp_servo.c:177-204 | The jump detector decides as specified: feed, hold or shift. |
| PtpServo.PtpServo.CompleteJump | main/ptp_servo.c:184-200 | The eighth update: shift and keep lock, or give lock up on the third strike. |
| PtpServo.PtpServo.Gains | main/ptp_servo.c:206-221 | Integral and rate of the PI loop in the current mode. |
| PtpServo.PtpServo.Streaks | main/ptp_servo.c:232-248 | Lock hysteresis. |
| PtpServo.PtpServo.Steer | main/ptp_servo.c:164-253 | A steered update is the specified one. |
| PtpServo.PtpServo.CoarseStep | main/ptp_servo.c:143-162 | A step of more than 1 ms drops lock, estimate and P term. |
| PtpServo.PtpServo.Update | main/ptp_servo.c:137-253 | One update is one step of the specification, and in numbers it takes the offset out. |
| PtpServo.PtpServo.CountersAreObserved | main/ptp_servo.c:42-253 | Of everything this servo was told: its counters are what an observer of it has counted. |
| PathDelay.MeanRange | main/ptpv1.c:332-347 | The reported mean lies between the smallest accepted sample and 10/9 of the largest since the reset. |
| PathDelay.MeanBoundExactly | main/ptpv1.c:332-347 | That the mean is at most p/q of the largest sample holds of all sequences if and only if p/q is at least 10/9. |
| PathDelay.MeanIsAtMostLargestExactly | main/ptpv1.c:332-347 | That the mean is at most the largest sample holds of all sequences of a length if and only if the length is at most 17. |
| PathDelay.EighteenEqualSamples | main/ptpv1.c:343-346 | Eighteen equal samples report more than their value if and only if it is at least 18. |
| PathDelay.Appended | main/ptpv1.c:332-346 | The accumulator after one more sample. |
| SlaveSpec.FilterKept | main/ptpv1.c:111-233 | Every sample in the servo's window is the offset of a Sync paired with its own Follow_Up and stamped since the last step of our clock. |
| SlaveSpec.OriginKept | main/ptpv1.c:164-233 | What compute_offset stores as t2 - t1 is that of the last Sync, or, if it was tracked, the second lowest of the paired offsets in the window with the path delay put back. |
| SlaveSpec.ReactionCorrects | main/ptpv1.c:164-233 | With t2 - t1 the path delay and our offset: a paired Sync takes out exactly that offset, by the snap, by a step or through the servo, once frequency and path delay are known. |
| SlaveSpec.CountedExactly | main/ptpv1.c:118-137 | The media clock re-anchors exactly on a snap and on steps beyond 100 microseconds. |
| SlaveSpec.AverageRestarts | main/ptpv1.c:111-233 | The path delay starts again exactly after a step that is no snap and after the frequency estimate. |
| SlaveSpec.SymmetricPath | main/ptpv1.c:316-320 | On a path of m nanoseconds either way the sample is m, whatever the offset of our clock. |
| SlaveSpec.PathError | main/ptpv1.c:316-320 | Asymmetry and drift between the two halves go into the sample by half. |
| SlaveSpec.OneSyncExactly | main/ptpv1.c:223-230 | The t2 - t1 of an accepted sample is the last Sync's own if and only if that Sync was not tracked or its offset is, by count, itself the second lowest (or the only one) of those in the filter. |
| SlaveSpec.SomeSyncBehind | main/ptpv1.c:223-230 | If tracked, it is that of one of the up to 32 Syncs in the filter, with the path delay and the compensation of now for those of then. |
| SlaveSpec.OwnAfterShift | main/ptpv1.c:223-230 | The first Sync after a shift is tracked and stores its own t2 - t1: the filter holds it alone. |
| SlaveSpec.LateIsReplaced | main/ptpv1.c:223-230 | A tracked Sync later than two others in use has less than its own t2 - t1 stored. |
| SlaveSpec.TrackedLowEdge | main/ptpv1.c:223-230 | While tracked, the difference used is low exactly when two of the paired offsets behind it are. |
| SlaveSpec.OneSnapPerEstimate | main/ptpv1.c:206-230 | Over every run there are no more snaps than frequency estimates, plus one if the run begins with a snap to be made. |
| PtpSlave.PtpSlave.constructor | main/ptpv1.c:50-70 | The slave starts unpaired, with nothing accepted. |
| PtpSlave.PtpSlave.PathDelayInvalidate | main/ptpv1.c:70-77 | A step drops every stamp and average of the old epoch. |
| PtpSlave.PtpSlave.ApplyServo | main/ptpv1.c:111-147 | The servo takes one step of its specification, and a step of our clock opens a new epoch with nothing carried over. |
| PtpSlave.PtpSlave.ComputeOffset | main/ptpv1.c:164-233 | A paired Sync takes exactly one turn of the run (servo, clock, acquisition stage, path average, step count), and any step leaves no stamp of the old epoch. |
| PtpSlave.PtpSlave.ComputedInNumbers | main/ptpv1.c:111-233 | Of the object, in numbers: the offset taken out, the step made, and whether it counts. |
| PtpSlave.PtpSlave.Evaluate | main/ptpv1.c:164-233 | What is stored as t2 - t1, and what a step drops. |
| PtpSlave.PtpSlave.Act | main/ptpv1.c:190-230 | The acquisition order: estimate on the raw difference, hold, snap once, then servo. |
| PtpSlave.PtpSlave.Snap | main/ptpv1.c:209-219 | The snap steps by exactly the negated offset and clears the filter. |
| PtpSlave.PtpSlave.Follow | main/ptpv1.c:208-230 | With the path delay known: one snap for a large offset, else the servo. |
| PtpSlave.PtpSlave.Acquire | main/ptpv1.c:191-205 | Until the frequency is known the raw difference goes in, and path samples from before the fix are dropped. |
| PtpSlave.PtpSlave.Track | main/ptpv1.c:223-230 | While locked the stored difference becomes the low edge of the servo's window plus the mean. |
| PtpSlave.PtpSlave.HandleSync | main/ptpv1.c:235-276 | A Sync without hardware stamp changes nothing; a two-step one waits for its own Follow_Up; a one-step one is used at once. |
| PtpSlave.PtpSlave.HandleFollowUp | main/ptpv1.c:278-300 | Only the Follow_Up of the pending Sync is used, with that Sync's stamp. |
| PtpSlave.PtpSlave.SendDelayReq | main/ptpv1.c:93-109 | t3 belongs to the epoch in which the request left. |
| PtpSlave.PtpSlave.HandleDelayResp | main/ptpv1.c:302-348 | A sample is accepted exactly when it answers a request of ours (the sequence id is not compared), both halves are there and it is within 0..10 ms; every sample ever accepted has t3, and the stamps of every Sync behind it, of one epoch, each Sync paired with its own Follow_Up. |
| PtpSlave.PtpSlave.Accumulate | main/ptpv1.c:332-347 | The sliding average takes the sample; the mean is that of the samples since the reset. |
| PtpSlave.PtpSlave.MeanIsBounded | main/ptpv1.c:190-231 | Whenever the mean is used it lies between the smallest sample since the average was reset and 10/9 of the largest. |
| PtpSlave.PtpSlave.SnappedOncePerEstimate | main/ptpv1.c:206-230 | Over everything the slave has done, the clock was snapped at most once for each frequency estimate. |
| MclkHw.ConservedExactly | main/mclk_hw.c:98-130 | Over every run from power-up all that was asked for is written or carried, if and only if the nominal word is in 53 .. 4193402. |
| MclkHw.CommandExactly | main/mclk_hw.c:98-130 | From any state, nothing is ever lost under one command if and only if its target lies within the register. |
| MclkHw.RoomIsEnough | main/mclk_hw.c:120-130 | The nominal words for which no rate command can reach the ends of the register: exactly 53 .. 4193402. |
| MclkHw.RenderIsExact | main/mclk_hw.c:98-116 | A tick loses nothing exactly when what is owed fits the register. |
| MclkHw.RunConserves | main/mclk_hw.c:98-130 | Over every interleaving of rate commands and ticks, 65536 times the words written plus the accumulator, less the targets, is constant, and the accumulator stays in 0 .. 65535. |
| MclkHw.ErrorBelowOneBit | main/mclk_hw.c:98-130 | Between any two moments of any run the words written differ from what was asked for by less than one least significant bit in all. |
| MclkHw.TargetInNumbers | main/mclk_hw.c:120-130 | A command of ppb billionths aims at base + ppb * (262144 + base) / 10^9 words, to the nearest 2^-16, up to 202 ppm either way. |
| MclkHw.RateAccuracy | main/mclk_hw.c:98-130 | At a constant command whose target lies within the register, n words average the ratio (262144 + base) * (1 + ppb / 10^9) of the PLL to within one n-th of a bit and the 2^-16 of the target. |
| MclkHw.StepKeeps | main/mclk_hw.c:98-130 | Each command and each tick keeps the balance. |
| MclkHw.HighDiffers | main/mclk_hw.c:69-70 | The masked exclusive-or is nonzero exactly when the upper field differs. |
| MclkHw.JoinedFields | main/mclk_hw.c:67-74 | The three fields of a word make that word. |
| MclkHw.MclkHw.Init | main/mclk_hw.c:135-178 | There is an actuator exactly when the word read back is not 0, and then it starts there. |
| MclkHw.MclkHw.constructor | main/mclk_hw.c:135-178 | The actuator starts at the word read back, with nothing owed. |
| MclkHw.MclkHw.ApllWriteSdm | main/mclk_hw.c:67-74 | Writing only the fields that differ leaves the registers holding exactly the new word. |
| MclkHw.MclkHw.DitherCb | main/mclk_hw.c:98-116 | One tick of the specification, and the registers hold the last word. |
| MclkHw.MclkHw.SetPpb | main/mclk_hw.c:120-130 | One rate command of the specification. |
| MclkHw.MclkHw.WrittenIsAsked | main/mclk_hw.c:98-130 | All the words this actuator has ever written are what it was asked for, less at most a fraction of one bit, if the nominal word leaves room. |
| MediaSpec.TickInv | main/media_clock.c:148-263 | Every tick keeps the phase term within 2000 ppb, the feed-forward within 200000, the integral and the out-of-band counter bounded, and the phase term 0 while disarmed. |
| MediaSpec.IntegralLimitIsIdle | main/media_clock.c:231-239 | The limit on the integral never acts: the output clamp stops integration first, at 653334. |
| MediaSpec.CommandFits | main/media_clock.c:133-137 | The total command is within 202000 ppb, so the actuator's clamp never acts. |
| MediaSpec.SlewTowardsTarget | main/media_clock.c:245-256 | The phase term closes in on its target by exactly the slew limit or reaches it, and never passes it. |
| MediaSpec.TickSlews | main/media_clock.c:148-263 | No tick moves the phase term by more than 10 ppb. |
| MediaSpec.NoErrorAfterAction | main/media_clock.c:112-131 | An anchor or a step puts playout exactly one latency behind PTP time. |
| MediaSpec.SaturationLeavesNoWindup | main/media_clock.c:227-256 | However long 40 ppb a frame and 3 ppb a thousand of the integral ask for 2000 ppb or more, on either side, the integral is what it was before and the phase term walks to that side by 10 a tick. |
| MediaSpec.TickInNumbers | main/media_clock.c:148-263 | One tick in numbers: the feed-forward, the anchor one latency behind, the band of half the latency between 32 and 480 frames, the step by exactly the error beyond 480 or at the fifth in a row, and else the armed loop. |
| MediaSpec.RegulateInNumbers | main/media_clock.c:227-256 | The loop pushes the rate up while playout is behind and down while it is ahead, by 40 ppb a frame and 3 ppb a thousand of the integral, within 2000. |
| MediaSpec.TargetRises | main/media_clock.c:227-243 | The later playout is, the higher the target. |
| MediaSpec.RunInv | main/media_clock.c:112-263 | Over every run of ticks, anchors, arming and latency changes, playout is stepped exactly for an error beyond 480 frames or on the fifth evaluated out-of-band tick in a row since the last step. |
| MediaSpec.EveryRun | main/media_clock.c:112-263 | The same from power-on. |
| MediaSpec.TrailingAtLeast | main/media_clock.c:197-208 | The counter says how many of the latest evaluations were out of band. |
| MediaSpec.SamplesAreWholePeriods | main/media_clock.c:54-66 | The sample index is the number of whole sample periods since the epoch. |
| MediaClock.Effective | main/media_clock.c:26-37 | The latency in force is at least the minimum, at most 10 ms, at least the setting and at least the transmitters' floor as far as 10 ms goes, and never more than one of these asks for. |
| MediaClock.EffectiveIsLeast | main/media_clock.c:26-37 | It is the least latency that meets minimum, setting and floor as far as 10 ms goes. |
| MediaClock.DefaultLatency | main/media_clock.c:26-37 | The minima are 1000 and 750 microseconds; the default of 2000 is in force, 96 or 192 frames. |
| MediaClock.LatencyMinUs | main/rate.c:131-135 | The minimum is exactly what the DMA holds plus the 500 microsecond margin. |
| MediaClock.MediaClock.constructor | main/media_clock.c:40-52 | The clock starts disarmed and unanchored at the stored or default latency. |
| MediaClock.MediaClock.EffectiveUs | main/media_clock.c:26-37 | Computes the latency in force. |
| MediaClock.MediaClock.Actuate | main/media_clock.c:133-137 | The actuator aims at feed-forward plus phase term, unclamped. |
| MediaClock.MediaClock.Anchor | main/media_clock.c:112-131 | Asks for playout one latency behind PTP time, if that can be known. |
| MediaClock.MediaClock.Regulate | main/media_clock.c:227-257 | The armed loop is the specified one and commands the sum. |
| MediaClock.MediaClock.Judge | main/media_clock.c:184-225 | Step or regulate, as specified. |
| MediaClock.MediaClock.Tick | main/media_clock.c:148-263 | One tick is one step of the run. |
| MediaClock.MediaClock.CommandReachesHardware | main/media_clock.c:133-137 | What the actuator aims at is the nominal ratio of the PLL times 1 + the feed-forward and phase term in billionths. |
| MediaClock.MediaClock.Arm | main/media_clock.c:139-144 | Disarming drops the phase term at once. |
| MediaClock.MediaClock.ApplyLatency | main/media_clock.c:68-78 | A changed latency re-anchors, the same value does nothing. |
| MediaClock.MediaClock.SetLatencyUs | main/media_clock.c:80-93 | The setting is capped at 10 ms and takes effect with the floor and minimum. |
| MediaClock.MediaClock.SetLatencyFloorUs | main/media_clock.c:95-99 | The transmitters' demand takes effect without changing the setting. |
| MediaClock.MediaClock.ForceLatencyUs | main/media_clock.c:103-108 | The bench override takes effect, bounded only from below. |
| Playout.ActionMeetsTarget | main/jitterbuf.c:175-212 | Carried out on the ring, any action leaves playout where the clock wanted it. |
| Playout.Playout.Perform | main/jitterbuf.c:175-212 | The ring takes exactly the step asked for. |
| Playout.Playout.Tick | main/media_clock.c:148-263 | Clock and ring move together by what the tick decides, and if playout moved, its phase error is 0. |
| Latency.ReadHeadIsFixed | main/jitterbuf.c:187-231 | The read head is always 24 frames past the sample at the DAC. |
| Latency.LatencyRange | main/media_clock.c:26-37 | At 48 or 96 kHz, for every setting and floor, the latency is between half a millisecond plus 24 frames and 10 ms. |
| Latency.FreshPacketIsWrittenInFull | main/jitterbuf.c:221-282 | With no phase error a packet at most half a millisecond old lands and every one of its frames is written. |
| Latency.BudgetIsExact | main/rate.c:131-135 | At the minimum latency a packet is heard from its first frame on if and only if it is at most half a millisecond old. |
| Latency.NeverFuture | main/jitterbuf.c:235-241 | With a phase error of up to 480 frames no packet of up to 632 frames stamped no later than now is refused as too far ahead. |
| Latency.NeverFutureIsTight | main/jitterbuf.c:235-241 | 633 frames can be refused. |
| FlowTable.FreeSlotForNewTransmitter | main/subscriber.c:386-392 | A wanted transmitter without a flow always finds a free slot. |
| FlowTable.ReconciledServes | main/subscriber.c:360-384 | The second stage keeps exactly the flows of wanted devices. |
| FlowTable.BringSettles | main/subscriber.c:386-452 | Whatever the answers, a want leaves the table well formed, its device served as the answers decide, and every other device unaffected; only a replacement can be put off. |
| FlowTable.BringResult | main/subscriber.c:390-452 | Which slots a want changes, and to what. |
| FlowTable.BringNeverBreaks | main/subscriber.c:386-452 | Unless a replacement is refused, no table passed through has lost a wanted channel that was carried. |
| FlowTable.RefusalBreaks | main/subscriber.c:411-425 | A refused replacement passes through a table in which nothing of that transmitter is carried. |
| Subscriptions.PlanIsExact | main/subscriber.c:305-357 | A channel is planned, in the want of its own device, exactly when it resolved at our rate and there was a place for it when its turn came. |
| Subscriptions.PlannedExactly | main/subscriber.c:305-357 | Only the number of transmitters limits the plan: eight slots always suffice, and a resolved channel at our rate is left out exactly if four other devices come first. |
| Subscriptions.PlanKnown | main/subscriber.c:305-357 | Every slot of the plan asks for the transmit id some lookup gave for the very names of its channel, at our rate. |
| Subscriptions.RebuildTuned | main/subscriber.c:291-454 | Whatever is bound and granted, an active channel whose device has a flow plays from it what its names stand for. |
| Subscriptions.StatusIsTrue | main/subscriber.c:291-454 | After a rebuild a subscribed channel is active if its device is received as planned, and pending if it has no place or could be bound and is not received. |
| Subscriptions.PlanIsOk | main/subscriber.c:299-357 | At most four wants, one per device, each channel at most once. |
| Subscriptions.BringAllSettles | main/subscriber.c:386-452 | After n wants those are settled against the table the stage began with, and the rest is untouched. |
| Subscriptions.ReconcileReady | main/subscriber.c:360-384 | After the second stage every flow is a wanted one. |
| Subscriptions.RebuildServes | main/subscriber.c:291-454 | After a rebuild each wanted device is served as its answers decide, in particular every new one that was bound and granted exactly as planned, and no other device is received. |
| Subscriptions.RebuildChannel | main/subscriber.c:291-454 | The status of every channel after a rebuild, from what was served before and is served after. |
| Subscriptions.RebuildFits | main/subscriber.c:291-454 | Every rebuild keeps slot occupied exactly when its flow is up, one flow per device, and active channels on their device's flow when it has one. |
| Subscriptions.RebuildIsSoundExactly | main/subscriber.c:291-454 | After a rebuild every active channel is on the flow of its own device if and only if no bind failure met a channel still marked active with its flow gone. |
| Subscriptions.StrandedStaysActive | main/subscriber.c:401-406 | A bind failure leaves the channels' statuses as they were, so such a channel stays active with nothing received. |
| Subscriptions.StallThenBindFailureStrands | main/subscriber.c:401-406 | How that arises: the flow of an active channel dies, and the socket for asking again cannot be bound. |
| Subscriptions.RebuildNeverBreaks | main/subscriber.c:360-441 | Make before break: if no replacement is refused, in every table of a rebuild each channel carried at entry and still wanted is carried by some active flow. |
| Subscriptions.SameFlowStays | main/subscriber.c:371-375 | A flow with unchanged channels is never touched. |
| Subscriptions.DeadFlowIsRequestedAgain | main/subscriber.c:501-511 | A rebuild leaves a dead flow with unchanged channels alone, and requests it again once it has been stopped. |
| Subscriptions.StepKeeps | main/subscriber.c:102-121 | Subscribing, rebuilding and stopping a dead flow each keep the invariant, and a rebuild whose sockets bind leaves every active channel on its flow. |
| Subscriptions.RunInv | main/subscriber.c:472-516 | The invariant holds at every moment of every run. |
| Subscriber.FloorIsLeast | main/subscriber.c:353-358 | The latency floor is the least that suits every transmitter in the plan. |
| Subscriber.ResolvedByName | main/subscriber.c:195-210 | A cached resolution is used exactly for its own channel and device names, and then no lookup is needed; any other name gets its own answer. |
| Subscriber.RebuildTunes | main/subscriber.c:195-454 | With a cache made of lookup answers, a rebuild asks for and leaves active only what the names stand for. |
| Subscriber.Subscriber.PlaysWhatItSays | main/subscriber.c:195-454 | If the network has always answered as one directory says, every cache entry agrees with it, and every active channel whose device has a flow plays the transmit channel that its names stand for. |
| Subscriber.Subscriber.constructor | main/subscriber.c:37-41 | Nothing is subscribed or received, and a rebuild is due. |
| Subscriber.Subscriber.Set | main/subscriber.c:102-121 | One subscribe step; a channel out of range is refused. |
| Subscriber.Subscriber.StopFlow | main/subscriber.c:159-168 | The slot is free. |
| Subscriber.Subscriber.ResolveCached | main/subscriber.c:195-210 | The cached resolution for exactly these names, else the answer of a new lookup, which is then cached. |
| Subscriber.Subscriber.ForgetDevice | main/subscriber.c:217-224 | Exactly the entries for the device are dropped. |
| Subscriber.Subscriber.SetAll | main/subscriber.c:273-279 | Exactly the channels of the slots change status. |
| Subscriber.Subscriber.SameSlots | main/subscriber.c:281-289 | True exactly when ids and channels agree. |
| Subscriber.Subscriber.BuildWants | main/subscriber.c:299-358 | The wants are the plan, the floor is the plan's, and pending is set exactly where there is no place. |
| Subscriber.Subscriber.ReconcileOne | main/subscriber.c:361-384 | One slot reconciled, and noted for the third stage. |
| Subscriber.Subscriber.ReconcileFlows | main/subscriber.c:360-384 | The second stage of the specification. |
| Subscriber.Subscriber.RequestOne | main/subscriber.c:387-452 | One want brought up as specified, table by table. |
| Subscriber.Subscriber.RequestAll | main/subscriber.c:386-452 | The third stage of the specification. |
| Subscriber.Subscriber.Rebuild | main/subscriber.c:291-454 | A rebuild is one step of the specification on the cached resolutions where there are any; every want asks for what the names of its channels stand for; and a transmitter that refused will be looked up again. |
| Subscriber.Subscriber.AnyPending | main/subscriber.c:460-470 | True exactly when a subscribed channel is not active. |
| Subscriber.Subscriber.CheckFlow | main/subscriber.c:488-513 | A flow whose packets stopped by its deadline is forgotten, stopped and due for a rebuild; any other is left alone. |
| Subscriber.Subscriber.MaybeRebuild | main/subscriber.c:476-485 | A rebuild happens exactly when something changed or a retry is due with a channel pending. |
| Subscriber.Subscriber.Pass | main/subscriber.c:476-513 | Every pass of the subscriber loop is a stretch of a legal run, and leaves a rebuild due exactly when a flow died. |
| WebUpdate.PatientUploadCompletes | main/web.c:231-236 | A connection that stays open and never times out three times in a row gets every file through, however small the pieces. |
| WebUpdate.AcceptedIgnoresChunks | main/web.c:231-274 | Acceptance depends on the file and the flash alone. |
| WebUpdate.GenuineExactly | main/web.c:179-191 | Acceptable means, byte by byte: image magic, header, no flash fault, NSFWSIG1, a length of 1 to 118, and a signature of that length that verifies the whole image. |
| WebUpdate.RefusedBecause | main/web.c:237-272 | Why a complete upload is refused, in order: first byte, flash, header, rest of the flash, signature, image check, selection. |
| WebUpdate.BreaksExactly | main/web.c:231-236 | An upload is interrupted exactly when, with bytes still to come, the connection ends or three calls in a row time out. |
| WebUpdate.MarkRange | main/web.c:231-263 | The chunk that completes the header ends between 288 and 4383 bytes, whatever the upload. |
| WebUpdate.VerdictIgnoresChunksExactly | main/web.c:193-292 | The verdict is the same for every two ways of cutting a complete upload if and only if not: good first byte, bad header, and a flash fault between 288 and where the longest header-completing chunk can end. |
| WebUpdate.TwoVerdicts | main/web.c:237-260 | In those cases two ways of cutting the file, and the two verdicts. |
| WebUpdate.Upload.constructor | main/web.c:201-225 | Nothing received, nothing hashed. |
| WebUpdate.Upload.FillHeader | main/web.c:239-240 | The header buffer holds the file's prefix. |
| WebUpdate.Upload.Store | main/web.c:238-247 | Image bytes are hashed and written, trailer bytes kept; it fails exactly at a flash fault. |
| WebUpdate.Upload.Take | main/web.c:237-263 | What one chunk brings to light, wherever its ends fall relative to header, image and trailer: first byte, flash, header, in that order. |
| WebUpdate.Upload.Receive | main/web.c:231-266 | For every way of cutting the upload: hashed and written are exactly the file without its last 128 bytes, the trailer is those, the header buffer is the prefix and is checked exactly once; and the error, if any, is determined by the file and the end of the chunk that completes the header. |
| WebUpdate.Updater.Try | main/web.c:227-274 | Success exactly when the upload completes and the whole file passes every check. |
| WebUpdate.Updater.UpdatePost | main/web.c:193-292 | A complete upload is accepted exactly if the file is genuine, signature included, and its verdict is the one determined by file and header chunk; acceptance selects exactly the verified image, and a refused one does not stay bootable. |

## Left out

- PtpSlave.PtpSlave.HandleDelayResp: message lengths, the requester's uuid and port and the byte offsets are one condition of the caller, `forUs`. The firmware does not compare the requesting sequence id, so a late answer to an earlier request is paired with the latest t3, in the model too.
- PtpSlave.PtpSlave.HandleSync: following whoever sends Sync, and the short-body check, are not modelled.
- PtpSlave.PtpSlave.AwaitFollowUp: a Sync is taken to be handled in the epoch that stamped it; the firmware queues up to 32 frames between the stamp and the handler, and one queued across a step of the clock carries a stamp of the epoch before.
- PtpSlave.PtpSlave.PairOneStep: the same, for a one-step Sync.
- ServoSpec.Estimate: the least-squares slope is computed in floating point; it is an arbitrary integer of the environment before the clamp.
- JitterBuffer.Scaled: the conversion from dB to gain is floating point; the gain is any natural number.
- JitterBuffer.JitterBuffer.OnSent: the driver is taken to zero every finished descriptor, also those a coalesced interrupt covers; the DMA is never a whole lap ahead of the acknowledged position.
- JitterRing.PutInv: buffers of F frames are short enough that the window of 2F + 16 + 2048 frames fits the ring of 4096, as the audio output sets it up.
- EmacRx.RxRing.ReceiveFrame: only the automatic buffer size the receive task uses; the explicit-size mode and hardware time stamps are left out, and the "frame copy error" branch of the receive loop is unreachable with it.
- EmacRx.RxRing.RxOne: a good frame is one whose segments are full up to the last and whose length counts the CRC, as the MAC writes it.
- EmacTx.TxRing.TransmitExt: the buffer array is not read past its end, which the firmware does after the last buffer; the wait for a time stamp is left out.
- EmacTx.TxRing.Transmit: the DMA does not complete descriptors while a frame is being queued.
- MediaClock.MediaClock.Tick: what the clock wants of the jitter buffer is returned as an action, which Playout.Playout.Perform carries out; the firmware calls it from inside the tick.
- MediaClock.Effective: the bench override of the latency has no upper limit, as in the firmware, and Latency does not cover it.
- Subscriber.Subscriber.Rebuild: rebuilding is sequential, so a status is always current when it is set; the firmware releases its lock between the check and the write.
- Subscriber.Subscriber.Rebuild: a lookup at a device without a name fails; addresses, ports, frames per packet and flow handles are not modelled.
- Subscriber.Subscriber.CheckFlow: the deadline and the packet counter are the arguments `due` and `moved`; the wait for the first audio of a replacement has no effect on the table.
- WebUpdate.HeaderVerdict: project name, magic word and chip revision are one outcome of the environment, as are hash and signature.
- Statistics, telemetry, logging, persistence, cache write-back, sockets, mDNS, HTTP, GPIO, SPI and I2C.
- 64-bit counters are unbounded integers; none comes near its limit.
- Fine-grained races between the interrupt and the writers of the jitter buffer: writes, anchors and steps are atomic against it.
- Fixed-layout reply builders, the console, and the PHY and other MAC drivers: tables and register plumbing that would only add easy members.
