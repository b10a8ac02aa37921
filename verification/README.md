# Verified models of the effect-separation data path

The repository moves audio blocks between an audio HAL and a separate `effectd` process: through a
lock-free ring buffer or Android's Fast Message Queue, with two eventfds for wake-ups, a 20 ms
timeout with passthrough, and per-session statistics. These Dafny files model that path and prove
what it guarantees, over every input and every schedule. `dafny verify dfyconfig.toml` checks all of
them.

| file | what it models |
|---|---|
| `Words.dfy` | 32- and 64-bit arithmetic and positions in a circular buffer |
| `Ring.dfy` | `effect_ringbuffer`: the code over an array, and when it is a FIFO |
| `RingSteps.dfy` | the same ring as a concurrent protocol of one producer and one consumer |
| `RingRuns.dfy` | whole runs of that protocol as histories of atomic calls |
| `Fmq.dfy` | the two queues behind `effect_fmq`, and when one stands in for the other |
| `EventFd.dfy` | the eventfd counter |
| `Stats.dfy` | the counters and the rolling latency both processes keep |
| `RoundTrip.dfy` | client and daemon as one state machine: signals, stranded input, stopping |
| `RoundTripFlow.dfy` | where every block is: conservation, order, lag, and the three builds compared |
| `Schedules.dfy` | the events of a call, a round of the thread and a join under any schedule, and what an undisturbed daemon does |
| `Session.dfy` | the code of `EffectClient_Process`, the processing thread and the session life cycle |
| `Hal.dfy` | the HAL's timeout counter and passthrough latch |
| `Service.dfy` | the example HIDL service: its session registry and polling loop |

How the parts fit. `RingBuffers.RingBuffer` is the imperative ring; its methods are proved against the
value model `Ring`. `RingSteps` is the same ring with each index load, byte copy and index store a
step of its own; a call that nothing interrupts is proved to be the sequential operation.
`RoundTrip` treats one queue call as one step. `Sessions.Session` is the code of both processes, and
its invariant says that the object holds a state the machine reaches, so everything proved of all
runs holds of the code. Each of its compound operations is also proved to make exactly the history that
`Schedules` gives for the schedule it is run under, which `Schedules.PromptCall` and `DaemonAnswers`
show to be one in which signals wake and blocks are answered.

Results that are not what the source or its documents lead one to expect:

- The ring is a FIFO for every sequence of calls exactly when its capacity divides 2^64. The header
  recommends a power of two "for best performance"; past 2^64 bytes it is needed for correctness.
- A partial-transfer build (fallback or legacy) behaves as the Android build, over all schedules,
  exactly when a whole number of blocks fits in a queue. For the documented set-up (480 stereo 16-bit
  frames, 1 MiB) 256 bytes are left over, so it does not.
- Signals coalesce: a wake-up that clears `n` of them leaves `n - 1` blocks in the input queue for good.
- `p95LatencyUs` always equals `maxLatencyUs`. A zero latency can restart the rolling average.
- The comment in the HAL says that success resets the timeout counter; it takes one off. The example's
  hundred calls can never latch passthrough.
- `EffectClient_Process` is documented to leave passthrough in the output on timeout; the legacy build
  does not when the input queue is full. The model follows the code.
- In the example service, opening a session under a wrapped-around number that still names a running
  one destroys that session's joinable `std::thread`, which aborts the service. Short of that no thread
  outlives its session.
- With three channels a 1 MiB queue can split even a frame. A 24-bit sample counts four bytes.

Assumptions. Client and daemon share the same two queues and eventfds (the HIDL connection is still to
be written in `client/src/effect_client.c:150-151`). Every call passes `framesPerBuffer` frames, and
`frames * bytesPerFrame` and the capacity fit in 32 bits. Times are inputs; a poll may end without
the event at any time, which covers timeouts and interrupted polls. The effect is any function of a
block that keeps its length; the code's stand-in copies. Latencies are `uint32_t` values given to the
statistics. `threadRunning`, a plain `bool` in C, is read and written as one atomic flag. In
`RingSteps` a load of the other side's index returns any value not older than the last one its thread
loaded (coherence, section 7.17.3 of ISO/IEC 9899:2011); `RoomIsTrue` shows that an
older one would break the room computation. Byte accesses are interleaved. There is no data race in
the sense of section 5.1.2.4 of that standard: copies in progress do not meet (`CopiesAreDisjoint`),
and every earlier use of a slot by the other side is behind an index release that this side has
acquired (`EarlierUsesAreAcquired`).

## Model

| member | source | states |
|---|---|---|
| Words.PosIsRemainder | common/src/effect_ringbuffer.c:37 | the position used throughout is the index modulo the capacity |
| Words.SlotOfCount | common/src/effect_ringbuffer.c:37-47 | the slot of the k-th byte of a two-segment copy is that of the running byte count behind the 64-bit index, if the capacity divides 2^64 or the count has not wrapped |
| RingBuffers.RingBuffer.constructor | common/src/effect_ringbuffer.c:5-10 | a new ring is empty and valid whatever bytes its memory holds |
| RingBuffers.RingBuffer.GetReadAvailable | common/src/effect_ringbuffer.c:12-16 | the truncated index difference is the number of bytes held |
| RingBuffers.RingBuffer.GetWriteAvailable | common/src/effect_ringbuffer.c:18-23 | the truncated room is the capacity less the bytes held |
| RingBuffers.RingBuffer.CopyToData | common/src/effect_ringbuffer.c:40-47 | the one or two copies of a write change exactly the slots of the written bytes |
| RingBuffers.RingBuffer.CopyFromData | common/src/effect_ringbuffer.c:70-77 | the one or two copies of a read fetch the window of bytes from the read position and leave the rest of the destination |
| RingBuffers.RingBuffer.Write | common/src/effect_ringbuffer.c:25-53 | appends the longest prefix that fits, returns its length, touches nothing else |
| RingBuffers.RingBuffer.Read | common/src/effect_ringbuffer.c:55-83 | removes and returns the longest held prefix up to the size, touches nothing else |
| RingBuffers.RingBuffer.Reset | common/src/effect_ringbuffer.c:85-88 | empties the ring |
| RingBuffers.PutAppends | common/src/effect_ringbuffer.c:28-50 | contents after a write are the contents before plus the accepted prefix, across the end of the buffer and index wrap-around |
| RingBuffers.TakeRemoves | common/src/effect_ringbuffer.c:58-80 | contents split into what a read returns and what it leaves |
| RingBuffers.RingRepliesAsFifo | common/src/effect_ringbuffer.c:25-83 | every sequence of calls gets the replies of a bounded FIFO: for ever if the capacity divides 2^64, else while fewer than 2^64 bytes were offered |
| RingBuffers.WrapBreaksFifo | common/src/effect_ringbuffer.c:37-50 | otherwise two bytes written just below the index wrap come back wrong |
| RingBuffers.FifoIffCapacityDivides | common/include/effect_ringbuffer.h:30-37 | the ring is a FIFO for all sequences of calls if and only if its capacity divides 2^64 |
| RingSteps.RoomIsTrue | common/src/effect_ringbuffer.c:31 | the 32-bit room is the true room if and only if the snapshot of the read index is at most one capacity behind the written count |
| RingSteps.LoadsSizeTheCopy | common/src/effect_ringbuffer.c:28-34 | the index loads of each call size its copy by the true room or contents as of the snapshot |
| RingSteps.RunKeepsInv | common/src/effect_ringbuffer.c:25-83 | every interleaving of loads, byte copies in any order and index stores, with stale snapshots, keeps the ring invariant, including across 64-bit wrap |
| RingSteps.ReadsArePrefixOfWrites | common/src/effect_ringbuffer.c:25-83 | in every reachable state the bytes read are a prefix of the bytes written and the rest fits the capacity |
| RingSteps.StepRefinesFifo | common/src/effect_ringbuffer.c:49-50 | each step refines an atomic bounded FIFO, taking effect at the index store |
| RingRuns.RunsAreLinearizable | common/src/effect_ringbuffer.c:25-83 | linearizability: the completed calls of every interleaving, in the order of their index stores, get the replies of an atomic bounded FIFO, whose contents are the published bytes not yet taken |
| RingSteps.CopiesAreDisjoint | common/src/effect_ringbuffer.c:36-77 | the slots of the write in progress and of the read in progress never meet |
| RingSteps.EarlierUsesAreAcquired | common/src/effect_ringbuffer.c:28-59 | every earlier read of a slot being written is behind the read index the producer acquired, and every write of a slot being read behind the write index the consumer acquired |
| RingSteps.CheckedReadIsFull | common/src/effect_ringbuffer.c:12-16 | what the consumer is told is available stays so under any producer activity, and a read of it is full |
| RingSteps.CheckedWriteIsFull | common/src/effect_ringbuffer.c:18-23 | room the producer is told of stays there under any consumer activity, and a write into it is full |
| RingSteps.UninterruptedWrite | common/src/effect_ringbuffer.c:25-53 | a write's steps in a row are the sequential write |
| RingSteps.UninterruptedRead | common/src/effect_ringbuffer.c:55-83 | a read's steps in a row are the sequential read |
| Queues.EffectFmq.Write | common/src/effect_fmq.cpp:95-107 | a write takes all or nothing on Android, what fits on the fallback, and appends it |
| Queues.EffectFmq.Read | common/src/effect_fmq.cpp:133-145 | a read gets all or nothing on Android, what there is on the fallback, from the front |
| Queues.FallbackFmq.Write | common/src/effect_fmq.cpp:275-282 | the ring behind the fallback handle is a partial-transfer queue for writes |
| Queues.FallbackFmq.Read | common/src/effect_fmq.cpp:290-297 | and for reads |
| Queues.KindsAgreeOnBlock | common/src/effect_fmq.cpp:106-144 | on whole blocks in a capacity of whole blocks the two kinds move the same amounts and stay aligned |
| Queues.Perform | common/src/effect_fmq.cpp:95-145 | any run of writes and reads on a queue moves, call by call, and leaves what the run model says |
| Queues.PerformOnRing | common/src/effect_fmq.cpp:275-297 | so does the ring behind the fallback handle, as a partial-transfer queue |
| Queues.RunConserves | common/src/effect_fmq.cpp:95-145 | in either kind the bytes got, followed by those left, are those there at first followed by those put in: none lost, repeated or reordered |
| Queues.FallbackIsAndroidIff | common/src/effect_fmq.cpp:275-297 | the fallback moves the same bytes as Android in every run of block-sized calls if and only if a whole number of blocks fits |
| Queues.FramesStayWholeIff | common/src/effect_ringbuffer.c:31-34 | over all runs of whole-frame calls no partial transfer splits a frame, if and only if frames fill the capacity |
| Queues.DefaultSetupTearsBlocks | client/src/effect_client.c:11-58 | in the documented set-up 546 blocks fit and 256 bytes are left over, some run of block-sized calls tears a block, and none splits a frame |
| Queues.WiderFormatsTearBlocks | client/src/effect_client.c:54-58 | in every other format a sample counts four bytes, packed 24-bit included; then 273 blocks fit, 256 bytes are left over, blocks tear and frames do not |
| Queues.ThreeChannelsSplitFrames | client/src/effect_client.c:54-58 | with three channels, in any format, a 1 MiB queue can split a frame |
| EventFds.EventFd.Signal | common/src/effect_shared_memory.c:89-93 | adds one, or fails on a counter at its limit |
| EventFds.EventFd.Wait | common/src/effect_shared_memory.c:95-110 | succeeds on any positive counter, clearing all of it, unless the poll ends early; otherwise changes nothing |
| Stats.UpdateIsRightIff | client/src/effect_client.c:280-284 | the 32-bit average update is the intended one if and only if it does not overflow |
| Stats.AverageWithinRange | client/src/effect_client.c:280-284 | the average stays between the least and greatest latency seen |
| Stats.TrailStep | client/src/effect_client.c:280-284 | an update keeps the average within 9 below the exact one if and only if it does not restart from zero above it |
| Stats.TrailsIffNoRestart | client/src/effect_client.c:280-284 | over any history of latencies up to 429496729 the average trails the exact one by at least 0 and less than 9 throughout if and only if no measurement above the exact average finds the average at zero |
| Stats.AverageTrailsExact | effectd/src/effectd_session.c:134-138 | for latencies of 1 to 429496729 the average trails the exact 9/10-1/10 average by at least 0 and less than 9 |
| Stats.ZeroLatencyRestarts | client/src/effect_client.c:280-281 | a zero latency can make the average jump above the exact one |
| Stats.PeakIsMaximum | client/src/effect_client.c:286-293 | both the maximum and the "P95" are the true maximum |
| Stats.EffectStats.Complete | client/src/effect_client.c:276-293 | one completed block updates the words to match the history of latencies and the true counts |
| RoundTrip.TokensHold | client/src/effect_client.c:192-231 | in every build and reachable state each pending, held or owed signal is backed by a whole block, so the daemon's "not enough data" return and xrun and the client's short read never happen |
| RoundTrip.StrandedStep | effectd/src/effectd_session.c:55-80 | input not covered by a signal never shrinks; a wake-up adds the coalesced count less one, in blocks, a refused write its leftover bytes, nothing else anything |
| RoundTrip.StrandedOutputStep | effectd/src/effectd_session.c:125 | output not covered by a signal never shrinks; a client's wake-up adds the coalesced count less one, in blocks, a dropped block its leftover bytes, nothing else anything: every block written is signalled |
| RoundTrip.StrandedForEver | common/src/effect_shared_memory.c:106-109 | blocks coalesced by one wake-up stay in the input queue in every continuation |
| RoundTrip.StopIsBounded | effectd/src/effectd_session.c:223-233 | once the flag is down, in every schedule the daemon takes at most eight more steps and one more block |
| RoundTrip.DaemonMovesUntilExit | effectd/src/effectd_session.c:55-62 | the daemon is never stuck before it exits, and afterwards changes nothing |
| RoundTripFlow.FlowHolds | effectd/src/effectd_session.c:55-125 | on Android the queues hold exactly the accepted blocks not taken and the sent blocks not delivered, at every step |
| RoundTripFlow.Backlog | client/src/effect_client.c:209-218 | blocks in both queues, in the daemon's hand and dropped are exactly one per timed-out or unfinished call |
| RoundTripFlow.OrderedDelivery | effectd/src/effectd_session.c:74-93 | answers are a prefix of the effect over the accepted blocks not dropped, in order, none repeated or torn |
| RoundTripFlow.Accounting | effectd/src/effectd_session.c:86-132 | daemon frames processed and dropped are those consumed less the current iteration; processed minus the client's are those in the output queue |
| RoundTripFlow.ExactLag | client/src/effect_client.c:192-231 | an answer is for the block accepted as many calls earlier as there were timeouts, less the drops before it |
| RoundTripFlow.LossIffNoSpace | client/src/effect_client.c:193-203 | in any build a step loses a block, by refusing a call or dropping one, if and only if it finds no room for the block it writes |
| RoundTripFlow.NoLossSameStates | client/src/effect_client.c:191-270 | a run in which nothing was refused or dropped goes through the same states in every build, however many calls timed out |
| RoundTripFlow.NoLossLag | client/src/effect_client.c:191-231 | in every build, in any run without refusals or drops, an answer is the effect on the block accepted exactly `timeouts` calls earlier |
| RoundTripFlow.LosslessWindow | client/src/effect_client.c:193-241 | with fewer timeouts than blocks fit, nothing is refused, torn or dropped and all builds go through the same states |
| RoundTripFlow.WindowLag | client/src/effect_client.c:220-231 | so in that window every build answers for the block accepted exactly `timeouts` calls earlier |
| RoundTripFlow.WithoutTimeoutsOwnInput | client/src/effect_client.c:192-231 | without timeouts every answer is the effect on the call's own input |
| RoundTripFlow.WindowIsTight | client/src/effect_client.c:234-241 | with as many timeouts as blocks fit, a call can be refused in any build |
| RoundTripFlow.BuildsAgreeIff | client/src/effect_client.c:191-270 | a partial-transfer build equals the Android build over all schedules if and only if a whole number of blocks fits |
| Schedules.DaemonAnswers | effectd/src/effectd_session.c:55-148 | from any reachable state with a signal pending and room, a running daemon at its loop's top takes the next block, sends the effect on it, signals and counts it within eight steps of its own |
| Schedules.PromptCall | client/src/effect_client.c:191-231 | on a quiet system, with a daemon that gets its round in, a call delivers the effect on its own input and counts no timeout |
| Schedules.CallInGapWakes | effectd/src/effectd_session.c:55-74 | a call made just before the daemon's wait wakes it, its block behind what was queued |
| Schedules.ThreadExtends | effectd/src/effectd_session.c:55-148 | the thread only adds to the history of shared accesses |
| Sessions.Session.WriteInput | client/src/effect_client.c:192-203 | the client's write is the machine's step: accepted whole if it fits, or refused and counted |
| Sessions.Session.AwaitOutput | client/src/effect_client.c:208-213 | the client's wait is the machine's step: woken if and only if there is a signal and the poll is not cut short, else counted as a timeout |
| Sessions.Session.ReadOutput | client/src/effect_client.c:220-229 | the client's read is the machine's step: delivered and measured, or counted as dropped |
| Sessions.Session.Exchange | client/src/effect_client.c:191-231 | against any daemon, stopped at any point: refused if and only if the block does not fit, answered if and only if the wait then finds a signal in time, each counted once, the latency recorded, and an answer obeys the lag law |
| Sessions.Session.Process | client/src/effect_client.c:175-298 | result, output buffer, history, counters and latencies of a call, in every build, with output possibly the input buffer; on a quiet system with a prompt daemon it returns the effect on its input |
| Sessions.Session.WindowHasNoLoss | client/src/effect_client.c:193-218 | in any state the code reaches with fewer timeouts than blocks fit, no block was lost |
| Sessions.Session.BranchesNeverTaken | effectd/src/effectd_session.c:68-80 | in any state the code reaches, the short-read and starvation branches have not been taken |
| Sessions.Session.TakeBlock | effectd/src/effectd_session.c:56-80 | first half of a daemon round, anything happening in between: a block is taken if and only if the wait is woken, and it is the next in the queue |
| Sessions.Session.GiveBlock | effectd/src/effectd_session.c:82-148 | second half: the effect on the block is sent, signalled and counted, or dropped and counted; it is sent if there was room when the round began |
| Sessions.Session.OneRound | effectd/src/effectd_session.c:55-148 | a round that finds the flag up takes the next block if and only if its wait is woken, and sends its effect and records its latency if the output had room when the round began |
| Sessions.Session.ProcessingThread | effectd/src/effectd_session.c:35-155 | the blocks taken are as many as the rounds woken; a first round woken with room sends the effect on the next queued block; and the thread ends exactly by seeing its flag down, whenever that falls |
| Sessions.Session.constructor | effectd/src/effectd_session.c:157-174 | a new session is idle and in the machine's start state |
| Sessions.Session.Open | effectd/src/effectd_session.c:176-205 | opens only an idle session |
| Sessions.Session.Start | effectd/src/effectd_session.c:207-221 | starts only an opened session, so none starts twice, and leaves the flag down if no thread is created |
| Sessions.Session.Join | effectd/src/effectd_session.c:228-229 | the join terminates whatever the client does, within eight daemon steps and one more block, its history the machine's |
| Sessions.Session.Stop | effectd/src/effectd_session.c:223-233 | stops only a started session; then the thread has ended |
| Sessions.Session.Destroy | effectd/src/effectd_session.c:235-255 | whatever its state, a session is not torn down under a running thread |
| Hal.CountIsWorstRecentStretch | examples/hal_integration.c:91-106 | until latched, the counter is the maximum over all suffixes of the call history of timeouts minus answers |
| Hal.LatchedIffBadWindow | examples/hal_integration.c:95-100 | passthrough latches if and only if some window of calls has over 100 more timeouts than answers |
| Hal.LatchStays | examples/hal_integration.c:78-82 | later calls change nothing |
| Hal.HundredCallsNeverLatch | examples/hal_integration.c:204-205 | the example's run cannot latch |
| Hal.AudioHal.Init | examples/hal_integration.c:28-67 | initialisation clears the counter and the latch, or gives up into passthrough |
| Hal.AudioHal.Process | examples/hal_integration.c:76-110 | the output is the client's, or the input when degraded or in error, and the fields follow the history |
| Service.EffectService.Open | examples/hidl_service_fmq_example.cpp:49-91 | adds a session; aborts the service if and only if its number names a running session, never in the first 2^32 openings |
| Service.EffectService.Start | examples/hidl_service_fmq_example.cpp:93-110 | creates one thread for a known session without one |
| Service.EffectService.Stop | examples/hidl_service_fmq_example.cpp:112-130 | joins the thread of a running session |
| Service.EffectService.Close | examples/hidl_service_fmq_example.cpp:132-142 | joins and forgets the session: no thread outlives its entry |
| Service.EffectService.CloseSession | examples/hidl_service_fmq_example.cpp:233-241 | clears the flag and joins the thread, if any |
| Service.PollingThread.Pass | examples/hidl_service_fmq_example.cpp:205-230 | one pass moves one block from input to output, or drops it, or leaves all alone |
| Service.PollingThread.PassAfterRead | examples/hidl_service_fmq_example.cpp:205-230 | after the client's read a block is written if and only if there is room for it |
| Service.PollingThread.Drain | examples/hidl_service_fmq_example.cpp:197-231 | once the producer stops, the loop drains its input below one block; each block is dropped exactly if its own pass finds no room, and none is if there is room for all; what the client gets or still finds is the output before plus the blocks sent, in order |

## Left out

- Shared-memory creation and mapping, dynamic loading, scheduling priority, clocks and random delays: operating-system calls without logic of their own.
- The inside of Android's `MessageQueue` and the HIDL transport: only the all-or-nothing contract of `effect_fmq.cpp` is used.
- `effect_fmq_open`, descriptors, the event flag word and the `_blocking` calls: stubs or aliases.
- `SetParam`, `QueryStats`, `queryState`, null-argument checks and allocation failures: one-branch facts.
- Calls with other than `framesPerBuffer` frames: the block laws are not meant to hold there.
- A stale view of free space inside one atomic queue call of `RoundTrip`: it could refuse a fallback write that the model accepts; the two eventfd calls between a read and the next write order them.
- RingRuns.RunsAreLinearizable: a history records the bytes each call moved, not those it asked for, since a stale index lets a call move fewer than the FIFO would; calls that move nothing leave no entry.
- The statistics mutex: each update is one step.
- Concurrent HIDL calls: the registry's calls are taken one at a time.
- Sessions.Session.ProcessingThread: runs for a given number of rounds, because a thread whose flag stays up does not end.
- The example service's destructor: it is CloseSession for each session.
- Service.PollingThread.Drain: leaves out the idle polling with its sleep once the input is below a block.
