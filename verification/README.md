# Slot and subframe engine: verified model

A Dafny model of the real-time engine in `executables/`: the threads, queues,
masks and counters that move a 5G or LTE slot through the base station, and the
streaming and synchronisation loop of the LTE UE. Signal processing and the
radio device are inputs. Everything is proved for all inputs and, where threads
are involved, for all interleavings.

`dafny verify dfyconfig.toml` checks the whole project.

## What is modelled

| area | files | source |
|---|---|---|
| NR slot pipeline: `ru_thread`, `L1_tx_thread`, `L1_rx_thread`, shutdown | `SlotPipeline`, `PipelineFlow`, `PipelineOrder`, `PipelineProgress`, `PipelineThreads` | `executables/nr-ru.c`, `executables/nr-gnb.c` |
| NR slot lengths and timestamps, `rx_rf` timing, transmit-ahead, bursts | `SlotTable`, `FrameParms`, `NrRadio`, `TxAhead`, `TxBurst` | `openair1/PHY/INIT/nr_parms.c`, `executables/nr-ru.c` |
| LTE radio timing, late-command fail-safe, downlink timestamps | `LteRadio`, `LateControl`, `LteBurst`, `TimestampUnwrap` | `executables/lte-ru.c` |
| LTE fronthaul reassembly and the barrier over radio units | `Reassembly`, `RuBarrier`, `BitMask`, `SubframeRing` | `executables/lte-ru.c` |
| LTE L1 transmit mailbox | `TxMailbox` | `executables/lte-enb.c` |
| LTE UE synchronisation and streaming | `UeSync`, `UeStream` | `executables/lte-ue.c` |

`CArithmetic` holds C's truncating quotient and remainder and the division facts
the timing proofs share.

A protocol between threads is a transition system: a `State`, an `Action` per
atomic section, `Enabled`, `Apply`, and runs as sequences of actions. Beside it
stands a class with the program's variables, whose methods are proved to be
exactly those steps. In the pipeline and the mailbox a method whose thread blocks
runs the other threads in an arbitrary order until it can go on, so its termination
proof is a proof that the wait ends.

## What the code turns out to do

- NR `rx_rf` does not synchronise the first reception to frame 0, although its
  comment at `executables/nr-ru.c:607` says so: it adopts whatever slot the first
  timestamp decodes to. Its timing exits are therefore unreachable if and only if
  the first timestamp is not negative and lies within the length of a short slot
  of its slot's start (`NrRadio.TimingLockIff`). For numerologies 2 and up there
  are first timestamps that exit on the second read (`NrRadio.TimingLockCanFail`).
  LTE `rx_rf` does start at zero and has no such condition.
- An LTE frame resynchronisation in a step off by q whole subframes keeps the radio
  in step if and only if it does not lead before timestamp 0, its value is below
  1024, and q is a whole number of frames that makes up for the frame just begun,
  modulo 1024 (`LteRadio.ResynchStepIff`). In a subframe other than 0 it runs when
  the timestamp stays in its subframe. In subframe 0 it exits without drift and runs
  when the device is one frame early (`LteRadio.ResynchAtFrameStartExits`,
  `LteRadio.ResynchFrameEarlyRuns`). One that leads before timestamp 0 exits at once
  or, in subframe 0, possibly one read later (`LteRadio.NegativeResynchIff`,
  `LteRadio.NegativeThenExits`). One pending at the first read makes the transmit
  offset wrong until the second (`LteRadio.FirstReadIff`).
- The uplink reassembly relies on the stream starting with a frame. `ru_thread`
  first awaits subframe 0, but packets of subframes before it are stored all the
  same and nothing clears their entries. In an in-order stream every later call for
  one of those subframe numbers then returns at once, one frame early, with none of
  its symbols received. So every return of an in-order stream is of a complete
  subframe if and only if the stream starts with a frame
  (`Reassembly.EveryReturnCompleteIff`, `Reassembly.MidFrameStart`). What holds of
  every orderly stream, wherever it starts, is `Reassembly.CallsAreConsecutive`.
- The slot-comparison formula for `frame_tx` is right if and only if `sl_ahead`
  spans a multiple of 1024 whole frames, so for every `sl_ahead` below one frame
  and not for a whole one (`TxAhead.FrameTxCorrectIff`, `TxAhead.WholeFrameAhead`).
- The transmit timestamp decodes to `frame_tx` and `tti_tx` if and only if the
  transmitted slot is longer than the received timestamp is into its own, which the
  timing lock ensures (`TxAhead.TxDecodesIff`, `TxAhead.LateTxMisdecodes`).
- The downlink timestamp moves by the right amount from one subframe to a later
  one if and only if no start of a 1024-frame period was skipped between them
  (`TimestampUnwrap.StepExactIff`, `TimestampUnwrap.SkippedPeriodStart`).
- The NR burst flags of a TDD pattern form complete bursts if and only if every
  transmit run spans two slots, a mixed slot only ends a run, and transmission does
  not begin at the end of one (`TxBurst.BurstGrammarIff`,
  `TxBurst.OneSlotRunRejected`). The LTE flags do if and only if every transmit run
  starts with a downlink subframe and ends in a special one
  (`LteBurst.BurstGrammarIff`).
- The UE's receive buffer is never written while `initial_sync` runs, in
  `rx_dump_frame` mode as well (`UeSync.HandshakeExcludes`).

## Assumptions

- `pushNotifiedFIFO`, `pullNotifiedFIFO` and `abortNotifiedFIFO` behave as their
  code in `common/utils/threadPool/notified_fifo.h:133-222`: a FIFO that drops
  pushes and empties when aborted.
- `wait_on_condition` behaves as its code in `openair1/PHY/defs_common.h:1136-1151`.
  Condition variables may wake spuriously.
- `nr_slot_select` depends on the slot number only
  (`openair1/SCHED_NR/phy_frame_config_nr.c:155-189`). In FDD every slot is mixed.
- Which slot `ru_thread` handles next, what the device returns, which packets
  arrive and whether `initial_sync` succeeds are chosen by the environment. The
  pipeline results thus hold for any order of slots, and for a frame length that
  is not a multiple of the buffer depth.
- The FFT size is a multiple of 128 and the cyclic prefix is normal.
- In the barrier, the set of excused radio units is fixed, one radio unit is not
  excused, and none reports subframe k + 10 before subframe k has fired.
- In the reassembly, each expected packet arrives at most once and none is more
  than nine subframes ahead of one still incomplete.

## Model

| member | source | states |
|---|---|---|
| `SlotPipeline.ApplyRu` | executables/nr-ru.c:1137-1231 | the steps of ru_thread, which touch only its own place, L1_tx_out, L1_rx_out, rx_tti_busy and its own records |
| `SlotPipeline.ApplyTx` | executables/nr-gnb.c:108-175 | the steps of L1_tx_thread, which touch only its own place, L1_tx_out and resp_L1 |
| `SlotPipeline.ApplyRx` | executables/nr-gnb.c:144-231 | the steps of L1_rx_thread, which touch only its own place, resp_L1 and L1_rx_out |
| `SlotPipeline.ApplyMain` | executables/nr-gnb.c:363-375 | exit request and the three queue aborts of shutdown, which touch no thread's place |
| `PipelineFlow.StepInv` | executables/nr-ru.c:1001-1024 | every step of every thread, shutdown included, keeps: outstanding receive jobs use distinct buffers, all marked busy, and before shutdown no other buffer is marked |
| `PipelineFlow.BusyCountsJobs` | executables/nr-ru.c:1001-1024 | in every reachable state the uplink and mixed jobs with slot number congruent to idx modulo the depth, over all queues and thread hands, number exactly one if rx_tti_busy[idx] and none otherwise; at most that during shutdown |
| `PipelineFlow.AtMostDepthInFlight` | executables/nr-ru.c:984-1024 | at most RU_RX_SLOT_DEPTH receive jobs are in flight and L1_rx_out never grows beyond that |
| `PipelineFlow.FrontEndOwnsBuffer` | executables/nr-ru.c:1193-1198 | while the front end writes slot a, no queued message and no uplink or mixed job in the hands of tx_func or rx_func is for a slot congruent to a modulo the depth |
| `PipelineFlow.StartWaitsIff` | executables/nr-ru.c:1003-1022 | before shutdown, starting an uplink or mixed slot waits if and only if a job for a slot congruent to it modulo the depth is in flight, and otherwise the front end starts at once |
| `PipelineOrder.StagesSeePrefixes` | executables/nr-gnb.c:108-231 | in every run tx_func sees a prefix of what ru_thread emitted, rx_func a prefix of that, and what is transmitted and what is completed are exactly the downlink and the uplink part of what those finished |
| `PipelineOrder.NothingLost` | executables/nr-ru.c:1221-1230 | before shutdown every emitted slot is, in order, handled by rx_func, queued for it, with tx_func or queued for tx_func; every completion is taken or queued |
| `PipelineOrder.EmittedAreStarted` | executables/nr-ru.c:1193-1230 | until ru_thread gives up, what it has emitted and has in hand are exactly the jobs it started, in order and unchanged |
| `PipelineOrder.ExitWithoutAbort` | executables/nr-gnb.c:144-175 | threads between two jobs stop on an exit request before any queue is aborted |
| `PipelineProgress.StepLowersRank` | executables/nr-gnb.c:144-175 | while ru_thread waits, every step of any thread lowers the count of remaining hops |
| `PipelineProgress.WaitNotStuck` | executables/nr-ru.c:1004-1019 | while ru_thread waits, some thread can step, and not only by noticing an exit request while blocked in a queue that is not aborted: no deadlock |
| `PipelineProgress.WaitsForExactlyOneJob` | executables/nr-ru.c:1004-1019 | whenever ru_thread waits before shutdown, exactly one job for the awaited buffer is in the pipeline |
| `PipelineProgress.WaitEnds` | executables/nr-ru.c:1004-1019 | no run keeps ru_thread waiting for more than the hop count, and a run still waiting can go on |
| `PipelineThreads.Gnb.PullTxJob` | executables/nr-gnb.c:161-175 | is the step of L1_tx_thread that takes the oldest job, and keeps the invariant |
| `PipelineThreads.Gnb.ForwardRxJob` | executables/nr-gnb.c:108-117 | is the step of tx_func that queues the receive job |
| `PipelineThreads.Gnb.SendSlot` | executables/nr-gnb.c:119-139 | is the step of tx_func that hands a downlink or mixed slot to the radio unit |
| `PipelineThreads.Gnb.PullRxJob` | executables/nr-gnb.c:144-159 | is the step of L1_rx_thread that takes the oldest receive job |
| `PipelineThreads.Gnb.FinishRx` | executables/nr-gnb.c:177-231 | is the step of rx_func that completes a job and, for uplink and mixed slots only, posts it |
| `PipelineThreads.Gnb.Shutdown` | executables/nr-gnb.c:363-375 | is the given shutdown step, and keeps the invariant |
| `PipelineThreads.Gnb.PullRxCompletion` | executables/nr-ru.c:1011-1017 | is one turn of the waiting loop on the rx_tti_busy array |
| `PipelineThreads.Gnb.BeginSlot` | executables/nr-ru.c:1193-1196 | is the step from the slot type test to the wait, the front end or the push |
| `PipelineThreads.Gnb.WaitFreeRxTti` | executables/nr-ru.c:1001-1024 | with all other threads running beside it in any order it returns, holding the buffer, or fails only after L1_rx_out was aborted; what happened is a run of the transition system |
| `PipelineThreads.Gnb.EmitSlot` | executables/nr-ru.c:1221-1230 | is the push on L1_tx_out, after the front end if the slot had one |
| `FrameParms.SlotTimestampIsSum` | openair1/PHY/INIT/nr_parms.c:352-374 | slot timestamps are the running sums of the slot lengths, and a frame's slots last exactly one frame |
| `FrameParms.SlotFromTimestampIsInverse` | openair1/PHY/INIT/nr_parms.c:323-350 | the returned slot is the one whose samples contain the timestamp, and no other |
| `FrameParms.HalfSubframe` | openair1/PHY/INIT/nr_parms.c:412-422 | half a subframe is one long slot and short slots for the rest, for every numerology |
| `FrameParms.SlotsArePowers` | openair1/PHY/INIT/nr_parms.c:30 | numerology mu has 2^mu slots in a subframe and 10 * 2^mu in a frame |
| `FrameParms.SizesInUnits` | openair1/PHY/INIT/nr_parms.c:223-224 | prefixes, slots, subframe and frame in units of the FFT size over 128: a short slot has 1918, a subframe 1920 * 2^mu |
| `FrameParms.LengthIsTable` | openair1/PHY/INIT/nr_parms.c:262-272 | slot lengths are those of the abstract slot table |
| `FrameParms.DecodeSlot` | executables/nr-ru.c:605-606 | any sample of the n-th slot since timestamp 0 decodes to that slot's frame and slot number |
| `NrRadio.RadioUnit.CorrectDrift` | executables/nr-ru.c:581-597 | after the correction the timestamp plus the offset is the device's, and after the first read it is the previous one plus the previous slot |
| `NrRadio.RadioUnit.ReceiveSlot` | executables/nr-ru.c:558-651 | one turn of ru_thread's loop through rx_rf is the step of the timing model |
| `NrRadio.PrevSlotLength` | executables/nr-ru.c:587 | the length asked for with a slot number that is -1 in C is still that of the last slot |
| `NrRadio.TimingLockIff` | executables/nr-ru.c:586-651 | for any device timestamps the timing exits are unreachable if and only if the first timestamp is not negative and within a short slot of its slot's start |
| `NrRadio.TimingLockTracks` | executables/nr-ru.c:586-651 | under that condition, k reads later the radio is exactly k slots on, the counters name that slot, and timestamp plus offset is the device's |
| `NrRadio.TimingLockCanFail` | executables/nr-ru.c:586-651 | for every numerology above 1, a first timestamp that exits on the second read |
| `NrRadio.WrongFrameExitsIff` | executables/nr-ru.c:636-646 | with the timestamp in step, the next read exits if and only if the frame counter is off |
| `TxAhead.ComputeTx` | executables/nr-ru.c:1172-1176 | the loop adds up the lengths of the sl_ahead slots from the received one on; tti_tx and frame_tx beside it |
| `TxAhead.TxSumIsSpan` | executables/nr-ru.c:1172-1174 | that sum is exactly the samples between the received slot's start and the start of the slot sl_ahead later, whatever frame it is in |
| `TxAhead.FrameTxCorrectIff` | executables/nr-ru.c:1175-1176 | frame_tx is the frame sl_ahead slots on, modulo 1024, if and only if sl_ahead spans a multiple of 1024 whole frames |
| `TxAhead.WholeFrameAhead` | executables/nr-ru.c:1175-1176 | one whole frame ahead it names the wrong frame, for every slot |
| `TxAhead.FrameTxFormulasAgree` | executables/nr-ru.c:382-383 | below one frame the threshold formula and the slot-comparison formula agree and both are right |
| `TxAhead.TxNumbers` | executables/nr-ru.c:1172-1176 | from any received timestamp, frame_tx by either formula and tti_tx are those of the slot sl_ahead later, modulo 1024 frames |
| `TxAhead.TxDecodesIff` | executables/nr-ru.c:1172-1176 | the summed timestamp decodes to that frame and slot if and only if the slot is longer than the received timestamp is into its own |
| `TxAhead.LateTxMisdecodes` | executables/nr-ru.c:1172-1176 | for every numerology above 1, a received timestamp for which it does not |
| `TxAhead.LockedTxIsConsistent` | executables/nr-ru.c:1172-1176 | so always, under the timing lock of rx_rf |
| `TxBurst.BurstGrammarIff` | executables/nr-ru.c:754-765 | from any slot on, the flags form START MIDDLE* END bursts, none open in an uplink slot, if and only if each transmit run spans two slots, a mixed slot only ends one, and the run starts in an uplink slot, at the start of a transmit run or, on the first transmission, in a downlink slot that does not end one |
| `TxBurst.OneSlotRunRejected` | executables/nr-ru.c:757-762 | in a frame of any length a one-slot transmit run opens a burst that nothing ends |
| `TxBurst.CountTxSymbols` | executables/nr-ru.c:731-736 | counts the downlink symbols of a mixed slot |
| `TxBurst.LeadingCount` | executables/nr-ru.c:731-736 | for leading downlink symbols the count is their number |
| `TxBurst.SigLenIsSum` | executables/nr-ru.c:740-750 | siglen is the sum of the symbol lengths, 137 units each and 2^mu more at subframe symbols 0 and 7 * 2^mu (section 5.3.1 of 3GPP TS 38.211), for every numerology, slot and count |
| `TxBurst.FullSlotLength` | openair1/PHY/INIT/nr_parms.c:262-272 | the fourteen symbols of any slot have exactly the samples of the slot |
| `TxBurst.Transmitter.TxRf` | executables/nr-ru.c:728-774 | flag and length of a transmitted TDD slot: the burst flag, the sum of the transmitted symbols, fatal exactly for a mixed slot without downlink symbols |
| `LteRadio.RadioUnit.ApplyCommand` | executables/lte-ru.c:557-566 | both branches move the offset by the signed frame difference, and the command is consumed |
| `LteRadio.RadioUnit.ReceiveSubframe` | executables/lte-ru.c:549-640 | one turn of ru_thread's loop through rx_rf is the step of the timing model |
| `LteRadio.ResynchStepIff` | executables/lte-ru.c:557-640 | a resynchronisation in a step off by any drift that does not lead before timestamp 0 runs if and only if cmdval is below 1024 and the drift, in whole subframes, is a number of frames that cancels the frame just begun, modulo 1024; the radio is then in step with the frame moved to cmdval; before timestamp 0 it is not in step |
| `LteRadio.NegativeResynchIff` | executables/lte-ru.c:557-640 | one that leads before timestamp 0 runs if and only if it falls in subframe 0 and lands a whole number of frames before 0 that gives cmdval modulo 1024 |
| `LteRadio.NegativeThenExits` | executables/lte-ru.c:577-635 | and then the next plain read takes a timing exit |
| `LteRadio.ResynchNearIff` | executables/lte-ru.c:557-640 | off by at most nine subframes it runs if and only if the subframe is not 0, cmdval is below 1024 and the timestamp stays in its subframe |
| `LteRadio.ResynchAtFrameStartExits` | executables/lte-ru.c:557-640 | without drift, in subframe 0, it takes a timing exit from every state in step and for every cmdval |
| `LteRadio.ResynchFrameEarlyRuns` | executables/lte-ru.c:557-640 | one frame early, in subframe 0, it runs for every frame number |
| `LteRadio.FirstReadIff` | executables/lte-ru.c:557-579 | the first read starts the count at 0; a resynchronisation pending then leaves timestamp plus offset equal to the device's if and only if it asks for frame 0 |
| `LteRadio.TimingLock` | executables/lte-ru.c:549-640 | from a fresh radio and for any timestamps no timing exit is reachable, decoded and local counters agree, timestamp plus offset is the device's, and n steps make n subframes; resynchronisations as above may occur anywhere |
| `LateControl.LateCommand.TxRf` | executables/lte-ru.c:672-772 | one call of tx_rf is the step of the fail-safe machine with the flag it transmits |
| `LateControl.AfterTermination` | executables/lte-ru.c:710-739 | in every run with faults anywhere, the burst after END_NO_TIME_SPEC is START or END_NO_TIME_SPEC |
| `LateControl.NextAfterFault` | executables/lte-ru.c:572-575 | after a short read, or a short write of a burst sent normally or to start anew, at any point of any run, the next burst is END_NO_TIME_SPEC |
| `LateControl.NormalRun` | executables/lte-ru.c:672-698 | without a fault the normal flags are sent and the state stays NORMAL |
| `LateControl.FddIsMiddle` | executables/lte-ru.c:675-698 | in an FDD cell those are all MIDDLE |
| `LteBurst.BurstGrammarIff` | executables/lte-ru.c:672-698 | in a TDD cell they form START MIDDLE* END bursts, none open in an uplink subframe, if and only if every transmit run starts with a downlink subframe and ends in a special one |
| `LateControl.Recovery` | executables/lte-ru.c:710-772 | after a fault at any point of any run and no further fault: one END_NO_TIME_SPEC, exactly two skipped opportunities, START, then the normal flags; NORMAL is reached exactly at the fourth opportunity; short writes in between are no faults |
| `TimestampUnwrap.StepExactIff` | executables/lte-ru.c:467-469 | the timestamp moves by exactly the subframes passed if and only if no period start was skipped |
| `TimestampUnwrap.SkippedPeriodStart` | executables/lte-ru.c:467-469 | skipping the period start sends the timestamp back by a whole period |
| `TimestampUnwrap.TimestampsAdvance` | executables/lte-ru.c:426-469 | between any two subframes of an in-order stream the timestamp advances by exactly the samples between them, across any number of wraps |
| `TimestampUnwrap.ReceiveStream` | executables/lte-ru.c:426-469 | the values the program's clock assigns over a whole stream: the subframe's number, counted from the first period, times the subframe length |
| `BitMask.MaskFullIff` | executables/lte-ru.c:205-233 | a mask equals the full mask, and is otherwise less, exactly when every bit number is in the set |
| `BitMask.SetBitAdds` | executables/lte-ru.c:220 | setting a bit of a mask adds its number to the set it stands for |
| `Reassembly.MaskTestsComplete` | executables/lte-ru.c:213-233 | the comparison with the full mask tests exactly whether all symbols, or the tick, have arrived |
| `Reassembly.OwnSubframe` | executables/lte-ru.c:213-241 | for every packet stream the loop ends with the awaited subframe number |
| `Reassembly.TracksReceive` | executables/lte-ru.c:215-230 | storing any orderly packet keeps: the ten masks hold what has arrived of the next ten subframes, exactly so under the numbers that do not lag |
| `Reassembly.TracksNext` | executables/lte-ru.c:283 | clearing the returned mask keeps that for the next subframe, early symbols included |
| `Reassembly.ReadTracks` | executables/lte-ru.c:213-237 | the loop blocks only on a subframe that never completes, and otherwise ends with its masks and frame number as above |
| `Reassembly.CallsAreConsecutive` | executables/lte-ru.c:195-287 | for every orderly stream, whatever subframe it starts with: successive calls are for consecutive subframes; each returns, taking no packet after the one that completes its subframe, or its subframe never completes; a mismatch branch is taken exactly when frame_rx is not the awaited frame; unless its number lags a call returns only once complete and with no mismatch |
| `Reassembly.FrameStartIsExact` | executables/lte-ru.c:195-287 | a stream that starts with a frame, in any orderly arrival order, is returned exactly: consecutive pairs, each complete, no mismatch |
| `Reassembly.ReturnedExactly` | executables/lte-ru.c:239-271 | so the program's n-th return has the numbers and the timestamp of the n-th subframe of the stream |
| `Reassembly.TimeOfLabel` | executables/lte-ru.c:242 | timestamp_rx counts the samples from the start of the period of 1024 frames |
| `Reassembly.ArrivedIsReturned` | executables/lte-ru.c:213-233 | no call waits for a subframe that has arrived |
| `Reassembly.LaggingReturnsEmpty` | executables/lte-ru.c:213-237 | an in-order stream that starts inside a frame: under the numbers from its start on, every call returns at once with nothing of its subframe arrived |
| `Reassembly.EveryReturnCompleteIff` | executables/lte-ru.c:195-287 | for in-order streams every return is complete if and only if the stream starts with a frame |
| `Reassembly.MidFrameStart` | executables/lte-ru.c:213-237 | for every start inside a frame, a stream whose call for the subframe ten after its start returns it empty |
| `Reassembly.Receiver.Gather` | executables/lte-ru.c:213-237 | the loop on the array computes the recursive reading of the stream |
| `Reassembly.Receiver.ReceiveSubframe` | executables/lte-ru.c:195-287 | fh_if4p5_south_in is the call of the model, on symbol_mask and the radio's fields, and sets timestamp_rx of the returned subframe |
| `Reassembly.Receiver.NextSubframe` | executables/lte-ru.c:1650-1662 | the same with the counters of ru_thread |
| `Reassembly.ReceiveAll` | executables/lte-ru.c:1650-1662 | the thread's returns on a stream are those the results above speak of, up to the call that blocks |
| `RuBarrier.L1Barrier.SetBits` | executables/lte-ru.c:1103-1128 | the loop settles wait counters that run out and adds to the mask exactly the bits of the caller and of the excused units |
| `RuBarrier.L1Barrier.WakeupL1s` | executables/lte-ru.c:1088-1175 | one call settles wait counters, fires exactly when the mask with the bits of the caller and the excused units is full, resets it then, and goes on to eNB_top unless the caller still waits |
| `RuBarrier.L1Barrier.ReportSubframe` | executables/lte-ru.c:1088-1175 | with the excused set unchanged, that call on RU_mask is exactly the step of the barrier, keeps its invariant, and goes on to eNB_top exactly when the step fires |
| `RuBarrier.FiresOncePerSubframe` | executables/lte-ru.c:1088-1175 | in every interleaving L1 has run exactly once for each subframe all active units reported, in order, and two eNB_top calls never overlap |
| `RuBarrier.LastReportFires` | executables/lte-ru.c:1133-1163 | a report fires if and only if it is an active unit's report of the next subframe and all other active units have reported it |
| `RuBarrier.EveryFiringRunsTop` | executables/lte-ru.c:1151-1163 | in every interleaving eNB_top has been run once for each firing, and has returned from all but perhaps the last |
| `RuBarrier.WaitingNotCounted` | executables/lte-ru.c:1109-1114 | a waiting unit's report does not count for itself |
| `RuBarrier.JoinsAt` | executables/lte-ru.c:1704-1720 | a waiting unit takes part after exactly wait_cnt turns, or one earlier unless that turn is in subframe 9 |
| `RuBarrier.NeverJoinsInSubframe9` | executables/lte-ru.c:1104 | so it never joins in subframe 9 |
| `TxMailbox.DeliveredOnceInOrder` | executables/lte-enb.c:309-343 | in every interleaving, delivered and held subframes are together exactly the non-uplink ones offered, in order, with their own fields; the counter is -1 or 0; the threads never both sleep |
| `TxMailbox.WorkSeesStableFields` | executables/lte-enb.c:316-342 | the fields L1_thread_tx works on do not change under it: what it started with is what it delivers |
| `TxMailbox.EverythingDelivered` | executables/lte-enb.c:309-343 | without further offers both threads come to rest within a bound, with everything delivered |
| `TxMailbox.L1ProcTx.ConsumerStep` | executables/lte-enb.c:309-343 | L1_thread_tx moves by steps of the transition system |
| `TxMailbox.L1ProcTx.WakeupTx` | executables/lte-enb.c:537-559 | with L1_thread_tx running beside it, it always returns, having deposited the subframe, or nothing for uplink |
| `UeSync.HandshakeExcludes` | executables/lte-ue.c:1744-1815 | in every interleaving and mode the counter is -1 or 0, the busy exit is not taken, and rxdata is not written while initial_sync runs |
| `UeSync.NoLostWakeUp` | executables/lte-ue.c:497-504 | in every interleaving the sync thread never sleeps unwoken while a buffer is handed over |
| `UeSync.BufferIsServed` | executables/lte-ue.c:497-693 | while a buffer is handed over the sync thread can step, and hands it back or gives up within five of its steps, whatever UE_thread does |
| `UeSync.BufferIsFilled` | executables/lte-ue.c:1744-1798 | while none is and the UE is not synchronised, UE_thread can step, and hands one over within four of its steps, spurious wake-ups included |
| `UeSync.SynchronisedIff` | executables/lte-ue.c:610-612 | after any run the UE is synchronised if and only if is_synchronized was set and not undone since, and exactly then UE_thread's next look starts streaming |
| `UeSync.SuccessSynchronises` | executables/lte-ue.c:607-612 | outside rx_dump_frame mode a success, or the second one when scanning, makes the UE synchronised before the buffer is handed back |
| `UeSync.SetOncePerSuccess` | executables/lte-ue.c:607-636 | is_synchronized is set once for each success other than the one that ends a scan, followed by the dump in rx_dump_frame mode only |
| `UeSync.BusyExitIff` | executables/lte-ue.c:1788-1796 | from any state of UE_thread the busy exit is taken exactly when a second buffer is handed over before the first is handed back |
| `UeSync.Synch.UeStep` | executables/lte-ue.c:1744-1815 | UE_thread on the shared variables moves by the steps of the handshake and keeps its invariant |
| `UeSync.Synch.SyncStep` | executables/lte-ue.c:497-693 | so does UE_thread_synch |
| `UeSync.SearchFollowsSequence` | executables/lte-ue.c:637-663 | the scan lasts until the first success; throughout it the offset is the one for the number of failures, after it 0; and the process gives up exactly at 151 failures |
| `UeSync.OffsetForm` | executables/lte-ue.c:641-644 | the offsets are 0, -100, 100, -200, 200 and so on |
| `UeSync.AbandonsAt151` | executables/lte-ue.c:646-662 | the limit is exceeded exactly from the 151st failure on |
| `UeSync.CoversEveryOffset` | executables/lte-ue.c:640-646 | before that, every multiple of 100 Hz from -7500 to 7500 is tried |
| `UeSync.NoOffsetTwice` | executables/lte-ue.c:640-646 | and none twice |
| `UeSync.SearchCarrier` | executables/lte-ue.c:637-663 | finds the first offset of the sequence that answers, or gives up after 151 failures with none of the offsets answering |
| `UeStream.CorrectionShortens` | executables/lte-ue.c:1899-1911 | for every measured offset inside the frame but not at its middle, the correction shortens the signed distance to the nearest frame start by exactly one sample |
| `UeStream.NoCorrection` | executables/lte-ue.c:1899-1911 | there is no correction exactly otherwise, or with the correction switched off |
| `UeStream.CorrectionConverges` | executables/lte-ue.c:1899-1920 | frame after frame the distance falls by one sample until it is 0 and stays there |
| `UeStream.FrameIsAdjusted` | executables/lte-ue.c:1892-1920 | a frame that starts late is one sample longer, one that starts early one shorter |
| `UeStream.Ue.Subframe` | executables/lte-ue.c:1857-1952 | one subframe reads and writes the same number of samples, writes at the device time plus the advance, and is never refused |
| `UeStream.StreamedStep` | executables/lte-ue.c:1892-1952 | such a subframe extends an unbroken stream |
| `UeStream.LengthForm` | executables/lte-ue.c:1892-1920 | the samples of a run of subframes are samples_per_tti each, less the frame corrections |
| `UeStream.Stream` | executables/lte-ue.c:1849-1952 | over any subframes and measured offsets the writes form one unbroken run from two subframes after the frame start, and samples read and written are samples_per_tti each subframe less the frame corrections |

## Left out

- Signal processing and device calls: their results are inputs.
- Machine integers: timestamps, offsets and `frame_tx_unwrap` are unbounded, so overflow after very long runs is not modelled; bit masks assume fewer units than bits.
- Floating point in `get_slot_from_timestamp`: the ceiling of the quotient is taken exactly.
- Extended cyclic prefix and FFT sizes that are not a multiple of 128.
- Samples per slot not delivered by the NR device: `rx_rf` only logs them.
- `initial_wait` in the NR `ru_thread`: it skips slots before the pipeline, which the free choice of slots covers.
- `frame_offset` for radio units other than 0 in the NR `ru_thread`.
- FDD and continuous transmission in the NR `tx_rf`, `sf_extension` and GPIO flags.
- LTE transmit-ahead (`sf_ahead`) and the samples of the LTE special subframe.
- LateControl.AfterTermination: one radio unit; the source shares one variable between all of them.
- The symbol loop of `fh_if4p5_north_asynch_in`: the clock update after it is modelled.
- The NR IF4p5 receivers: their full mask is zero, so the code does not say when a slot is complete.
- Reassembly.Receiver.ReceiveSubframe: leaving the loop on exit or STOP_RU, and WAIT_RESYNCH, are not modelled.
- RuBarrier.L1Barrier.ReportSubframe: a call in which a `wait_cnt` runs out changes the excused set and is not a step of the barrier, although `WakeupL1s` covers it; `check_sync`, which only logs, is not modelled.
- `wakeup_rxtx`, `eNB_top`, `wakeup_txfh` and the `RU_mask_tx` return path.
- TxMailbox.EverythingDelivered: process exit during the hand-over is not modelled.
- The PSS band scan of `UE_thread_synch`, and process exit in either UE thread.
- The hand-over from `UE_thread` to its worker threads, and the first resynchronisation of the receive stream.
- UeStream.Stream: the device's timestamps are contiguous and a subframe is longer than its first symbol by at least two samples.
- Code that is compiled out (`PRE_SCD_THREAD`, `PHY_TX_THREAD`), slave radio units' over-the-air synchronisation, and the RF simulator's paths.
- Configuration, thread creation, statistics, logging and the scripts under `ci-scripts/`.
