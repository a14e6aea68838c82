# Proofs about the sensor aggregator firmware

Dafny models of the firmware in `sw/stage4_watchdog/src`, with proofs of what it promises.
`dafny verify dfyconfig.toml` checks everything.

**The sample path.** A timer interrupt notifies the producer, which samples the sensors, writes a
record into a ring buffer behind a mutex and rings the consumer's queue; the consumer drains the
log in batches; the UI sends messages through the same queue.

- `RingBuffer.dfy` is the array, the mask and the two wrapping counters, refining the
  drop-oldest sequence of `DropOldest.dfy`; `RingHistory.dfy` does so for whole histories;
  `SensorLog.dfy` puts the lock around it.
- `SamplePath.dfy` is the transition system of all tasks: one event per atomic action, in any
  order, with lock timeouts and full queues at any point and the consumer's in-flight batch in the
  state. `SamplePathProofs.dfy` holds its invariant, `SamplePathTheorems.dfy` what follows from it,
  `SamplePathEvents.dfy` reads each part of the state off the events, `Survivors.dfy` is the
  reference list of samples that are not lost.
- `ProducerTask.dfy`, `ConsumerTask.dfy`, `MessageQueue.dfy`, `ProducerStats.dfy` and `UiTask.dfy`
  are the tasks' own fields and actions, `Firmware.dfy` puts them side by side, and
  `TaskLoops.dfy` runs the loops with the other tasks running between any two actions. A ghost
  trace records each action, enabled steps only; the objects always agree with the transition system
  after that trace, 32-bit counters modulo 2^32. `TaskTraces.dfy` says which events are whose and
  what one pass of each loop consists of; each loop is proved to add exactly that.
- `FirmwareTheorems.dfy` reads the theorems off the program's own fields.

**The watchdog.** `Watchdog.dfy` is a timed transition system of check-ins, supervisor checks and
the hardware countdown (SWDT) over a wrapping tick counter, `WatchdogTheorems.dfy` its theorems,
`WatchdogLimits.dfy` the exact reach of each, with runs that meet the bounds. `Supervisor.dfy` is the
code that refines it and `WdtDriver.dfy` the prescaler search.
`Composition.dfy` runs it together with the sample path, each loop checking in as it comes around:
stuck or hung loops end in a reset, punctual ones never do.

**Buttons and numbers.** `Debounce.dfy` characterises the debouncer against the whole raw history,
`Console.dfy` the decimal printers against a reader of their text, `Xadc.dfy` the path from
converter code to text, `Uptime.dfy` the overflow-safe time conversion. `Word.dfy` has wrapping
words, bitwise AND and division facts, `AppConfig.dfy` the configured sizes, `Records.dfy` records
and messages.

## Assumptions

A mutex section, a queue operation and a critical section are atomic; a lock is granted or times out
at any time; the queue is a FIFO of 16; notifications count and their 32-bit count does not overflow.
Sensor codes, pin levels, timestamps and clock rates are inputs. In the watchdog model a millisecond,
a tick and a watchdog clock cycle are whole numbers of one time unit; the tick rate is between 100 Hz,
which the build asserts, and 1 MHz; the countdown starts with the tick count. With the watchdog
running, supervisor checks may come at any time; with it off, `gap` bounds the time between them.
`CountsOutlast` says that the 32-bit counts outlast the time between two checks that the countdown
(or that gap) allows; `WatchdogLimits.BoardsThatHide` shows it is exactly what keeps silences from
being hidden, so theorems about hangs require it, and `Supervisors.ReloadOutlasted` proves it for the
2 s timeout at any watchdog clock from 8 Hz on. Healthy clients are safe without it. A
producer cycle's statistics and its check-in are one action.

## What turned out otherwise than stated

- `lost == overwritten + drops` after draining (`tasks/task_consumer.c:325-330`) is off whenever the
  newest sample was dropped, until a later one arrives. `SamplePathTheorems.LossIdentityWhenDrained`
  has the exact condition, `SamplePathTheorems.DropNotYetLost` a run in which it fails.
- The queue depth peak (`tasks/task_consumer.c:504-509`) can read 17 for a queue of 16, because the
  depth is read after the message was taken off. `SamplePathTheorems.DepthPeakExact` says exactly when.
- The sensor extremes (`tasks/task_producer.c:108-112`) start over after 2^32 samples.
- At an odd tick rate up to 500 Hz a client heard within its limit can be called late
  (`WatchdogTheorems.SafeRates`); even rates and rates above 500 Hz are safe.
- The documented worst case of a hang, limit + check period + 2 s, holds at any watchdog clock from
  150 kHz on but not at every clock the driver accepts, because a whole reload block may be added to
  the 2 s: `WatchdogLimits.DocumentedBound` has the exact condition, `Supervisors.SlowClockExceeds`
  a board that breaks it.
- At a watchdog clock of 16 kHz or less the longest accepted timeout is reported too short, because
  its milliseconds do not fit 32 bits (`WdtDrivers.TrueReports`).
- A wrong debouncer seed is said to be corrected without reporting a press
  (`drivers/gpio_drv.c:89-95`); a button seeded as released while held does report one.
- A remark on the notes, not a theorem: `sw/stage4_watchdog/Readme.md:63` says the producer checks in
  only after a sample was stored; the code, like line 65 of the same notes, checks in after a dropped
  one too.

## Model

| member | source | states |
|---|---|---|
| `SamplePathTheorems.WakeupNeverLost` | sw/stage4_watchdog/src/tasks/task_producer.c:188-204 | In every interleaving, with failed sends, retries, lock timeouts and pauses: if the log holds data while the unpaused consumer is blocked, the producer is between its write and its send, and that send succeeds. The poll timeout plays no part. |
| `SamplePathTheorems.BlockedMeansUpToDate` | sw/stage4_watchdog/src/tasks/task_consumer.c:494-518 | A blocked, unpaused consumer between two samples has an empty log and has processed every sample that was not lost. |
| `SamplePathTheorems.ConsumerCatchesUp` | sw/stage4_watchdog/src/tasks/task_consumer.c:353-387 | From any reachable producer cycle boundary the consumer, left to itself, blocks within a computed number of steps, and then (unless paused) everything not lost is processed - for any backlog, with no further doorbell. |
| `SamplePathTheorems.ConsumerMoveShrinksWork` | sw/stage4_watchdog/src/tasks/task_consumer.c:366-386 | Every own move of the consumer shrinks the work left: the drain loop always gets on. |
| `SamplePathTheorems.ConsumerMovesUnlessBlocked` | sw/stage4_watchdog/src/tasks/task_consumer.c:494-518 | The consumer has a move of its own exactly when it is not blocked. |
| `SamplePathTheorems.LossFigureExact` | sw/stage4_watchdog/src/tasks/task_consumer.c:322-330 | At every moment `lost` equals the number of samples up to `last_seq` that were overwritten or dropped, and what was processed is exactly the rest of them. |
| `SamplePathTheorems.LossIdentityWhenDrained` | sw/stage4_watchdog/src/tasks/task_consumer.c:325-330 | Once drained, `lost == overwritten + drops` holds if and only if the newest write was not dropped (the producer's `write_dropped`). |
| `SamplePathTheorems.DropNotYetLost` | sw/stage4_watchdog/src/tasks/task_producer.c:185-190 | The failing case is reachable: a run that ends drained with one drop counted and no loss reported. |
| `SamplePathTheorems.DrainedBalance` | sw/stage4_watchdog/src/tasks/task_producer.c:185-190 | Once drained, samples taken == received + overwritten + drops. |
| `SamplePathTheorems.DeliveryInOrder` | sw/stage4_watchdog/src/tasks/task_consumer.c:366-384 | Processed records, the batch in hand and the log together are strictly increasing and hold exactly the samples taken that are not gone; dropped and overwritten are disjoint. |
| `SamplePathTheorems.ProcessedOnlyGrows` | sw/stage4_watchdog/src/tasks/task_consumer.c:374-377 | Over whole runs what was processed is only ever appended to. |
| `SamplePathTheorems.TicksAccountedFor` | sw/stage4_watchdog/src/tasks/task_producer.c:168-214 | At a producer cycle boundary ticks delivered == samples + overruns + pending, and `samples` is the newest sequence number. |
| `SamplePathTheorems.MessagesAccountedFor` | sw/stage4_watchdog/src/tasks/task_ui.c:19-30 | Accepted messages are the received ones followed by the queue, in order; UI attempts == accepted UI messages + `s_dropped_msgs`; doorbells tried == accepted + retries. |
| `SamplePathTheorems.DepthPeakExact` | sw/stage4_watchdog/src/tasks/task_consumer.c:504-509 | In every run the queue depth peak exceeds the queue length if and only if some message was handled while the queue was full again. |
| `SamplePathTheorems.DepthPeakBound` | sw/stage4_watchdog/src/tasks/task_consumer.c:504-509 | It never exceeds the queue length by more than one. |
| `SamplePathTheorems.DepthPeakExceedsQueue` | sw/stage4_watchdog/src/tasks/task_consumer.c:504-509 | A run in which the peak of a queue of 16 reads 17: the other side of `DepthPeakExact` occurs. |
| `SamplePathEvents.DoorbellExactly` | sw/stage4_watchdog/src/tasks/task_producer.c:192-204 | After every run the producer's next doorbell decision sends one exactly when its latest write was stored and either found the log empty or the latest attempt met a full queue - read off the events. |
| `SamplePathEvents.DoorbellsCounted` | sw/stage4_watchdog/src/tasks/task_producer.c:192-204 | So the doorbells attempted in a run are exactly those due. |
| `SamplePathEvents.QueueTakesWhatFits` | sw/stage4_watchdog/src/tasks/task_ui.c:19-30 | The messages accepted are, in order, those that came while the queue had room, due doorbells included; the UI's drop count is the number that did not. |
| `SamplePathEvents.PausedAfterOddKeys` | sw/stage4_watchdog/src/tasks/task_consumer.c:411-412 | The consumer is paused if and only if the pause messages it acted on are odd in number; the message it acts on is the one it took off the queue. |
| `SamplePathEvents.ReadsUnlessPaused` | sw/stage4_watchdog/src/tasks/task_consumer.c:361-364 | The log is read only after an even number of them, and every drain begun then reads it. |
| `SamplePathEvents.CountersExact` | sw/stage4_watchdog/src/tasks/task_consumer.c:368-372 | Each counter is the number of times its event happened: ticks, waits without one, refused reads, records processed, cycles, samples given up. |
| `SamplePathEvents.DepthPeakIsDeepest` | sw/stage4_watchdog/src/tasks/task_consumer.c:504-509 | The depth peak is the maximum, over the messages handled, of those waiting plus one. |
| `SamplePathEvents.TakenAreReadings` | sw/stage4_watchdog/src/tasks/task_producer.c:181-186 | The samples of a run are, in order, the readings of the producer's own events, numbered from 1. |
| `SamplePathEvents.PassRecords` | sw/stage4_watchdog/src/tasks/task_producer.c:181-186 | A pass of the loop that takes a sample adds one record with just the capture time, codes and buttons it read. |
| `SamplePathProofs.RunKeepsInv` | sw/stage4_watchdog/src/tasks/task_producer.c:168-214 | Every reachable state, whatever the interleaving, satisfies the joint invariant of all tasks: order, losses, wake-ups, bounds, ticks, messages, numbering. |
| `SamplePathProofs.StepWakeup` | sw/stage4_watchdog/src/tasks/task_producer.c:192-204 | Every step of every task keeps the wake-up invariant. |
| `SamplePathProofs.WriteKeepsOrder` | sw/stage4_watchdog/src/datalog/sensor_log.c:124-151 | A write, dropped, stored or overwriting, keeps the delivery order invariant. |
| `SamplePathProofs.WriteKeepsLosses` | sw/stage4_watchdog/src/datalog/sensor_log.c:124-151 | A write keeps every lost sample attributed to exactly one counter. |
| `Survivors.RemainingExact` | sw/stage4_watchdog/src/tasks/task_consumer.c:325-330 | The reference list of surviving samples: strictly increasing, and exactly the numbers that are not gone. |
| `Survivors.RemainingRemove` | sw/stage4_watchdog/src/datalog/ring_buffer.c:51-57 | Losing one more sample removes it from the list and leaves the others in place. |
| `Survivors.RemainingFront` | sw/stage4_watchdog/src/tasks/task_consumer.c:322-330 | A front part of the survivors is the complete list of survivors up to its last number. |
| `Firmwares.Firmware.StoreSample` | sw/stage4_watchdog/src/tasks/task_producer.c:188-190 | The stored-sample action on the real fields: the objects still agree with the transition system. |
| `Firmwares.Firmware.ReadBatch` | sw/stage4_watchdog/src/tasks/task_consumer.c:368-372 | The locked batch read on the real fields, granted or timed out, is the `Read` step. |
| `Firmwares.Firmware.UiSend` | sw/stage4_watchdog/src/tasks/task_ui.c:19-30 | A message refused by the queue goes into `s_dropped_msgs`; either way it is the `UiSend` step. |
| `Firmwares.Firmware.HandleMsg` | sw/stage4_watchdog/src/tasks/task_consumer.c:504-512 | Depth statistic and pause toggle on the real fields are the `Handle` step. |
| `TaskLoops.ProducerPass` | sw/stage4_watchdog/src/tasks/task_producer.c:168-214 | One turn of the producer loop, preempted anywhere, adds exactly one timed-out wait, or exactly one sample taken, written or dropped as the lock goes, rung for and counted - enabled steps only. |
| `TaskLoops.ConsumerDrainLog` | sw/stage4_watchdog/src/tasks/task_consumer.c:353-387 | With the producer running between any two records: nothing while paused, otherwise full batches, each read, processed record by record and ended, up to four of them, a short one or a refused lock; the result is the new backlog flag. |
| `TaskLoops.ConsumerPass` | sw/stage4_watchdog/src/tasks/task_consumer.c:494-518 | One pass adds exactly one message received and handled or a timed-out wait, one drain, and the end of the pass. |
| `TaskLoops.UiPass` | sw/stage4_watchdog/src/tasks/task_ui.c:108-137 | One pass of the UI loop adds exactly one send per press and per key with a meaning, in order, and presses taken equal the released-to-pressed changes of the debounced levels. |
| `FirmwareTheorems.SleepingConsumerHasEmptyLog` | sw/stage4_watchdog/src/tasks/task_consumer.c:496-502 | The wake-up guarantee read off the program's own fields. |
| `FirmwareTheorems.LostFieldExact` | sw/stage4_watchdog/src/tasks/task_consumer.c:330 | The 32-bit `lost` field is the exact loss count modulo 2^32. |
| `FirmwareTheorems.LossFieldsBalance` | sw/stage4_watchdog/src/tasks/task_consumer.c:325-330 | The documented loss identity on the 32-bit counters, in every drained run: it holds if and only if the number of samples dropped since the last one stored is 0 modulo 2^32, in particular when the newest write was not dropped. |
| `FirmwareTheorems.TickFieldsBalance` | sw/stage4_watchdog/src/tasks/task_producer.c:74-75 | `samples + overruns + pending` equals the ticks delivered modulo 2^32, and `samples == record.seq`. |
| `FirmwareTheorems.PeakFieldExact` | sw/stage4_watchdog/src/tasks/task_consumer.c:504-509 | `queue_depth_peak` exceeds the queue length exactly when a message was handled while the queue was full. |
| `FirmwareTheorems.PeakFieldIsDeepest` | sw/stage4_watchdog/src/tasks/task_consumer.c:504-509 | `queue_depth_peak` is the most messages there were when one was handled. |
| `FirmwareTheorems.PausedFieldExact` | sw/stage4_watchdog/src/tasks/task_consumer.c:411-412 | `drain_paused` is set exactly after an odd number of pause messages acted on. |
| `FirmwareTheorems.CounterFieldsExact` | sw/stage4_watchdog/src/tasks/task_consumer.c:368-372 | `received`, `log_lock_timeouts`, `samples`, `timeouts` and `log_write_drops` count their events modulo 2^32. |
| `FirmwareTheorems.ProcessedRecords` | sw/stage4_watchdog/src/tasks/task_consumer.c:374-377 | The records processed are, field by field and in order, those of the samples neither dropped nor overwritten up to the last one received. |
| `FirmwareTheorems.ExtremesShown` | sw/stage4_watchdog/src/tasks/task_producer.c:108-128 | Among the first 2^32 samples `sensor_min` and `sensor_max` bound every code taken, stored or dropped, and each is one of them. |
| `FirmwareTheorems.PeriodsShown` | sw/stage4_watchdog/src/tasks/task_producer.c:94-106 | With steady timestamps the periods shown are the shortest and the longest time between two consecutive samples. |
| `Firmwares.Firmware.PeekNewest` | sw/stage4_watchdog/src/datalog/sensor_log.c:182-203 | The newest record shown is that of the newest sample stored, processed or not. |
| `ProducerTasks.Producer.Take` | sw/stage4_watchdog/src/tasks/task_producer.c:170-186 | Takes all pending ticks and one numbered sample. |
| `ProducerTasks.Producer.WriteLog` | sw/stage4_watchdog/src/tasks/task_producer.c:188-189 | Stores the sample or, on a lock timeout, drops it and keeps the old empty flag. |
| `ProducerTasks.Producer.RingDoorbell` | sw/stage4_watchdog/src/tasks/task_producer.c:192-204 | On the fields: one doorbell exactly when the write was stored and found the log empty or one is owed; it is owed again exactly when the queue is full. |
| `ProducerTasks.Producer.UpdateStats` | sw/stage4_watchdog/src/tasks/task_producer.c:206-210 | Statistics and previous capture time at the end of a cycle. |
| `ConsumerTasks.Consumer.Handle` | sw/stage4_watchdog/src/tasks/task_consumer.c:502-513 | On the fields: the depth peak is the larger of itself and the messages waiting plus one; the pause message, and no other, flips `drain_paused`. |
| `ConsumerTasks.Consumer.ReadBatch` | sw/stage4_watchdog/src/tasks/task_consumer.c:366-372 | Takes up to 16 of the oldest records, or ends the pass asking for another. |
| `ConsumerTasks.Consumer.ProcessRecord` | sw/stage4_watchdog/src/tasks/task_consumer.c:318-330 | `received`, `last_seq` and the modular `lost`. |
| `ConsumerTasks.Consumer.EndBatch` | sw/stage4_watchdog/src/tasks/task_consumer.c:379-386 | A short batch ends the drain without a backlog, the fourth full one with it. |
| `MessageQueues.MessageQueue.Send` | sw/stage4_watchdog/src/tasks/task_consumer.c:541-552 | Never waits; fails exactly on a full queue of 16. |
| `MessageQueues.MessageQueue.Receive` | sw/stage4_watchdog/src/tasks/task_consumer.c:502 | The oldest message, or none. |
| `SensorLogs.SensorLog.Write` | sw/stage4_watchdog/src/datalog/sensor_log.c:124-151 | Under the lock, drop-oldest push and the was-empty flag; without it nothing changes. |
| `SensorLogs.SensorLog.Read` | sw/stage4_watchdog/src/datalog/sensor_log.c:152-181 | Under the lock, the oldest records in order; without it nothing changes. |
| `SensorLogs.SensorLog.PeekNewest` | sw/stage4_watchdog/src/datalog/sensor_log.c:182-203 | The newest element of the modelled log, popped or not. |
| `SensorLogs.SensorLog.GetStats` | sw/stage4_watchdog/src/datalog/sensor_log.c:204-230 | Every snapshot satisfies `written == read + fill + overwritten` modulo 2^32. |
| `RingBuffers.RingBuffer.Init` | sw/stage4_watchdog/src/datalog/ring_buffer.c:11-33 | Succeeds exactly for non-null storage and a power of two up to 2^31; otherwise changes nothing. |
| `RingBuffers.RingBuffer.Count` | sw/stage4_watchdog/src/datalog/ring_buffer.c:35-39 | The modular difference of the counters is the fill level. |
| `RingBuffers.RingBuffer.Push` | sw/stage4_watchdog/src/datalog/ring_buffer.c:41-70 | The array and the wrapping counters refine a drop-oldest push; true exactly when the oldest was given up. |
| `RingBuffers.RingBuffer.Pop` | sw/stage4_watchdog/src/datalog/ring_buffer.c:72-95 | Hands out the oldest `min(max, fill)` records in order. |
| `RingBuffers.RingBuffer.PeekNewest` | sw/stage4_watchdog/src/datalog/ring_buffer.c:97-106 | The last record pushed, even after it was popped and after `head` wrapped. |
| `RingBuffers.SlotOfCounter` | sw/stage4_watchdog/src/datalog/ring_buffer.c:59 | The masked 32-bit counter indexes like the unbounded one modulo the capacity. |
| `RingBuffers.SlotsAppend` | sw/stage4_watchdog/src/datalog/ring_buffer.c:51-61 | Writing the slot under `head` adds a record and disturbs none of the others. |
| `RingBuffers.StoresPop` | sw/stage4_watchdog/src/datalog/ring_buffer.c:88-92 | Advancing `tail` leaves the remaining records where they are. |
| `RingHistories.Replay` | sw/stage4_watchdog/src/datalog/ring_buffer.c:41-95 | After any push and pop history the buffer is the drop-oldest sequence of that history and handed out the same records. |
| `DropOldest.HistoryContents` | sw/stage4_watchdog/src/datalog/ring_buffer.c:41-95 | The reference sequence always holds the most recent pushes, at most its capacity, and every push is handed out, given up or waiting. |
| `DropOldest.HistoryMoves` | sw/stage4_watchdog/src/datalog/ring_buffer.c:42-68 | After any history a push gives up an element exactly if there is no room, and a pop takes what it asks for or all there is. |
| `DropOldest.HistoryNewest` | sw/stage4_watchdog/src/datalog/ring_buffer.c:97-106 | The newest element is the last pushed over any history. |
| `DropOldest.HistoryPeakBounds` | sw/stage4_watchdog/src/datalog/ring_buffer.c:63-67 | The recorded high-water mark bounds the fill at every moment of a history. |
| `DropOldest.HistoryPeakReached` | sw/stage4_watchdog/src/datalog/ring_buffer.c:63-67 | And it was reached. |
| `DropOldest.LosslessHistory` | sw/stage4_watchdog/src/datalog/ring_buffer.c:72-95 | Without an overflow nothing is lost or reordered. |
| `Word.MaskIsMod` | sw/stage4_watchdog/src/datalog/ring_buffer.c:25 | `x & (2^k - 1)` is `x` modulo 2^k, bit by bit. |
| `Word.PowerOfTwoTest` | sw/stage4_watchdog/src/datalog/ring_buffer.c:18 | `(c & (c - 1)) == 0` accepts exactly the powers of two. |
| `Word.MaskOfCounter` | sw/stage4_watchdog/src/datalog/ring_buffer.c:59 | Masking is unaffected by the counter having wrapped. |
| `ProducerStats.ExtremesExact` | sw/stage4_watchdog/src/tasks/task_producer.c:108-128 | The folded extremes bound every code and are attained. |
| `ProducerStats.ExtremesCoverAllSamples` | sw/stage4_watchdog/src/tasks/task_producer.c:108-128 | The recorded extremes cover all samples if and only if at most 2^32 were taken: the wrapping sample counter restarts them. |
| `ProducerStats.PeriodsExact` | sw/stage4_watchdog/src/tasks/task_producer.c:94-106 | Given non-zero, non-decreasing timestamps less than 2^32 us apart, the recorded periods are the extremes of the true gaps. |
| `ProducerStats.Stats.Update` | sw/stage4_watchdog/src/tasks/task_producer.c:67-131 | One cycle's counters, intervals and per-sensor extremes; the whole record stays the fold over all samples. |
| `Watchdog.RunKeepsInv` | sw/stage4_watchdog/src/tasks/task_watchdog.c:85-150 | Every timed run keeps the watchdog invariant, latch included. |
| `Watchdog.SilenceExact` | sw/stage4_watchdog/src/tasks/task_watchdog.c:36-39 | Below a computed number of ticks (2^32, or below 1 kHz those of 2^32 ms) the modular tick difference and the 32-bit millisecond value are the true silence. |
| `Watchdog.SilenceHidden` | sw/stage4_watchdog/src/tasks/task_watchdog.c:36-39 | At that number of ticks they are not: the silence reads as less than 10 ms. |
| `WatchdogTheorems.SilenceIsTrue` | sw/stage4_watchdog/src/tasks/task_watchdog.c:105-125 | While kicking goes on, every computed silence is the true one, and is at most the limit (with rounding) plus the time since the last check. |
| `WatchdogLimits.BoardsThatHide` | sw/stage4_watchdog/src/tasks/task_watchdog.c:105-125 | No run of a board kicks over a truly late client if and only if the time between two checks that the countdown (or the gap) allows stays within that number of ticks, less the most a client may be silent. |
| `WatchdogTheorems.KicksWhenAllPunctual` | sw/stage4_watchdog/src/tasks/task_watchdog.c:127-148 | A check kicks exactly when all earlier ones did and no client is truly late. |
| `WatchdogTheorems.WorstTellsKicking` | sw/stage4_watchdog/src/tasks/task_watchdog.c:113-118 | Kicking goes on exactly as long as no worst silence exceeds its limit. |
| `WatchdogTheorems.WorstIsLongest` | sw/stage4_watchdog/src/tasks/task_watchdog.c:111-118 | In every run a client's recorded maximum equals the longest silence the supervisor measured of it, before and after kicking stopped. |
| `WatchdogTheorems.NeverKicksAgain` | sw/stage4_watchdog/src/tasks/task_watchdog.c:143-148 | After the first late check there is no kick in any continuation. |
| `WatchdogTheorems.ResetByWorstCase` | sw/stage4_watchdog/src/tasks/task_watchdog.c:85-150 | No run gets further past a client's last check-in than the ticks within its limit, one tick and the programmed countdown, whenever checks run and wherever the tick counter is. |
| `WatchdogLimits.WorstCaseMet` | sw/stage4_watchdog/src/tasks/task_watchdog.c:85-150 | That figure is exact: for every client of every such board there is a run that is reset just then. |
| `WatchdogTheorems.SilenceBounded` | sw/stage4_watchdog/src/tasks/task_watchdog.c:85-150 | In round figures: limit + 1 ms + 1 tick + programmed countdown. |
| `WatchdogLimits.DocumentedBound` | sw/stage4_watchdog/src/config/app_config.h:78 | The documented worst case as configured, limit + 250 ms + 2000 ms, holds in every run of a board if and only if the exact worst case is within it. |
| `Supervisors.DocumentedAtUsualClocks` | sw/stage4_watchdog/src/config/app_config.h:78 | So it holds with the countdown the driver programs at every watchdog clock from 150 kHz on. |
| `Supervisors.SlowClockExceeds` | sw/stage4_watchdog/src/config/app_config.h:78 | At 20 kHz it does not, for any client. |
| `WatchdogLimits.LateCheckStops` | sw/stage4_watchdog/src/tasks/task_watchdog.c:120-148 | A check at least limit + 1 ms + 1 tick after a client's last check-in stops the kicks. |
| `WatchdogLimits.LateLineInTime` | sw/stage4_watchdog/src/tasks/task_watchdog.c:102-148 | With a supervisor that keeps its period, kicking has stopped one period after that at the latest. |
| `WatchdogLimits.LateLineNotEarly` | sw/stage4_watchdog/src/tasks/task_watchdog.c:120-148 | It never stops before some client was silent for its limit + 1 ms less a tick. |
| `WatchdogLimits.PrintedPromise` | sw/stage4_watchdog/src/tasks/task_watchdog.c:73-78 | The announced "reset in T ms or less", T the countdown in whole milliseconds, is true of every continuation if and only if the last kick is at least the rounded-off part of a millisecond ago. |
| `Supervisors.Supervisor.AnnounceReset` | sw/stage4_watchdog/src/tasks/task_watchdog.c:73-78 | The code announces that T at any watchdog clock above 16 kHz, and 0 when the watchdog is off. |
| `WatchdogTheorems.HangForcesReset` | sw/stage4_watchdog/src/drivers/wdt_drv.c:126-132 | And the reset comes: letting that time pass puts the board in reset. |
| `WatchdogTheorems.InjectionRequestsHang` | sw/stage4_watchdog/src/tasks/task_watchdog.c:201-207 | An injection requests a hang of that client and changes nothing else. |
| `WatchdogTheorems.InjectedHangResets` | sw/stage4_watchdog/src/tasks/task_watchdog.c:158-174 | Every run that contains an injection resets the board within the bound of the check-in before it. |
| `WatchdogTheorems.InjectedHangSticks` | sw/stage4_watchdog/src/tasks/task_watchdog.c:166-169 | Whatever follows an injection, that client's last check-in stays what it was before it. |
| `WatchdogTheorems.NoSpuriousReset` | sw/stage4_watchdog/src/tasks/task_watchdog.c:127-142 | If all clients and the supervisor keep their times, every check kicks and the watchdog never expires. |
| `WatchdogTheorems.SafeRates` | sw/stage4_watchdog/src/tasks/task_watchdog.c:36-39 | That holds for every healthy run at a tick rate if and only if the rate is even or above 500 Hz. |
| `WatchdogTheorems.PunctualMeasured` | sw/stage4_watchdog/src/tasks/task_watchdog.c:111 | At those rates a silence within the limit is measured within the limit from any phase of the tick. |
| `WatchdogTheorems.SlowOddRate` | sw/stage4_watchdog/src/tasks/task_watchdog.c:111-124 | At any odd rate up to 500 Hz, a healthy run in which the supervisor stops kicking. |
| `Supervisors.Supervisor.CheckOnce` | sw/stage4_watchdog/src/tasks/task_watchdog.c:105-148 | The supervisor's loop body is the `Check` step; the report names the first late client and its silence, once. |
| `Supervisors.Supervisor.LookAtAll` | sw/stage4_watchdog/src/tasks/task_watchdog.c:105-125 | The loop over the clients finds the first late one and keeps every worst silence. |
| `Supervisors.Supervisor.Conclude` | sw/stage4_watchdog/src/tasks/task_watchdog.c:127-148 | One more kick, counted, or none ever after and a report. |
| `Supervisors.Supervisor.TimePasses` | sw/stage4_watchdog/src/drivers/wdt_drv.c:15-19 | The counter counts on between the actions: time passing is the `Advance` step. |
| `Supervisors.Supervisor.CheckIn` | sw/stage4_watchdog/src/tasks/task_watchdog.c:158-174 | The check-in is the `CheckIn` step and notes the tick count for that client only; a requested hang never returns and notes nothing. |
| `Supervisors.Supervisor.InjectHang` | sw/stage4_watchdog/src/tasks/task_watchdog.c:201-207 | Sets the request of the client named and no other, and is the `InjectHang` step; an unknown client is ignored. |
| `Supervisors.ProgrammedReload` | sw/stage4_watchdog/src/drivers/wdt_drv.c:95-103 | At any watchdog clock the countdown programmed for 2 s is longer than 2 s, and at most twice that and one block of the smallest prescaler. |
| `Supervisors.ReloadOutlasted` | sw/stage4_watchdog/src/drivers/wdt_drv.c:95-103 | The counts outlast that countdown at any watchdog clock from 8 Hz on, and at any clock with a tick rate up to 130 kHz. |
| `Supervisors.Boot` | sw/stage4_watchdog/src/main.c:133-172 | Start-up fails exactly without a watchdog clock; otherwise a countdown longer than 2 s runs when the supervisor starts, the counts outlast it from 8 Hz on (or at tick rates up to 130 kHz), and the documented worst case holds from 150 kHz on. |
| `Uptime.UsualClocksFit` | sw/stage4_watchdog/src/system/uptime.c:58-62 | Every clock from 1 MHz to 2^29 counts per second is within the range of `UptimeExact`. |
| `WdtDrivers.WdtDriver.Init` | sw/stage4_watchdog/src/drivers/wdt_drv.c:42-110 | Error statuses exactly when they occur, otherwise the smallest prescaler that fits, its reload value and the reported timeout. |
| `WdtDrivers.OutOfReach` | sw/stage4_watchdog/src/drivers/wdt_drv.c:82-109 | No prescaler fits if and only if `timeout_ms * clock_hz >= 2^36 * 1000`. |
| `WdtDrivers.FitsBelow` | sw/stage4_watchdog/src/drivers/wdt_drv.c:84-95 | Despite the nested floors a prescaler fits exactly below its longest countdown. |
| `WdtDrivers.CountdownCovers` | sw/stage4_watchdog/src/drivers/wdt_drv.c:84-98 | The countdown exceeds the request, by at most one reload block, and by at most 1/512 with a divider above 8. |
| `WdtDrivers.ReportHonest` | sw/stage4_watchdog/src/drivers/wdt_drv.c:102-103 | Above 16 kHz nothing overflows and the reported timeout is the true one rounded down, never below the request, at most 1/512 above it with a divider above 8. |
| `WdtDrivers.TrueReports` | sw/stage4_watchdog/src/drivers/wdt_drv.c:102-103 | The reported timeout is the true one, rounded down, for every accepted request if and only if the clock is above 16 kHz. |
| `WdtDrivers.LongestRequest` | sw/stage4_watchdog/src/drivers/wdt_drv.c:102-103 | At every clock up to 16 kHz the longest request is accepted and reported below its true timeout. |
| `WdtDrivers.WdtDriver.TimeoutMs` | sw/stage4_watchdog/src/drivers/wdt_drv.c:139-142 | 0 while not running; otherwise, above 16 kHz, the countdown in the registers lasts that many whole milliseconds and less than one more. |
| `Composition.StuckTaskResets` | sw/stage4_watchdog/src/tasks/task_watchdog.c:158-174 | A task whose loop stops coming around resets the board within its limit (with rounding) plus the countdown after its last check-in, in every interleaving of everything else. |
| `Composition.HungTaskResets` | sw/stage4_watchdog/src/tasks/task_watchdog.c:158-174 | So does a task hit by an injected hang, whatever the sample path does. |
| `Composition.LoopsCheckIn` | sw/stage4_watchdog/src/tasks/task_producer.c:212-213 | The end of a producer cycle, of a consumer pass and each UI pass check their own client in, at that time and no other, unless a hang was requested or the board is in reset. |
| `Composition.LoopsOnTimeAreSafe` | sw/stage4_watchdog/src/tasks/task_watchdog.c:127-142 | While every loop comes around within its limit and the supervisor keeps its period, in every interleaving each look kicks and the board is never reset. |
| `Composition.FewCyclesLeft` | sw/stage4_watchdog/src/tasks/task_producer.c:170-179 | After the last tick the producer finishes at most two more cycles. |
| `Composition.CheckinMoves` | sw/stage4_watchdog/src/tasks/task_producer.c:212-213 | The producer's last check-in moves by at most one limit (with rounding) plus countdown per cycle it finishes. |
| `Composition.StoppedTimerResets` | sw/stage4_watchdog/src/tasks/task_producer.c:212-213 | From any moment on, a run without another tick ends in a reset, within at most three such spells of the producer's last check-in, though its waits time out punctually. |
| `Debounce.DebouncedIsWindow` | sw/stage4_watchdog/src/drivers/gpio_drv.c:120-153 | After any raw trace the level is that of the most recent three equal scans (or the seed), and the presses latched are its released-to-pressed changes. |
| `Debounce.ChangesOnThirdScan` | sw/stage4_watchdog/src/drivers/gpio_drv.c:134-151 | The level moves exactly at the third scan in a row that disagrees with it; shorter bounces never do. |
| `Debounce.WrongSeed` | sw/stage4_watchdog/src/drivers/gpio_drv.c:89-98 | A wrong seed is corrected by the third scan, and reports a press exactly when the seed said released. |
| `Debounce.GpioDriver.BtnScan` | sw/stage4_watchdog/src/drivers/gpio_drv.c:120-153 | The in-place scan of all buttons agrees with every button's history. |
| `Debounce.GpioDriver.TakePress` | sw/stage4_watchdog/src/drivers/gpio_drv.c:165-183 | True once for the presses since the last call, false for an unknown button. |
| `UiTasks.Ui.Scan` | sw/stage4_watchdog/src/tasks/task_ui.c:113 | A scan leaves at most one press per button to take. |
| `UiTasks.Ui.Take` | sw/stage4_watchdog/src/tasks/task_ui.c:115-123 | Presses taken plus presses pending equal the debounced presses. |
| `UiTasks.KeyMsg` | sw/stage4_watchdog/src/tasks/task_ui.c:32-96 | For each message the keys that send it, and just those; no key for what is not printable. |
| `Console.RoundTrip` | sw/stage4_watchdog/src/system/console.c:75-128 | For every 32-bit value: with 0, 1, 2 or at least 3 decimals asked for, no point or just 1, 2 or 3 characters after it, and the text reads back as the nearest 1000, 100, 10 thousandths (ties away from zero) or exactly; a minus sign exactly for negative results, no leading zeros. |
| `Console.NearestUnique` | sw/stage4_watchdog/src/system/console.c:105-106 | The rounding is determined by that: there is only one such nearest multiple. |
| `Console.ExactAtThree` | sw/stage4_watchdog/src/system/console.c:89-92 | With three or more decimals the text reads back exactly. |
| `Console.AtMostTwelve` | sw/stage4_watchdog/src/system/console.c:115-125 | No text is longer than 12 characters. |
| `Console.FmtMilli` | sw/stage4_watchdog/src/system/console.c:75-128 | The 32-bit code produces that text, places and rounding included, cut to the buffer; a null or empty buffer gives an empty string. |
| `Console.FormatMilli` | sw/stage4_watchdog/src/system/console.c:89-125 | The wrapping arithmetic, for the smallest value too, computes a text with the places and the rounding asked for. |
| `Console.WriteDec` | sw/stage4_watchdog/src/system/console.c:36-50 | The backwards digit loop stays in its buffer and yields the decimal text. |
| `Console.ValueOfDigits` | sw/stage4_watchdog/src/system/console.c:42-47 | The decimal text of a number reads back as the number. |
| `Xadc.TemperatureNearest` | sw/stage4_watchdog/src/drivers/xadc_drv.c:198-203 | A temperature is the millidegree nearest to the transfer function of UG480 chapter 2, the upper one of two equally near, if and only if the code is at most 8522; from 8523 the product overflows. |
| `Xadc.SupplyNearest` | sw/stage4_watchdog/src/drivers/xadc_drv.c:205-206 | A supply is the nearest millivolt for every 16-bit code, the upper one of two equally near. |
| `Xadc.PlacesShown` | sw/stage4_watchdog/src/tasks/task_consumer.c:55-60 | A temperature shows exactly two places, every supply three. |
| `Xadc.ShownTemperature` | sw/stage4_watchdog/src/tasks/task_consumer.c:55-60 | The printed temperature is within 5.5 millidegrees of the transfer function. |
| `Xadc.TemperatureIncreases` | sw/stage4_watchdog/src/tasks/task_consumer.c:55-60 | Over 12-bit codes the printed temperature is strictly increasing, across zero too. |
| `Xadc.TemperatureTextTellsCode` | sw/stage4_watchdog/src/tasks/task_consumer.c:54-60 | The printed temperature determines the raw code. |
| `Xadc.SupplyMonotone` | sw/stage4_watchdog/src/tasks/task_consumer.c:55-60 | The printed supply is non-decreasing and moves by at most 1 mV per code. |
| `Xadc.FmtSensor` | sw/stage4_watchdog/src/tasks/task_consumer.c:55-60 | The text always fits the consumer's 16 byte buffer, and has two places for the temperature, three for a supply. |
| `Uptime.UptimeExact` | sw/stage4_watchdog/src/system/uptime.c:50-67 | For every 64-bit count and every clock from 1 MHz to 2^64/10^6 the split form is the exact time rounded down, with no overflow in between. |
| `Uptime.UptimeMonotone` | sw/stage4_watchdog/src/system/uptime.c:50-67 | Timestamps never go backwards. |
| `Uptime.PlainProductOverflows` | sw/stage4_watchdog/src/system/uptime.c:58-62 | Without the split the result would be right if and only if `counts * 10^6` fits 64 bits. |
| `Uptime.MsInterval` | sw/stage4_watchdog/src/system/uptime.c:69-72 | The wrapping millisecond clock measures intervals below 2^32 ms by unsigned subtraction. |

## Left out

- Null record and statistics pointers, the mutex not created yet, and the DDR address check of `sensor_log.c`.
- Lock-hold, read-time and write-time maxima: measurements without relations to prove.
- Stream and rate flags, reports, help and diagnostics printing, heartbeat LED, UART driver: output plumbing.
- The consumer's stall warning and the watchdog test keys' printing.
- Composition: a client that hangs in its check-in may still take steps of the sample path in that model; its theorems hold all the more of one that does not.
- The lengths of the 20 ms and 100 ms lock waits and other scheduling delays: a lock is granted or times out at any moment, and no timing is proved about the sample path.
- FreeRTOS and the Xilinx drivers: assumed as stated above. `sample_timer.c`, `reset_cause.c`, `slcr.c`, `fault.c`, `rtos_hooks.c` and the start-up order of `main.c` are not part of this model.
- Watchdog clock prescaler phase: the countdown is exact to a clock cycle, the first prescaled period is taken as whole.
- Repeated calls of `wdt_drv_init` on a running watchdog and the debugger halting the CPU.
- TaskLoops.ReadSensors: codes are arbitrary numbers there, one per sensor; the converter's 12-bit range matters only in `Xadc`.
- ProducerTasks.Producer.TickFromIsr: does not model the 32-bit notification count overflowing, which needs 2^32 unanswered ticks.
