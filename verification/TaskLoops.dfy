/** The endless loops of the three tasks. Between any two atomic actions of one task the others may
    run for as long as they like, in any order. Each contract says exactly which events of its task
    a pass adds to the trace, and the trace contains enabled steps of the transition system only. */
module TaskLoops {
  import opened Word
  import opened AppConfig
  import opened Wrappers
  import opened Records
  import opened SamplePath
  import opened Firmwares
  import opened TaskTraces
  import opened UiTasks
  import Debounce
  import ProducerStats

  // ---- reading the model off the fields ----

  lemma ProducerFields(fw: Firmware)
    requires fw.Valid()
    ensures fw.prod.pc == fw.s.prod.pc && fw.prod.notifyCount == fw.s.notify
  {
  }

  lemma ConsumerFields(fw: Firmware)
    requires fw.Valid()
    ensures fw.cons.pc == fw.s.cons.pc && fw.cons.drainPaused == fw.s.cons.paused
    ensures fw.s.cons.pc.Processing? ==>
              && fw.cons.idx <= fw.s.cons.pc.batchCount
              && |fw.s.cons.batch| == fw.s.cons.pc.batchCount - fw.cons.idx
  {
  }

  // ---- one atomic action of a task, whichever is next ----

  /** Only this task acted. */
  ghost predicate OnlyBy(task: Task, before: seq<Event>, after: seq<Event>) {
    forall other: Task :: other != task ==> Rested(other, before, after)
  }

  lemma OnlyByOne(before: seq<Event>, e: Event)
    ensures OnlyBy(Owner(e), before, before + [e])
  {
    forall other: Task | other != Owner(e) ensures Rested(other, before, before + [e]) {
      DidOne(other, before, e);
    }
  }

  /** Some reading of the sensors. */
  method ReadSensors() returns (codes: seq<nat>)
    ensures |codes| == ProducerStats.SENSOR_COUNT
  {
    var a: nat, b: nat, c: nat, d: nat := *, *, *, *;
    var e: nat, f: nat, g: nat := *, *, *;
    codes := [a, b, c, d, e, f, g];
  }

  method ProducerTurn(fw: Firmware)
    requires fw.Valid()
    modifies fw.prod.Repr, fw.log.ring, fw.log.storage, fw.queue, fw`trace, fw`s
    ensures fw.Valid() && OnlyBy(ProducerLoop, old(fw.trace), fw.trace)
    ensures fw.s.cons == old(fw.s.cons)
  {
    hide Firmware.Valid, OnlyBy;
    ghost var before := fw.trace;
    ProducerFields(fw);
    match fw.prod.pc {
    case WaitTick =>
      if fw.prod.notifyCount == 0 {
        fw.WaitTimedOut();
      } else {
        var captureUs: nat, buttons: nat := *, *;
        var codes := ReadSensors();
        fw.TakeSample(captureUs, codes, buttons);
      }
    case Sampled =>
      var locked: bool := *;
      fw.WriteLog(locked);
    case Written => fw.RingDoorbell();
    case Rung => fw.UpdateStats();
    }
    OnlyByOne(before, fw.trace[|before|]);
  }

  method ConsumerTurn(fw: Firmware)
    requires fw.Valid()
    modifies fw.cons.Repr, fw.log.ring, fw.log.storage, fw.queue, fw`trace, fw`s
    ensures fw.Valid() && OnlyBy(ConsumerLoop, old(fw.trace), fw.trace)
    ensures fw.s.prod == old(fw.s.prod) && fw.s.notify == old(fw.s.notify)
  {
    hide Firmware.Valid, OnlyBy;
    ghost var before := fw.trace;
    ConsumerFields(fw);
    match fw.cons.pc {
    case AtReceive => var _ := fw.ReceiveMsg();
    case Received(_) => fw.HandleMsg();
    case DrainStart => fw.StartDrain();
    case AtRead(_) =>
      var locked: bool := *;
      fw.ReadBatch(locked);
    case Processing(_, count) =>
      if fw.cons.idx < count {
        fw.ProcessRecord();
      } else {
        fw.EndBatch();
      }
    case PassEnd => fw.EndPass();
    }
    OnlyByOne(before, fw.trace[|before|]);
  }

  method IsrTurn(fw: Firmware)
    requires fw.Valid()
    modifies fw.prod`notifyCount, fw`trace, fw`s
    ensures fw.Valid() && OnlyBy(TimerIsr, old(fw.trace), fw.trace)
    ensures fw.s.cons == old(fw.s.cons) && fw.s.prod == old(fw.s.prod)
  {
    hide Firmware.Valid;
    ProducerFields(fw);
    if fw.prod.notifyCount + 1 < TWO_32 {
      OnlyByOne(fw.trace, Tick);
      fw.TimerTick();
    }
  }

  /** Some message of the UI: whatever key was pressed. */
  method UiTurn(fw: Firmware)
    requires fw.Valid()
    modifies fw.queue, fw`droppedMsgs, fw`trace, fw`s
    ensures fw.Valid() && OnlyBy(UiLoop, old(fw.trace), fw.trace)
    ensures fw.s.cons == old(fw.s.cons) && fw.s.prod == old(fw.s.prod)
  {
    hide Firmware.Valid;
    var key: char := *;
    match KeyMsg(key)
    case Some(msg) =>
      OnlyByOne(fw.trace, UiSend(msg));
      fw.UiSend(msg);
    case None =>
  }

  // ---- what runs while one task is preempted or blocked ----

  lemma StillRested(task: Task, a: seq<Event>, b: seq<Event>, c: seq<Event>)
    requires Rested(task, a, b) && Rested(task, b, c)
    ensures Rested(task, a, c)
  {
    DidMore(task, a, b, c, [], []);
  }

  method BesidesConsumer(fw: Firmware)
    requires fw.Valid()
    modifies fw.Repr - fw.cons.Repr
    ensures fw.Valid() && Rested(ConsumerLoop, old(fw.trace), fw.trace) && fw.s.cons == old(fw.s.cons)
  {
    RestedNow(ConsumerLoop, fw.trace);
    var turns: int := *;
    while turns > 0
      invariant fw.Valid() && Rested(ConsumerLoop, old(fw.trace), fw.trace) && fw.s.cons == old(fw.s.cons)
    {
      ghost var before := fw.trace;
      if * {
        IsrTurn(fw);
      } else if * {
        ProducerTurn(fw);
      } else {
        UiTurn(fw);
      }
      StillRested(ConsumerLoop, old(fw.trace), before, fw.trace);
      turns := turns - 1;
    }
  }

  method BesidesProducer(fw: Firmware)
    requires fw.Valid()
    modifies fw.Repr - fw.prod.Repr, fw.prod`notifyCount
    ensures fw.Valid() && Rested(ProducerLoop, old(fw.trace), fw.trace) && fw.s.prod == old(fw.s.prod)
  {
    hide Firmware.Valid;
    RestedNow(ProducerLoop, fw.trace);
    var turns: int := *;
    while turns > 0
      invariant fw.Valid() && Rested(ProducerLoop, old(fw.trace), fw.trace) && fw.s.prod == old(fw.s.prod)
    {
      ghost var before := fw.trace;
      if * {
        IsrTurn(fw);
      } else if * {
        ConsumerTurn(fw);
      } else {
        UiTurn(fw);
      }
      StillRested(ProducerLoop, old(fw.trace), before, fw.trace);
      turns := turns - 1;
    }
  }

  method BesidesUi(fw: Firmware)
    requires fw.Valid()
    modifies fw.Repr
    ensures fw.Valid() && Rested(UiLoop, old(fw.trace), fw.trace)
  {
    hide Firmware.Valid;
    RestedNow(UiLoop, fw.trace);
    var turns: int := *;
    while turns > 0
      invariant fw.Valid() && Rested(UiLoop, old(fw.trace), fw.trace)
    {
      ghost var before := fw.trace;
      if * {
        IsrTurn(fw);
      } else if * {
        ProducerTurn(fw);
      } else {
        ConsumerTurn(fw);
      }
      StillRested(UiLoop, old(fw.trace), before, fw.trace);
      turns := turns - 1;
    }
  }

  // ---- the producer task ----

  /** One pass of the producer's loop, given what the sensors will read and whether the log's lock
      will be granted: either a wait without a tick, or one sample taken, written or dropped, rung
      for and counted. A wait ends without a tick only if none is pending. */
  method ProducerPass(fw: Firmware, captureUs: nat, codes: seq<nat>, buttons: nat, locked: bool)
    requires fw.Valid() && fw.s.prod.pc.WaitTick? && |codes| == ProducerStats.SENSOR_COUNT
    modifies fw.Repr
    ensures fw.Valid() && fw.s.prod.pc.WaitTick?
    ensures
      || Did(ProducerLoop, old(fw.trace), fw.trace, [TakeTimeout])
      || Did(ProducerLoop, old(fw.trace), fw.trace, SampleEvents(captureUs, codes, buttons, locked))
  {
    hide Firmware.Valid;
    ghost var start := fw.trace;
    BesidesProducer(fw);
    ghost var woken := fw.trace;
    ProducerFields(fw);
    if fw.prod.notifyCount == 0 {
      fw.WaitTimedOut();
      DidOne(ProducerLoop, woken, TakeTimeout);
      DidMore(ProducerLoop, start, woken, fw.trace, [], [TakeTimeout]);
    } else {
      SampleCycle(fw, captureUs, codes, buttons, locked);
      DidMore(ProducerLoop, start, woken, fw.trace, [], SampleEvents(captureUs, codes, buttons, locked));
    }
  }

  method SampleCycle(fw: Firmware, captureUs: nat, codes: seq<nat>, buttons: nat, locked: bool)
    requires fw.Valid() && Enabled(fw.s, TakeTicks(captureUs, codes, buttons))
    requires |codes| == ProducerStats.SENSOR_COUNT
    modifies fw.Repr
    ensures fw.Valid() && fw.s.prod.pc.WaitTick?
    ensures Did(ProducerLoop, old(fw.trace), fw.trace, SampleEvents(captureUs, codes, buttons, locked))
  {
    hide Firmware.Valid;
    ghost var start := fw.trace;
    fw.TakeSample(captureUs, codes, buttons);
    DidOne(ProducerLoop, start, TakeTicks(captureUs, codes, buttons));
    ghost var sampled := fw.trace;
    WriteSample(fw, locked);
    DidMore(ProducerLoop, start, sampled, fw.trace, [TakeTicks(captureUs, codes, buttons)], [Write(locked)]);
    ghost var written := fw.trace;
    RingAndCount(fw);
    DidMore(ProducerLoop, start, written, fw.trace,
            [TakeTicks(captureUs, codes, buttons), Write(locked)], [Ring, UpdateStats]);
  }

  method WriteSample(fw: Firmware, locked: bool)
    requires fw.Valid() && fw.s.prod.pc.Sampled?
    modifies fw.Repr
    ensures fw.Valid() && fw.s.prod.pc.Written?
    ensures Did(ProducerLoop, old(fw.trace), fw.trace, [Write(locked)])
  {
    hide Firmware.Valid;
    ghost var start := fw.trace;
    BesidesProducer(fw);
    ghost var now := fw.trace;
    fw.WriteLog(locked);
    DidOne(ProducerLoop, now, Write(locked));
    DidMore(ProducerLoop, start, now, fw.trace, [], [Write(locked)]);
  }

  method RingAndCount(fw: Firmware)
    requires fw.Valid() && fw.s.prod.pc.Written?
    modifies fw.Repr
    ensures fw.Valid() && fw.s.prod.pc.WaitTick?
    ensures Did(ProducerLoop, old(fw.trace), fw.trace, [Ring, UpdateStats])
  {
    hide Firmware.Valid;
    ghost var start := fw.trace;
    DecideRing(fw);
    ghost var rung := fw.trace;
    CountCycle(fw);
    DidMore(ProducerLoop, start, rung, fw.trace, [Ring], [UpdateStats]);
  }

  method DecideRing(fw: Firmware)
    requires fw.Valid() && fw.s.prod.pc.Written?
    modifies fw.Repr
    ensures fw.Valid() && fw.s.prod.pc.Rung?
    ensures Did(ProducerLoop, old(fw.trace), fw.trace, [Ring])
  {
    hide Firmware.Valid;
    ghost var start := fw.trace;
    BesidesProducer(fw);
    ghost var now := fw.trace;
    fw.RingDoorbell();
    DidOne(ProducerLoop, now, Ring);
    DidMore(ProducerLoop, start, now, fw.trace, [], [Ring]);
  }

  method CountCycle(fw: Firmware)
    requires fw.Valid() && fw.s.prod.pc.Rung?
    modifies fw.Repr
    ensures fw.Valid() && fw.s.prod.pc.WaitTick?
    ensures Did(ProducerLoop, old(fw.trace), fw.trace, [UpdateStats])
  {
    hide Firmware.Valid;
    ghost var start := fw.trace;
    BesidesProducer(fw);
    ghost var now := fw.trace;
    fw.UpdateStats();
    DidOne(ProducerLoop, now, UpdateStats);
    DidMore(ProducerLoop, start, now, fw.trace, [], [UpdateStats]);
  }

  // ---- the consumer task ----

  /** Reads the next batch under the lock, if it is granted. */
  method NextBatch(fw: Firmware, batchNum: nat, locked: bool)
    requires fw.Valid() && fw.s.cons.pc == AtRead(batchNum)
    modifies fw.Repr
    ensures fw.Valid() && fw.s.cons.paused == old(fw.s.cons.paused)
    ensures Did(ConsumerLoop, old(fw.trace), fw.trace, [Read(locked)])
    ensures locked ==> fw.s.cons.pc == Processing(batchNum, |fw.s.cons.batch|) && |fw.s.cons.batch| <= READ_BATCH
    ensures !locked ==> fw.s.cons.pc.PassEnd? && fw.s.cons.backlog
  {
    hide Firmware.Valid;
    ghost var start := fw.trace;
    BesidesConsumer(fw);
    ghost var now := fw.trace;
    fw.ReadBatch(locked);
    DidOne(ConsumerLoop, now, Read(locked));
    DidMore(ConsumerLoop, start, now, fw.trace, [], [Read(locked)]);
  }

  method ProcessOne(fw: Firmware)
    requires fw.Valid() && fw.s.cons.pc.Processing? && fw.s.cons.batch != []
    modifies fw.Repr
    ensures fw.Valid() && Did(ConsumerLoop, old(fw.trace), fw.trace, [Process])
    ensures fw.s.cons == old(fw.s.cons).Processed()
  {
    hide Firmware.Valid;
    ghost var start := fw.trace;
    BesidesConsumer(fw);
    ghost var now := fw.trace;
    fw.ProcessRecord();
    DidOne(ConsumerLoop, now, Process);
    DidMore(ConsumerLoop, start, now, fw.trace, [], [Process]);
  }

  /** The inner loop of `consumer_drain_log`: the mutex is free, so the producer may write and
      ring between any two records. */
  method ProcessBatch(fw: Firmware, batchNum: nat, batchCount: nat)
    requires fw.Valid() && fw.s.cons.pc == Processing(batchNum, batchCount) && |fw.s.cons.batch| == batchCount
    modifies fw.Repr
    ensures fw.Valid() && Did(ConsumerLoop, old(fw.trace), fw.trace, Copies(Process, batchCount))
    ensures fw.s.cons.pc == Processing(batchNum, batchCount) && fw.s.cons.batch == []
    ensures fw.s.cons.paused == old(fw.s.cons.paused)
  {
    hide Firmware.Valid;
    RestedNow(ConsumerLoop, fw.trace);
    ConsumerFields(fw);
    for idx := 0 to batchCount
      invariant fw.Valid() && Did(ConsumerLoop, old(fw.trace), fw.trace, Copies(Process, idx))
      invariant fw.s.cons.pc == Processing(batchNum, batchCount) && |fw.s.cons.batch| == batchCount - idx
      invariant fw.s.cons.paused == old(fw.s.cons.paused)
    {
      ghost var before := fw.trace;
      ProcessOne(fw);
      DidMore(ConsumerLoop, old(fw.trace), before, fw.trace, Copies(Process, idx), [Process]);
    }
  }

  method FinishBatch(fw: Firmware, batchNum: nat, batchCount: nat)
    requires fw.Valid() && fw.s.cons.pc == Processing(batchNum, batchCount) && |fw.s.cons.batch| == batchCount
    modifies fw.Repr
    ensures fw.Valid() && fw.s.cons.paused == old(fw.s.cons.paused)
    ensures Did(ConsumerLoop, old(fw.trace), fw.trace, Copies(Process, batchCount) + [EndBatch])
    ensures batchCount < READ_BATCH ==> fw.s.cons.pc.PassEnd? && !fw.s.cons.backlog
    ensures batchCount >= READ_BATCH ==>
              if batchNum + 1 < DRAIN_BATCHES_MAX then fw.s.cons.pc == AtRead(batchNum + 1)
              else fw.s.cons.pc.PassEnd? && fw.s.cons.backlog
  {
    hide Firmware.Valid;
    ghost var start := fw.trace;
    ProcessBatch(fw, batchNum, batchCount);
    ghost var now := fw.trace;
    fw.EndBatch();
    DidOne(ConsumerLoop, now, EndBatch);
    DidMore(ConsumerLoop, start, now, fw.trace, Copies(Process, batchCount), [EndBatch]);
  }

  /** One round of the outer loop of `consumer_drain_log`. */
  method OneBatch(fw: Firmware, batchNum: nat, locked: bool) returns (batchCount: nat)
    requires fw.Valid() && fw.s.cons.pc == AtRead(batchNum)
    modifies fw.Repr
    ensures fw.Valid() && fw.s.cons.paused == old(fw.s.cons.paused) && batchCount <= READ_BATCH
    ensures Did(ConsumerLoop, old(fw.trace), fw.trace, if locked then Round(batchCount) else [Read(false)])
    ensures !locked ==> fw.s.cons.pc.PassEnd? && fw.s.cons.backlog
    ensures locked && batchCount < READ_BATCH ==> fw.s.cons.pc.PassEnd? && !fw.s.cons.backlog
    ensures locked && batchCount >= READ_BATCH ==>
              if batchNum + 1 < DRAIN_BATCHES_MAX then fw.s.cons.pc == AtRead(batchNum + 1)
              else fw.s.cons.pc.PassEnd? && fw.s.cons.backlog
  {
    hide Firmware.Valid;
    batchCount := 0;
    ghost var start := fw.trace;
    NextBatch(fw, batchNum, locked);
    if locked {
      ghost var read := fw.trace;
      ConsumerFields(fw);
      batchCount := fw.cons.pc.batchCount;
      FinishBatch(fw, batchNum, batchCount);
      DidMore(ConsumerLoop, start, read, fw.trace, [Read(true)], Copies(Process, batchCount) + [EndBatch]);
      assert [Read(true)] + (Copies(Process, batchCount) + [EndBatch]) == Round(batchCount);
    }
  }

  /** Reads and processes batches until one comes up short, the lock is refused, or four were full. */
  method DrainBatches(fw: Firmware, locks: seq<bool>) returns (again: bool, ghost drain: Drain)
    requires fw.Valid() && fw.s.cons.pc == AtRead(0) && |locks| == DRAIN_BATCHES_MAX
    modifies fw.Repr
    ensures fw.Valid() && fw.s.cons.paused == old(fw.s.cons.paused)
    ensures Did(ConsumerLoop, old(fw.trace), fw.trace, DrainEvents(drain)) && FollowsLocks(drain, locks)
    ensures again == !drain.Short?
    ensures fw.s.cons.pc.PassEnd? && fw.s.cons.backlog == again
  {
    hide Firmware.Valid, Round, Did;
    RestedNow(ConsumerLoop, fw.trace);
    var batchNum := 0;
    while batchNum < DRAIN_BATCHES_MAX
      invariant fw.Valid() && fw.s.cons.paused == old(fw.s.cons.paused) && batchNum <= DRAIN_BATCHES_MAX
      invariant Did(ConsumerLoop, old(fw.trace), fw.trace, FullRounds(batchNum))
      invariant forall i :: 0 <= i < batchNum ==> locks[i]
      invariant batchNum < DRAIN_BATCHES_MAX ==> fw.s.cons.pc == AtRead(batchNum)
      invariant batchNum == DRAIN_BATCHES_MAX ==> fw.s.cons.pc.PassEnd? && fw.s.cons.backlog
    {
      ghost var before := fw.trace;
      var batchCount := OneBatch(fw, batchNum, locks[batchNum]);
      DidMore(ConsumerLoop, old(fw.trace), before, fw.trace, FullRounds(batchNum),
              if locks[batchNum] then Round(batchCount) else [Read(false)]);
      if !locks[batchNum] {
        return true, Refused(batchNum);
      }
      if batchCount < READ_BATCH {
        return false, Short(batchNum, batchCount);
      }
      batchNum := batchNum + 1;
    }
    return true, Limit;
  }

  function DrainPart(drain: Option<Drain>): seq<Event> {
    match drain
    case None => []
    case Some(d) => DrainEvents(d)
  }

  /** `consumer_drain_log`, given how each read's lock will go: nothing while paused, otherwise one
      drain; the result is the new backlog flag. */
  method ConsumerDrainLog(fw: Firmware, locks: seq<bool>) returns (again: bool, ghost drain: Option<Drain>)
    requires fw.Valid() && fw.s.cons.pc.DrainStart? && |locks| == DRAIN_BATCHES_MAX
    modifies fw.Repr
    ensures fw.Valid() && fw.s.cons.paused == old(fw.s.cons.paused)
    ensures drain.None? <==> fw.s.cons.paused
    ensures drain.Some? ==> FollowsLocks(drain.value, locks)
    ensures Did(ConsumerLoop, old(fw.trace), fw.trace, [BeginDrain] + DrainPart(drain))
    ensures again == (drain.Some? && !drain.value.Short?)
    ensures fw.s.cons.pc.PassEnd? && fw.s.cons.backlog == again
  {
    hide Firmware.Valid, DrainEvents;
    ghost var start := fw.trace;
    StartDraining(fw);
    ghost var begun := fw.trace;
    ConsumerFields(fw);
    if fw.cons.drainPaused {
      return false, None;
    }
    ghost var d: Drain;
    again, d := DrainBatches(fw, locks);
    drain := Some(d);
    DidMore(ConsumerLoop, start, begun, fw.trace, [BeginDrain], DrainEvents(d));
  }

  method StartDraining(fw: Firmware)
    requires fw.Valid() && fw.s.cons.pc.DrainStart?
    modifies fw.Repr
    ensures fw.Valid() && fw.s.cons == old(fw.s.cons).BeganDrain()
    ensures Did(ConsumerLoop, old(fw.trace), fw.trace, [BeginDrain])
  {
    hide Firmware.Valid;
    ghost var start := fw.trace;
    BesidesConsumer(fw);
    ghost var now := fw.trace;
    fw.StartDrain();
    DidOne(ConsumerLoop, now, BeginDrain);
    DidMore(ConsumerLoop, start, now, fw.trace, [], [BeginDrain]);
  }

  /** The wait at the queue: a message taken off and handled, or none. */
  method ReceiveAndHandle(fw: Firmware) returns (received: bool)
    requires fw.Valid() && fw.s.cons.pc.AtReceive?
    modifies fw.Repr
    ensures fw.Valid() && fw.s.cons.pc.DrainStart?
    ensures Did(ConsumerLoop, old(fw.trace), fw.trace, if received then [Receive, Handle] else [ReceiveTimeout])
  {
    hide Firmware.Valid;
    ghost var start := fw.trace;
    received := TryReceive(fw);
    if received {
      ghost var now := fw.trace;
      HandleOne(fw);
      DidMore(ConsumerLoop, start, now, fw.trace, [Receive], [Handle]);
    }
  }

  method TryReceive(fw: Firmware) returns (received: bool)
    requires fw.Valid() && fw.s.cons.pc.AtReceive?
    modifies fw.Repr
    ensures fw.Valid() && (if received then fw.s.cons.pc.Received? else fw.s.cons.pc.DrainStart?)
    ensures Did(ConsumerLoop, old(fw.trace), fw.trace, [if received then Receive else ReceiveTimeout])
  {
    hide Firmware.Valid;
    ghost var start := fw.trace;
    BesidesConsumer(fw);
    ghost var now := fw.trace;
    var msg := fw.ReceiveMsg();
    received := msg.Some?;
    DidOne(ConsumerLoop, now, if received then Receive else ReceiveTimeout);
    DidMore(ConsumerLoop, start, now, fw.trace, [], [if received then Receive else ReceiveTimeout]);
  }

  method HandleOne(fw: Firmware)
    requires fw.Valid() && fw.s.cons.pc.Received?
    modifies fw.Repr
    ensures fw.Valid() && fw.s.cons.pc.DrainStart?
    ensures Did(ConsumerLoop, old(fw.trace), fw.trace, [Handle])
  {
    hide Firmware.Valid;
    ghost var start := fw.trace;
    BesidesConsumer(fw);
    ghost var now := fw.trace;
    fw.HandleMsg();
    DidOne(ConsumerLoop, now, Handle);
    DidMore(ConsumerLoop, start, now, fw.trace, [], [Handle]);
  }

  method FinishPass(fw: Firmware)
    requires fw.Valid() && fw.s.cons.pc.PassEnd?
    modifies fw.Repr
    ensures fw.Valid() && fw.s.cons == old(fw.s.cons).EndedPass()
    ensures Did(ConsumerLoop, old(fw.trace), fw.trace, [EndPass])
  {
    hide Firmware.Valid;
    ghost var start := fw.trace;
    BesidesConsumer(fw);
    ghost var now := fw.trace;
    fw.EndPass();
    DidOne(ConsumerLoop, now, EndPass);
    DidMore(ConsumerLoop, start, now, fw.trace, [], [EndPass]);
  }

  /** One pass of the consumer's loop, given how the locks will go: at most one message received and
      handled, one drain unless paused, the end of the pass. A wait ends without a message only if
      the queue is empty. */
  method ConsumerPass(fw: Firmware, locks: seq<bool>) returns (received: bool, ghost drain: Option<Drain>)
    requires fw.Valid() && fw.s.cons.pc.AtReceive? && |locks| == DRAIN_BATCHES_MAX
    modifies fw.Repr
    ensures fw.Valid() && fw.s.cons.pc.AtReceive?
    ensures drain.None? <==> fw.s.cons.paused
    ensures drain.Some? ==> FollowsLocks(drain.value, locks)
    ensures fw.s.cons.backlog == (drain.Some? && !drain.value.Short?)
    ensures Did(ConsumerLoop, old(fw.trace), fw.trace,
                (if received then [Receive, Handle] else [ReceiveTimeout])
                + ([BeginDrain] + DrainPart(drain)) + [EndPass])
  {
    hide Firmware.Valid, DrainPart;
    ghost var start := fw.trace;
    received := ReceiveAndHandle(fw);
    ghost var handled := fw.trace;
    ghost var first := if received then [Receive, Handle] else [ReceiveTimeout];
    var again;
    again, drain := ConsumerDrainLog(fw, locks);
    DidMore(ConsumerLoop, start, handled, fw.trace, first, [BeginDrain] + DrainPart(drain));
    ghost var drained := fw.trace;
    FinishPass(fw);
    DidMore(ConsumerLoop, start, drained, fw.trace, first + ([BeginDrain] + DrainPart(drain)), [EndPass]);
  }

  // ---- the UI task ----

  /** One pass of the UI's loop: scan, take the presses, drain the keys. Every press and every key
      with a meaning is sent exactly once, in order, and after the pass the presses taken are the
      released-to-pressed changes of the debounced levels. */
  method UiPass(fw: Firmware, ui: Ui, raw: seq<bool>, keys: seq<char>)
    requires fw.Valid() && ui.Valid() && ui.Settled() && fw.Repr !! ui.Repr && |raw| == Debounce.BTN_COUNT
    modifies fw.Repr, ui.Repr
    ensures fw.Valid() && ui.Valid() && ui.Settled()
    ensures forall btn :: 0 <= btn < Debounce.BTN_COUNT ==>
              && ui.gpio.history[btn] == Debounce.Scan(old(ui.gpio.history[btn]), raw[btn])
              && ui.takes[btn] == Debounce.Presses(ui.gpio.history[btn])
    ensures Did(UiLoop, old(fw.trace), fw.trace, Sends(PassMsgs(
              Debounce.Presses(ui.gpio.history[BTN4]) > Debounce.Presses(old(ui.gpio.history[BTN4])),
              Debounce.Presses(ui.gpio.history[BTN5]) > Debounce.Presses(old(ui.gpio.history[BTN5])), keys)))
  {
    hide Firmware.Valid, PassMsgs, Sends, Did;
    ghost var start := fw.trace;
    ui.Scan(raw);
    ghost var press4, press5 := ui.gpio.untaken[BTN4] == 1, ui.gpio.untaken[BTN5] == 1;
    SendPending(fw, ui, keys);
    assert Did(UiLoop, start, fw.trace, Sends(PassMsgs(press4, press5, keys)));
    forall btn | 0 <= btn < Debounce.BTN_COUNT
      ensures ui.takes[btn] == Debounce.Presses(ui.gpio.history[btn])
    {
      assert ui.gpio.untaken[btn] == 0;
    }
  }

  /** The sending half of a pass: presses first, then the keys. */
  method SendPending(fw: Firmware, ui: Ui, keys: seq<char>)
    requires fw.Valid() && ui.Valid() && fw.Repr !! ui.Repr
    requires ui.gpio.untaken[BTN4] <= 1 && ui.gpio.untaken[BTN5] <= 1
    modifies fw.Repr, ui.gpio.pressLatched, ui.gpio`untaken, ui`takes
    ensures fw.Valid() && ui.Valid() && ui.Settled()
    ensures Did(UiLoop, old(fw.trace), fw.trace,
                Sends(PassMsgs(old(ui.gpio.untaken[BTN4]) == 1, old(ui.gpio.untaken[BTN5]) == 1, keys)))
  {
    hide Firmware.Valid, Ui.Valid, PassMsgs, PressMsg, KeyMsgs, Sends, Did;
    TwoButtons(ui);
    ghost var start := fw.trace;
    ghost var press4, press5 := ui.gpio.untaken[BTN4] == 1, ui.gpio.untaken[BTN5] == 1;
    SendPresses(fw, ui);
    ghost var now := fw.trace;
    SendKeys(fw, keys);
    BothPresses(press4, press5);
    DidMore(UiLoop, start, now, fw.trace, Sends(PassMsgs(press4, press5, [])), Sends(KeyMsgs(keys)));
    PressesThenKeys(press4, press5, keys);
  }

  lemma PressesThenKeys(press4: bool, press5: bool, keys: seq<char>)
    ensures Sends(PassMsgs(press4, press5, [])) + Sends(KeyMsgs(keys)) == Sends(PassMsgs(press4, press5, keys))
  {
    SendsConcat(PassMsgs(press4, press5, []), KeyMsgs(keys));
    assert PassMsgs(press4, press5, []) + KeyMsgs(keys) == PassMsgs(press4, press5, keys);
  }

  lemma TwoButtons(ui: Ui)
    requires ui.Valid()
    ensures |ui.gpio.untaken| == Debounce.BTN_COUNT
  {
  }

  function PressMsg(press: bool, msg: Msg): seq<Msg> {
    if press then [msg] else []
  }

  lemma BothPresses(press4: bool, press5: bool)
    ensures Sends(PressMsg(press4, Report)) + Sends(PressMsg(press5, StreamToggle))
            == Sends(PassMsgs(press4, press5, []))
  {
    SendsConcat(PressMsg(press4, Report), PressMsg(press5, StreamToggle));
    assert PressMsg(press4, Report) + PressMsg(press5, StreamToggle) == PassMsgs(press4, press5, []);
  }

  method SendPresses(fw: Firmware, ui: Ui)
    requires fw.Valid() && ui.Valid() && fw.Repr !! ui.Repr
    requires ui.gpio.untaken[BTN4] <= 1 && ui.gpio.untaken[BTN5] <= 1
    modifies fw.Repr, ui.gpio.pressLatched, ui.gpio`untaken, ui`takes
    ensures fw.Valid() && ui.Valid() && ui.Settled()
    ensures Did(UiLoop, old(fw.trace), fw.trace,
                Sends(PressMsg(old(ui.gpio.untaken[BTN4]) == 1, Report))
                + Sends(PressMsg(old(ui.gpio.untaken[BTN5]) == 1, StreamToggle)))
  {
    hide Firmware.Valid, Ui.Valid, PressMsg, Sends, Did;
    TwoButtons(ui);
    ghost var start := fw.trace;
    ghost var press4, press5 := ui.gpio.untaken[BTN4] == 1, ui.gpio.untaken[BTN5] == 1;
    TakeAndSend(fw, ui, BTN4, Report);
    ghost var now := fw.trace;
    TakeAndSend(fw, ui, BTN5, StreamToggle);
    DidMore(UiLoop, start, now, fw.trace,
            Sends(PressMsg(press4, Report)), Sends(PressMsg(press5, StreamToggle)));
  }

  method TakeAndSend(fw: Firmware, ui: Ui, btn: nat, msg: Msg)
    requires fw.Valid() && ui.Valid() && fw.Repr !! ui.Repr
    requires btn < Debounce.BTN_COUNT && ui.gpio.untaken[btn] <= 1 && !msg.DataReady?
    modifies fw.Repr, ui.gpio.pressLatched, ui.gpio`untaken, ui`takes
    ensures fw.Valid() && ui.Valid()
    ensures ui.gpio.untaken == old(ui.gpio.untaken)[btn := 0]
    ensures Did(UiLoop, old(fw.trace), fw.trace, Sends(PressMsg(old(ui.gpio.untaken[btn]) == 1, msg)))
  {
    hide Firmware.Valid;
    RestedNow(UiLoop, fw.trace);
    var press := ui.Take(btn);
    if press {
      SendOne(fw, msg);
    }
  }

  method SendOne(fw: Firmware, msg: Msg)
    requires fw.Valid() && !msg.DataReady?
    modifies fw.Repr
    ensures fw.Valid() && Did(UiLoop, old(fw.trace), fw.trace, Sends([msg]))
  {
    hide Firmware.Valid;
    ghost var start := fw.trace;
    BesidesUi(fw);
    ghost var now := fw.trace;
    fw.UiSend(msg);
    DidOne(UiLoop, now, Event.UiSend(msg));
    DidMore(UiLoop, start, now, fw.trace, [], [Event.UiSend(msg)]);
    assert Sends([msg]) == [Event.UiSend(msg)];
  }

  method SendKeys(fw: Firmware, keys: seq<char>)
    requires fw.Valid()
    modifies fw.Repr
    ensures fw.Valid() && Did(UiLoop, old(fw.trace), fw.trace, Sends(KeyMsgs(keys)))
  {
    hide Firmware.Valid;
    RestedNow(UiLoop, fw.trace);
    for i := 0 to |keys|
      invariant fw.Valid() && Did(UiLoop, old(fw.trace), fw.trace, Sends(KeyMsgs(keys[..i])))
    {
      ghost var before := fw.trace;
      assert keys[..i + 1][..i] == keys[..i];
      match KeyMsg(keys[i])
      case Some(msg) =>
        SendOne(fw, msg);
        DidMore(UiLoop, old(fw.trace), before, fw.trace, Sends(KeyMsgs(keys[..i])), Sends([msg]));
        SendsConcat(KeyMsgs(keys[..i]), [msg]);
      case None =>
    }
    assert keys[..|keys|] == keys;
  }
}
