/** The whole sample path as running code: the task loops of the producer, the consumer and the
    UI's sends over shared objects, with the other tasks running between any two atomic actions.
    A ghost trace records the actions; the objects always agree with `SamplePath.Run` of it, so
    every theorem about traces is a theorem about this code. */
module Firmwares {
  import opened Word
  import opened AppConfig
  import opened Wrappers
  import opened Records
  import opened SamplePath
  import SamplePathTheorems
  import opened SensorLogs
  import opened MessageQueues
  import opened ProducerTasks
  import opened ConsumerTasks
  import ProducerStats

  class Firmware {
    const log: SensorLog
    const queue: MessageQueue
    const prod: ProducerTasks.Producer
    const cons: ConsumerTasks.Consumer
    /** UI messages dropped on a full queue. */
    var droppedMsgs: U32

    ghost var trace: seq<Event>
    ghost var s: State

    ghost const Repr: set<object> := {this, queue} + log.Repr + prod.Repr + cons.Repr

    ghost predicate Separate() {
      {this} !! {queue} !! log.Repr !! prod.Repr !! cons.Repr
    }

    /** The log holds the records of the samples that are in the model's log, and shows the newest
        one stored. */
    ghost predicate LogAgrees(q: State)
      reads log.Repr
    {
      && log.Valid()
      && Holds(log.ring.fifo.contents, q.log, q.hist.taken)
      && log.ring.fifo.dropped == q.overwritten
      && IsNewest(log.ring.fifo.newest, q.hist.lastStored, q.hist.taken)
    }

    ghost predicate IsNewest(newest: Option<Record>, lastStored: nat, taken: seq<Record>) {
      && lastStored <= |taken|
      && newest == (if lastStored == 0 then None else Some(taken[lastStored - 1]))
    }

    ghost predicate QueueAgrees(q: State)
      reads queue, this`droppedMsgs
    {
      queue.items == q.queue && droppedMsgs == ToU32(q.uiDropped)
    }

    ghost predicate ProducerAgrees(q: State)
      reads prod.Repr
    {
      prod.Valid() && prod.p == q.prod && prod.taken == q.hist.taken && prod.notifyCount == q.notify
    }

    /** The records processed are those of the samples the model processed, in that order. */
    ghost predicate ConsumerAgrees(q: State)
      reads cons.Repr
    {
      && cons.Valid() && cons.c == q.cons && cons.taken <= q.hist.taken
      && Holds(cons.done, q.hist.processed, q.hist.taken)
    }

    ghost predicate Valid()
      reads Repr
    {
      && Separate() && s == Run(trace) && Proper(trace)
      && LogAgrees(s) && QueueAgrees(s) && ProducerAgrees(s) && ConsumerAgrees(s)
    }

    constructor ()
      ensures Valid() && trace == []
    {
      hide ProducerTasks.Producer.Valid, ConsumerTasks.Consumer.Valid, SensorLog.Valid;
      var filler := Record(0, 0, [], 0);
      queue := new MessageQueue();
      prod := new ProducerTasks.Producer(filler);
      cons := new ConsumerTasks.Consumer(filler);
      log := new SensorLog(filler);
      droppedMsgs, trace, s := 0, [], INIT;
    }

    /** One step of the transition system, and no more, happened since the old state. */
    twostate predicate Performed(e: Event)
      reads this
    {
      trace == old(trace) + [e] && Enabled(old(s), e) && s == Next(old(s), e)
    }

    /** Notes an atomic action in the trace. */
    ghost method Note(e: Event)
      requires s == Run(trace) && Proper(trace) && Enabled(s, e)
      modifies this`trace, this`s
      ensures Performed(e) && s == Run(trace) && Proper(trace)
    {
      RunSnoc(trace, e);
      trace, s := trace + [e], Next(s, e);
    }

    // ---- interrupt and UI ----

    /** The timer interrupt. The 32-bit notification count is assumed not to overflow. */
    method TimerTick()
      requires Valid() && s.notify + 1 < TWO_32
      modifies prod`notifyCount, this`trace, this`s
      ensures Valid() && Performed(Tick)
    {
      hide ProducerTasks.Producer.Valid, ConsumerTasks.Consumer.Valid, SensorLog.Valid, Run, Proper, Holds, IsNewest;
      prod.TickFromIsr();
      Note(Tick);
    }

    /** `ui_send`: the message is accepted or `droppedMsgs` goes up by one. */
    method UiSend(msg: Msg)
      requires Valid() && Enabled(s, Event.UiSend(msg))
      modifies queue, this`droppedMsgs, this`trace, this`s
      ensures Valid() && Performed(Event.UiSend(msg))
    {
      hide ProducerTasks.Producer.Valid, ConsumerTasks.Consumer.Valid, SensorLog.Valid, Run, Proper, Holds, IsNewest;
      Carries(droppedMsgs, s.uiDropped, 1);
      var sent := queue.Send(msg);
      Note(Event.UiSend(msg));
      if !sent {
        droppedMsgs := ToU32(droppedMsgs + 1);
      }
    }

    /** The newest record in the log, ever: that of the newest sample stored, processed or not. */
    method PeekNewest(locked: bool) returns (record: Option<Record>)
      requires Valid()
      ensures !locked ==> record == None
      ensures locked ==> IsNewest(record, s.hist.lastStored, s.hist.taken)
    {
      record := log.PeekNewest(locked);
    }

    // ---- the producer's atomic actions ----

    method TakeSample(captureUs: nat, codes: seq<nat>, buttons: nat)
      requires Valid() && Enabled(s, TakeTicks(captureUs, codes, buttons)) && |codes| == ProducerStats.SENSOR_COUNT
      modifies prod, this`trace, this`s
      ensures Valid() && Performed(TakeTicks(captureUs, codes, buttons))
    {
      hide ProducerTasks.Producer.Valid, ConsumerTasks.Consumer.Valid, SensorLog.Valid, Run, Proper, Holds;
      ghost var taken := s.hist.taken;
      prod.Take(captureUs, codes, buttons);
      Note(TakeTicks(captureUs, codes, buttons));
      HoldsLater(log.ring.fifo.contents, s.log, taken, s.hist.taken);
      HoldsLater(cons.done, s.hist.processed, taken, s.hist.taken);
    }

    method WaitTimedOut()
      requires Valid() && Enabled(s, TakeTimeout)
      modifies prod`p, prod.stats, this`trace, this`s
      ensures Valid() && Performed(TakeTimeout)
    {
      hide ProducerTasks.Producer.Valid, ConsumerTasks.Consumer.Valid, SensorLog.Valid, Run, Proper, Holds, IsNewest;
      prod.TimeOut();
      Note(TakeTimeout);
    }

    method WriteLog(locked: bool)
      requires Valid() && Enabled(s, Write(locked))
      modifies prod, log.ring, log.storage, this`trace, this`s
      ensures Valid() && Performed(Write(locked))
    {
      if locked {
        StoreSample();
      } else {
        DropSample();
      }
    }

    method StoreSample()
      requires Valid() && Enabled(s, Write(true))
      modifies prod, log.ring, log.storage, this`trace, this`s
      ensures Valid() && Performed(Write(true))
    {
      hide ProducerTasks.Producer.Valid, ConsumerTasks.Consumer.Valid, SensorLog.Valid, Run, Proper, Holds;
      ghost var contents := log.ring.fifo.contents;
      prod.WriteLog(log, true);
      PushHolds(contents, s.log, s.hist.taken);
      Note(Write(true));
    }

    method DropSample()
      requires Valid() && Enabled(s, Write(false))
      modifies prod, log.ring, log.storage, this`trace, this`s
      ensures Valid() && Performed(Write(false))
    {
      hide ProducerTasks.Producer.Valid, ConsumerTasks.Consumer.Valid, SensorLog.Valid, Run, Proper, Holds, IsNewest;
      prod.WriteLog(log, false);
      Note(Write(false));
    }

    /** Pushing the newest sample keeps log and model together, full or not. */
    lemma PushHolds(contents: seq<Record>, ids: seq<nat>, taken: seq<Record>)
      requires Holds(contents, ids, taken) && taken != []
      requires taken[|taken| - 1].seqNo == ToU32(|taken|)
      ensures |contents| == |ids| && Holds(contents + [taken[|taken| - 1]], ids + [|taken|], taken)
      ensures ids != [] ==> Holds(contents[1..] + [taken[|taken| - 1]], ids[1..] + [|taken|], taken)
    {
    }

    method RingDoorbell()
      requires Valid() && Enabled(s, Ring)
      modifies prod, queue, this`trace, this`s
      ensures Valid() && Performed(Ring)
    {
      hide ProducerTasks.Producer.Valid, ConsumerTasks.Consumer.Valid, SensorLog.Valid, Run, Proper, Holds, IsNewest;
      prod.RingDoorbell(queue);
      Note(Ring);
    }

    method UpdateStats()
      requires Valid() && Enabled(s, Event.UpdateStats)
      modifies prod.Repr, this`trace, this`s
      ensures Valid() && Performed(Event.UpdateStats)
    {
      hide ProducerTasks.Producer.Valid, ConsumerTasks.Consumer.Valid, SensorLog.Valid, Run, Proper, Holds, IsNewest;
      prod.UpdateStats();
      Note(Event.UpdateStats);
    }

    // ---- the consumer's atomic actions ----

    method ReceiveMsg() returns (msg: Option<Msg>)
      requires Valid() && s.cons.pc.AtReceive?
      modifies cons, queue, this`trace, this`s
      ensures Valid() && Performed(if msg.Some? then Receive else ReceiveTimeout)
    {
      hide ProducerTasks.Producer.Valid, ConsumerTasks.Consumer.Valid, SensorLog.Valid, Run, Proper, Holds, IsNewest;
      msg := cons.Receive(queue);
      Note(if msg.Some? then Receive else ReceiveTimeout);
    }

    method HandleMsg()
      requires Valid() && Enabled(s, Handle)
      modifies cons, this`trace, this`s
      ensures Valid() && Performed(Handle)
    {
      hide ProducerTasks.Producer.Valid, ConsumerTasks.Consumer.Valid, SensorLog.Valid, Run, Proper, Holds, IsNewest;
      SamplePathTheorems.MessagesAccountedFor(trace);
      cons.Handle(queue);
      Note(Handle);
    }

    method StartDrain()
      requires Valid() && Enabled(s, BeginDrain)
      modifies cons, this`trace, this`s
      ensures Valid() && Performed(BeginDrain)
    {
      hide ProducerTasks.Producer.Valid, ConsumerTasks.Consumer.Valid, SensorLog.Valid, Run, Proper, Holds, IsNewest;
      cons.BeginDrain();
      Note(BeginDrain);
    }

    method ReadBatch(locked: bool)
      requires Valid() && Enabled(s, Read(locked))
      modifies cons, cons.batch, log.ring, this`trace, this`s
      ensures Valid() && Performed(Read(locked))
    {
      hide ProducerTasks.Producer.Valid, ConsumerTasks.Consumer.Valid, SensorLog.Valid, Run, Proper, Holds, IsNewest;
      ghost var contents, ids := log.ring.fifo.contents, s.log;
      cons.ReadBatch(log, locked, s.log, s.hist.taken);
      HoldsRest(contents, ids, s.hist.taken, READ_BATCH);
      Note(Read(locked));
    }

    method ProcessRecord()
      requires Valid() && Enabled(s, Process)
      modifies cons, this`trace, this`s
      ensures Valid() && Performed(Process)
    {
      hide ProducerTasks.Producer.Valid, ConsumerTasks.Consumer.Valid, SensorLog.Valid, Run, Proper, Holds, IsNewest;
      ghost var done, processed := cons.done, s.hist.processed;
      cons.ProcessRecord();
      HoldsSnoc(done, processed, cons.done[|done|], s.cons.batch[0], cons.taken, s.hist.taken);
      Note(Process);
    }

    method EndBatch()
      requires Valid() && Enabled(s, Event.EndBatch)
      modifies cons, this`trace, this`s
      ensures Valid() && Performed(Event.EndBatch)
    {
      hide ProducerTasks.Producer.Valid, ConsumerTasks.Consumer.Valid, SensorLog.Valid, Run, Proper, Holds, IsNewest;
      cons.EndBatch();
      Note(Event.EndBatch);
    }

    method EndPass()
      requires Valid() && Enabled(s, Event.EndPass)
      modifies cons, this`trace, this`s
      ensures Valid() && Performed(Event.EndPass)
    {
      hide ProducerTasks.Producer.Valid, ConsumerTasks.Consumer.Valid, SensorLog.Valid, Run, Proper, Holds, IsNewest;
      cons.EndPass();
      Note(Event.EndPass);
    }
  }
}
