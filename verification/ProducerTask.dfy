/** `tasks/task_producer.c`: the producer's loop, one method per atomic action. */
module ProducerTasks {
  import opened Word
  import opened AppConfig
  import opened Records
  import SamplePath
  import DropOldest
  import opened SensorLogs
  import opened MessageQueues
  import opened ProducerStats

  class Producer {
    const stats: Stats
    var pc: SamplePath.ProducerPc
    var notifyCount: U32
    var record: Record
    var prevCaptureUs: nat
    var pendingTicks: U32
    var logWasEmpty: bool
    var doorbellPending: bool
    var writeDropped: bool
    var doorbellFailed: bool

    /** The abstract producer this object stands for, and every sample it took. */
    ghost var p: SamplePath.Producer
    ghost var taken: seq<Record>

    ghost const Repr: set<object> := {this} + stats.Repr

    ghost predicate Control()
      reads this
    {
      && pc == p.pc && record.seqNo == ToU32(|taken|)
      && logWasEmpty == p.logWasEmpty && doorbellPending == p.doorbellPending
      && (!pc.WaitTick? ==> pendingTicks == p.pendingTicks > 0)
      && writeDropped == p.writeDropped
      && (pc.Rung? ==> doorbellFailed == p.doorbellFailed)
    }

    ghost predicate Counters()
      reads Repr
    {
      && stats.Valid()
      && taken == (if p.pc.WaitTick? then ToSeq(stats.taken) else ToSeq(stats.taken) + [record])
      && (!p.pc.WaitTick? ==> |record.codes| == SENSOR_COUNT)
      && prevCaptureUs == (if stats.taken.Start? then 0 else stats.taken.last.captureUs)
      && Shows(p)
    }

    ghost predicate Valid()
      reads Repr
    {
      Control() && Counters()
    }

    constructor (filler: Record)
      requires filler.seqNo == 0
      ensures Valid() && fresh(Repr) && notifyCount == 0
      ensures p == SamplePath.INIT.prod && taken == []
    {
      stats := new Stats();
      pc, notifyCount, record := SamplePath.WaitTick, 0, filler;
      prevCaptureUs, pendingTicks := 0, 0;
      logWasEmpty, doorbellPending, writeDropped, doorbellFailed := false, false, false, false;
      p, taken := SamplePath.INIT.prod, [];
    }

    /** The timer interrupt gives one notification. */
    method TickFromIsr()
      requires Valid() && notifyCount + 1 < TWO_32
      modifies this`notifyCount
      ensures Valid() && notifyCount == old(notifyCount) + 1
    {
      notifyCount := notifyCount + 1;
    }

    /** A tick arrived in time: takes all pending ones and one numbered sample. */
    method Take(captureUs: nat, codes: seq<nat>, buttons: nat)
      requires Valid() && p.pc.WaitTick? && notifyCount > 0 && |codes| == SENSOR_COUNT
      modifies this`pc, this`pendingTicks, this`notifyCount, this`record, this`p, this`taken
      ensures Valid() && notifyCount == 0
      ensures p == old(p).Took(old(notifyCount))
      ensures taken == old(taken) + [Record(captureUs, ToU32(|old(taken)| + 1), codes, buttons)]
    {
      pendingTicks := notifyCount;
      notifyCount := 0;
      AddWraps(|taken|, 1);
      record := Record(captureUs, ToU32(record.seqNo + 1), codes, buttons);
      pc := SamplePath.Sampled;
      p := p.Took(pendingTicks);
      taken := taken + [record];
    }

    /** No tick within the wait: counted, and the loop goes on waiting. */
    method TimeOut()
      requires Valid() && p.pc.WaitTick?
      modifies stats`timeouts, this`p
      ensures Valid() && p == old(p).TimedOut()
    {
      AddWraps(p.timeouts, 1);
      stats.CountTimeout();
      p := p.TimedOut();
    }

    /** The newest sample goes to the log, or is given up when the lock is refused. */
    method WriteLog(log: SensorLog, locked: bool)
      requires Valid() && p.pc.Sampled? && log.Valid() && Repr !! log.Repr
      modifies this`pc, this`writeDropped, this`logWasEmpty, this`p, log.ring, log.storage
      ensures Valid() && log.Valid()
      ensures taken != [] && record == taken[|taken| - 1] && record.seqNo == ToU32(|taken|)
      ensures locked ==>
                && log.ring.fifo == DropOldest.Push(old(log.ring.fifo), record, LOG_CAPACITY)
                && p == old(p).Stored(old(log.ring.fifo.contents) == [])
      ensures !locked ==> log.ring.fifo == old(log.ring.fifo) && p == old(p).Dropped()
    {
      var stored, wasEmpty := log.Write(record, locked, logWasEmpty);
      logWasEmpty := wasEmpty;
      writeDropped := !stored;
      pc := SamplePath.Written;
      p := if locked then p.Stored(logWasEmpty) else p.Dropped();
    }

    /** One doorbell if a sample was stored and found the log empty or a doorbell is owed; otherwise
        none. One that meets a full queue is owed again. */
    method RingDoorbell(queue: MessageQueue)
      requires Valid() && p.pc.Written?
      modifies this`pc, this`doorbellFailed, this`doorbellPending, this`p, queue
      ensures
        var due := !old(writeDropped) && (old(logWasEmpty) || old(doorbellPending));
        var sent := due && |old(queue.items)| < QUEUE_LEN;
        && queue.items == (if sent then old(queue.items) + [DataReady] else old(queue.items))
        && doorbellPending == (if due then !sent else old(doorbellPending))
        && doorbellFailed == (due && !sent)
        && due == old(p).WillRing() && p == if due then old(p).Rang(sent) else old(p).KeptQuiet()
      ensures Valid()
    {
      ghost var willRing := p.WillRing();
      doorbellFailed := false;
      if !writeDropped && (logWasEmpty || doorbellPending) {
        var sent := queue.Send(DataReady);
        doorbellPending := !sent;
        doorbellFailed := doorbellPending;
      }
      pc := SamplePath.Rung;
      p := if willRing then p.Rang(!doorbellFailed) else p.KeptQuiet();
    }

    /** The counters the statistics have to show for an abstract producer. */
    ghost predicate Shows(q: SamplePath.Producer)
      reads stats.Repr
    {
      && stats.samples == ToU32(q.samples) && stats.overruns == ToU32(q.overruns)
      && stats.timeouts == ToU32(q.timeouts)
      && stats.logWriteDrops == ToU32(q.drops) && stats.doorbellRetries == ToU32(q.retries)
    }

    /** Ends the cycle: statistics, and the capture time kept for the next interval. */
    method UpdateStats()
      requires Valid() && p.pc.Rung?
      modifies this`pc, this`prevCaptureUs, this`p, stats.Repr
      ensures Valid() && p == old(p).Counted()
    {
      CountCycle();
      prevCaptureUs := record.captureUs;
      pc := SamplePath.WaitTick;
      p := p.Counted();
    }

    method CountCycle()
      requires p.pc.Rung? && Counters()
      requires pendingTicks == p.pendingTicks > 0
      requires writeDropped == p.writeDropped && doorbellFailed == p.doorbellFailed
      modifies stats.Repr
      ensures stats.Valid() && stats.taken == Then(old(stats.taken), record) && Shows(p.Counted())
    {
      Carries(stats.samples, p.samples, 1);
      Carries(stats.overruns, p.overruns, pendingTicks - 1);
      Carries(stats.logWriteDrops, p.drops, 1);
      Carries(stats.doorbellRetries, p.retries, 1);
      stats.Update(record, prevCaptureUs, pendingTicks - 1, writeDropped, doorbellFailed);
    }
  }
}
