/** `tasks/task_consumer.c`: the consumer's state and the atomic actions of its loop. */
module ConsumerTasks {
  import opened Word
  import opened AppConfig
  import opened Wrappers
  import opened Records
  import SamplePath
  import DropOldest
  import opened SensorLogs
  import opened MessageQueues

  ghost predicate IsSample(record: Record, id: nat, taken: seq<Record>) {
    1 <= id <= |taken| && record == taken[id - 1] && record.seqNo == ToU32(id)
  }

  /** The records are those of the samples numbered `ids`. */
  ghost predicate Holds(records: seq<Record>, ids: seq<nat>, taken: seq<Record>) {
    && |records| == |ids|
    && forall i :: 0 <= i < |ids| ==> IsSample(records[i], ids[i], taken)
  }

  lemma HoldsLater(records: seq<Record>, ids: seq<nat>, taken: seq<Record>, later: seq<Record>)
    requires Holds(records, ids, taken) && taken <= later
    ensures Holds(records, ids, later)
  {
  }

  lemma HoldsRest(records: seq<Record>, ids: seq<nat>, taken: seq<Record>, max: nat)
    requires Holds(records, ids, taken)
    ensures Holds(DropOldest.Rest(records, max), DropOldest.Rest(ids, max), taken)
  {
  }

  /** One more record, of a sample among those known earlier. */
  lemma HoldsSnoc(records: seq<Record>, ids: seq<nat>, record: Record, id: nat, known: seq<Record>, taken: seq<Record>)
    requires Holds(records, ids, taken) && IsSample(record, id, known) && known <= taken
    ensures Holds(records + [record], ids + [id], taken)
  {
  }

  class Consumer {
    var pc: SamplePath.ConsumerPc
    const batch: array<Record>
    var idx: nat
    var drainPaused: bool
    var backlogPending: bool
    var received: U32
    var lastSeq: U32
    var lost: U32
    var logLockTimeouts: U32
    var queueDepthPeak: U32

    /** The abstract consumer this object stands for, and the samples known when it last read. */
    ghost var c: SamplePath.Consumer
    ghost var taken: seq<Record>

    /** The records processed so far. */
    ghost var done: seq<Record>

    ghost const Repr: set<object> := {this, batch}

    ghost predicate Control()
      reads this
    {
      && pc == c.pc && drainPaused == c.paused && backlogPending == c.backlog
      && received == ToU32(c.received) && lastSeq == ToU32(c.lastSeq) && lost == ToU32(c.lost)
      && logLockTimeouts == ToU32(c.lockTimeouts) && queueDepthPeak == c.depthPeak
    }

    ghost predicate InHand()
      reads this, batch
    {
      && batch.Length == READ_BATCH
      && (pc.Processing? ==>
            && idx <= pc.batchCount <= READ_BATCH && |c.batch| == pc.batchCount - idx
            && forall i :: idx <= i < pc.batchCount ==> IsSample(batch[i], c.batch[i - idx], taken))
    }

    ghost predicate Valid()
      reads Repr
    {
      Control() && InHand()
    }

    constructor (filler: Record)
      ensures Valid() && fresh(Repr) && c == SamplePath.INIT.cons && taken == [] && done == []
    {
      pc, idx, drainPaused, backlogPending := SamplePath.AtReceive, 0, false, false;
      batch := new Record[READ_BATCH](_ => filler);
      received, lastSeq, lost, logLockTimeouts, queueDepthPeak := 0, 0, 0, 0, 0;
      c, taken, done := SamplePath.INIT.cons, [], [];
    }

    /** Takes the oldest message off the queue, or comes back empty-handed. */
    method Receive(queue: MessageQueue) returns (msg: Option<Msg>)
      requires Valid() && c.pc.AtReceive?
      modifies this`pc, this`c, queue
      ensures Valid()
      ensures old(queue.items) == [] ==>
                msg == None && queue.items == [] && c == old(c).TookNothing()
      ensures old(queue.items) != [] ==>
                && msg == Some(old(queue.items)[0]) && queue.items == old(queue.items)[1..]
                && c == old(c).Took(old(queue.items)[0])
    {
      msg := queue.Receive();
      pc := if msg.Some? then SamplePath.Received(msg.value) else SamplePath.DrainStart;
      c := if msg.Some? then c.Took(msg.value) else c.TookNothing();
    }

    /** Keeps the highest queue depth, the message in hand included, and acts on the message: the
        pause key turns the drain off or on. */
    method Handle(queue: MessageQueue)
      requires Valid() && c.pc.Received? && |queue.items| <= QUEUE_LEN
      modifies this`pc, this`queueDepthPeak, this`drainPaused, this`c
      ensures Valid() && c == old(c).Handled(|queue.items| + 1)
      ensures drainPaused == (if old(pc) == SamplePath.Received(PauseToggle) then !old(drainPaused) else old(drainPaused))
      ensures queueDepthPeak == Max(old(queueDepthPeak), |queue.items| + 1)
    {
      var queueDepth := |queue.items| + 1;
      if queueDepth > queueDepthPeak {
        queueDepthPeak := queueDepth;
      }
      if pc.msg.PauseToggle? {
        drainPaused := !drainPaused;
      }
      pc := SamplePath.DrainStart;
      c := c.Handled(queueDepth);
    }

    /** `consumer_drain_log` begins: a paused consumer leaves the log alone. */
    method BeginDrain()
      requires Valid() && c.pc.DrainStart?
      modifies this`pc, this`backlogPending, this`c
      ensures Valid() && c == old(c).BeganDrain()
    {
      if drainPaused {
        pc, backlogPending := SamplePath.PassEnd, false;
      } else {
        pc := SamplePath.AtRead(0);
      }
      c := c.BeganDrain();
    }

    /** Reads the next batch; a lock timeout ends the pass and asks for another. */
    method ReadBatch(log: SensorLog, locked: bool, ghost ids: seq<nat>, ghost now: seq<Record>)
      requires Valid() && c.pc.AtRead? && log.Valid() && Repr !! log.Repr
      requires Holds(log.ring.fifo.contents, ids, now)
      modifies this`pc, this`backlogPending, this`logLockTimeouts, this`idx, this`c, this`taken
      modifies batch, log.ring`tail, log.ring`fifo
      ensures Valid() && log.Valid()
      ensures taken == now
      ensures locked ==>
                var popped := DropOldest.Oldest(ids, READ_BATCH);
                && c == old(c).Got(popped)
                && log.ring.fifo == DropOldest.Pop(old(log.ring.fifo), READ_BATCH)
      ensures !locked ==>
                && c == old(c).GaveUp()
                && log.ring.fifo == old(log.ring.fifo)
    {
      ghost var contents := log.ring.fifo.contents;
      var ok, batchCount := log.Read(batch, READ_BATCH, locked);
      if ok {
        assert forall i :: 0 <= i < batchCount ==> batch[i] == batch[..batchCount][i] == contents[i];
        GotBatch(batchCount, ids, now);
      } else {
        GaveUp(now);
      }
    }

    method GotBatch(batchCount: U32, ghost ids: seq<nat>, ghost now: seq<Record>)
      requires Control() && pc.AtRead? && batch.Length == READ_BATCH
      requires batchCount == Min(READ_BATCH, |ids|)
      requires forall i :: 0 <= i < batchCount ==> IsSample(batch[i], ids[i], now)
      modifies this`pc, this`idx, this`c, this`taken
      ensures Valid() && taken == now
      ensures c == old(c).Got(DropOldest.Oldest(ids, READ_BATCH))
    {
      pc, idx := SamplePath.Processing(pc.batchNum, batchCount), 0;
      c, taken := c.Got(DropOldest.Oldest(ids, READ_BATCH)), now;
    }

    method GaveUp(ghost now: seq<Record>)
      requires Control() && pc.AtRead? && batch.Length == READ_BATCH
      modifies this`pc, this`backlogPending, this`logLockTimeouts, this`c, this`taken
      ensures Valid() && taken == now
      ensures c == old(c).GaveUp()
    {
      Carries(logLockTimeouts, c.lockTimeouts, 1);
      logLockTimeouts := ToU32(logLockTimeouts + 1);
      pc, backlogPending := SamplePath.PassEnd, true;
      c, taken := c.GaveUp(), now;
    }

    /** `consumer_process_record` on the next record in hand. */
    method ProcessRecord()
      requires Valid() && c.pc.Processing? && c.batch != []
      modifies this`idx, this`received, this`lastSeq, this`lost, this`c, this`done
      ensures Valid() && |old(c).batch| > 0 && idx == old(idx) + 1
      ensures c == old(c).Processed()
      ensures |done| == |old(done)| + 1 && done == old(done) + [done[|old(done)|]]
      ensures IsSample(done[|old(done)|], old(c).batch[0], taken)
    {
      var record := batch[idx];
      assert IsSample(record, c.batch[0], taken);
      CountRecord(record, c.received, c.batch[0]);
      idx := idx + 1;
      c, done := c.Processed(), done + [record];
    }

    /** The loss figure: sequence numbers seen, less records received. */
    method CountRecord(record: Record, ghost before: nat, ghost id: nat)
      requires received == ToU32(before) && record.seqNo == ToU32(id)
      modifies this`received, this`lastSeq, this`lost
      ensures received == ToU32(before + 1) && lastSeq == ToU32(id) && lost == ToU32(id - (before + 1))
    {
      AddWraps(before, 1);
      SubWraps(id, before + 1);
      received := ToU32(received + 1);
      lastSeq := record.seqNo;
      lost := ToU32(record.seqNo - received);
    }

    /** A short batch ends the drain, the last allowed one asks for another pass. */
    method EndBatch()
      requires Valid() && c.pc.Processing? && c.batch == []
      modifies this`pc, this`backlogPending, this`c
      ensures Valid() && old(c).batch == []
      ensures c == old(c).EndedBatch()
    {
      if pc.batchCount < READ_BATCH {
        pc, backlogPending := SamplePath.PassEnd, false;
      } else if pc.batchIndex + 1 < DRAIN_BATCHES_MAX {
        pc := SamplePath.AtRead(pc.batchIndex + 1);
      } else {
        pc, backlogPending := SamplePath.PassEnd, true;
      }
      c := c.EndedBatch();
    }

    /** Stall check and check-in touch nothing here; the loop starts over at the queue. */
    method EndPass()
      requires Valid() && c.pc.PassEnd?
      modifies this`pc, this`c
      ensures Valid() && c == old(c).EndedPass()
    {
      pc := SamplePath.AtReceive;
      c := c.EndedPass();
    }
  }
}
