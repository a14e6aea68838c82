/** What the program's own fields say at any moment of any run. */
module FirmwareTheorems {
  import opened Word
  import opened AppConfig
  import opened SamplePath
  import SamplePathProofs
  import opened SamplePathTheorems
  import opened SamplePathEvents
  import opened Survivors
  import opened Firmwares
  import opened ConsumerTasks
  import opened ProducerStats

  /** Whenever the consumer is at its queue, unpaused, without a backlog and with nothing in the
      queue, it sleeps over an empty log - or the producer is just about to ring. */
  lemma SleepingConsumerHasEmptyLog(fw: Firmware)
    requires fw.Valid() && fw.cons.pc.AtReceive?
    requires !fw.cons.drainPaused && !fw.cons.backlogPending && fw.queue.items == []
    ensures fw.log.ring.fifo.contents == [] || fw.prod.pc.Written?
  {
    WakeupNeverLost(fw.trace);
  }

  /** The 32-bit loss figure is the number of samples up to the last one received that were
      overwritten or dropped, modulo 2^32. */
  lemma LostFieldExact(fw: Firmware)
    requires fw.Valid()
    ensures fw.cons.lost == ToU32(CountGone(fw.s.cons.lastSeq, SamplePathProofs.Gone(fw.s)))
  {
    LossFigureExact(fw.trace);
  }

  /** The documented identity on the 32-bit counters, once drained, in every run: it holds exactly when
      the number of samples dropped since the last one stored is a multiple of 2^32 - none, that is, or
      very many. So it holds if the newest write was not dropped. */
  lemma LossFieldsBalance(fw: Firmware)
    requires fw.Valid() && Drained(fw.s)
    ensures FieldsBalance(fw) <==> ToU32(|fw.s.hist.taken| - fw.s.hist.lastStored) == 0
    ensures fw.s.hist.lastStored <= |fw.s.hist.taken|
    ensures fw.prod.writeDropped <==> |fw.s.hist.taken| > fw.s.hist.lastStored
    ensures !fw.prod.writeDropped ==> FieldsBalance(fw)
  {
    hide Firmware.Valid, Run;
    LossFields(fw);
    UnstoredTail(fw.trace);
    CountersBalance(fw.s.cons.lost, fw.s.overwritten, fw.s.prod.drops, |fw.s.hist.taken| - fw.s.hist.lastStored);
  }

  /** Once drained, the loss figure lags behind the two counters by the samples dropped since the last
      one stored. */
  lemma UnstoredTail(trace: seq<Event>)
    requires Drained(Run(trace))
    ensures
      var s := Run(trace);
      && s.cons.lost + (|s.hist.taken| - s.hist.lastStored) == s.overwritten + s.prod.drops
      && s.hist.lastStored <= |s.hist.taken| && (s.prod.writeDropped <==> |s.hist.taken| > s.hist.lastStored)
  {
    DrainedBalance(trace);
    LossIdentityWhenDrained(trace);
    SamplePathProofs.RunKeepsInv(trace);
    LastProcessedIsLastStored(Run(trace));
  }

  ghost predicate FieldsBalance(fw: Firmware)
    reads fw, fw.cons, fw.log.ring, fw.prod, fw.prod.stats
  {
    fw.cons.lost == ToU32(fw.log.ring.overwritten + fw.prod.stats.logWriteDrops)
  }

  lemma LossFields(fw: Firmware)
    requires fw.Valid()
    ensures fw.s == Run(fw.trace)
    ensures fw.cons.lost == ToU32(fw.s.cons.lost) && fw.log.ring.overwritten == ToU32(fw.s.overwritten)
    ensures fw.prod.stats.logWriteDrops == ToU32(fw.s.prod.drops) && fw.prod.writeDropped == fw.s.prod.writeDropped
  {
  }

  lemma CountersBalance(lost: int, overwritten: nat, drops: nat, tail: nat)
    requires lost + tail == overwritten + drops
    ensures ToU32(lost) == ToU32(ToU32(overwritten) + ToU32(drops)) <==> ToU32(tail) == 0
  {
    AddWraps(overwritten, ToU32(drops));
    AddWraps(drops, overwritten);
    SubWraps(overwritten + drops, lost);
  }

  /** Tick conservation on the 32-bit counters at a producer cycle boundary. */
  lemma TickFieldsBalance(fw: Firmware)
    requires fw.Valid() && fw.prod.pc.WaitTick?
    ensures ToU32(fw.prod.stats.samples + fw.prod.stats.overruns + fw.prod.notifyCount)
            == ToU32(fw.s.hist.ticks)
    ensures fw.prod.stats.samples == fw.prod.record.seqNo
  {
    TicksAccountedFor(fw.trace);
    SumWraps(fw.s.prod.samples, fw.s.notify, fw.s.prod.overruns);
  }

  /** The depth peak shows more than the queue holds exactly when a message was handled while the
      queue was full. */
  lemma PeakFieldExact(fw: Firmware)
    requires fw.Valid()
    ensures fw.cons.queueDepthPeak > QUEUE_LEN <==> FullAtHandle(fw.trace)
  {
    DepthPeakExact(fw.trace);
  }

  /** It is the most messages there were when one was handled: those waiting, and that one. */
  lemma PeakFieldIsDeepest(fw: Firmware)
    requires fw.Valid()
    ensures fw.cons.queueDepthPeak == DeepestHandle(fw.trace)
  {
    DepthPeakIsDeepest(fw.trace);
  }

  /** The drain is paused exactly after an odd number of pause messages acted on. */
  lemma PausedFieldExact(fw: Firmware)
    requires fw.Valid()
    ensures fw.cons.drainPaused <==> PauseKeys(ActedOn(fw.s)) % 2 == 1
  {
    PausedAfterOddKeys(fw.trace);
  }

  /** Each counter shows how often its event happened, modulo 2^32. */
  lemma CounterFieldsExact(fw: Firmware)
    requires fw.Valid()
    ensures fw.cons.received == ToU32(Happened(fw.trace, Process))
    ensures fw.cons.logLockTimeouts == ToU32(Happened(fw.trace, Read(false)))
    ensures fw.prod.stats.samples == ToU32(Happened(fw.trace, UpdateStats))
    ensures fw.prod.stats.timeouts == ToU32(Happened(fw.trace, TakeTimeout))
    ensures fw.prod.pc.WaitTick? ==> fw.prod.stats.logWriteDrops == ToU32(Happened(fw.trace, Write(false)))
  {
    CountersExact(fw.trace);
  }

  /** The records processed are, in order and bit for bit, those of the samples that were neither
      dropped nor overwritten, up to the last sequence number received. */
  lemma ProcessedRecords(fw: Firmware)
    requires fw.Valid()
    ensures
      var survivors := Remaining(fw.s.cons.lastSeq, SamplePathProofs.Gone(fw.s));
      && |fw.cons.done| == |survivors|
      && forall i :: 0 <= i < |survivors| ==> IsSample(fw.cons.done[i], survivors[i], fw.s.hist.taken)
  {
    LossFigureExact(fw.trace);
  }

  // ---- the statistics against the samples themselves ----

  lemma StatsCoverSamples(fw: Firmware)
    requires fw.Valid() && fw.prod.pc.WaitTick? && 0 < |fw.s.hist.taken| <= TWO_32
    ensures
      var h := fw.prod.stats.taken;
      && h.Then? && WellFormed(h) && ToSeq(h) == fw.s.hist.taken
      && fw.prod.stats.Valid() && fw.prod.stats.Extremes(h)
  {
    SizeIsLength(fw.prod.stats.taken);
    SpanIsAll(fw.prod.stats.taken);
  }

  /** Among the first 2^32 samples, the extremes shown bound every code ever taken of a sensor,
      stored or dropped, and each is one of them. */
  lemma ExtremesShown(fw: Firmware, sensor: nat)
    requires fw.Valid() && fw.prod.pc.WaitTick? && 0 < |fw.s.hist.taken| <= TWO_32 && sensor < SENSOR_COUNT
    requires fw.prod.stats.sensorMin.Length == fw.prod.stats.sensorMax.Length == SENSOR_COUNT
    ensures
      var taken, low, high := fw.s.hist.taken, fw.prod.stats.sensorMin[sensor], fw.prod.stats.sensorMax[sensor];
      && (forall i :: 0 <= i < |taken| ==> |taken[i].codes| == SENSOR_COUNT && low <= taken[i].codes[sensor] <= high)
      && (exists i :: 0 <= i < |taken| && |taken[i].codes| == SENSOR_COUNT && taken[i].codes[sensor] == low)
      && (exists i :: 0 <= i < |taken| && |taken[i].codes| == SENSOR_COUNT && taken[i].codes[sensor] == high)
  {
    StatsCoverSamples(fw);
    ExtremesOfSamples(fw.prod.stats.taken, sensor);
  }

  /** From the second sample on, with steady timestamps, the periods shown are the shortest and the
      longest time between two consecutive samples. */
  lemma PeriodsShown(fw: Firmware)
    requires fw.Valid() && fw.prod.pc.WaitTick? && |fw.s.hist.taken| >= 2 && SteadySamples(fw.s.hist.taken)
    ensures
      var taken, low, high := fw.s.hist.taken, fw.prod.stats.periodMinUs, fw.prod.stats.periodMaxUs;
      && (forall i: nat :: i + 1 < |taken| ==> low <= Gap(taken, i) <= high)
      && (exists i: nat :: i + 1 < |taken| && Gap(taken, i) == low)
      && (exists i: nat :: i + 1 < |taken| && Gap(taken, i) == high)
  {
    var h := fw.prod.stats.taken;
    SizeIsLength(h);
    SteadyHistory(h);
    PeriodsOfSamples(h);
  }
}
