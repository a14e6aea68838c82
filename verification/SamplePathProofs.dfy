/** What every interleaving of the sample path keeps, and what follows from it. */
module SamplePathProofs {
  import opened Word
  import opened AppConfig
  import opened Records
  import DropOldest
  import opened Survivors
  import opened SamplePath

  // ---- the invariant, one concern at a time ----

  /** Samples whose fate is settled; the newest one is open between its capture and its write. */
  function Decided(s: State): nat {
    if s.prod.pc.Sampled? && s.hist.taken != [] then |s.hist.taken| - 1 else |s.hist.taken|
  }

  function Gone(s: State): set<nat> {
    s.hist.dropped + s.hist.overwritten
  }

  /** Delivery order: what was processed, what is in the consumer's hands and what is in the log
      are together exactly the samples that are not gone, in the order they were taken. */
  ghost predicate InOrder(s: State) {
    && (s.prod.pc.Sampled? ==> s.hist.taken != [])
    && s.hist.processed + s.cons.batch + s.log == Remaining(Decided(s), Gone(s))
  }

  /** Each lost sample has one cause, and both counters are exact. */
  ghost predicate LossesCounted(s: State) {
    var n := Decided(s);
    && s.hist.dropped !! s.hist.overwritten
    && (forall x :: x in Gone(s) ==> 1 <= x <= n)
    && s.overwritten == CountGone(n, s.hist.overwritten)
    && s.prod.drops + (if (s.prod.pc.Written? || s.prod.pc.Rung?) && s.prod.writeDropped then 1 else 0)
       == CountGone(n, s.hist.dropped)
  }

  /** Whatever follows the newest stored sample was dropped; only older ones were overwritten. */
  ghost predicate NewestStored(s: State) {
    && s.hist.lastStored <= Decided(s)
    && s.hist.lastStored !in s.hist.dropped
    && (forall x :: x in s.hist.overwritten ==> x < s.hist.lastStored)
    && (forall x :: s.hist.lastStored < x <= Decided(s) ==> x in s.hist.dropped)
  }

  /** From its write on, the producer's flag tells whether the newest sample was dropped. */
  ghost predicate NewestFlagged(s: State) {
    !s.prod.pc.Sampled? ==> (s.prod.writeDropped <==> |s.hist.taken| in s.hist.dropped)
  }

  ghost predicate ConsumerCounts(s: State) {
    && s.cons.received == |s.hist.processed|
    && s.cons.lastSeq == (if s.hist.processed == [] then 0 else s.hist.processed[|s.hist.processed| - 1])
    && s.cons.lost == s.cons.lastSeq - s.cons.received
    && (s.cons.batch != [] ==> s.cons.pc.Processing?)
  }

  /** The consumer will block unless a message arrives: it is at its queue, or on its way there,
      with nothing asking it to drain again. */
  predicate GoingToSleep(c: Consumer) {
    !c.paused &&
    match c.pc
    case AtReceive => !c.backlog
    case PassEnd => !c.backlog
    case Processing(_, count) => count < READ_BATCH
    case _ => false
  }

  /** A non-empty log never goes with a sleeping consumer, an empty queue and no ring to come. */
  ghost predicate NoLostWakeup(s: State) {
    GoingToSleep(s.cons) && s.log != [] ==>
      s.queue != [] || (s.prod.pc.Written? && s.prod.WillRing())
  }

  ghost predicate Bounded(s: State) {
    && |s.log| <= LOG_CAPACITY && |s.cons.batch| <= READ_BATCH && |s.queue| <= QUEUE_LEN
    && s.cons.depthPeak <= QUEUE_LEN + 1
  }

  /** Every timer interrupt is a sample, an overrun, or still pending. */
  ghost predicate TicksConserved(s: State) {
    && (s.prod.pc.WaitTick? ==>
          s.hist.ticks == s.prod.samples + s.prod.overruns + s.notify && s.prod.samples == |s.hist.taken|)
    && (!s.prod.pc.WaitTick? ==>
          && s.prod.pendingTicks > 0
          && s.hist.ticks == s.prod.samples + s.prod.overruns + s.prod.pendingTicks + s.notify
          && s.prod.samples + 1 == |s.hist.taken|)
  }

  function Doorbells(msgs: seq<Msg>): nat {
    if msgs == [] then 0
    else Doorbells(msgs[..|msgs| - 1]) + (if msgs[|msgs| - 1].DataReady? then 1 else 0)
  }

  /** Accepted messages are received in order, and every attempt was accepted or counted. */
  ghost predicate MessagesConserved(s: State) {
    && s.hist.accepted == s.hist.handled + s.queue
    && s.hist.uiAttempts + Doorbells(s.hist.accepted) == |s.hist.accepted| + s.uiDropped
    && s.hist.rings == Doorbells(s.hist.accepted) + s.prod.retries
                       + (if s.prod.pc.Rung? && s.prod.doorbellFailed then 1 else 0)
  }

  ghost predicate Numbered(s: State) {
    forall k :: 0 <= k < |s.hist.taken| ==> s.hist.taken[k].seqNo == ToU32(k + 1)
  }

  ghost predicate Inv(s: State) {
    && InOrder(s) && LossesCounted(s) && NewestStored(s) && NewestFlagged(s) && ConsumerCounts(s)
    && NoLostWakeup(s) && Bounded(s) && TicksConserved(s) && MessagesConserved(s) && Numbered(s)
  }

  // ---- every step keeps it ----

  /** The write step settles the newest sample. */
  lemma WriteKeepsOrder(s: State, locked: bool)
    requires s.prod.pc.Sampled? && InOrder(s) && LossesCounted(s) && Bounded(s)
    ensures InOrder(WriteStep(s, locked))
  {
    var id := |s.hist.taken|;
    var front := s.hist.processed + s.cons.batch;
    if !locked {
      RemainingFrame(id - 1, Gone(s), id);
      assert Gone(WriteStep(s, locked)) == Gone(s) + {id};
    } else if |s.log| < LOG_CAPACITY {
      assert front + (s.log + [id]) == (front + s.log) + [id];
    } else {
      var x := s.log[0];
      assert front + s.log == front + [x] + s.log[1..];
      RemainingRemove(id - 1, Gone(s), front, x, s.log[1..]);
      assert Gone(WriteStep(s, locked)) == Gone(s) + {x};
      assert front + (s.log[1..] + [id]) == (front + s.log[1..]) + [id];
    }
  }

  lemma WriteKeepsLosses(s: State, locked: bool)
    requires s.prod.pc.Sampled? && InOrder(s) && LossesCounted(s) && Bounded(s) && NewestStored(s)
    ensures LossesCounted(WriteStep(s, locked)) && NewestStored(WriteStep(s, locked))
  {
    var id := |s.hist.taken|;
    if !locked {
      RemainingFrame(id - 1, s.hist.dropped, id);
    } else if |s.log| < LOG_CAPACITY {
    } else {
      var x := s.log[0];
      var front := s.hist.processed + s.cons.batch;
      assert front + s.log == front + [x] + s.log[1..];
      RemainingRemove(id - 1, Gone(s), front, x, s.log[1..]);
      CountAdd(id - 1, s.hist.overwritten, x);
    }
  }

  /** Popping and processing only move the boundary between the three parts. */
  lemma ConsumerKeepsOrder(s: State, e: Event)
    requires Enabled(s, e) && InOrder(s) && ConsumerCounts(s) && (e.Read? || e.Process?)
    ensures InOrder(Next(s, e))
  {
    if e.Process? {
      assert s.cons.batch == [s.cons.batch[0]] + s.cons.batch[1..];
    } else if e.locked {
      assert s.log == DropOldest.Oldest(s.log, READ_BATCH) + DropOldest.Rest(s.log, READ_BATCH);
    }
  }

  lemma StepOrder(s: State, e: Event)
    requires Enabled(s, e) && InOrder(s) && LossesCounted(s) && ConsumerCounts(s) && Bounded(s)
    ensures InOrder(Next(s, e))
  {
    match e
    case Write(locked) => WriteKeepsOrder(s, locked);
    case Read(_) => ConsumerKeepsOrder(s, e);
    case Process => ConsumerKeepsOrder(s, e);
    case _ =>
  }

  lemma StepLosses(s: State, e: Event)
    requires Enabled(s, e) && InOrder(s) && LossesCounted(s) && NewestStored(s) && Bounded(s)
    ensures LossesCounted(Next(s, e)) && NewestStored(Next(s, e))
  {
    match e
    case Write(locked) => WriteKeepsLosses(s, locked);
    case _ =>
  }

  lemma StepFlag(s: State, e: Event)
    requires Enabled(s, e) && LossesCounted(s) && NewestFlagged(s) && InOrder(s)
    ensures NewestFlagged(Next(s, e))
  {
  }

  lemma StepConsumer(s: State, e: Event)
    requires Enabled(s, e) && ConsumerCounts(s)
    ensures ConsumerCounts(Next(s, e))
  {
  }

  lemma StepBounds(s: State, e: Event)
    requires Enabled(s, e) && Bounded(s)
    ensures Bounded(Next(s, e))
  {
  }

  /** The heart of the matter: a write into an empty log rings before the producer does anything
      else, and only the consumer itself can empty its queue. */
  lemma StepWakeup(s: State, e: Event)
    requires Enabled(s, e) && NoLostWakeup(s) && Bounded(s) && ConsumerCounts(s)
    ensures NoLostWakeup(Next(s, e))
  {
  }

  lemma StepTicks(s: State, e: Event)
    requires Enabled(s, e) && TicksConserved(s)
    ensures TicksConserved(Next(s, e))
  {
  }

  lemma StepNumbers(s: State, e: Event)
    requires Enabled(s, e) && Numbered(s)
    ensures Numbered(Next(s, e))
  {
  }

  lemma StepMessages(s: State, e: Event)
    requires Enabled(s, e) && MessagesConserved(s)
    ensures MessagesConserved(Next(s, e))
  {
    match e
    case Receive => ReceiveKeepsMessages(s);
    case UiSend(msg) => UiSendKeepsMessages(s, msg);
    case Ring => RingKeepsMessages(s);
    case _ =>
  }

  lemma ReceiveKeepsMessages(s: State)
    requires MessagesConserved(s) && s.queue != []
    ensures MessagesConserved(ReceiveStep(s))
  {
    assert s.hist.handled + s.queue == s.hist.handled + [s.queue[0]] + s.queue[1..];
  }

  lemma UiSendKeepsMessages(s: State, msg: Msg)
    requires MessagesConserved(s) && !msg.DataReady?
    ensures MessagesConserved(UiSendStep(s, msg))
  {
    AcceptOne(s, msg);
  }

  lemma RingKeepsMessages(s: State)
    requires MessagesConserved(s) && s.prod.pc.Written?
    ensures MessagesConserved(RingStep(s))
  {
    AcceptOne(s, DataReady);
  }

  lemma AcceptOne(s: State, msg: Msg)
    requires s.hist.accepted == s.hist.handled + s.queue
    ensures s.hist.accepted + [msg] == s.hist.handled + (s.queue + [msg])
    ensures Doorbells(s.hist.accepted + [msg])
            == Doorbells(s.hist.accepted) + (if msg.DataReady? then 1 else 0)
  {
    assert (s.hist.accepted + [msg])[..|s.hist.accepted|] == s.hist.accepted;
  }

  /** Every reachable state satisfies the invariant, whatever the interleaving. */
  lemma {:induction false} RunKeepsInv(trace: seq<Event>)
    ensures Inv(Run(trace))
  {
    if trace != [] {
      var s, e := Run(trace[..|trace| - 1]), trace[|trace| - 1];
      RunKeepsInv(trace[..|trace| - 1]);
      if Enabled(s, e) {
        StepOrder(s, e);
        StepLosses(s, e);
        StepFlag(s, e);
        StepConsumer(s, e);
        StepBounds(s, e);
        StepWakeup(s, e);
        StepTicks(s, e);
        StepNumbers(s, e);
        StepMessages(s, e);
      }
    }
  }
}
