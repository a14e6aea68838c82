/** What the sample path promises, for every trace. */
module SamplePathTheorems {
  import opened Word
  import opened AppConfig
  import opened Records
  import opened Survivors
  import opened SamplePath
  import opened SamplePathProofs

  /** The consumer is blocked on its queue until a message arrives or its poll timeout expires. */
  predicate Blocked(s: State) {
    s.cons.pc.AtReceive? && !s.cons.backlog && s.queue == []
  }

  // ---- wake-ups ----

  /** No wake-up is lost, and the poll timeout is not what saves it: if the log holds data while
      the unpaused consumer is blocked, the producer is between its write and its send, and its
      very next step puts the doorbell into the queue. */
  lemma WakeupNeverLost(trace: seq<Event>)
    ensures
      var s := Run(trace);
      Blocked(s) && !s.cons.paused && s.log != [] ==>
        Enabled(s, Ring) && Step(s, Ring).queue == [DataReady]
  {
    RunKeepsInv(trace);
  }

  /** A sleeping system is up to date: between two samples, an unpaused blocked consumer has
      processed every sample that was not lost. */
  lemma BlockedMeansUpToDate(trace: seq<Event>)
    ensures
      var s := Run(trace);
      Blocked(s) && !s.cons.paused && s.prod.pc.WaitTick? ==>
        && s.log == []
        && s.hist.processed == Remaining(|s.hist.taken|, Gone(s))
        && s.cons.received + CountGone(|s.hist.taken|, Gone(s)) == |s.hist.taken|
  {
    RunKeepsInv(trace);
    RemainingSize(Decided(Run(trace)), Gone(Run(trace)));
  }

  // ---- progress: one wake-up drains any backlog ----

  /** The consumer's own steps with the lock granted; the poll timeout is not among them. */
  predicate ConsumerMoves(s: State, e: Event) {
    Enabled(s, e) &&
    match e
    case Receive | Handle | BeginDrain | Process | EndBatch | EndPass => true
    case ReceiveTimeout => s.cons.backlog
    case Read(locked) => locked
    case _ => false
  }

  /** An upper bound on the consumer's remaining steps before it blocks. */
  function Work(s: State): nat {
    6 * |s.queue| + 2 * |s.log| + |s.cons.batch| +
    match s.cons.pc
    case AtReceive => if s.cons.backlog then 5 else 0
    case Received(_) => 5
    case DrainStart => 4
    case AtRead(_) => 3
    case Processing(_, count) => if count < READ_BATCH then 2 else 7
    case PassEnd => if s.cons.backlog then 6 else 1
  }

  lemma ConsumerMoveShrinksWork(s: State, e: Event)
    requires Bounded(s) && ConsumerCounts(s) && ConsumerMoves(s, e)
    ensures Work(Next(s, e)) < Work(s)
    ensures Bounded(Next(s, e)) && ConsumerCounts(Next(s, e))
    ensures
      var s' := Next(s, e);
      s'.prod == s.prod && s'.hist.taken == s.hist.taken && Gone(s') == Gone(s)
  {
  }

  lemma ConsumerMovesUnlessBlocked(s: State)
    ensures Blocked(s) <==> forall e :: !ConsumerMoves(s, e)
  {
    if !Blocked(s) {
      var e := match s.cons.pc
        case AtReceive => if s.queue != [] then Receive else ReceiveTimeout
        case Received(_) => Handle
        case DrainStart => BeginDrain
        case AtRead(_) => Read(true)
        case Processing(_, _) => if s.cons.batch != [] then Process else EndBatch
        case PassEnd => EndPass;
      assert ConsumerMoves(s, e);
    }
  }

  function RunFrom(s: State, more: seq<Event>): State
    decreases more
  {
    if more == [] then s else RunFrom(Step(s, more[0]), more[1..])
  }

  /** The schedule consists of the consumer's own moves, each taken where it is enabled. */
  predicate ConsumerOnly(s: State, more: seq<Event>)
    decreases more
  {
    more == [] || (ConsumerMoves(s, more[0]) && ConsumerOnly(Step(s, more[0]), more[1..]))
  }

  lemma {:induction false} RunConcat(trace: seq<Event>, more: seq<Event>)
    ensures Run(trace + more) == RunFrom(Run(trace), more)
    decreases more
  {
    if more == [] {
      assert trace + more == trace;
    } else {
      RunSnoc(trace, more[0]);
      RunConcat(trace + [more[0]], more[1..]);
      assert trace + more == trace + [more[0]] + more[1..];
    }
  }

  lemma {:induction false} ConsumerSettles(s: State) returns (more: seq<Event>)
    requires Bounded(s) && ConsumerCounts(s)
    ensures |more| <= Work(s) && ConsumerOnly(s, more)
    ensures
      var s' := RunFrom(s, more);
      Blocked(s') && s'.prod == s.prod && s'.hist.taken == s.hist.taken && Gone(s') == Gone(s)
    decreases Work(s)
  {
    ConsumerMovesUnlessBlocked(s);
    if Blocked(s) {
      more := [];
    } else {
      var e :| ConsumerMoves(s, e);
      ConsumerMoveShrinksWork(s, e);
      var rest := ConsumerSettles(Next(s, e));
      more := [e] + rest;
    }
  }

  /** From any reachable state at a producer cycle boundary, the consumer left to itself blocks
      after at most `Work` steps, and then - unless paused - the log is empty and everything that
      was not lost has been processed, whatever the size of the backlog and with the help of no
      further doorbell. */
  lemma ConsumerCatchesUp(trace: seq<Event>) returns (more: seq<Event>)
    requires Run(trace).prod.pc.WaitTick?
    ensures |more| <= Work(Run(trace)) && ConsumerOnly(Run(trace), more)
    ensures
      var s := Run(trace + more);
      && Blocked(s)
      && s.hist.taken == Run(trace).hist.taken && Gone(s) == Gone(Run(trace))
      && (!s.cons.paused ==>
            s.log == [] && s.hist.processed == Remaining(|s.hist.taken|, Gone(s)))
  {
    RunKeepsInv(trace);
    more := ConsumerSettles(Run(trace));
    RunConcat(trace, more);
    BlockedMeansUpToDate(trace + more);
  }

  // ---- losses ----

  /** The consumer's loss figure is exact at every moment: of the samples up to the last one it
      received, precisely `lost` were overwritten or dropped. */
  lemma LossFigureExact(trace: seq<Event>)
    ensures
      var s := Run(trace);
      && s.cons.lost == CountGone(s.cons.lastSeq, Gone(s))
      && s.hist.processed == Remaining(s.cons.lastSeq, Gone(s))
  {
    var s := Run(trace);
    RunKeepsInv(trace);
    if s.hist.processed != [] {
      assert s.hist.processed + s.cons.batch + s.log == s.hist.processed + (s.cons.batch + s.log);
      RemainingFront(Decided(s), Gone(s), s.hist.processed, s.cons.batch + s.log);
    }
    RemainingSize(s.cons.lastSeq, Gone(s));
  }

  /** Nothing is on its way: the log is drained, no batch is in hand and the producer waits. */
  predicate Drained(s: State) {
    s.log == [] && s.cons.batch == [] && s.prod.pc.WaitTick?
  }

  /** Nothing lost, nothing miscounted: once drained, every sample taken was received or is in
      exactly one of the two loss counters. */
  lemma DrainedBalance(trace: seq<Event>)
    requires Drained(Run(trace))
    ensures var s := Run(trace); |s.hist.taken| == s.cons.received + s.overwritten + s.prod.drops
  {
    var s := Run(trace);
    RunKeepsInv(trace);
    RemainingSize(|s.hist.taken|, Gone(s));
    CountUnion(|s.hist.taken|, s.hist.dropped, s.hist.overwritten);
  }

  /** Once drained, the documented identity `lost == overwritten + drops` holds exactly when the
      newest write was not dropped: a drop leaves its gap only once a later sample arrives. */
  lemma LossIdentityWhenDrained(trace: seq<Event>)
    requires Drained(Run(trace))
    ensures var s := Run(trace); s.cons.lost == s.overwritten + s.prod.drops <==> !s.prod.writeDropped
  {
    RunKeepsInv(trace);
    DrainedBalance(trace);
    LastProcessedIsLastStored(Run(trace));
  }

  lemma LastProcessedIsLastStored(s: State)
    requires InOrder(s) && NewestStored(s) && LossesCounted(s) && ConsumerCounts(s)
    requires s.log == [] && s.cons.batch == []
    ensures s.cons.lastSeq == s.hist.lastStored
  {
    var n := Decided(s);
    RemainingExact(n, Gone(s));
    var all := s.hist.processed;
    assert all == all + s.cons.batch + s.log;
    if s.hist.lastStored > 0 {
      assert s.hist.lastStored in all;
    }
    if all != [] {
      assert all[|all| - 1] in all;
    }
  }

  /** The failing case is real: one sample, dropped on a lock timeout, and everything is drained
      with one drop counted and no loss reported. */
  lemma DropNotYetLost(captureUs: nat, codes: seq<nat>, buttons: nat)
    ensures
      var trace := [Tick, TakeTicks(captureUs, codes, buttons), Write(false), Ring, UpdateStats];
      var s := Run(trace);
      Proper(trace) && Drained(s) && s.cons.lost == 0 && s.overwritten == 0 && s.prod.drops == 1
  {
    var t1 := [] + [Tick];
    var t2 := t1 + [TakeTicks(captureUs, codes, buttons)];
    var t3 := t2 + [Write(false)];
    var t4 := t3 + [Ring];
    RunSnoc([], Tick);
    RunSnoc(t1, TakeTicks(captureUs, codes, buttons));
    RunSnoc(t2, Write(false));
    RunSnoc(t3, Ring);
    RunSnoc(t4, UpdateStats);
    assert t4 + [UpdateStats] == [Tick, TakeTicks(captureUs, codes, buttons), Write(false), Ring, UpdateStats];
  }

  // ---- order ----

  /** Processed samples, the rest of the batch in the consumer's hands and the log are together
      the samples taken minus those lost: strictly increasing, so nothing is duplicated or
      reordered, and nothing else is missing. */
  lemma DeliveryInOrder(trace: seq<Event>)
    ensures
      var s := Run(trace);
      var all := s.hist.processed + s.cons.batch + s.log;
      && (forall i, j :: 0 <= i < j < |all| ==> all[i] < all[j])
      && (forall x: nat :: x in all <==> 1 <= x <= Decided(s) && x !in Gone(s))
      && s.hist.dropped !! s.hist.overwritten
  {
    RunKeepsInv(trace);
    RemainingExact(Decided(Run(trace)), Gone(Run(trace)));
  }

  /** What was processed stays processed: later events only append. */
  lemma {:induction false} ProcessedOnlyGrows(trace: seq<Event>, more: seq<Event>)
    ensures Run(trace).hist.processed <= Run(trace + more).hist.processed
  {
    if more == [] {
      assert trace + more == trace;
    } else {
      ProcessedOnlyGrows(trace, more[..|more| - 1]);
      assert (trace + more)[..|trace + more| - 1] == trace + more[..|more| - 1];
    }
  }

  // ---- ticks and messages ----

  /** At a producer cycle boundary every timer interrupt is a sample, a counted overrun or still
      pending, whatever timed out in between; and the sample count is the newest sequence number. */
  lemma TicksAccountedFor(trace: seq<Event>)
    requires Run(trace).prod.pc.WaitTick?
    ensures
      var s := Run(trace);
      && s.hist.ticks == s.prod.samples + s.prod.overruns + s.notify
      && s.prod.samples == |s.hist.taken|
      && (s.hist.taken != [] ==>
            s.hist.taken[|s.hist.taken| - 1].seqNo == ToU32(s.prod.samples))
  {
    RunKeepsInv(trace);
  }

  /** Messages are received in the order the queue accepted them; UI messages are accepted or
      counted as dropped, doorbells are accepted or counted as retries. */
  lemma MessagesAccountedFor(trace: seq<Event>)
    ensures
      var s := Run(trace);
      && s.hist.accepted == s.hist.handled + s.queue && |s.queue| <= QUEUE_LEN
      && s.hist.uiAttempts == (|s.hist.accepted| - Doorbells(s.hist.accepted)) + s.uiDropped
      && (s.prod.pc.WaitTick? ==> s.hist.rings == Doorbells(s.hist.accepted) + s.prod.retries)
  {
    RunKeepsInv(trace);
  }

  // ---- the queue depth statistic ----

  /** Some message was handled while the queue was full: the UI or the producer had refilled it
      since the consumer took that message off. */
  predicate FullAtHandle(trace: seq<Event>) {
    trace != [] &&
    var earlier, last := trace[..|trace| - 1], trace[|trace| - 1];
    || FullAtHandle(earlier)
    || (last.Handle? && Run(earlier).cons.pc.Received? && |Run(earlier).queue| == QUEUE_LEN)
  }

  /** The recorded queue depth peak exceeds the queue length exactly when that happened, */
  lemma {:induction false} DepthPeakExact(trace: seq<Event>)
    ensures Run(trace).cons.depthPeak > QUEUE_LEN <==> FullAtHandle(trace)
  {
    if trace != [] {
      DepthPeakExact(trace[..|trace| - 1]);
      RunKeepsInv(trace[..|trace| - 1]);
      DepthPeakStep(Run(trace[..|trace| - 1]), trace[|trace| - 1]);
    }
  }

  lemma DepthPeakStep(s: State, e: Event)
    requires Bounded(s)
    ensures Step(s, e).cons.depthPeak > QUEUE_LEN <==>
            s.cons.depthPeak > QUEUE_LEN || (e.Handle? && s.cons.pc.Received? && |s.queue| == QUEUE_LEN)
  {
  }

  /** then by one ... */
  lemma DepthPeakBound(trace: seq<Event>)
    ensures Run(trace).cons.depthPeak <= QUEUE_LEN + 1
  {
    RunKeepsInv(trace);
  }

  /** `n` copies of an event. */
  function Repeat(e: Event, n: nat): seq<Event> {
    if n == 0 then [] else Repeat(e, n - 1) + [e]
  }

  lemma {:induction false} FillQueue(n: nat)
    requires n <= QUEUE_LEN
    ensures var s := Run(Repeat(UiSend(Help), n)); |s.queue| == n && s.cons == INIT.cons
  {
    if n > 0 {
      FillQueue(n - 1);
      RunSnoc(Repeat(UiSend(Help), n - 1), UiSend(Help));
      HelpIsQueued(Run(Repeat(UiSend(Help), n - 1)));
    }
  }

  lemma HelpIsQueued(s: State)
    requires |s.queue| < QUEUE_LEN
    ensures var s' := Step(s, UiSend(Help)); |s'.queue| == |s.queue| + 1 && s'.cons == s.cons
  {
  }

  lemma RefillBeforeHandle(s: State)
    requires s.cons == INIT.cons && |s.queue| == QUEUE_LEN
    ensures Step(Step(Step(s, Receive), UiSend(Help)), Handle).cons.depthPeak == QUEUE_LEN + 1
  {
    var s1 := Step(s, Receive);
    assert s1.cons.pc.Received? && |s1.queue| == QUEUE_LEN - 1 && s1.cons.depthPeak == 0;
    var s2 := Step(s1, UiSend(Help));
    assert s2.cons == s1.cons && |s2.queue| == QUEUE_LEN;
  }

  /** ... and it does happen: the depth is read after the message was taken off, so the UI can
      refill the queue in between and the peak reads 17 with a queue of 16. */
  lemma DepthPeakExceedsQueue() returns (trace: seq<Event>)
    ensures Run(trace).cons.depthPeak == QUEUE_LEN + 1
  {
    var full := Repeat(UiSend(Help), QUEUE_LEN);
    FillQueue(QUEUE_LEN);
    RefillBeforeHandle(Run(full));
    trace := full + [Receive, UiSend(Help), Handle];
    RunConcat(full, [Receive, UiSend(Help), Handle]);
    RunFromThree(Run(full), Receive, UiSend(Help), Handle);
  }

  lemma RunFromThree(s: State, a: Event, b: Event, c: Event)
    ensures RunFrom(s, [a, b, c]) == Step(Step(Step(s, a), b), c)
  {
    assert [a, b, c][1..] == [b, c] && [b, c][1..] == [c] && [c][1..] == [];
    assert RunFrom(Step(Step(s, a), b), [c]) == RunFrom(Step(Step(Step(s, a), b), c), []);
    assert RunFrom(Step(s, a), [b, c]) == RunFrom(Step(Step(s, a), b), [c]);
  }
}
