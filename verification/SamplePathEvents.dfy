/** The sample path's state read off the events that led to it. */
module SamplePathEvents {
  import opened Word
  import opened AppConfig
  import opened Records
  import opened SamplePath
  import opened SamplePathProofs
  import opened TaskTraces

  // ---- doorbells ----

  /** The producer's latest write was stored, rather than given up. */
  predicate WriteStored(trace: seq<Event>) {
    trace != [] &&
    var earlier, last := trace[..|trace| - 1], trace[|trace| - 1];
    if last.Write? && Enabled(Run(earlier), last) then last.locked else WriteStored(earlier)
  }

  /** It was stored into an empty log. */
  predicate WriteFoundEmpty(trace: seq<Event>) {
    trace != [] &&
    var earlier, last := trace[..|trace| - 1], trace[|trace| - 1];
    if last.Write? && Enabled(Run(earlier), last) then last.locked && Run(earlier).log == []
    else WriteFoundEmpty(earlier)
  }

  /** The latest doorbell attempted met a full queue. */
  predicate DoorbellOwed(trace: seq<Event>)
    decreases |trace|, 0
  {
    trace != [] &&
    var earlier, last := trace[..|trace| - 1], trace[|trace| - 1];
    if last.Ring? && Enabled(Run(earlier), last) && DoorbellDue(earlier) then |Run(earlier).queue| >= QUEUE_LEN
    else DoorbellOwed(earlier)
  }

  /** The latest write was stored, and found the log empty or a doorbell owed. */
  predicate DoorbellDue(trace: seq<Event>)
    decreases |trace|, 1
  {
    WriteStored(trace) && (WriteFoundEmpty(trace) || DoorbellOwed(trace))
  }

  /** How often the producer came to its doorbell with one due. */
  function DoorbellsDue(trace: seq<Event>): nat {
    if trace == [] then 0
    else
      var earlier, last := trace[..|trace| - 1], trace[|trace| - 1];
      DoorbellsDue(earlier) + if last.Ring? && Enabled(Run(earlier), last) && DoorbellDue(earlier) then 1 else 0
  }

  /** What the producer remembers of its writes and doorbells. */
  ghost predicate Remembers(s: State, trace: seq<Event>) {
    && (s.prod.pc.Written? ==> s.prod.writeDropped == !WriteStored(trace))
    && (s.prod.pc.Written? && WriteStored(trace) ==> s.prod.logWasEmpty == WriteFoundEmpty(trace))
    && s.prod.doorbellPending == DoorbellOwed(trace)
    && s.hist.rings == DoorbellsDue(trace)
  }

  lemma {:induction false} RunRemembers(trace: seq<Event>)
    ensures Remembers(Run(trace), trace)
  {
    if trace != [] {
      var earlier, e := trace[..|trace| - 1], trace[|trace| - 1];
      RunRemembers(earlier);
      StepRemembers(Run(earlier), earlier, e);
      assert earlier + [e] == trace;
    }
  }

  lemma OneMore(trace: seq<Event>, e: Event)
    ensures
      var s := Run(trace);
      var rings := e.Ring? && Enabled(s, e) && DoorbellDue(trace);
      && WriteStored(trace + [e]) == (if e.Write? && Enabled(s, e) then e.locked else WriteStored(trace))
      && WriteFoundEmpty(trace + [e])
         == (if e.Write? && Enabled(s, e) then e.locked && s.log == [] else WriteFoundEmpty(trace))
      && DoorbellOwed(trace + [e]) == (if rings then |s.queue| >= QUEUE_LEN else DoorbellOwed(trace))
      && DoorbellsDue(trace + [e]) == DoorbellsDue(trace) + if rings then 1 else 0
  {
    assert (trace + [e])[..|trace|] == trace;
  }

  lemma StepRemembers(s: State, trace: seq<Event>, e: Event)
    requires s == Run(trace) && Remembers(s, trace)
    ensures Remembers(Step(s, e), trace + [e])
  {
    hide Run, WriteStored, WriteFoundEmpty, DoorbellOwed, DoorbellsDue;
    OneMore(trace, e);
  }

  /** Exactly the doorbells that are due are attempted: whenever the producer comes to its doorbell,
      the queue gains one if it is due and there is room, and otherwise nothing. */
  lemma DoorbellExactly(trace: seq<Event>)
    requires Enabled(Run(trace), Ring)
    ensures
      var s, s' := Run(trace), Step(Run(trace), Ring);
      && s'.queue == (if DoorbellDue(trace) && |s.queue| < QUEUE_LEN then s.queue + [DataReady] else s.queue)
      && s'.hist.rings == s.hist.rings + (if DoorbellDue(trace) then 1 else 0)
  {
    RunRemembers(trace);
  }

  /** So the doorbells ever attempted are those that were due. */
  lemma DoorbellsCounted(trace: seq<Event>)
    ensures Run(trace).hist.rings == DoorbellsDue(trace)
  {
    RunRemembers(trace);
  }

  /** The messages that found room in the queue, in the order they came: the UI's, and the doorbells
      that were due. */
  function FoundRoom(trace: seq<Event>): seq<Msg> {
    if trace == [] then []
    else
      var earlier, last := trace[..|trace| - 1], trace[|trace| - 1];
      if |Run(earlier).queue| >= QUEUE_LEN || !Enabled(Run(earlier), last) then FoundRoom(earlier)
      else match last
        case UiSend(msg) => FoundRoom(earlier) + [msg]
        case Ring => if DoorbellDue(earlier) then FoundRoom(earlier) + [DataReady] else FoundRoom(earlier)
        case _ => FoundRoom(earlier)
  }

  /** The UI's messages that did not. */
  function FoundFull(trace: seq<Event>): nat {
    if trace == [] then 0
    else
      var earlier, last := trace[..|trace| - 1], trace[|trace| - 1];
      FoundFull(earlier)
      + if last.UiSend? && Enabled(Run(earlier), last) && |Run(earlier).queue| >= QUEUE_LEN then 1 else 0
  }

  /** The queue accepts just what it has room for, and the UI counts as dropped just what it does
      not. */
  lemma {:induction false} QueueTakesWhatFits(trace: seq<Event>)
    ensures var s := Run(trace); s.hist.accepted == FoundRoom(trace) && s.uiDropped == FoundFull(trace)
  {
    if trace != [] {
      var earlier, e := trace[..|trace| - 1], trace[|trace| - 1];
      QueueTakesWhatFits(earlier);
      RunRemembers(earlier);
      StepAccepts(Run(earlier), e);
    }
  }

  lemma StepAccepts(s: State, e: Event)
    ensures
      var s' := Step(s, e);
      if Enabled(s, e) && e.UiSend? && |s.queue| >= QUEUE_LEN then
        s'.hist.accepted == s.hist.accepted && s'.uiDropped == s.uiDropped + 1
      else if Enabled(s, e) && e.UiSend? then
        s'.hist.accepted == s.hist.accepted + [e.msg] && s'.uiDropped == s.uiDropped
      else if Enabled(s, e) && e.Ring? && s.prod.WillRing() && |s.queue| < QUEUE_LEN then
        s'.hist.accepted == s.hist.accepted + [DataReady] && s'.uiDropped == s.uiDropped
      else
        s'.hist.accepted == s.hist.accepted && s'.uiDropped == s.uiDropped
  {
  }

  // ---- pausing ----

  function PauseKeys(msgs: seq<Msg>): nat {
    if msgs == [] then 0
    else PauseKeys(msgs[..|msgs| - 1]) + if msgs[|msgs| - 1] == PauseToggle then 1 else 0
  }

  /** The messages acted on: those taken off the queue, but for one taken and not yet handled. */
  function ActedOn(s: State): seq<Msg> {
    if s.cons.pc.Received? && s.hist.handled != [] then s.hist.handled[..|s.hist.handled| - 1] else s.hist.handled
  }

  ghost predicate PauseFollowsKeys(s: State) {
    && (s.cons.pc.Received? ==> s.hist.handled != [] && s.cons.pc.msg == s.hist.handled[|s.hist.handled| - 1])
    && (s.cons.paused <==> PauseKeys(ActedOn(s)) % 2 == 1)
  }

  /** The drain is paused exactly after an odd number of pause messages, and the message acted on is
      the one taken off the queue. */
  lemma {:induction false} PausedAfterOddKeys(trace: seq<Event>)
    ensures PauseFollowsKeys(Run(trace))
  {
    if trace != [] {
      PausedAfterOddKeys(trace[..|trace| - 1]);
      StepPause(Run(trace[..|trace| - 1]), trace[|trace| - 1]);
    }
  }

  lemma StepPause(s: State, e: Event)
    requires PauseFollowsKeys(s)
    ensures PauseFollowsKeys(Step(s, e))
  {
    hide PauseKeys;
    var msgs := s.hist.handled;
    if Enabled(s, e) {
      if e.Receive? {
        assert (msgs + [s.queue[0]])[..|msgs|] == msgs;
      } else if e.Handle? {
        PauseKeysSnoc(ActedOn(s), s.cons.pc.msg);
        assert ActedOn(s) + [s.cons.pc.msg] == msgs;
      }
    }
  }

  lemma PauseKeysSnoc(msgs: seq<Msg>, msg: Msg)
    ensures PauseKeys(msgs + [msg]) == PauseKeys(msgs) + if msg == PauseToggle then 1 else 0
  {
    assert (msgs + [msg])[..|msgs|] == msgs;
  }

  /** A paused consumer reads nothing from the log, and one that is not does. */
  lemma ReadsUnlessPaused(trace: seq<Event>, locked: bool)
    ensures Enabled(Run(trace), Read(locked)) ==> PauseKeys(ActedOn(Run(trace))) % 2 == 0
    ensures Enabled(Run(trace), BeginDrain) ==>
              (Enabled(Step(Run(trace), BeginDrain), Read(locked)) <==> PauseKeys(ActedOn(Run(trace))) % 2 == 0)
  {
    hide PauseKeys;
    PausedAfterOddKeys(trace);
    ReadsUnpaused(trace);
  }

  lemma {:induction false} ReadsUnpaused(trace: seq<Event>)
    ensures var c := Run(trace).cons; c.pc.AtRead? || c.pc.Processing? ==> !c.paused
  {
    if trace != [] {
      ReadsUnpaused(trace[..|trace| - 1]);
      ReadsUnpausedStep(Run(trace[..|trace| - 1]), trace[|trace| - 1]);
    }
  }

  lemma ReadsUnpausedStep(s: State, e: Event)
    requires s.cons.pc.AtRead? || s.cons.pc.Processing? ==> !s.cons.paused
    ensures var c := Step(s, e).cons; c.pc.AtRead? || c.pc.Processing? ==> !c.paused
  {
  }

  // ---- counters ----

  /** How often the event happened. */
  function Happened(trace: seq<Event>, e: Event): nat {
    if trace == [] then 0
    else
      var earlier, last := trace[..|trace| - 1], trace[|trace| - 1];
      Happened(earlier, e) + if last == e && Enabled(Run(earlier), e) then 1 else 0
  }

  ghost predicate CountsEvents(s: State, trace: seq<Event>) {
    && s.hist.ticks == Happened(trace, Tick)
    && s.prod.timeouts == Happened(trace, TakeTimeout)
    && s.cons.lockTimeouts == Happened(trace, Read(false))
    && s.cons.received == Happened(trace, Process)
    && s.prod.samples == Happened(trace, UpdateStats)
    && s.prod.drops + (if (s.prod.pc.Written? || s.prod.pc.Rung?) && s.prod.writeDropped then 1 else 0)
       == Happened(trace, Write(false))
  }

  /** Each counter counts the occurrences of its event: ticks, waits without one, refused reads,
      records processed, cycles finished, samples given up. */
  lemma {:induction false} CountersExact(trace: seq<Event>)
    ensures CountsEvents(Run(trace), trace)
  {
    if trace != [] {
      var earlier, e := trace[..|trace| - 1], trace[|trace| - 1];
      CountersExact(earlier);
      StepCounts(Run(earlier), earlier, e);
      assert earlier + [e] == trace;
    }
  }

  lemma HappenedSnoc(trace: seq<Event>, last: Event, e: Event)
    ensures Happened(trace + [last], e)
            == Happened(trace, e) + if last == e && Enabled(Run(trace), e) then 1 else 0
  {
    assert (trace + [last])[..|trace|] == trace;
  }

  lemma StepCounts(s: State, trace: seq<Event>, e: Event)
    requires s == Run(trace) && CountsEvents(s, trace)
    ensures CountsEvents(Step(s, e), trace + [e])
  {
    hide Run, Happened;
    HappenedSnoc(trace, e, Tick);
    HappenedSnoc(trace, e, TakeTimeout);
    HappenedSnoc(trace, e, Read(false));
    HappenedSnoc(trace, e, Process);
    HappenedSnoc(trace, e, UpdateStats);
    HappenedSnoc(trace, e, Write(false));
  }

  /** The most messages at once when one was handled: those waiting, and the one in hand. */
  function DeepestHandle(trace: seq<Event>): nat {
    if trace == [] then 0
    else
      var earlier, last := trace[..|trace| - 1], trace[|trace| - 1];
      if last.Handle? && Enabled(Run(earlier), last) then Max(DeepestHandle(earlier), |Run(earlier).queue| + 1)
      else DeepestHandle(earlier)
  }

  /** The depth peak is exactly that. */
  lemma {:induction false} DepthPeakIsDeepest(trace: seq<Event>)
    ensures Run(trace).cons.depthPeak == DeepestHandle(trace)
  {
    if trace != [] {
      DepthPeakIsDeepest(trace[..|trace| - 1]);
      DepthStep(Run(trace[..|trace| - 1]), trace[|trace| - 1]);
    }
  }

  lemma DepthStep(s: State, e: Event)
    ensures Step(s, e).cons.depthPeak ==
            if e.Handle? && Enabled(s, e) then Max(s.cons.depthPeak, |s.queue| + 1) else s.cons.depthPeak
  {
  }

  // ---- the samples themselves ----

  /** The records that a producer's events make: one per sample, numbered from 1. */
  function RecordsOf(events: seq<Event>): seq<Record> {
    if events == [] then []
    else
      var earlier := RecordsOf(events[..|events| - 1]);
      match events[|events| - 1]
      case TakeTicks(captureUs, codes, buttons) =>
        earlier + [Record(captureUs, ToU32(|earlier| + 1), codes, buttons)]
      case _ => earlier
  }

  /** The samples taken are exactly what the producer's own events read. */
  lemma {:induction false} TakenAreReadings(trace: seq<Event>)
    requires Proper(trace)
    ensures Run(trace).hist.taken == RecordsOf(Own(trace, ProducerLoop))
  {
    if trace != [] {
      var earlier, e := trace[..|trace| - 1], trace[|trace| - 1];
      TakenAreReadings(earlier);
      StepTakes(Run(earlier), Own(earlier, ProducerLoop), e);
    }
  }

  lemma StepTakes(s: State, own: seq<Event>, e: Event)
    requires Enabled(s, e) && s.hist.taken == RecordsOf(own)
    ensures Step(s, e).hist.taken == if Owner(e) == ProducerLoop then RecordsOf(own + [e]) else RecordsOf(own)
  {
    hide RecordsOf;
    RecordsSnoc(own, e);
  }

  /** A pass of the producer that takes a sample records just what it read. */
  lemma PassRecords(before: seq<Event>, after: seq<Event>, captureUs: nat, codes: seq<nat>, buttons: nat, locked: bool)
    requires Proper(before) && Proper(after)
    requires Did(ProducerLoop, before, after, SampleEvents(captureUs, codes, buttons, locked))
    ensures
      var taken := Run(before).hist.taken;
      Run(after).hist.taken == taken + [Record(captureUs, ToU32(|taken| + 1), codes, buttons)]
  {
    TakenAreReadings(before);
    TakenAreReadings(after);
    var own, events := Own(before, ProducerLoop), SampleEvents(captureUs, codes, buttons, locked);
    FourMore(own, events[0], events[1], events[2], events[3]);
    assert own + events == own + [events[0]] + [events[1]] + [events[2]] + [events[3]];
  }

  lemma RecordsSnoc(own: seq<Event>, e: Event)
    ensures RecordsOf(own + [e])
            == if e.TakeTicks?
               then RecordsOf(own) + [Record(e.captureUs, ToU32(|RecordsOf(own)| + 1), e.codes, e.buttons)]
               else RecordsOf(own)
  {
    assert (own + [e])[..|own|] == own;
  }

  lemma FourMore(own: seq<Event>, a: Event, b: Event, c: Event, d: Event)
    requires a.TakeTicks? && !b.TakeTicks? && !c.TakeTicks? && !d.TakeTicks?
    ensures
      var records := RecordsOf(own);
      RecordsOf(own + [a] + [b] + [c] + [d])
      == records + [Record(a.captureUs, ToU32(|records| + 1), a.codes, a.buttons)]
  {
    hide RecordsOf;
    RecordsSnoc(own, a);
    RecordsSnoc(own + [a], b);
    RecordsSnoc(own + [a] + [b], c);
    RecordsSnoc(own + [a] + [b] + [c], d);
  }
}
