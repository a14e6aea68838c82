/** The sample path as a transition system: timer interrupt, producer, sensor log, message queue,
    consumer and the UI's sends. One event is one atomic action of one task (a locked section, a
    queue operation, a critical section, or work on task-private data); a trace is any
    interleaving. Counters are unbounded here, and a sample is identified by its number. */
module SamplePath {
  import opened Word
  import opened AppConfig
  import opened Records
  import opened DropOldest

  /** Where the producer's loop is. */
  datatype ProducerPc =
    | WaitTick  // blocked on its notification
    | Sampled   // sample taken and numbered, log write next
    | Written   // write done or given up, doorbell decision next
    | Rung      // doorbell decision made, statistics next

  datatype Producer = Producer(
    pc: ProducerPc,
    pendingTicks: nat,
    logWasEmpty: bool,
    doorbellPending: bool,
    writeDropped: bool,
    doorbellFailed: bool,
    samples: nat,
    overruns: nat,
    timeouts: nat,
    drops: nat,
    retries: nat)
  {
    /** Took all pending ticks with one sample. */
    function Took(ticks: nat): Producer {
      this.(pc := Sampled, pendingTicks := ticks)
    }

    function TimedOut(): Producer {
      this.(timeouts := timeouts + 1)
    }

    function Stored(wasEmpty: bool): Producer {
      this.(pc := Written, writeDropped := false, logWasEmpty := wasEmpty)
    }

    function Dropped(): Producer {
      this.(pc := Written, writeDropped := true)
    }

    /** Whether the write just made calls for a doorbell: it found the log empty, or one is owed. */
    predicate WillRing() {
      !writeDropped && (logWasEmpty || doorbellPending)
    }

    function Rang(sent: bool): Producer {
      this.(pc := Rung, doorbellPending := !sent, doorbellFailed := !sent)
    }

    function KeptQuiet(): Producer {
      this.(pc := Rung, doorbellFailed := false)
    }

    function Counted(): Producer {
      this.(pc := WaitTick,
            samples := samples + 1,
            overruns := overruns + (if pendingTicks > 0 then pendingTicks - 1 else 0),
            drops := drops + (if writeDropped then 1 else 0),
            retries := retries + (if doorbellFailed then 1 else 0))
    }
  }

  /** Where the consumer's loop is. */
  datatype ConsumerPc =
    | AtReceive                                    // at its queue; blocks unless a backlog is pending
    | Received(msg: Msg)                           // message taken off, not handled yet
    | DrainStart                                   // about to drain the log
    | AtRead(batchNum: nat)                        // about to read a batch under the lock
    | Processing(batchIndex: nat, batchCount: nat) // working through a batch, lock released
    | PassEnd                                      // drain returned

  datatype Consumer = Consumer(
    pc: ConsumerPc,
    paused: bool,
    backlog: bool,
    batch: seq<nat>,     // records popped from the log and not processed yet
    received: nat,
    lastSeq: nat,
    lost: int,
    lockTimeouts: nat,
    depthPeak: nat)
  {
    function Took(msg: Msg): Consumer {
      this.(pc := Received(msg))
    }

    function TookNothing(): Consumer {
      this.(pc := DrainStart)
    }

    /** Samples the queue depth, then acts on the message; only the pause key matters here. */
    function Handled(depth: nat): Consumer
      requires pc.Received?
    {
      this.(pc := DrainStart, depthPeak := Max(depthPeak, depth),
            paused := if pc.msg.PauseToggle? then !paused else paused)
    }

    /** A paused consumer leaves the log alone. */
    function BeganDrain(): Consumer {
      if paused then this.(pc := PassEnd, backlog := false) else this.(pc := AtRead(0))
    }

    function Got(popped: seq<nat>): Consumer
      requires pc.AtRead?
    {
      this.(pc := Processing(pc.batchNum, |popped|), batch := popped)
    }

    function GaveUp(): Consumer {
      this.(pc := PassEnd, backlog := true, lockTimeouts := lockTimeouts + 1)
    }

    function Processed(): Consumer
      requires batch != []
    {
      this.(batch := batch[1..], received := received + 1, lastSeq := batch[0],
            lost := batch[0] - (received + 1))
    }

    /** After a short batch the pass is over; after a full one comes the next, or, at the limit, a
        backlog. */
    function EndedBatch(): Consumer
      requires pc.Processing?
    {
      if pc.batchCount < READ_BATCH then this.(pc := PassEnd, backlog := false)
      else if pc.batchIndex + 1 < DRAIN_BATCHES_MAX then this.(pc := AtRead(pc.batchIndex + 1))
      else this.(pc := PassEnd, backlog := true)
    }

    function EndedPass(): Consumer {
      this.(pc := AtReceive)
    }
  }

  /** What happened so far; no task reads it. */
  datatype History = History(
    ticks: nat,               // timer interrupts delivered
    taken: seq<Record>,       // samples taken, sample k at index k - 1
    dropped: set<nat>,        // samples given up on a lock timeout
    overwritten: set<nat>,    // samples that made room for newer ones
    lastStored: nat,          // number of the last sample stored, 0 before any
    processed: seq<nat>,      // samples the consumer processed, in order
    accepted: seq<Msg>,       // messages the queue accepted, in order
    handled: seq<Msg>,        // messages the consumer took off, in order
    uiAttempts: nat,
    rings: nat)               // doorbells the producer tried to send

  datatype State = State(
    notify: nat,              // the producer's pending notification count
    prod: Producer,
    log: seq<nat>,
    overwritten: nat,         // the ring's own count
    queue: seq<Msg>,
    cons: Consumer,
    uiDropped: nat,
    hist: History)

  datatype Event =
    | Tick
    | TakeTicks(captureUs: nat, codes: seq<nat>, buttons: nat)
    | TakeTimeout
    | Write(locked: bool)
    | Ring
    | UpdateStats
    | UiSend(msg: Msg)
    | Receive
    | ReceiveTimeout
    | Handle
    | BeginDrain
    | Read(locked: bool)
    | Process
    | EndBatch
    | EndPass

  const INIT: State := State(
    0,
    Producer(WaitTick, 0, false, false, false, false, 0, 0, 0, 0, 0),
    [], 0, [],
    Consumer(AtReceive, false, false, [], 0, 0, 0, 0, 0),
    0,
    History(0, [], {}, {}, 0, [], [], [], 0, 0))

  predicate Enabled(s: State, e: Event) {
    match e
    case Tick => true
    case TakeTicks(_, _, _) => s.prod.pc.WaitTick? && s.notify > 0
    case TakeTimeout => s.prod.pc.WaitTick? && s.notify == 0
    case Write(_) => s.prod.pc.Sampled?
    case Ring => s.prod.pc.Written?
    case UpdateStats => s.prod.pc.Rung?
    case UiSend(msg) => !msg.DataReady?
    case Receive => s.cons.pc.AtReceive? && s.queue != []
    case ReceiveTimeout => s.cons.pc.AtReceive? && s.queue == []
    case Handle => s.cons.pc.Received?
    case BeginDrain => s.cons.pc.DrainStart?
    case Read(_) => s.cons.pc.AtRead?
    case Process => s.cons.pc.Processing? && s.cons.batch != []
    case EndBatch => s.cons.pc.Processing? && s.cons.batch == []
    case EndPass => s.cons.pc.PassEnd?
  }

  // ---- the producer's steps ----

  /** Takes all pending ticks at once, reads the clock and the sensors, numbers the sample. */
  function TakeStep(s: State, captureUs: nat, codes: seq<nat>, buttons: nat): State {
    var record := Record(captureUs, ToU32(|s.hist.taken| + 1), codes, buttons);
    s.(notify := 0, prod := s.prod.Took(s.notify), hist := s.hist.(taken := s.hist.taken + [record]))
  }

  /** The log write: a lock timeout drops the sample, a full log drops its oldest record. */
  function WriteStep(s: State, locked: bool): State {
    var id := |s.hist.taken|;
    if !locked then
      s.(prod := s.prod.Dropped(), hist := s.hist.(dropped := s.hist.dropped + {id}))
    else
      var prod := s.prod.Stored(s.log == []);
      var hist := s.hist.(lastStored := id);
      if |s.log| < LOG_CAPACITY then
        s.(prod := prod, log := s.log + [id], hist := hist)
      else
        s.(prod := prod, log := s.log[1..] + [id], overwritten := s.overwritten + 1,
           hist := hist.(overwritten := hist.overwritten + {s.log[0]}))
  }

  function RingStep(s: State): State {
    if !s.prod.WillRing() then s.(prod := s.prod.KeptQuiet())
    else
      var sent := |s.queue| < QUEUE_LEN;
      var s' := s.(prod := s.prod.Rang(sent), hist := s.hist.(rings := s.hist.rings + 1));
      if sent then Accept(s', DataReady) else s'
  }

  function Accept(s: State, msg: Msg): State {
    s.(queue := s.queue + [msg], hist := s.hist.(accepted := s.hist.accepted + [msg]))
  }

  /** A UI message is accepted, or adds one to the drops. */
  function UiSendStep(s: State, msg: Msg): State {
    var s' := s.(hist := s.hist.(uiAttempts := s.hist.uiAttempts + 1));
    if |s.queue| < QUEUE_LEN then Accept(s', msg) else s'.(uiDropped := s.uiDropped + 1)
  }

  // ---- the consumer's steps ----

  function ReceiveStep(s: State): State
    requires s.queue != []
  {
    s.(queue := s.queue[1..], cons := s.cons.Took(s.queue[0]),
       hist := s.hist.(handled := s.hist.handled + [s.queue[0]]))
  }

  /** Pops a batch under the lock; a lock timeout ends the pass and asks for another. */
  function ReadStep(s: State, locked: bool): State
    requires s.cons.pc.AtRead?
  {
    if !locked then s.(cons := s.cons.GaveUp())
    else s.(log := Rest(s.log, READ_BATCH), cons := s.cons.Got(Oldest(s.log, READ_BATCH)))
  }

  function ProcessStep(s: State): State
    requires s.cons.batch != []
  {
    s.(cons := s.cons.Processed(), hist := s.hist.(processed := s.hist.processed + [s.cons.batch[0]]))
  }

  function Next(s: State, e: Event): State
    requires Enabled(s, e)
  {
    match e
    case Tick => s.(notify := s.notify + 1, hist := s.hist.(ticks := s.hist.ticks + 1))
    case TakeTicks(captureUs, codes, buttons) => TakeStep(s, captureUs, codes, buttons)
    case TakeTimeout => s.(prod := s.prod.TimedOut())
    case Write(locked) => WriteStep(s, locked)
    case Ring => RingStep(s)
    case UpdateStats => s.(prod := s.prod.Counted())
    case UiSend(msg) => UiSendStep(s, msg)
    case Receive => ReceiveStep(s)
    case ReceiveTimeout => s.(cons := s.cons.TookNothing())
    case Handle => s.(cons := s.cons.Handled(|s.queue| + 1))
    case BeginDrain => s.(cons := s.cons.BeganDrain())
    case Read(locked) => ReadStep(s, locked)
    case Process => ProcessStep(s)
    case EndBatch => s.(cons := s.cons.EndedBatch())
    case EndPass => s.(cons := s.cons.EndedPass())
  }

  /** The state after a trace; an event whose task is not at that point changes nothing. */
  function Run(trace: seq<Event>): State {
    if trace == [] then INIT else Step(Run(trace[..|trace| - 1]), trace[|trace| - 1])
  }

  function Step(s: State, e: Event): State {
    if Enabled(s, e) then Next(s, e) else s
  }

  /** Every event of the trace was enabled when it came. */
  predicate Proper(trace: seq<Event>) {
    trace == [] ||
    (Proper(trace[..|trace| - 1]) && Enabled(Run(trace[..|trace| - 1]), trace[|trace| - 1]))
  }

  lemma RunSnoc(trace: seq<Event>, e: Event)
    ensures Run(trace + [e]) == Step(Run(trace), e)
    ensures Proper(trace + [e]) <==> Proper(trace) && Enabled(Run(trace), e)
  {
    assert (trace + [e])[..|trace|] == trace;
  }
}
