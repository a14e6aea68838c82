/** Which task each event of a trace belongs to, and what one pass of each task's loop does. */
module TaskTraces {
  import opened AppConfig
  import opened Records
  import opened SamplePath

  datatype Task = TimerIsr | ProducerLoop | ConsumerLoop | UiLoop

  function Owner(e: Event): Task {
    match e
    case Tick => TimerIsr
    case TakeTicks(_, _, _) | TakeTimeout | Write(_) | Ring | UpdateStats => ProducerLoop
    case UiSend(_) => UiLoop
    case Receive | ReceiveTimeout | Handle | BeginDrain | Read(_) | Process | EndBatch | EndPass => ConsumerLoop
  }

  /** The task's own events in a trace, in order. */
  function Own(trace: seq<Event>, task: Task): seq<Event> {
    if trace == [] then []
    else
      var earlier := Own(trace[..|trace| - 1], task);
      if Owner(trace[|trace| - 1]) == task then earlier + [trace[|trace| - 1]] else earlier
  }

  lemma OwnSnoc(trace: seq<Event>, e: Event, task: Task)
    ensures Own(trace + [e], task) == Own(trace, task) + (if Owner(e) == task then [e] else [])
  {
    assert (trace + [e])[..|trace|] == trace;
  }

  /** Between two traces, of which the first is a prefix, the task did exactly these events. */
  ghost predicate Did(task: Task, before: seq<Event>, after: seq<Event>, events: seq<Event>) {
    before <= after && Own(after, task) == Own(before, task) + events
  }

  /** In between, the task was preempted or blocked. */
  ghost predicate Rested(task: Task, before: seq<Event>, after: seq<Event>) {
    Did(task, before, after, [])
  }

  lemma DidOne(task: Task, before: seq<Event>, e: Event)
    ensures Owner(e) == task ==> Did(task, before, before + [e], [e])
    ensures Owner(e) != task ==> Rested(task, before, before + [e])
  {
    OwnSnoc(before, e, task);
  }

  lemma DidMore(task: Task, a: seq<Event>, b: seq<Event>, c: seq<Event>, first: seq<Event>, more: seq<Event>)
    requires Did(task, a, b, first) && Did(task, b, c, more)
    ensures Did(task, a, c, first + more)
  {
    assert Own(a, task) + first + more == Own(a, task) + (first + more);
  }

  lemma RestedNow(task: Task, trace: seq<Event>)
    ensures Rested(task, trace, trace)
  {
  }

  // ---- one pass of each loop ----

  /** The producer's cycle: one sample taken, written under the lock or dropped, rung for, counted. */
  function SampleEvents(captureUs: nat, codes: seq<nat>, buttons: nat, locked: bool): seq<Event> {
    [TakeTicks(captureUs, codes, buttons), Write(locked), Ring, UpdateStats]
  }

  function Copies(e: Event, n: nat): (events: seq<Event>)
    ensures |events| == n
  {
    if n == 0 then [] else Copies(e, n - 1) + [e]
  }

  /** One batch: read it, process each of its records, go on. */
  function Round(count: nat): seq<Event> {
    [Read(true)] + Copies(Process, count) + [EndBatch]
  }

  function FullRounds(n: nat): seq<Event> {
    if n == 0 then [] else FullRounds(n - 1) + Round(READ_BATCH)
  }

  /** How a drain of the log went: the allowed number of full batches, a refused lock after some, or
      a short batch after some. */
  datatype Drain = Limit | Refused(full: nat) | Short(full: nat, count: nat)

  function DrainEvents(d: Drain): seq<Event> {
    match d
    case Limit => FullRounds(DRAIN_BATCHES_MAX)
    case Refused(full) => FullRounds(full) + [Read(false)]
    case Short(full, count) => FullRounds(full) + Round(count)
  }

  /** It went as the lock was granted: `locks[i]` is the outcome of the i-th read. */
  predicate FollowsLocks(d: Drain, locks: seq<bool>)
    requires |locks| == DRAIN_BATCHES_MAX
  {
    match d
    case Limit => forall i :: 0 <= i < DRAIN_BATCHES_MAX ==> locks[i]
    case Refused(full) => full < DRAIN_BATCHES_MAX && (forall i :: 0 <= i < full ==> locks[i]) && !locks[full]
    case Short(full, count) =>
      full < DRAIN_BATCHES_MAX && (forall i :: 0 <= i <= full ==> locks[i]) && count < READ_BATCH
  }

  /** The UI: one send per message. */
  function Sends(msgs: seq<Msg>): seq<Event> {
    seq(|msgs|, i requires 0 <= i < |msgs| => UiSend(msgs[i]))
  }

  lemma SendsConcat(a: seq<Msg>, b: seq<Msg>)
    ensures Sends(a + b) == Sends(a) + Sends(b)
  {
  }
}
