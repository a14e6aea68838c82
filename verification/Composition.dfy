/** The sample path and the watchdog together: the producer checks in at the end of each of its
    cycles, the consumer at the end of each pass, the UI with each of its passes. */
module Composition {
  import P = SamplePath
  import W = Watchdog
  import WatchdogTheorems

  const PRODUCER: nat := 0
  const UI: nat := 1
  const CONSUMER: nat := 2

  datatype Event = Path(e: P.Event) | UiPass | TimePasses(dt: nat) | SupervisorCheck | Hang(client: nat)

  /** The client whose loop this event takes around, in this state of the sample path. */
  predicate EndsPass(s: P.State, e: Event, client: nat) {
    || (client == PRODUCER && e == Path(P.UpdateStats) && P.Enabled(s, P.UpdateStats))
    || (client == CONSUMER && e == Path(P.EndPass) && P.Enabled(s, P.EndPass))
    || (client == UI && e == UiPass)
  }

  /** What the watchdog sees of an event. */
  function Seen(s: P.State, e: Event): seq<W.Event> {
    if EndsPass(s, e, PRODUCER) then [W.CheckIn(PRODUCER)]
    else if EndsPass(s, e, CONSUMER) then [W.CheckIn(CONSUMER)]
    else
      match e
      case UiPass => [W.CheckIn(UI)]
      case TimePasses(dt) => [W.Advance(dt)]
      case SupervisorCheck => [W.Check]
      case Hang(client) => [W.InjectHang(client)]
      case Path(_) => []
  }

  function PathStep(s: P.State, e: Event): P.State {
    if e.Path? then P.Step(s, e.e) else s
  }

  /** Both models after a trace: each event moves the sample path and shows the watchdog what it
      sees of it. */
  function PathRun(trace: seq<Event>): P.State {
    if trace == [] then P.INIT else PathStep(PathRun(trace[..|trace| - 1]), trace[|trace| - 1])
  }

  function SeenRun(trace: seq<Event>): seq<W.Event> {
    if trace == [] then []
    else SeenRun(trace[..|trace| - 1]) + Seen(PathRun(trace[..|trace| - 1]), trace[|trace| - 1])
  }

  function WdogRun(cfg: W.Config, trace: seq<Event>): (s: W.State)
    requires cfg.Valid()
    ensures s.Shape()
  {
    W.Run(cfg, SeenRun(trace))
  }

  lemma PathSnoc(trace: seq<Event>, e: Event)
    ensures PathRun(trace + [e]) == PathStep(PathRun(trace), e)
  {
    assert (trace + [e])[..|trace|] == trace;
  }

  lemma Snoc(cfg: W.Config, trace: seq<Event>, e: Event)
    requires cfg.Valid()
    ensures PathRun(trace + [e]) == PathStep(PathRun(trace), e)
    ensures WdogRun(cfg, trace + [e]) == WdogRunOn(cfg, WdogRun(cfg, trace), Seen(PathRun(trace), e))
  {
    assert (trace + [e])[..|trace|] == trace;
    W.RunConcat(cfg, W.INIT, SeenRun(trace), Seen(PathRun(trace), e));
  }

  function WdogRunOn(cfg: W.Config, s: W.State, seen: seq<W.Event>): (s': W.State)
    requires cfg.Valid() && s.Shape()
    ensures s'.Shape()
  {
    W.RunFrom(cfg, s, seen)
  }

  /** During `after`, the client's loop never comes around. */
  ghost predicate Stuck(before: seq<Event>, after: seq<Event>, client: nat) {
    forall i :: 0 <= i < |after| ==> !EndsPass(PathRun(before + after[..i]), after[i], client)
  }

  lemma OtherEventKeepsCheckin(cfg: W.Config, s: W.State, path: P.State, e: Event, client: nat)
    requires cfg.Valid() && s.Shape() && client < W.CLIENT_COUNT && !EndsPass(path, e, client)
    ensures WdogRunOn(cfg, s, Seen(path, e)).clients[client].lastCheckin == s.clients[client].lastCheckin
  {
    hide W.Next;
    var seen := Seen(path, e);
    if seen != [] {
      OtherCheckin(cfg, s, seen[0], client);
      assert [] + [seen[0]] == seen;
      W.RunSnoc(cfg, s, [], seen[0]);
    }
  }

  lemma OtherCheckin(cfg: W.Config, s: W.State, e: W.Event, client: nat)
    requires cfg.Valid() && s.Shape() && client < W.CLIENT_COUNT && e != W.CheckIn(client)
    ensures W.Next(cfg, s, e).clients[client].lastCheckin == s.clients[client].lastCheckin
  {
  }

  lemma StuckEarlier(before: seq<Event>, after: seq<Event>, client: nat)
    requires after != [] && Stuck(before, after, client)
    ensures Stuck(before, after[..|after| - 1], client)
    ensures !EndsPass(PathRun(before + after[..|after| - 1]), after[|after| - 1], client)
  {
    hide PathRun, EndsPass;
    var front := after[..|after| - 1];
    forall i | 0 <= i < |front| ensures !EndsPass(PathRun(before + front[..i]), front[i], client) {
      assert front[..i] == after[..i];
    }
  }

  /** A loop that does not come around does not check in, whatever else happens. */
  lemma {:induction false} StuckNeverChecksIn(cfg: W.Config, before: seq<Event>, after: seq<Event>, client: nat)
    requires cfg.Valid() && client < W.CLIENT_COUNT && Stuck(before, after, client)
    ensures WdogRun(cfg, before + after).clients[client].lastCheckin == WdogRun(cfg, before).clients[client].lastCheckin
  {
    hide WdogRun, WdogRunOn, PathRun, EndsPass, Seen;
    if after == [] {
      assert before + after == before;
    } else {
      var n := |after| - 1;
      var front := after[..n];
      StuckEarlier(before, after, client);
      StuckNeverChecksIn(cfg, before, front, client);
      assert before + after == before + front + [after[n]];
      Snoc(cfg, before + front, after[n]);
      OtherEventKeepsCheckin(cfg, WdogRun(cfg, before + front), PathRun(before + front), after[n], client);
    }
  }

  /** A task whose loop stops coming around - blocked for good, spinning, or starved - resets the
      board within its limit (with rounding) plus the programmed countdown after its last check-in,
      in every interleaving of everything else. */
  lemma StuckTaskResets(cfg: W.Config, before: seq<Event>, after: seq<Event>, client: nat)
    requires cfg.CountsOutlast() && cfg.running && client < W.CLIENT_COUNT && Stuck(before, after, client)
    ensures WdogRun(cfg, before + after).now
            < WdogRun(cfg, before).clients[client].lastCheckin + cfg.Allowed(client) + cfg.reload
  {
    StuckNeverChecksIn(cfg, before, after, client);
    WatchdogTheorems.SilenceBounded(cfg, SeenRun(before + after), client);
  }

  /** So does one whose task hangs on an injection: it may come around, but its check-in does not
      return. */
  lemma HungTaskResets(cfg: W.Config, before: seq<Event>, after: seq<Event>, client: nat)
    requires cfg.CountsOutlast() && cfg.running && client < W.CLIENT_COUNT
    ensures WdogRun(cfg, before + [Hang(client)] + after).now
            < WdogRun(cfg, before).clients[client].lastCheckin + cfg.Allowed(client) + cfg.reload
  {
    SeenSnoc(before, Hang(client));
    var more := SeenMore(before + [Hang(client)], after);
    WatchdogTheorems.InjectedHangResets(cfg, SeenRun(before), more, client);
  }

  lemma SeenSnoc(trace: seq<Event>, e: Event)
    ensures SeenRun(trace + [e]) == SeenRun(trace) + Seen(PathRun(trace), e)
  {
    assert (trace + [e])[..|trace|] == trace;
  }

  lemma {:induction false} SeenMore(before: seq<Event>, after: seq<Event>) returns (more: seq<W.Event>)
    ensures SeenRun(before + after) == SeenRun(before) + more
  {
    hide Seen, PathRun;
    if after == [] {
      more := [];
      assert before + after == before;
    } else {
      var n := |after| - 1;
      var front := SeenMore(before, after[..n]);
      SeenSnoc(before + after[..n], after[n]);
      assert before + after == before + after[..n] + [after[n]];
      more := front + Seen(PathRun(before + after[..n]), after[n]);
    }
  }

  // ---- loops that do come around ----

  /** What a loop's check-in does on a board not in reset, unless a hang was requested. */
  ghost predicate ChecksIn(cfg: W.Config, trace: seq<Event>, e: Event, client: nat)
    requires cfg.Valid() && client < W.CLIENT_COUNT
  {
    var s, s' := WdogRun(cfg, trace), WdogRun(cfg, trace + [e]);
    !s.expired && !s.clients[client].hangRequested ==>
      && s'.clients[client].lastCheckin == s'.now == s.now
      && forall other :: 0 <= other < W.CLIENT_COUNT && other != client ==> s'.clients[other] == s.clients[other]
  }

  /** The producer checks in when it ends a cycle, the consumer when it ends a pass, the UI with each
      of its passes. */
  lemma LoopsCheckIn(cfg: W.Config, trace: seq<Event>)
    requires cfg.Valid()
    ensures PathRun(trace).prod.pc.Rung? ==> ChecksIn(cfg, trace, Path(P.UpdateStats), PRODUCER)
    ensures PathRun(trace).cons.pc.PassEnd? ==> ChecksIn(cfg, trace, Path(P.EndPass), CONSUMER)
    ensures ChecksIn(cfg, trace, UiPass, UI)
  {
    hide ChecksIn, WdogRun, PathRun;
    if PathRun(trace).prod.pc.Rung? {
      PassChecksIn(cfg, trace, Path(P.UpdateStats), PRODUCER);
    }
    if PathRun(trace).cons.pc.PassEnd? {
      PassChecksIn(cfg, trace, Path(P.EndPass), CONSUMER);
    }
    PassChecksIn(cfg, trace, UiPass, UI);
  }

  lemma PassChecksIn(cfg: W.Config, trace: seq<Event>, e: Event, client: nat)
    requires cfg.Valid() && client < W.CLIENT_COUNT && EndsPass(PathRun(trace), e, client)
    ensures ChecksIn(cfg, trace, e, client)
  {
    SeenSnoc(trace, e);
    W.RunSnoc(cfg, W.INIT, SeenRun(trace), W.CheckIn(client));
    HungOnRequest(cfg, SeenRun(trace), client);
  }

  lemma {:induction false} HungOnRequest(cfg: W.Config, trace: seq<W.Event>, client: nat)
    requires cfg.Valid() && client < W.CLIENT_COUNT
    ensures var c := W.Run(cfg, trace).clients[client]; c.hung ==> c.hangRequested
  {
    if trace != [] {
      HungOnRequest(cfg, trace[..|trace| - 1], client);
    }
  }

  /** The time that passed. */
  function Clock(trace: seq<Event>): nat {
    if trace == [] then 0
    else Clock(trace[..|trace| - 1]) + match trace[|trace| - 1] case TimePasses(dt) => dt case _ => 0
  }

  /** The time when the client's loop last came around, 0 before it ever did. */
  function LastPass(trace: seq<Event>, client: nat): nat {
    if trace == [] then 0
    else
      var earlier, last := trace[..|trace| - 1], trace[|trace| - 1];
      if EndsPass(PathRun(earlier), last, client) then Clock(earlier) else LastPass(earlier, client)
  }

  /** The time of the supervisor's last look, 0 before any. */
  function LastLook(trace: seq<Event>): nat {
    if trace == [] then 0
    else if trace[|trace| - 1].SupervisorCheck? then Clock(trace[..|trace| - 1])
    else LastLook(trace[..|trace| - 1])
  }

  function Looks(trace: seq<Event>): nat {
    if trace == [] then 0
    else Looks(trace[..|trace| - 1]) + if trace[|trace| - 1].SupervisorCheck? then 1 else 0
  }

  /** Every loop came around within its limit, and the supervisor was late by at most one period. */
  predicate OnTime(cfg: W.Config, trace: seq<Event>) {
    && Clock(trace) <= LastLook(trace) + 2 * W.CHECK_PERIOD_MS * cfg.ms
    && forall client :: 0 <= client < W.CLIENT_COUNT ==> Clock(trace) <= LastPass(trace, client) + W.LIMITS[client] * cfg.ms
  }

  /** Always, and no hang was injected. */
  predicate AlwaysOnTime(cfg: W.Config, trace: seq<Event>) {
    OnTime(cfg, trace) &&
    (trace == [] || (!trace[|trace| - 1].Hang? && AlwaysOnTime(cfg, trace[..|trace| - 1])))
  }

  /** The supervisor's records are those of the loops. */
  ghost predicate Follows(cfg: W.Config, s: W.State, trace: seq<Event>) {
    && s.Shape() && !s.expired && s.now == Clock(trace) && s.lastCheck == LastLook(trace)
    && forall client :: 0 <= client < W.CLIENT_COUNT ==>
         s.clients[client].lastCheckin == LastPass(trace, client)
         && !s.clients[client].hangRequested && !s.clients[client].hung
  }

  /** A board whose countdown is longer than the timeout asked for, or that has none and lets the
      supervisor be late by a period. */
  predicate Suits(cfg: W.Config) {
    && cfg.Valid() && WatchdogTheorems.RateFits(cfg.tickHz)
    && if cfg.running then cfg.reload > W.TIMEOUT_MS * cfg.ms else cfg.gap >= 2 * W.CHECK_PERIOD_MS * cfg.ms
  }

  /** While every loop comes around within its limit and the supervisor keeps its period, no reset: in
      every interleaving every look kicks, and the watchdog never expires. */
  lemma LoopsOnTimeAreSafe(cfg: W.Config, trace: seq<Event>)
    requires Suits(cfg) && AlwaysOnTime(cfg, trace)
    ensures
      var s := WdogRun(cfg, trace);
      && s.kicking && !s.expired && s.now == Clock(trace)
      && s.kicks == if cfg.running then Looks(trace) else 0
  {
    OnTimeIsHealthy(cfg, trace);
    WatchdogTheorems.NoSpuriousReset(cfg, SeenRun(trace));
    W.RunKeepsTiming(cfg, SeenRun(trace));
    LooksSeen(trace);
  }

  lemma {:induction false} OnTimeIsHealthy(cfg: W.Config, trace: seq<Event>)
    requires Suits(cfg) && AlwaysOnTime(cfg, trace)
    ensures Follows(cfg, WdogRun(cfg, trace), trace) && WatchdogTheorems.Healthy(cfg, SeenRun(trace))
  {
    if trace != [] {
      var earlier, e := trace[..|trace| - 1], trace[|trace| - 1];
      OnTimeIsHealthy(cfg, earlier);
      assert earlier + [e] == trace;
      OnTimeStep(cfg, earlier, e);
    }
  }

  lemma OnTimeStep(cfg: W.Config, trace: seq<Event>, e: Event)
    requires Suits(cfg) && OnTime(cfg, trace + [e]) && !e.Hang?
    requires Follows(cfg, WdogRun(cfg, trace), trace) && WatchdogTheorems.Healthy(cfg, SeenRun(trace))
    ensures Follows(cfg, WdogRun(cfg, trace + [e]), trace + [e])
    ensures WatchdogTheorems.Healthy(cfg, SeenRun(trace + [e]))
  {
    hide PathRun, Seen, Follows, OnTime, WatchdogTheorems.Healthy, W.Run;
    SeenSnoc(trace, e);
    var path := PathRun(trace);
    var seen := Seen(path, e);
    AtMostOne(path, e);
    if seen == [] {
      assert SeenRun(trace + [e]) == SeenRun(trace);
      FollowsUnseen(cfg, WdogRun(cfg, trace), trace, e);
    } else {
      assert SeenRun(trace + [e]) == SeenRun(trace) + [seen[0]];
      WatchdogTheorems.NoSpuriousReset(cfg, SeenRun(trace));
      W.RunKeepsTiming(cfg, SeenRun(trace));
      RunOne(cfg, SeenRun(trace), seen[0]);
      FollowsSeen(cfg, WdogRun(cfg, trace), trace, e);
      OnTimeIsHealthyNow(cfg, WdogRun(cfg, trace + [e]), trace + [e]);
      WatchdogTheorems.HealthySnoc(cfg, SeenRun(trace), seen[0]);
    }
  }

  lemma RunOne(cfg: W.Config, trace: seq<W.Event>, e: W.Event)
    requires cfg.Valid()
    ensures W.Run(cfg, trace + [e]) == W.Next(cfg, W.Run(cfg, trace), e)
  {
    W.RunSnoc(cfg, W.INIT, trace, e);
  }

  lemma AtMostOne(s: P.State, e: Event)
    ensures |Seen(s, e)| <= 1
  {
  }

  lemma LoopsSnoc(trace: seq<Event>, e: Event, client: nat)
    ensures Clock(trace + [e]) == Clock(trace) + if e.TimePasses? then e.dt else 0
    ensures LastPass(trace + [e], client)
            == if EndsPass(PathRun(trace), e, client) then Clock(trace) else LastPass(trace, client)
    ensures LastLook(trace + [e]) == if e.SupervisorCheck? then Clock(trace) else LastLook(trace)
    ensures Looks(trace + [e]) == Looks(trace) + if e.SupervisorCheck? then 1 else 0
  {
    assert (trace + [e])[..|trace|] == trace;
  }

  lemma OnTimeIsHealthyNow(cfg: W.Config, s: W.State, trace: seq<Event>)
    requires Follows(cfg, s, trace) && OnTime(cfg, trace)
    ensures WatchdogTheorems.HealthyNow(cfg, s)
  {
  }

  lemma FollowsUnseen(cfg: W.Config, s: W.State, trace: seq<Event>, e: Event)
    requires Follows(cfg, s, trace) && !e.Hang? && Seen(PathRun(trace), e) == []
    ensures Follows(cfg, s, trace + [e])
  {
    hide PathRun;
    LoopsSnoc(trace, e, PRODUCER);
    LoopsSnoc(trace, e, UI);
    LoopsSnoc(trace, e, CONSUMER);
  }

  lemma FollowsSeen(cfg: W.Config, s: W.State, trace: seq<Event>, e: Event)
    requires Suits(cfg) && OnTime(cfg, trace + [e]) && !e.Hang?
    requires Follows(cfg, s, trace) && s.kicking && W.Timing(cfg, s) && |Seen(PathRun(trace), e)| == 1
    ensures Follows(cfg, W.Next(cfg, s, Seen(PathRun(trace), e)[0]), trace + [e])
  {
    hide PathRun, OnTime, W.Next, Follows, W.Timing;
    if e.TimePasses? {
      FollowsTime(cfg, s, trace, e);
    } else if e.SupervisorCheck? {
      FollowsLook(cfg, s, trace, e);
    } else {
      var client := if EndsPass(PathRun(trace), e, PRODUCER) then PRODUCER else if e == UiPass then UI else CONSUMER;
      FollowsPass(cfg, s, trace, e, client);
    }
  }

  lemma FollowsTime(cfg: W.Config, s: W.State, trace: seq<Event>, e: Event)
    requires Suits(cfg) && OnTime(cfg, trace + [e]) && e.TimePasses?
    requires Follows(cfg, s, trace) && s.kicking && W.Timing(cfg, s)
    ensures Follows(cfg, W.Next(cfg, s, W.Advance(e.dt)), trace + [e])
  {
    hide PathRun, Clock, LastPass, LastLook, W.Timing;
    LoopsSnoc(trace, e, PRODUCER);
    LoopsSnoc(trace, e, UI);
    LoopsSnoc(trace, e, CONSUMER);
    TimeStays(cfg, s, Clock(trace + [e]));
  }

  lemma FollowsLook(cfg: W.Config, s: W.State, trace: seq<Event>, e: Event)
    requires cfg.Valid() && e.SupervisorCheck? && Follows(cfg, s, trace)
    ensures Follows(cfg, W.Next(cfg, s, W.Check), trace + [e])
  {
    hide PathRun, Clock, LastPass, LastLook, W.Silences, W.AnyLate, W.Worse;
    LoopsSnoc(trace, e, PRODUCER);
    LoopsSnoc(trace, e, UI);
    LoopsSnoc(trace, e, CONSUMER);
  }

  lemma FollowsPass(cfg: W.Config, s: W.State, trace: seq<Event>, e: Event, client: nat)
    requires cfg.Valid() && client < W.CLIENT_COUNT && EndsPass(PathRun(trace), e, client) && Follows(cfg, s, trace)
    ensures Follows(cfg, W.Next(cfg, s, W.CheckIn(client)), trace + [e])
  {
    hide PathRun, Clock, LastPass, LastLook;
    LoopsSnoc(trace, e, PRODUCER);
    LoopsSnoc(trace, e, UI);
    LoopsSnoc(trace, e, CONSUMER);
  }

  lemma TimeStays(cfg: W.Config, s: W.State, later: nat)
    requires Suits(cfg) && W.Timing(cfg, s) && s.kicking && !s.expired
    requires s.now <= later <= s.lastCheck + 2 * W.CHECK_PERIOD_MS * cfg.ms
    ensures W.AdvanceStep(cfg, s, later - s.now) == s.(now := later)
  {
  }

  lemma SeenCounts(seen: seq<W.Event>, s: P.State, e: Event)
    ensures WatchdogTheorems.Checks(seen + Seen(s, e)) == WatchdogTheorems.Checks(seen) + if e.SupervisorCheck? then 1 else 0
  {
    AtMostOne(s, e);
    if Seen(s, e) == [] {
      assert seen + Seen(s, e) == seen;
    } else {
      assert (seen + Seen(s, e))[..|seen|] == seen;
    }
  }

  lemma {:induction false} LooksSeen(trace: seq<Event>)
    ensures WatchdogTheorems.Checks(SeenRun(trace)) == Looks(trace)
  {
    hide Seen, PathRun;
    if trace != [] {
      var earlier, e := trace[..|trace| - 1], trace[|trace| - 1];
      LooksSeen(earlier);
      SeenCounts(SeenRun(earlier), PathRun(earlier), e);
    }
  }

  // ---- no more ticks ----

  predicate NoTick(events: seq<Event>) {
    forall i :: 0 <= i < |events| ==> events[i] != Path(P.Tick)
  }

  /** The cycles the producer can still finish without another tick: the one it is in, and one more
      for all the ticks already pending. */
  function CyclesLeft(s: P.State): nat {
    (if s.prod.pc.WaitTick? then 0 else 1) + (if s.notify > 0 then 1 else 0)
  }

  /** Producer cycles finished during `after`. */
  function Cycles(before: seq<Event>, after: seq<Event>): nat {
    if after == [] then 0
    else
      var front := after[..|after| - 1];
      Cycles(before, front)
      + if EndsPass(PathRun(before + front), after[|after| - 1], PRODUCER) then 1 else 0
  }

  lemma CycleUsesTicks(s: P.State, e: Event)
    requires e != Path(P.Tick)
    ensures CyclesLeft(PathStep(s, e)) + (if EndsPass(s, e, PRODUCER) then 1 else 0) <= CyclesLeft(s)
  {
  }

  lemma AtMostTwo(s: P.State)
    ensures CyclesLeft(s) <= 2
  {
  }

  /** After the last tick the producer finishes at most two more cycles. */
  lemma {:induction false} FewCyclesLeft(before: seq<Event>, after: seq<Event>)
    requires NoTick(after)
    ensures Cycles(before, after) + CyclesLeft(PathRun(before + after)) <= CyclesLeft(PathRun(before)) <= 2
  {
    hide PathRun, PathStep, EndsPass, CyclesLeft;
    AtMostTwo(PathRun(before));
    if after == [] {
      assert before + after == before;
    } else {
      var front, e := after[..|after| - 1], after[|after| - 1];
      FewCyclesLeft(before, front);
      assert before + after == before + front + [e];
      PathSnoc(before + front, e);
      CycleUsesTicks(PathRun(before + front), e);
    }
  }

  /** Between two check-ins of the producer, and from the last one on, no more time passes than this
      on any run that goes on. */
  function Spell(cfg: W.Config): nat
    requires cfg.Valid()
  {
    cfg.Allowed(PRODUCER) + cfg.reload
  }

  /** So the producer's last check-in moves by at most one such spell per cycle finished. */
  lemma {:induction false} CheckinMoves(cfg: W.Config, before: seq<Event>, after: seq<Event>)
    requires cfg.CountsOutlast() && cfg.running
    ensures WdogRun(cfg, before + after).clients[PRODUCER].lastCheckin
            <= WdogRun(cfg, before).clients[PRODUCER].lastCheckin + Cycles(before, after) * Spell(cfg)
  {
    hide WdogRun, WdogRunOn, PathRun, EndsPass, Seen, Spell;
    if after == [] {
      assert before + after == before;
    } else {
      var front, e := after[..|after| - 1], after[|after| - 1];
      CheckinMoves(cfg, before, front);
      assert before + after == before + front + [e];
      OneEventMoves(cfg, before + front, e);
      var finished := if EndsPass(PathRun(before + front), e, PRODUCER) then 1 else 0;
      assert Cycles(before, after) * Spell(cfg) == Cycles(before, front) * Spell(cfg) + finished * Spell(cfg);
    }
  }

  lemma OneEventMoves(cfg: W.Config, trace: seq<Event>, e: Event)
    requires cfg.CountsOutlast() && cfg.running
    ensures WdogRun(cfg, trace + [e]).clients[PRODUCER].lastCheckin
            <= WdogRun(cfg, trace).clients[PRODUCER].lastCheckin
               + (if EndsPass(PathRun(trace), e, PRODUCER) then Spell(cfg) else 0)
  {
    hide WdogRun, WdogRunOn, PathRun;
    Snoc(cfg, trace, e);
    if EndsPass(PathRun(trace), e, PRODUCER) {
      ProducerCheckin(cfg, WdogRun(cfg, trace));
      InTime(cfg, trace);
    } else {
      OtherEventKeepsCheckin(cfg, WdogRun(cfg, trace), PathRun(trace), e, PRODUCER);
    }
  }

  lemma ProducerCheckin(cfg: W.Config, s: W.State)
    requires cfg.Valid() && s.Shape()
    ensures WdogRunOn(cfg, s, [W.CheckIn(PRODUCER)]).clients[PRODUCER].lastCheckin
            <= if s.clients[PRODUCER].lastCheckin < s.now then s.now else s.clients[PRODUCER].lastCheckin
  {
    assert [] + [W.CheckIn(PRODUCER)] == [W.CheckIn(PRODUCER)];
    W.RunSnoc(cfg, s, [], W.CheckIn(PRODUCER));
  }

  lemma InTime(cfg: W.Config, trace: seq<Event>)
    requires cfg.CountsOutlast() && cfg.running
    ensures WdogRun(cfg, trace).now < WdogRun(cfg, trace).clients[PRODUCER].lastCheckin + Spell(cfg)
  {
    WatchdogTheorems.SilenceBounded(cfg, SeenRun(trace), PRODUCER);
  }

  /** A silent sample timer resets the board, though the producer's waits keep timing out punctually:
      from any moment on, every run without another tick ends within one spell per cycle the producer
      can still finish, and one more - at most three - after the producer's last check-in. */
  lemma StoppedTimerResets(cfg: W.Config, before: seq<Event>, after: seq<Event>)
    requires cfg.CountsOutlast() && cfg.running && NoTick(after)
    ensures WdogRun(cfg, before + after).now
            < WdogRun(cfg, before).clients[PRODUCER].lastCheckin + (CyclesLeft(PathRun(before)) + 1) * Spell(cfg)
    ensures CyclesLeft(PathRun(before)) <= 2
  {
    hide WdogRun, PathRun, CyclesLeft, Spell, Cycles;
    FewCyclesLeft(before, after);
    CheckinMoves(cfg, before, after);
    InTime(cfg, before + after);
    SpellsAddUp(Cycles(before, after), CyclesLeft(PathRun(before)), Spell(cfg));
  }

  lemma SpellsAddUp(n: nat, most: nat, spell: nat)
    requires n <= most
    ensures n * spell + spell <= (most + 1) * spell
  {
    assert (most + 1) * spell == n * spell + spell + (most - n) * spell;
  }
}
