/** Exactly how far the watchdog's promises reach: runs that meet each bound, and the conditions
    under which a figure in the documentation holds. */
module WatchdogLimits {
  import opened Word
  import opened Watchdog
  import opened WatchdogTheorems

  // ---- building runs in which one client stays silent ----

  /** Nobody hangs. */
  predicate NoHang(s: State)
    requires s.Shape()
  {
    forall client :: 0 <= client < CLIENT_COUNT ==> !s.clients[client].hangRequested && !s.clients[client].hung
  }

  /** Some time passes and everyone but one client checks in. */
  function LeadUp(dt: nat, silent: nat): seq<Event> {
    [Advance(dt), CheckIn((silent + 1) % 3), CheckIn((silent + 2) % 3)]
  }

  /** Then the supervisor looks. */
  function Round(dt: nat, silent: nat): seq<Event> {
    LeadUp(dt, silent) + [Check]
  }

  /** So much time can pass without a reset, or a supervisor that is not there. */
  predicate Bearable(cfg: Config, s: State, dt: nat)
    requires cfg.Valid()
  {
    if cfg.running then s.now + dt < s.lastRestart + cfg.reload else s.now + dt <= s.lastCheck + cfg.gap
  }

  /** The state after the lead-up: only the silent client has not just checked in. */
  ghost predicate Led(cfg: Config, s: State, p: State, dt: nat, silent: nat)
    requires cfg.Valid() && s.Shape() && silent < CLIENT_COUNT
  {
    && p.Shape() && NoHang(p) && p.clients[silent] == s.clients[silent]
    && p == s.(now := s.now + dt, clients := p.clients)
    && forall other :: 0 <= other < CLIENT_COUNT && other != silent ==>
         p.clients[other] == Client(p.now, cfg.TickCount(p.now), false, false)
  }

  lemma RunThree(cfg: Config, s: State, a: Event, b: Event, c: Event)
    requires cfg.Valid() && s.Shape()
    ensures RunFrom(cfg, s, [a, b, c]) == Next(cfg, Next(cfg, Next(cfg, s, a), b), c)
  {
    hide Next;
    assert [] + [a] == [a] && [a] + [b] == [a, b] && [a, b] + [c] == [a, b, c];
    RunSnoc(cfg, s, [], a);
    RunSnoc(cfg, s, [a], b);
    RunSnoc(cfg, s, [a, b], c);
  }

  lemma LeadUpLeads(cfg: Config, s: State, dt: nat, silent: nat)
    requires cfg.Valid() && s.Shape() && NoHang(s) && !s.expired && Bearable(cfg, s, dt) && silent < CLIENT_COUNT
    ensures Led(cfg, s, RunFrom(cfg, s, LeadUp(dt, silent)), dt, silent)
  {
    hide Config.TickAt;
    RunThree(cfg, s, Advance(dt), CheckIn((silent + 1) % 3), CheckIn((silent + 2) % 3));
    assert silent == 0 || silent == 1 || silent == 2;
  }

  lemma JustHeard(cfg: Config, now: nat)
    requires cfg.Valid()
    ensures SilenceMs(cfg, now, cfg.TickCount(now)) == 0
  {
    ConversionExact(0, cfg.tickHz);
  }

  /** When the silent client does not seem late, nobody does, and the check kicks. */
  lemma NobodySeemsLate(cfg: Config, s: State, p: State, dt: nat, silent: nat)
    requires cfg.Valid() && s.Shape() && silent < CLIENT_COUNT && Led(cfg, s, p, dt, silent)
    requires SilenceMs(cfg, p.now, s.clients[silent].checkinTick) <= LIMITS[silent]
    ensures !AnyLate(Silences(cfg, p))
  {
    hide SilenceMs, Config.TickAt;
    JustHeard(cfg, p.now);
  }

  /** The state after a whole round. */
  ghost predicate Passed(cfg: Config, s: State, s': State, dt: nat, silent: nat)
    requires cfg.Valid() && s.Shape() && silent < CLIENT_COUNT
  {
    && s'.Shape() && NoHang(s') && s'.clients[silent] == s.clients[silent]
    && s'.now == s.now + dt == s'.lastCheck && s'.kicking && !s'.expired
    && s'.lastRestart == (if cfg.running then s'.now else s.lastRestart)
  }

  lemma RoundPasses(cfg: Config, s: State, dt: nat, silent: nat)
    requires cfg.Valid() && s.Shape() && NoHang(s) && !s.expired && s.kicking && Bearable(cfg, s, dt)
    requires silent < CLIENT_COUNT
    requires SilenceMs(cfg, s.now + dt, s.clients[silent].checkinTick) <= LIMITS[silent]
    ensures Passed(cfg, s, RunFrom(cfg, s, Round(dt, silent)), dt, silent)
  {
    hide SilenceMs, Config.TickAt, Worse, AnyLate;
    LeadUpLeads(cfg, s, dt, silent);
    NobodySeemsLate(cfg, s, RunFrom(cfg, s, LeadUp(dt, silent)), dt, silent);
    RunSnoc(cfg, s, LeadUp(dt, silent), Check);
  }

  // ---- which boards can hide a silence ----

  /** Every check that kicks finds all clients truly within their limits. */
  ghost predicate NoRunHides(cfg: Config)
    requires cfg.Valid()
  {
    forall trace | !Run(cfg, trace).expired && Run(cfg, trace + [Check]).kicking :: AllPunctual(cfg, Run(cfg, trace))
  }

  /** The boards on which no run can hide a silence are exactly those whose counts outlast the time
      between two checks. */
  lemma BoardsThatHide(cfg: Config)
    requires cfg.Valid()
    ensures NoRunHides(cfg) <==> cfg.CountsOutlast()
  {
    if cfg.CountsOutlast() {
      forall trace | !Run(cfg, trace).expired && Run(cfg, trace + [Check]).kicking
        ensures AllPunctual(cfg, Run(cfg, trace))
      {
        KicksWhenAllPunctual(cfg, trace);
      }
    } else {
      var trace := HidingRun(cfg);
      assert !AllPunctual(cfg, Run(cfg, trace));
    }
  }

  /** The time from a consumer's first tick to the end of its last punctual one, */
  function PunctualTime(cfg: Config): nat
    requires cfg.Valid()
  {
    MostPunctual(LIMITS[2], cfg.tickHz) * cfg.tick + cfg.tick - 1 - cfg.phase
  }

  /** and from there to the first tick at which its silence is hidden. */
  function HidingTime(cfg: Config): int
    requires cfg.Valid()
  {
    (FirstHidden(cfg.tickHz) - MostPunctual(LIMITS[2], cfg.tickHz) - 1) * cfg.tick + 1
  }

  lemma HiddenMuchLater(cfg: Config)
    requires cfg.Valid()
    ensures 2 * MostPunctual(LIMITS[2], cfg.tickHz) + 2 <= FirstHidden(cfg.tickHz)
    ensures 0 <= PunctualTime(cfg) < HidingTime(cfg)
  {
    var most, first := MostPunctual(LIMITS[2], cfg.tickHz), FirstHidden(cfg.tickHz);
    MulLe(most + 1, first - most - 1, cfg.tick);
    assert (most + 1) * cfg.tick == most * cfg.tick + cfg.tick;
  }

  lemma TicksAtPunctualTime(cfg: Config)
    requires cfg.Valid()
    ensures cfg.TickAt(PunctualTime(cfg)) == MostPunctual(LIMITS[2], cfg.tickHz)
    ensures HidingTime(cfg) >= 0 ==> cfg.TickAt(PunctualTime(cfg) + HidingTime(cfg)) == FirstHidden(cfg.tickHz)
    ensures cfg.TickAt(0) == 0
  {
    hide MostPunctual, FirstHidden;
    var most: int, first: int := MostPunctual(LIMITS[2], cfg.tickHz), FirstHidden(cfg.tickHz);
    EndOfTick(most, cfg.tick);
    JoinTicks(most, first - most - 1, cfg.tick);
    EndOfTick(0, cfg.tick);
  }

  lemma EndOfTick(ticks: nat, tick: nat)
    requires 0 < tick
    ensures (ticks * tick + tick - 1) / tick == ticks && (ticks * tick) / tick == ticks
    ensures forall part: nat | part < tick :: part / tick == 0
  {
    DivModUnique(ticks * tick + tick - 1, tick, ticks, tick - 1);
    DivModUnique(ticks * tick, tick, ticks, 0);
    forall part: nat | part < tick ensures part / tick == 0 {
      DivModUnique(part, tick, 0, part);
    }
  }

  lemma JoinTicks(a: int, b: int, tick: nat)
    requires 0 < tick && 0 <= a + b + 1
    ensures a * tick + tick - 1 + (b * tick + 1) == (a + b + 1) * tick
    ensures (a * tick + tick - 1 + (b * tick + 1)) / tick == a + b + 1
  {
    assert (a + b + 1) * tick == a * tick + b * tick + tick;
    EndOfTick(a + b + 1, tick);
  }

  /** The consumer is silent from the start; it is punctual to the last at the first check, and its
      silence hidden at the second. */
  lemma HidingRun(cfg: Config) returns (trace: seq<Event>)
    requires cfg.Valid() && !cfg.CountsOutlast()
    ensures !Run(cfg, trace).expired && Run(cfg, trace + [Check]).kicking && !AllPunctual(cfg, Run(cfg, trace))
  {
    hide SilenceMs, Config.TickAt, PunctualTime, HidingTime, AllPunctual, FirstHidden, MostPunctual;
    var t0, dt := PunctualTime(cfg), HidingTime(cfg);
    HiddenMuchLater(cfg);
    HorizonTooLong(cfg);
    var s0 := INIT;
    PunctualAtFirst(cfg);
    RoundPasses(cfg, s0, t0, 2);
    var s1 := RunFrom(cfg, s0, Round(t0, 2));
    HiddenAtSecond(cfg);
    LeadUpLeads(cfg, s1, dt, 2);
    RoundPasses(cfg, s1, dt, 2);
    trace := Round(t0, 2) + LeadUp(dt, 2);
    RunConcat(cfg, s0, Round(t0, 2), LeadUp(dt, 2));
    RunConcat(cfg, s0, Round(t0, 2), Round(dt, 2));
    assert trace + [Check] == Round(t0, 2) + Round(dt, 2);
    NotAllPunctual(cfg, Run(cfg, trace));
  }

  lemma HorizonTooLong(cfg: Config)
    requires cfg.Valid() && !cfg.CountsOutlast()
    ensures HidingTime(cfg) <= cfg.Horizon()
  {
  }

  lemma PunctualAtFirst(cfg: Config)
    requires cfg.Valid()
    ensures SilenceMs(cfg, PunctualTime(cfg), 0) <= LIMITS[2]
  {
    var most := MostPunctual(LIMITS[2], cfg.tickHz);
    TicksAtPunctualTime(cfg);
    HiddenMuchLater(cfg);
    PunctualTicks(most, cfg.tickHz, LIMITS[2]);
    hide Config.TickAt, PunctualTime;
    SilenceExact(cfg, 0, PunctualTime(cfg));
  }

  lemma HiddenAtSecond(cfg: Config)
    requires cfg.Valid()
    ensures HidingTime(cfg) >= 0 && SilenceMs(cfg, PunctualTime(cfg) + HidingTime(cfg), 0) <= LIMITS[2]
  {
    TicksAtPunctualTime(cfg);
    HiddenMuchLater(cfg);
    hide Config.TickAt, PunctualTime, HidingTime;
    SilenceHidden(cfg, 0, PunctualTime(cfg) + HidingTime(cfg));
  }

  lemma NotAllPunctual(cfg: Config, s: State)
    requires cfg.Valid() && s.Shape() && HidingTime(cfg) >= 0 && s.now == PunctualTime(cfg) + HidingTime(cfg)
    requires s.clients[2].lastCheckin == 0
    ensures !AllPunctual(cfg, s)
  {
    TicksAtPunctualTime(cfg);
    HiddenMuchLater(cfg);
    PunctualTicks(FirstHidden(cfg.tickHz), cfg.tickHz, LIMITS[2]);
    hide Config.TickAt, PunctualTime, HidingTime, MostPunctual, FirstHidden;
    assert TrueSilenceMs(cfg, s.clients[2].lastCheckin, s.now) > LIMITS[2];
  }

  // ---- the worst case is met ----

  /** A run in which the board is reset exactly `WorstCase` after the client's last check-in, so no
      smaller bound holds. */
  lemma WorstCaseMet(cfg: Config, client: nat) returns (trace: seq<Event>)
    requires cfg.CountsOutlast() && cfg.running && cfg.reload > TIMEOUT_MS * cfg.ms && client < CLIENT_COUNT
    ensures Run(cfg, trace).expired
    ensures Run(cfg, trace).now == Run(cfg, trace).clients[client].lastCheckin + WorstCase(cfg, client)
  {
    hide SilenceMs, Config.TickAt, MostPunctual;
    var s0 := HeardAtTickStart(cfg, client);
    var x := LastPunctual(cfg, client);
    LastPunctualIsShort(cfg, client);
    HalfwayPunctual(cfg, client, x / 2);
    RoundPasses(cfg, s0.1, x / 2, client);
    var s1 := RunFrom(cfg, s0.1, Round(x / 2, client));
    HalfwayPunctual(cfg, client, x);
    RoundPasses(cfg, s1, x - x / 2, client);
    var s2 := RunFrom(cfg, s1, Round(x - x / 2, client));
    var t1, t2 := s0.0 + Round(x / 2, client), s0.0 + Round(x / 2, client) + Round(x - x / 2, client);
    RunConcat(cfg, INIT, s0.0, Round(x / 2, client));
    RunConcat(cfg, INIT, t1, Round(x - x / 2, client));
    trace := t2 + [Advance(cfg.reload)];
    RunSnoc(cfg, INIT, t2, Advance(cfg.reload));
  }

  /** The time from a tick's start to the end of the last tick within the client's limit. */
  function LastPunctual(cfg: Config, client: nat): nat
    requires cfg.Valid() && client < CLIENT_COUNT
  {
    (MostPunctual(LIMITS[client], cfg.tickHz) + 1) * cfg.tick - 1
  }

  lemma LastPunctualIsShort(cfg: Config, client: nat)
    requires cfg.Valid() && cfg.reload > TIMEOUT_MS * cfg.ms && client < CLIENT_COUNT
    ensures cfg.tick - cfg.phase + LastPunctual(cfg, client) / 2 + 1 < cfg.reload
  {
    MostPunctualTime(cfg, client);
    TickAtMost(cfg);
    MulLe(LIMITS[client] + 1, 2001, cfg.ms);
  }

  /** The client checks in at the start of the first tick. */
  lemma HeardAtTickStart(cfg: Config, client: nat) returns (r: (seq<Event>, State))
    requires cfg.Valid() && cfg.running && cfg.reload > TIMEOUT_MS * cfg.ms && client < CLIENT_COUNT
    ensures r.1 == Run(cfg, r.0) == INIT.(
              now := cfg.tick - cfg.phase,
              clients := INIT.clients[client := Client(cfg.tick - cfg.phase, cfg.TickCount(cfg.tick - cfg.phase), false, false)])
    ensures cfg.TickAt(cfg.tick - cfg.phase) == 1
  {
    var t := cfg.tick - cfg.phase;
    TickAtMost(cfg);
    assert [] + [Advance(t)] == [Advance(t)] && [Advance(t)] + [CheckIn(client)] == [Advance(t), CheckIn(client)];
    RunSnoc(cfg, INIT, [], Advance(t));
    RunSnoc(cfg, INIT, [Advance(t)], CheckIn(client));
    r := ([Advance(t), CheckIn(client)], Run(cfg, [Advance(t), CheckIn(client)]));
    DivShift(0, cfg.tick, 1);
  }

  /** Up to then the client does not seem late. */
  lemma HalfwayPunctual(cfg: Config, client: nat, dt: nat)
    requires cfg.Valid() && client < CLIENT_COUNT && dt <= LastPunctual(cfg, client)
    ensures SilenceMs(cfg, cfg.tick - cfg.phase + dt, cfg.TickCount(cfg.tick - cfg.phase)) <= LIMITS[client]
  {
    var from := cfg.tick - cfg.phase;
    var most := MostPunctual(LIMITS[client], cfg.tickHz);
    DivShift(0, cfg.tick, 1);
    assert cfg.TickAt(from) == 1;
    TicksOfSpan(cfg.tick, dt, most);
    assert cfg.TickAt(from + dt) <= most + 1;
    HiddenMuchLater(cfg);
    MostPunctualGrows(LIMITS[client], cfg.tickHz);
    PunctualTicks(TicksBetween(cfg, from, from + dt), cfg.tickHz, LIMITS[client]);
    hide Config.TickAt;
    SilenceExact(cfg, from, from + dt);
  }

  lemma TicksOfSpan(tick: nat, dt: nat, most: nat)
    requires 0 < tick && dt < (most + 1) * tick
    ensures (tick + dt) / tick <= most + 1
  {
    FloorAtMost(tick + dt, tick, most + 1);
    assert (most + 2) * tick == (most + 1) * tick + tick;
  }

  /** The documented worst case: limit, check period and configured timeout, 2000 ms. */
  ghost predicate KeepsDocumentedBound(cfg: Config, client: nat)
    requires cfg.Valid() && client < CLIENT_COUNT
  {
    forall trace :: Run(cfg, trace).now <= Run(cfg, trace).clients[client].lastCheckin + DocumentedMs(client) * cfg.ms
  }

  function DocumentedMs(client: nat): nat
    requires client < CLIENT_COUNT
  {
    LIMITS[client] + CHECK_PERIOD_MS + TIMEOUT_MS
  }

  /** It holds in every run exactly when the countdown programmed is short enough for it. */
  lemma DocumentedBound(cfg: Config, client: nat)
    requires cfg.CountsOutlast() && cfg.running && cfg.reload > TIMEOUT_MS * cfg.ms && client < CLIENT_COUNT
    ensures KeepsDocumentedBound(cfg, client) <==> WorstCase(cfg, client) <= DocumentedMs(client) * cfg.ms
  {
    hide WorstCase;
    if WorstCase(cfg, client) <= DocumentedMs(client) * cfg.ms {
      forall trace
        ensures Run(cfg, trace).now <= Run(cfg, trace).clients[client].lastCheckin + DocumentedMs(client) * cfg.ms
      {
        ResetByWorstCase(cfg, trace, client);
      }
    } else {
      var trace := WorstCaseMet(cfg, client);
    }
  }

  /** A countdown up to 2239 ms is. */
  lemma ShortCountdownKeepsBound(cfg: Config, client: nat)
    requires cfg.CountsOutlast() && cfg.running && client < CLIENT_COUNT
    requires TIMEOUT_MS * cfg.ms < cfg.reload <= 2239 * cfg.ms
    ensures KeepsDocumentedBound(cfg, client)
  {
    MostPunctualTime(cfg, client);
    TickAtMost(cfg);
    DocumentedBound(cfg, client);
  }

  // ---- when the late line comes ----

  /** A check so long after a client's last check-in always stops the kicks, */
  lemma LateCheckStops(cfg: Config, trace: seq<Event>, client: nat)
    requires cfg.CountsOutlast() && client < CLIENT_COUNT && !Run(cfg, trace).expired
    requires Run(cfg, trace).now >= Run(cfg, trace).clients[client].lastCheckin + cfg.Allowed(client)
    ensures !Run(cfg, trace + [Check]).kicking
  {
    hide Config.TickAt;
    KicksWhenAllPunctual(cfg, trace);
    var s := Run(cfg, trace);
    TickAccuracy(cfg, s.clients[client].lastCheckin, s.now);
    MsOfTicks(cfg, TicksBetween(cfg, s.clients[client].lastCheckin, s.now), LIMITS[client]);
  }

  /** so with a supervisor that keeps its period, kicking has stopped one period after that at the
      latest; */
  lemma LateLineInTime(cfg: Config, trace: seq<Event>, client: nat, period: nat)
    requires cfg.CountsOutlast() && client < CLIENT_COUNT
    requires Run(cfg, trace).now <= Run(cfg, trace).lastCheck + period
    requires Run(cfg, trace).now >= Run(cfg, trace).clients[client].lastCheckin + cfg.Allowed(client) + period
    ensures !Run(cfg, trace).kicking
  {
    if Run(cfg, trace).kicking {
      SilenceIsTrue(cfg, trace, client);
    }
  }

  /** and it never stops before some client has been silent for its limit and a millisecond, less the
      tick the counter may be ahead. */
  lemma LateLineNotEarly(cfg: Config, trace: seq<Event>) returns (client: nat)
    requires cfg.CountsOutlast() && !Run(cfg, trace).expired
    requires Run(cfg, trace).kicking && !Run(cfg, trace + [Check]).kicking
    ensures client < CLIENT_COUNT
    ensures Run(cfg, trace).now + cfg.tick
            > Run(cfg, trace).clients[client].lastCheckin + (LIMITS[client] + 1) * cfg.ms
  {
    hide Config.TickAt, TrueSilenceMs;
    var s := Run(cfg, trace);
    RunKeepsInv(cfg, trace);
    KicksWhenAllPunctual(cfg, trace);
    client :| 0 <= client < CLIENT_COUNT && !(
      && s.clients[client].lastCheckin <= s.now
      && TrueSilenceMs(cfg, s.clients[client].lastCheckin, s.now) <= LIMITS[client]);
    assert ClientTiming(cfg, s, client);
    LateIsLong(cfg, client, s.clients[client].lastCheckin, s.now);
  }

  lemma LateIsLong(cfg: Config, client: nat, from: nat, now: nat)
    requires cfg.Valid() && client < CLIENT_COUNT && from <= now
    requires TrueSilenceMs(cfg, from, now) > LIMITS[client]
    ensures now + cfg.tick > from + (LIMITS[client] + 1) * cfg.ms
  {
    hide Config.TickAt;
    TickAccuracy(cfg, from, now);
    MsOfTicks(cfg, TicksBetween(cfg, from, now), LIMITS[client]);
  }

  // ---- "SWDT reset in T ms or less" ----

  /** From here on, whatever happens, the board is in reset within so many whole milliseconds. */
  ghost predicate ResetWithin(cfg: Config, trace: seq<Event>, timeoutMs: nat)
    requires cfg.Valid()
  {
    forall after :: Run(cfg, trace + after).now <= Run(cfg, trace).now + timeoutMs * cfg.ms
  }

  /** The supervisor prints the countdown rounded down to a millisecond when it stops kicking. That
      promise holds exactly when the last kick is at least the part rounded off ago; a check period
      is more than enough. */
  lemma PrintedPromise(cfg: Config, trace: seq<Event>)
    requires cfg.Valid() && cfg.running && !Run(cfg, trace).kicking
    ensures
      var s := Run(cfg, trace);
      ResetWithin(cfg, trace, Quotient(cfg.reload, cfg.ms)) <==> s.now - s.lastRestart >= Remainder(cfg.reload, cfg.ms)
  {
    var s, whole := Run(cfg, trace), Quotient(cfg.reload, cfg.ms);
    RunKeepsTiming(cfg, trace);
    QuotientAndRemainder(cfg.reload, cfg.ms);
    if s.now - s.lastRestart >= Remainder(cfg.reload, cfg.ms) {
      forall after ensures Run(cfg, trace + after).now <= s.now + whole * cfg.ms {
        NeverKicksAgain(cfg, trace, after);
        RunKeepsTiming(cfg, trace + after);
      }
    } else {
      RunSnoc(cfg, INIT, trace, Advance(cfg.reload));
      assert Run(cfg, trace + [Advance(cfg.reload)]).now == s.lastRestart + cfg.reload;
    }
  }
}
