/** What the watchdog promises, over whole runs. */
module WatchdogTheorems {
  import opened Word
  import opened Watchdog

  // ---- what the supervisor sees ----

  /** Neither tick wrap nor the 32-bit conversion hides a silence from a supervisor that still
      kicks: it sees the true one, and the true one is at most the limit (with its rounding) plus
      the time since the last check. */
  lemma SilenceIsTrue(cfg: Config, trace: seq<Event>, client: nat)
    requires cfg.CountsOutlast() && client < CLIENT_COUNT && Run(cfg, trace).kicking
    ensures
      var s := Run(cfg, trace);
      var from := s.clients[client].lastCheckin;
      && from <= s.now
      && (!s.expired ==> SilenceMs(cfg, s.now, s.clients[client].checkinTick) == TrueSilenceMs(cfg, from, s.now))
      && s.now - from < cfg.Allowed(client) + (s.now - s.lastCheck)
  {
    var s := Run(cfg, trace);
    RunKeepsInv(cfg, trace);
    assert ClientTiming(cfg, s, client);
    if !s.expired {
      SilenceNotHidden(cfg, s, client);
    }
    CheckIsSoon(cfg, s, client);
    MostPunctualTime(cfg, client);
  }

  lemma CheckIsSoon(cfg: Config, s: State, client: nat)
    requires cfg.Valid() && Inv(cfg, s) && s.kicking && client < CLIENT_COUNT
    ensures s.lastCheck < s.clients[client].lastCheckin + (MostPunctual(LIMITS[client], cfg.tickHz) + 1) * cfg.tick
  {
    hide Config.TickAt, MostPunctual;
    var from, most := s.clients[client].lastCheckin, MostPunctual(LIMITS[client], cfg.tickHz);
    assert ClientPunctual(cfg, s, client);
    if from <= s.lastCheck {
      FewTicksAreShort(cfg, from, s.lastCheck, most);
    }
  }

  ghost predicate AllPunctual(cfg: Config, s: State)
    requires cfg.Valid() && s.Shape()
  {
    forall client :: 0 <= client < CLIENT_COUNT ==>
      && s.clients[client].lastCheckin <= s.now
      && TrueSilenceMs(cfg, s.clients[client].lastCheckin, s.now) <= LIMITS[client]
  }

  /** A check kicks exactly when every earlier one did and no client is truly late. */
  lemma KicksWhenAllPunctual(cfg: Config, trace: seq<Event>)
    requires cfg.CountsOutlast() && !Run(cfg, trace).expired
    ensures
      var s, s' := Run(cfg, trace), Run(cfg, trace + [Check]);
      && (s'.kicking <==> s.kicking && AllPunctual(cfg, s))
      && s'.kicks == s.kicks + (if s'.kicking && cfg.running then 1 else 0)
      && s'.lastRestart == (if s'.kicking && cfg.running then s.now else s.lastRestart)
  {
    hide SilenceMs, TrueSilenceMs;
    RunSnoc(cfg, INIT, trace, Check);
    RunKeepsInv(cfg, trace);
    var s := Run(cfg, trace);
    if s.kicking {
      forall client | 0 <= client < CLIENT_COUNT
        ensures s.clients[client].lastCheckin <= s.now
        ensures Silences(cfg, s)[client] == TrueSilenceMs(cfg, s.clients[client].lastCheckin, s.now)
      {
        SilenceNotHidden(cfg, s, client);
      }
      if AllPunctual(cfg, s) {
        assert forall client :: 0 <= client < CLIENT_COUNT ==> Silences(cfg, s)[client] <= LIMITS[client];
      }
    }
  }

  /** The reported statistics tell whether kicking stopped: on every board it goes on exactly as
      long as no client's worst silence exceeds its limit. */
  lemma WorstTellsKicking(cfg: Config, trace: seq<Event>)
    requires cfg.Valid()
    ensures
      Run(cfg, trace).kicking <==>
      forall client :: 0 <= client < CLIENT_COUNT ==> Run(cfg, trace).worst[client] <= LIMITS[client]
  {
    RunKeepsTiming(cfg, trace);
  }

  /** The supervisor looked at its clients with this event. */
  predicate Looked(cfg: Config, trace: seq<Event>, k: nat)
    requires cfg.Valid() && k < |trace|
  {
    trace[k].Check? && !Run(cfg, trace[..k]).expired
  }

  /** What it measured if so. */
  function Measured(cfg: Config, trace: seq<Event>, k: nat, client: nat): U32
    requires cfg.Valid() && k < |trace| && client < CLIENT_COUNT
  {
    SilenceMs(cfg, Run(cfg, trace[..k]).now, Run(cfg, trace[..k]).clients[client].checkinTick)
  }

  /** The worst silence reported of a client is the longest one ever measured, kicking or not. */
  lemma {:induction false} WorstIsLongest(cfg: Config, trace: seq<Event>, client: nat)
    requires cfg.Valid() && client < CLIENT_COUNT
    ensures
      var worst := Run(cfg, trace).worst[client];
      && (forall k: nat :: k < |trace| && Looked(cfg, trace, k) ==> Measured(cfg, trace, k, client) <= worst)
      && (worst == 0 || exists k: nat :: k < |trace| && Looked(cfg, trace, k) && Measured(cfg, trace, k, client) == worst)
  {
    hide SilenceMs;
    if trace != [] {
      var n := |trace| - 1;
      var earlier := trace[..n];
      WorstIsLongest(cfg, earlier, client);
      WorstStep(cfg, earlier, trace[n], client);
      assert earlier + [trace[n]] == trace;
      forall k: nat | k < n ensures Looked(cfg, trace, k) == Looked(cfg, earlier, k)
        ensures Measured(cfg, trace, k, client) == Measured(cfg, earlier, k, client)
      {
        assert trace[..k] == earlier[..k];
      }
      var worst := Run(cfg, trace).worst[client];
      if worst != 0 && !(Looked(cfg, trace, n) && Measured(cfg, trace, n, client) == worst) {
        var k: nat :| k < n && Looked(cfg, earlier, k) && Measured(cfg, earlier, k, client) == worst;
        assert Looked(cfg, trace, k) && Measured(cfg, trace, k, client) == worst;
      }
    }
  }

  lemma WorstStep(cfg: Config, trace: seq<Event>, e: Event, client: nat)
    requires cfg.Valid() && client < CLIENT_COUNT
    ensures
      var s, s' := Run(cfg, trace), Run(cfg, trace + [e]);
      s'.worst[client] ==
      if e.Check? && !s.expired then Max(s.worst[client], SilenceMs(cfg, s.now, s.clients[client].checkinTick))
      else s.worst[client]
  {
    hide SilenceMs;
    RunSnoc(cfg, INIT, trace, e);
  }

  // ---- once late, never again ----

  /** After the first late check there are no kicks in any continuation, whoever recovers. */
  lemma {:induction false} NeverKicksAgain(cfg: Config, before: seq<Event>, after: seq<Event>)
    requires cfg.Valid() && !Run(cfg, before).kicking
    ensures
      var s, s' := Run(cfg, before), Run(cfg, before + after);
      !s'.kicking && s'.kicks == s.kicks && s'.lastRestart == s.lastRestart
  {
    if after == [] {
      assert before + after == before;
    } else {
      var n := |after| - 1;
      NeverKicksAgain(cfg, before, after[..n]);
      RunSnoc(cfg, INIT, before + after[..n], after[n]);
      assert before + after == before + after[..n] + [after[n]];
    }
  }

  // ---- a hang forces a reset ----

  /** How long after a client's last check-in the board can still be out of reset, at most: the ticks
      within its limit, the tick they are counted in, and the countdown. */
  function WorstCase(cfg: Config, client: nat): nat
    requires cfg.Valid() && client < CLIENT_COUNT
  {
    (MostPunctual(LIMITS[client], cfg.tickHz) + 1) * cfg.tick - 1 + cfg.reload
  }

  /** No run gets further past any client's latest check-in; whatever the other clients, the
      supervisor and the tick counter do, the board is in reset by then. */
  lemma ResetByWorstCase(cfg: Config, trace: seq<Event>, client: nat)
    requires cfg.CountsOutlast() && cfg.running && client < CLIENT_COUNT
    ensures Run(cfg, trace).now <= Run(cfg, trace).clients[client].lastCheckin + WorstCase(cfg, client)
  {
    RunKeepsInv(cfg, trace);
    KickIsSoon(cfg, Run(cfg, trace), client);
  }

  /** In round figures: limit plus 1 ms plus a tick plus the countdown. */
  lemma SilenceBounded(cfg: Config, trace: seq<Event>, client: nat)
    requires cfg.CountsOutlast() && cfg.running && client < CLIENT_COUNT
    ensures Run(cfg, trace).now < Run(cfg, trace).clients[client].lastCheckin + cfg.Allowed(client) + cfg.reload
  {
    ResetByWorstCase(cfg, trace, client);
    MostPunctualTime(cfg, client);
  }

  /** And the reset does come: letting that much time pass resets the board. */
  lemma HangForcesReset(cfg: Config, trace: seq<Event>, client: nat, dt: nat)
    requires cfg.CountsOutlast() && cfg.running && client < CLIENT_COUNT
    requires Run(cfg, trace).now + dt >= Run(cfg, trace).clients[client].lastCheckin + WorstCase(cfg, client)
    ensures Run(cfg, trace + [Advance(dt)]).expired
  {
    RunKeepsInv(cfg, trace);
    RunSnoc(cfg, INIT, trace, Advance(dt));
    KickIsSoon(cfg, Run(cfg, trace), client);
  }

  /** An injection on a board not yet in reset requests that client's hang and changes nothing else. */
  lemma InjectionRequestsHang(cfg: Config, before: seq<Event>, client: nat)
    requires cfg.Valid() && client < CLIENT_COUNT && !Run(cfg, before).expired
    ensures
      var s, s' := Run(cfg, before), Run(cfg, before + [InjectHang(client)]);
      && s'.clients[client].hangRequested
      && s'.clients[client] == s.clients[client].(hangRequested := true)
      && (forall other :: 0 <= other < CLIENT_COUNT && other != client ==> s'.clients[other] == s.clients[other])
      && s'.(clients := s.clients) == s
  {
    RunSnoc(cfg, INIT, before, InjectHang(client));
  }

  /** From then on the client's check-in is frozen for good, whatever follows. */
  lemma InjectedHangSticks(cfg: Config, before: seq<Event>, after: seq<Event>, client: nat)
    requires cfg.Valid() && client < CLIENT_COUNT
    ensures
      var c, c' := Run(cfg, before).clients[client], Run(cfg, before + [InjectHang(client)] + after).clients[client];
      c'.lastCheckin == c.lastCheckin && (!Run(cfg, before).expired ==> c'.hangRequested)
  {
    RunSnoc(cfg, INIT, before, InjectHang(client));
    if Run(cfg, before).expired {
      ResetLasts(cfg, before, [InjectHang(client)] + after);
      assert before + [InjectHang(client)] + after == before + ([InjectHang(client)] + after);
    } else {
      InjectionRequestsHang(cfg, before, client);
      RequestedHangSticks(cfg, before + [InjectHang(client)], after, client);
    }
  }

  lemma {:induction false} RequestedHangSticks(cfg: Config, before: seq<Event>, after: seq<Event>, client: nat)
    requires cfg.Valid() && client < CLIENT_COUNT && Run(cfg, before).clients[client].hangRequested
    ensures
      var c, c' := Run(cfg, before).clients[client], Run(cfg, before + after).clients[client];
      c'.hangRequested && c'.lastCheckin == c.lastCheckin
  {
    if after == [] {
      assert before + after == before;
    } else {
      var n := |after| - 1;
      RequestedHangSticks(cfg, before, after[..n], client);
      RunSnoc(cfg, INIT, before + after[..n], after[n]);
      assert before + after == before + after[..n] + [after[n]];
    }
  }

  /** In reset nothing happens any more. */
  lemma {:induction false} ResetLasts(cfg: Config, before: seq<Event>, after: seq<Event>)
    requires cfg.Valid() && Run(cfg, before).expired
    ensures Run(cfg, before + after) == Run(cfg, before)
  {
    if after == [] {
      assert before + after == before;
    } else {
      var n := |after| - 1;
      ResetLasts(cfg, before, after[..n]);
      RunSnoc(cfg, INIT, before + after[..n], after[n]);
      assert before + after == before + after[..n] + [after[n]];
    }
  }

  /** So an injected hang resets the board within the bound, in every continuation. */
  lemma InjectedHangResets(cfg: Config, before: seq<Event>, after: seq<Event>, client: nat)
    requires cfg.CountsOutlast() && cfg.running && client < CLIENT_COUNT
    ensures Run(cfg, before + [InjectHang(client)] + after).now
            < Run(cfg, before).clients[client].lastCheckin + cfg.Allowed(client) + cfg.reload
  {
    InjectedHangSticks(cfg, before, after, client);
    SilenceBounded(cfg, before + [InjectHang(client)] + after, client);
  }

  // ---- healthy clients ----

  /** Every client was heard within its limit, in true time, and the supervisor was late by at most
      one period. */
  ghost predicate HealthyNow(cfg: Config, s: State)
    requires s.Shape()
  {
    && s.now <= s.lastCheck + 2 * CHECK_PERIOD_MS * cfg.ms
    && forall client :: 0 <= client < CLIENT_COUNT ==> s.now <= s.clients[client].lastCheckin + LIMITS[client] * cfg.ms
  }

  ghost predicate Healthy(cfg: Config, trace: seq<Event>)
    requires cfg.Valid()
  {
    HealthyNow(cfg, Run(cfg, trace)) && (trace == [] || Healthy(cfg, trace[..|trace| - 1]))
  }

  function Checks(trace: seq<Event>): nat {
    if trace == [] then 0
    else Checks(trace[..|trace| - 1]) + if trace[|trace| - 1].Check? then 1 else 0
  }

  /** Tick rates at which a client within its limit never measures late. Below 500 Hz an odd rate
      has half a tick too much in 500 ms. */
  predicate RateFits(tickHz: nat) {
    tickHz % 2 == 0 || tickHz > 500
  }

  /** At these rates silence within the limit is measured within the limit. */
  lemma PunctualMeasured(cfg: Config, client: nat, from: nat, now: nat)
    requires cfg.Valid() && RateFits(cfg.tickHz)
    requires client < CLIENT_COUNT && from <= now <= from + LIMITS[client] * cfg.ms
    ensures TrueSilenceMs(cfg, from, now) <= LIMITS[client]
  {
    TickAccuracy(cfg, from, now);
    TicksWithinLimit(TicksBetween(cfg, from, now), cfg.tickHz, cfg.tick, cfg.ms, LIMITS[client]);
  }

  lemma TicksWithinLimit(ticks: nat, tickHz: nat, tick: nat, ms: nat, limit: nat)
    requires 0 < tickHz && 0 < tick && tick * tickHz == 1000 * ms
    requires RateFits(tickHz) && limit in LIMITS && ticks * tick < limit * ms + tick
    ensures WholeMs(ticks, tickHz) <= limit
  {
    ScaledDown(ticks, tickHz, tick, ms, limit);
    FloorAtMost(ticks * 1000, tickHz, limit);
    assert limit == 500 || limit == 2000;
    assert (limit + 1) * tickHz == limit * tickHz + tickHz;
  }

  /** Less than the limit and a tick, counted in ticks. */
  lemma ScaledDown(ticks: nat, tickHz: nat, tick: nat, ms: nat, limit: nat)
    requires 0 < tick && tick * tickHz == 1000 * ms && ticks * tick < limit * ms + tick
    ensures ticks * 1000 < limit * tickHz + 1000
  {
    MulAssoc(limit, tickHz, tick);
    assert limit * (1000 * ms) == 1000 * (limit * ms);
    assert (limit * tickHz + 1000) * tick == (limit * tickHz) * tick + 1000 * tick;
    assert (ticks * 1000) * tick == 1000 * (ticks * tick);
    MulLt(ticks * 1000, limit * tickHz + 1000, tick);
  }

  lemma HealthyChecksKick(cfg: Config, s: State)
    requires cfg.Valid() && RateFits(cfg.tickHz) && Timing(cfg, s) && HealthyNow(cfg, s)
    ensures !AnyLate(Silences(cfg, s))
  {
    forall client | 0 <= client < CLIENT_COUNT ensures Silences(cfg, s)[client] <= LIMITS[client] {
      assert ClientTiming(cfg, s, client);
      PunctualSeen(cfg, client, s.clients[client].lastCheckin, s.now);
    }
  }

  /** A healthy client's silence is never hidden: it is short. */
  lemma PunctualSeen(cfg: Config, client: nat, from: nat, now: nat)
    requires cfg.Valid() && RateFits(cfg.tickHz)
    requires client < CLIENT_COUNT && from <= now <= from + LIMITS[client] * cfg.ms
    ensures SilenceMs(cfg, now, cfg.TickCount(from)) <= LIMITS[client]
  {
    hide Config.TickAt, SilenceMs;
    PunctualMeasured(cfg, client, from, now);
    PunctualTicks(TicksBetween(cfg, from, now), cfg.tickHz, LIMITS[client]);
    MostPunctualGrows(LIMITS[client], cfg.tickHz);
    SilenceExact(cfg, from, now);
  }

  /** Healthy clients never see a reset, on any board: every check kicks and the SWDT never expires,
      because the programmed countdown is longer than the requested timeout and two periods fit into
      that. */
  lemma {:induction false} NoSpuriousReset(cfg: Config, trace: seq<Event>)
    requires cfg.Valid() && RateFits(cfg.tickHz) && Healthy(cfg, trace)
    requires cfg.running ==> cfg.reload > TIMEOUT_MS * cfg.ms
    ensures Run(cfg, trace).kicking && !Run(cfg, trace).expired
    ensures cfg.running ==> Run(cfg, trace).kicks == Checks(trace)
  {
    RunKeepsTiming(cfg, trace);
    if trace != [] {
      var n := |trace| - 1;
      NoSpuriousReset(cfg, trace[..n]);
      var s, s' := Run(cfg, trace[..n]), Run(cfg, trace);
      RunKeepsTiming(cfg, trace[..n]);
      if trace[n].Check? {
        HealthyChecksKick(cfg, s);
      } else if s'.expired {
        MulLe(2 * CHECK_PERIOD_MS, TIMEOUT_MS, cfg.ms);
        assert false;
      }
    }
  }

  /** Healthy clients, with a countdown longer than the timeout asked for. */
  ghost predicate Safeguarded(cfg: Config, trace: seq<Event>)
    requires cfg.Valid()
  {
    Healthy(cfg, trace) && (cfg.running ==> cfg.reload > TIMEOUT_MS * cfg.ms)
  }

  /** At this tick rate healthy clients are safe, whatever the board and the run. */
  ghost predicate HealthySafe(tickHz: nat) {
    forall cfg: Config, trace |
      cfg.Valid() && cfg.tickHz == tickHz && Safeguarded(cfg, trace) :: Run(cfg, trace).kicking
  }

  /** The rates that fit are exactly the safe ones. */
  lemma SafeRates(tickHz: nat)
    requires 100 <= tickHz <= 1_000_000
    ensures HealthySafe(tickHz) <==> RateFits(tickHz)
  {
    if RateFits(tickHz) {
      forall cfg: Config, trace | cfg.Valid() && cfg.tickHz == tickHz && Safeguarded(cfg, trace)
        ensures Run(cfg, trace).kicking
      {
        NoSpuriousReset(cfg, trace);
      }
    } else {
      SlowOddRate(tickHz);
      assert Safeguarded(SlowBoard(tickHz), SlowTrace(tickHz));
    }
  }

  /** A board at an odd tick rate, started at the very end of a tick, */
  function SlowBoard(tickHz: nat): Config {
    Config(tickHz, 2 * tickHz, 2000, 1999, 5000 * tickHz, true, 0)
  }

  /** whose clients are first looked at after exactly 500 ms. */
  function SlowTrace(tickHz: nat): seq<Event> {
    [Advance(1000 * tickHz), Check]
  }

  /** At an odd rate up to 500 Hz that look already finds the producer late. */
  lemma SlowOddRate(tickHz: nat)
    requires 100 <= tickHz && !RateFits(tickHz)
    ensures SlowBoard(tickHz).Valid() && Safeguarded(SlowBoard(tickHz), SlowTrace(tickHz))
    ensures !Run(SlowBoard(tickHz), SlowTrace(tickHz)).kicking
  {
    SlowStates(tickHz);
    SlowIsHealthy(tickHz);
  }

  lemma SlowStates(tickHz: nat)
    requires 100 <= tickHz && !RateFits(tickHz)
    ensures SlowBoard(tickHz).Valid()
    ensures
      var cfg, s := SlowBoard(tickHz), INIT.(now := 1000 * tickHz);
      && Run(cfg, SlowTrace(tickHz)[..1]) == s && Run(cfg, SlowTrace(tickHz)) == CheckStep(cfg, s)
      && !CheckStep(cfg, s).kicking
  {
    var cfg, e := SlowBoard(tickHz), Advance(1000 * tickHz);
    assert SlowTrace(tickHz)[..1] == [e] == [] + [e] && [e] + [Check] == SlowTrace(tickHz);
    RunSnoc(cfg, INIT, [], e);
    RunSnoc(cfg, INIT, [e], Check);
    SlowSilence(tickHz);
    assert Silences(cfg, INIT.(now := 1000 * tickHz))[0] > LIMITS[0];
  }

  lemma SlowIsHealthy(tickHz: nat)
    requires 100 <= tickHz && !RateFits(tickHz)
    ensures SlowBoard(tickHz).Valid() && Healthy(SlowBoard(tickHz), SlowTrace(tickHz))
  {
    var cfg, e := SlowBoard(tickHz), Advance(1000 * tickHz);
    SlowStates(tickHz);
    assert SlowTrace(tickHz)[..1] == [] + [e] && SlowTrace(tickHz) == [e] + [Check];
    HealthySnoc(cfg, [], e);
    HealthySnoc(cfg, [e], Check);
    SlowlyHealthy(cfg, Run(cfg, []));
    SlowlyHealthy(cfg, Run(cfg, [e]));
    SlowlyHealthy(cfg, Run(cfg, SlowTrace(tickHz)));
  }

  lemma HealthySnoc(cfg: Config, trace: seq<Event>, e: Event)
    requires cfg.Valid()
    ensures Healthy(cfg, trace + [e]) <==> Healthy(cfg, trace) && HealthyNow(cfg, Run(cfg, trace + [e]))
  {
    assert (trace + [e])[..|trace|] == trace;
  }

  lemma SlowlyHealthy(cfg: Config, s: State)
    requires s.Shape() && s.clients == INIT.clients && s.now <= 500 * cfg.ms
    ensures HealthyNow(cfg, s)
  {
    forall client | 0 <= client < CLIENT_COUNT ensures s.now <= LIMITS[client] * cfg.ms {
      MulLe(500, LIMITS[client], cfg.ms);
    }
  }

  lemma SlowSilence(tickHz: nat)
    requires 100 <= tickHz && !RateFits(tickHz) && SlowBoard(tickHz).Valid()
    ensures SilenceMs(SlowBoard(tickHz), 1000 * tickHz, 0) > 500
  {
    SlowTick(tickHz);
    HalfTickTooMuch(tickHz, tickHz / 2 + 1);
    ConversionExact(tickHz / 2 + 1, tickHz);
  }

  lemma SlowTick(tickHz: nat)
    requires 100 <= tickHz && !RateFits(tickHz) && SlowBoard(tickHz).Valid()
    ensures SlowBoard(tickHz).TickCount(1000 * tickHz) == tickHz / 2 + 1
  {
    assert 1000 * tickHz + 1999 == 2000 * (tickHz / 2 + 1) + 999;
  }

  lemma HalfTickTooMuch(tickHz: nat, ticks: nat)
    requires 0 < tickHz <= 500 && 2 * ticks == tickHz + 1
    ensures 500 < WholeMs(ticks, tickHz) < TWO_32
  {
    FloorAtMost(ticks * 1000, tickHz, 500);
    FloorAtMost(ticks * 1000, tickHz, 1001);
  }
}
