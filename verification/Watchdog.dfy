/** `tasks/task_watchdog.c` on top of the hardware watchdog (SWDT): three clients check in, the
    supervisor looks at their silence and kicks, the SWDT counts down. A timed transition system
    over the wrapping tick counter.

    Time is counted in a unit so fine that a millisecond, a tick and a watchdog clock cycle are all
    whole numbers of it. */
module Watchdog {
  import opened Word

  const CLIENT_COUNT: nat := 3
  /** Check-in limits of the producer, the UI and the consumer, in ms. */
  const LIMITS: seq<U32> := [500, 500, 2000]
  const CHECK_PERIOD_MS: nat := 250
  const TIMEOUT_MS: nat := 2000

  /** The board: tick rate, length of a millisecond and of a tick, how far into a tick the run
      starts, the SWDT's programmed countdown, and whether it was started. With the SWDT off, `gap`
      bounds the time between two supervisor checks; with it on, checks may come at any time. */
  datatype Config = Config(tickHz: nat, ms: nat, tick: nat, phase: nat, reload: nat, running: bool, gap: nat) {
    /** At least 100 Hz, which the build asserts (10 ms is a whole tick), and at most 1 MHz. */
    predicate Valid() {
      && 100 <= tickHz <= 1_000_000 && 0 < tick && 0 < ms && tick * tickHz == 1000 * ms
      && phase < tick && 0 < reload
    }

    /** The longest time from one check to the next that a kicking supervisor can come back from. */
    function Horizon(): nat
      requires Valid()
    {
      if running then reload - 1 else gap
    }

    /** The 32-bit tick and millisecond counts outlast that, after the longest silence that passes
        for punctual. */
    predicate CountsOutlast() {
      Valid() && Horizon() <= (FirstHidden(tickHz) - MostPunctual(LIMITS[2], tickHz) - 1) * tick
    }

    function TickAt(t: nat): nat
      requires Valid()
    {
      (t + phase) / tick
    }

    /** The tick counter as `xTaskGetTickCount` returns it. */
    function TickCount(t: nat): U32
      requires Valid()
    {
      ToU32(TickAt(t))
    }

    /** Longest silence the supervisor can still take for punctual: the limit, the millisecond
        its division rounds away, and the tick the counter does. */
    function Allowed(client: nat): nat
      requires client < CLIENT_COUNT
    {
      (LIMITS[client] + 1) * ms + tick
    }
  }

  /** The fewest ticks of silence that do not read as what they are: 2^32 ticks, or, below 1 kHz, the
      first that make 2^32 ms. */
  function FirstHidden(tickHz: nat): nat {
    Min(TWO_32, (TWO_32 * tickHz + 999) / 1000)
  }

  /** The most ticks of silence that are within a limit. */
  function MostPunctual(limit: nat, tickHz: nat): nat
    requires 0 < tickHz
  {
    ((limit + 1) * tickHz - 1) / 1000
  }

  /** A client: when it last checked in, the tick it noted then, and the injected hang. */
  datatype Client = Client(lastCheckin: nat, checkinTick: U32, hangRequested: bool, hung: bool)

  datatype State = State(
    now: nat, clients: seq<Client>,
    lastCheck: nat, kicking: bool, worst: seq<U32>, kicks: nat,
    lastRestart: nat, expired: bool)
  {
    predicate Shape() {
      |clients| == |worst| == CLIENT_COUNT
    }
  }

  datatype Event = Advance(dt: nat) | CheckIn(client: nat) | InjectHang(client: nat) | Check

  const INIT: State :=
    State(0, [Client(0, 0, false, false), Client(0, 0, false, false), Client(0, 0, false, false)],
          0, true, [0, 0, 0], 0, 0, false)

  /** `wdog_ticks_to_ms` */
  function TicksToMs(ticks: U32, tickHz: nat): U32
    requires 0 < tickHz
  {
    ToU32(ToU64(ticks * 1000) / tickHz)
  }

  /** A client's silence as the supervisor computes it: modular difference, truncated to 32 bits. */
  function SilenceMs(cfg: Config, now: nat, checkinTick: U32): U32
    requires cfg.Valid()
  {
    TicksToMs(ToU32(cfg.TickCount(now) - checkinTick), cfg.tickHz)
  }

  /** The whole milliseconds of ticks that really passed. */
  function TrueSilenceMs(cfg: Config, from: nat, now: nat): nat
    requires cfg.Valid() && from <= now
  {
    WholeMs(TicksBetween(cfg, from, now), cfg.tickHz)
  }

  function WholeMs(ticks: nat, tickHz: nat): nat
    requires 0 < tickHz
  {
    ticks * 1000 / tickHz
  }

  function TicksBetween(cfg: Config, from: nat, now: nat): nat
    requires cfg.Valid() && from <= now
  {
    TickMonotone(cfg, from, now);
    cfg.TickAt(now) - cfg.TickAt(from)
  }

  /** Every client's silence at this moment. */
  function Silences(cfg: Config, s: State): (silences: seq<U32>)
    requires cfg.Valid() && s.Shape()
    ensures |silences| == CLIENT_COUNT
  {
    seq(CLIENT_COUNT, client requires 0 <= client < CLIENT_COUNT =>
      SilenceMs(cfg, s.now, s.clients[client].checkinTick))
  }

  predicate AnyLate(silences: seq<U32>)
    requires |silences| == CLIENT_COUNT
  {
    exists client :: 0 <= client < CLIENT_COUNT && silences[client] > LIMITS[client]
  }

  function Worse(worst: seq<U32>, silences: seq<U32>): (r: seq<U32>)
    requires |worst| == |silences|
    ensures |r| == |worst|
  {
    seq(|worst|, i requires 0 <= i < |worst| => if silences[i] > worst[i] then silences[i] else worst[i])
  }

  // ---- the steps ----

  /** Time passes, until the SWDT expires: from then on the board is in reset. */
  function AdvanceStep(cfg: Config, s: State, dt: nat): State {
    if cfg.running && s.now + dt >= s.lastRestart + cfg.reload then
      s.(now := s.lastRestart + cfg.reload, expired := true)
    else if !cfg.running && s.now + dt > s.lastCheck + cfg.gap then s
    else s.(now := s.now + dt)
  }

  /** `task_watchdog_checkin` */
  function CheckInStep(cfg: Config, s: State, client: nat): State
    requires cfg.Valid() && s.Shape()
  {
    if client >= CLIENT_COUNT || s.clients[client].hung then s
    else
      var c := s.clients[client];
      s.(clients := s.clients[client := if c.hangRequested then c.(hung := true)
                                        else c.(lastCheckin := s.now, checkinTick := cfg.TickCount(s.now))])
  }

  /** `task_watchdog_inject_hang` */
  function InjectStep(s: State, client: nat): State
    requires s.Shape()
  {
    if client >= CLIENT_COUNT then s
    else s.(clients := s.clients[client := s.clients[client].(hangRequested := true)])
  }

  /** One pass of the supervisor's loop. */
  function CheckStep(cfg: Config, s: State): State
    requires cfg.Valid() && s.Shape()
  {
    var silences := Silences(cfg, s);
    var s' := s.(lastCheck := s.now, worst := Worse(s.worst, silences));
    if !s.kicking then s'
    else if AnyLate(silences) then s'.(kicking := false)
    else if cfg.running then s'.(lastRestart := s.now, kicks := s.kicks + 1)
    else s'
  }

  function Next(cfg: Config, s: State, e: Event): (s': State)
    requires cfg.Valid() && s.Shape()
    ensures s'.Shape()
  {
    if s.expired then s
    else
      match e
      case Advance(dt) => AdvanceStep(cfg, s, dt)
      case CheckIn(client) => CheckInStep(cfg, s, client)
      case InjectHang(client) => InjectStep(s, client)
      case Check => CheckStep(cfg, s)
  }

  function RunFrom(cfg: Config, s: State, trace: seq<Event>): (s': State)
    requires cfg.Valid() && s.Shape()
    ensures s'.Shape()
  {
    if trace == [] then s
    else Next(cfg, RunFrom(cfg, s, trace[..|trace| - 1]), trace[|trace| - 1])
  }

  function Run(cfg: Config, trace: seq<Event>): (s: State)
    requires cfg.Valid()
    ensures s.Shape()
  {
    RunFrom(cfg, INIT, trace)
  }

  lemma RunSnoc(cfg: Config, s: State, trace: seq<Event>, e: Event)
    requires cfg.Valid() && s.Shape()
    ensures RunFrom(cfg, s, trace + [e]) == Next(cfg, RunFrom(cfg, s, trace), e)
  {
    assert (trace + [e])[..|trace|] == trace;
  }

  lemma {:induction false} RunConcat(cfg: Config, s: State, t1: seq<Event>, t2: seq<Event>)
    requires cfg.Valid() && s.Shape()
    ensures RunFrom(cfg, s, t1 + t2) == RunFrom(cfg, RunFrom(cfg, s, t1), t2)
  {
    if t2 == [] {
      assert t1 + t2 == t1;
    } else {
      var n := |t2| - 1;
      RunConcat(cfg, s, t1, t2[..n]);
      RunSnoc(cfg, s, t1 + t2[..n], t2[n]);
      assert t1 + t2 == t1 + t2[..n] + [t2[n]];
    }
  }

  // ---- ticks and time ----

  lemma TickMonotone(cfg: Config, a: nat, b: nat)
    requires cfg.Valid() && a <= b
    ensures cfg.TickAt(a) <= cfg.TickAt(b)
  {
    Floors(a + cfg.phase, b + cfg.phase, cfg.tick);
  }

  /** The tick counter measures time to within one tick. */
  lemma TickAccuracy(cfg: Config, a: nat, b: nat)
    requires cfg.Valid() && a <= b
    ensures b - a < TicksBetween(cfg, a, b) * cfg.tick + cfg.tick
    ensures TicksBetween(cfg, a, b) * cfg.tick < b - a + cfg.tick
  {
    Floors(a + cfg.phase, b + cfg.phase, cfg.tick);
  }

  /** Comparing whole milliseconds of `ticks` with a limit compares the ticks' length with it. */
  lemma MsOfTicks(cfg: Config, ticks: nat, limit: nat)
    requires cfg.Valid()
    ensures WholeMs(ticks, cfg.tickHz) <= limit <==> ticks * cfg.tick < (limit + 1) * cfg.ms
  {
    ScaledMs(ticks, cfg.tickHz, cfg.tick, cfg.ms, limit);
  }

  lemma ScaledMs(ticks: nat, tickHz: nat, tick: nat, ms: nat, limit: nat)
    requires 0 < tickHz && 0 < tick && tick * tickHz == 1000 * ms
    ensures WholeMs(ticks, tickHz) <= limit <==> ticks * tick < (limit + 1) * ms
  {
    FloorAtMost(ticks * 1000, tickHz, limit);
    MulLt(ticks * 1000, (limit + 1) * tickHz, tick);
    assert ticks * 1000 * tick == 1000 * (ticks * tick);
    MulAssoc(limit + 1, tickHz, tick);
    assert (limit + 1) * (1000 * ms) == 1000 * ((limit + 1) * ms);
  }

  lemma PunctualTicks(ticks: nat, tickHz: nat, limit: nat)
    requires 0 < tickHz
    ensures WholeMs(ticks, tickHz) <= limit <==> ticks <= MostPunctual(limit, tickHz)
  {
    FloorAtMost(ticks * 1000, tickHz, limit);
    MulLe(1, limit + 1, tickHz);
  }

  /** Below `FirstHidden` neither the modular subtraction nor the 32-bit conversion loses anything. */
  lemma SilenceExact(cfg: Config, from: nat, now: nat)
    requires cfg.Valid() && from <= now && TicksBetween(cfg, from, now) < FirstHidden(cfg.tickHz)
    ensures SilenceMs(cfg, now, cfg.TickCount(from)) == TrueSilenceMs(cfg, from, now)
  {
    hide Config.TickAt;
    FewTicks(TicksBetween(cfg, from, now), cfg.tickHz);
    SilenceOfTicks(cfg.TickAt(from), TicksBetween(cfg, from, now), cfg.tickHz);
  }

  lemma FewTicks(ticks: nat, tickHz: nat)
    requires 0 < tickHz && ticks < FirstHidden(tickHz)
    ensures ticks < TWO_32 && WholeMs(ticks, tickHz) < TWO_32
  {
    FloorAtMost(ticks * 1000, tickHz, 0xFFFF_FFFF);
  }

  /** At `FirstHidden` they do: that silence reads as less than 10 ms. */
  lemma SilenceHidden(cfg: Config, from: nat, now: nat)
    requires cfg.Valid() && from <= now && TicksBetween(cfg, from, now) == FirstHidden(cfg.tickHz)
    ensures SilenceMs(cfg, now, cfg.TickCount(from)) < 10
  {
    hide Config.TickAt;
    HiddenTicks(cfg.TickAt(from), FirstHidden(cfg.tickHz), cfg.tickHz);
  }

  lemma HiddenTicks(from: nat, ticks: nat, tickHz: nat)
    requires 100 <= tickHz && ticks == FirstHidden(tickHz)
    ensures TicksToMs(ToU32(ToU32(from + ticks) - ToU32(from)), tickHz) < 10
  {
    CountsDiffer(from, ticks);
    if tickHz >= 1000 {
      assert ticks == TWO_32 && ToU32(ticks) == 0;
      ConversionExact(0, tickHz);
    } else {
      SlowHidden(ticks, tickHz);
      ConversionTruncates(ticks, tickHz);
    }
  }

  lemma SlowHidden(ticks: nat, tickHz: nat)
    requires 100 <= tickHz < 1000 && ticks == FirstHidden(tickHz)
    ensures ticks < TWO_32 && 0x1_0000_0000 <= WholeMs(ticks, tickHz) < 0x1_0000_000A
  {
    FloorAtMost(ticks * 1000, tickHz, 0xFFFF_FFFF);
    FloorAtMost(ticks * 1000, tickHz, 0x1_0000_0009);
  }

  lemma ConversionTruncates(ticks: U32, tickHz: nat)
    requires 0 < tickHz && 0x1_0000_0000 <= WholeMs(ticks, tickHz) < 0x1_0000_000A
    ensures TicksToMs(ticks, tickHz) < 10
  {
    assert ToU64(ticks * 1000) == ticks * 1000;
  }

  lemma SilenceOfTicks(from: nat, ticks: nat, tickHz: nat)
    requires 0 < tickHz && ticks < TWO_32 && WholeMs(ticks, tickHz) < TWO_32
    ensures TicksToMs(ToU32(ToU32(from + ticks) - ToU32(from)), tickHz) == WholeMs(ticks, tickHz)
  {
    var counted := ToU32(ToU32(from + ticks) - ToU32(from));
    assert counted == ticks by {
      CountsDiffer(from, ticks);
    }
    ConversionExact(counted, tickHz);
  }

  /** The modular difference of two tick counts, `ticks` apart. */
  lemma CountsDiffer(from: nat, ticks: nat)
    ensures ToU32(ToU32(from + ticks) - ToU32(from)) == ToU32(ticks)
    ensures ticks < TWO_32 ==> ToU32(ticks) == ticks
  {
    SubWraps(from + ticks, from);
  }

  lemma ConversionExact(ticks: U32, tickHz: nat)
    requires 0 < tickHz && WholeMs(ticks, tickHz) < TWO_32
    ensures TicksToMs(ticks, tickHz) == WholeMs(ticks, tickHz)
  {
    assert ToU64(ticks * 1000) == ticks * 1000;
  }

  /** A tick is at most 10 ms. */
  lemma TickAtMost(cfg: Config)
    requires cfg.Valid()
    ensures cfg.tick <= 10 * cfg.ms
  {
    MulLe(100, cfg.tickHz, cfg.tick);
  }

  // ---- the invariant ----

  ghost predicate Recorded(worst: seq<U32>)
    requires |worst| == CLIENT_COUNT
  {
    exists client :: 0 <= client < CLIENT_COUNT && worst[client] > LIMITS[client]
  }

  ghost predicate ClientTiming(cfg: Config, s: State, client: nat)
    requires cfg.Valid() && s.Shape() && client < CLIENT_COUNT
  {
    var c := s.clients[client];
    c.lastCheckin <= s.now && c.checkinTick == cfg.TickCount(c.lastCheckin)
  }

  /** What holds on every board: the order of the times, the latch, the countdown. */
  ghost predicate Timing(cfg: Config, s: State)
    requires cfg.Valid()
  {
    && s.Shape() && s.lastCheck <= s.now && s.lastRestart <= s.now
    && (forall client :: 0 <= client < CLIENT_COUNT ==> ClientTiming(cfg, s, client))
    && (s.kicking <==> !Recorded(s.worst))
    && (if cfg.running then
          && (s.kicking ==> s.lastRestart == s.lastCheck)
          && (if s.expired then s.now == s.lastRestart + cfg.reload else s.now < s.lastRestart + cfg.reload)
        else !s.expired && s.kicks == 0 && s.lastRestart == 0 && s.now <= s.lastCheck + cfg.gap)
  }

  /** No kick ever came after more than `MostPunctual` ticks of a client's silence, and while kicking
      goes on, neither did the latest check. */
  ghost predicate ClientPunctual(cfg: Config, s: State, client: nat)
    requires cfg.Valid() && s.Shape() && client < CLIENT_COUNT
  {
    var bound := cfg.TickAt(s.clients[client].lastCheckin) + MostPunctual(LIMITS[client], cfg.tickHz);
    cfg.TickAt(s.lastRestart) <= bound && (s.kicking ==> cfg.TickAt(s.lastCheck) <= bound)
  }

  ghost predicate Inv(cfg: Config, s: State)
    requires cfg.Valid()
  {
    Timing(cfg, s) && forall client :: 0 <= client < CLIENT_COUNT ==> ClientPunctual(cfg, s, client)
  }

  lemma LatenessIsRecorded(worst: seq<U32>, silences: seq<U32>)
    requires |worst| == |silences| == CLIENT_COUNT
    ensures Recorded(Worse(worst, silences)) <==> Recorded(worst) || AnyLate(silences)
  {
    var r := Worse(worst, silences);
    if AnyLate(silences) {
      var client :| 0 <= client < CLIENT_COUNT && silences[client] > LIMITS[client];
      assert r[client] > LIMITS[client];
    }
    if Recorded(worst) {
      var client :| 0 <= client < CLIENT_COUNT && worst[client] > LIMITS[client];
      assert r[client] > LIMITS[client];
    }
  }

  lemma StepKeepsTiming(cfg: Config, s: State, e: Event)
    requires cfg.Valid() && Timing(cfg, s)
    ensures Timing(cfg, Next(cfg, s, e))
  {
    hide SilenceMs, Config.TickAt;
    var s' := Next(cfg, s, e);
    forall client | 0 <= client < CLIENT_COUNT ensures ClientTiming(cfg, s', client) {
      assert ClientTiming(cfg, s, client);
    }
    if e.Check? {
      LatenessIsRecorded(s.worst, Silences(cfg, s));
    }
  }

  /** While kicking goes on, what the supervisor computes is the true silence. */
  lemma SilenceNotHidden(cfg: Config, s: State, client: nat)
    requires cfg.CountsOutlast() && Inv(cfg, s) && s.kicking && !s.expired && client < CLIENT_COUNT
    ensures s.clients[client].lastCheckin <= s.now
    ensures SilenceMs(cfg, s.now, s.clients[client].checkinTick)
            == TrueSilenceMs(cfg, s.clients[client].lastCheckin, s.now)
  {
    assert ClientTiming(cfg, s, client) && ClientPunctual(cfg, s, client);
    FewTicksBetweenChecks(cfg, s.lastCheck, s.now);
    MostPunctualGrows(LIMITS[client], cfg.tickHz);
    SilenceExact(cfg, s.clients[client].lastCheckin, s.now);
  }

  lemma FewTicksBetweenChecks(cfg: Config, from: nat, now: nat)
    requires cfg.CountsOutlast() && from <= now <= from + cfg.Horizon()
    ensures TicksBetween(cfg, from, now) < FirstHidden(cfg.tickHz) - MostPunctual(LIMITS[2], cfg.tickHz)
  {
    hide Config.TickAt;
    var most := FirstHidden(cfg.tickHz) - MostPunctual(LIMITS[2], cfg.tickHz);
    TickAccuracy(cfg, from, now);
    assert most * cfg.tick == (most - 1) * cfg.tick + cfg.tick;
    MulLt(TicksBetween(cfg, from, now), most, cfg.tick);
  }

  lemma MostPunctualGrows(limit: nat, tickHz: nat)
    requires 0 < tickHz && limit in LIMITS
    ensures MostPunctual(limit, tickHz) <= MostPunctual(LIMITS[2], tickHz)
  {
    assert limit == 500 || limit == 2000;
  }

  lemma CheckKeepsClient(cfg: Config, s: State, client: nat)
    requires cfg.CountsOutlast() && Inv(cfg, s) && !s.expired && client < CLIENT_COUNT
    ensures ClientPunctual(cfg, CheckStep(cfg, s), client)
  {
    hide SilenceMs, Config.TickAt;
    assert ClientPunctual(cfg, s, client);
    if s.kicking && !AnyLate(Silences(cfg, s)) {
      SilenceNotHidden(cfg, s, client);
      assert Silences(cfg, s)[client] <= LIMITS[client];
      PunctualTicks(TicksBetween(cfg, s.clients[client].lastCheckin, s.now), cfg.tickHz, LIMITS[client]);
    }
  }

  lemma OtherStepKeepsClient(cfg: Config, s: State, e: Event, client: nat)
    requires cfg.Valid() && Inv(cfg, s) && !s.expired && !e.Check? && client < CLIENT_COUNT
    ensures ClientPunctual(cfg, Next(cfg, s, e), client)
  {
    hide Config.TickAt;
    assert ClientPunctual(cfg, s, client) && ClientTiming(cfg, s, client);
    TickMonotone(cfg, s.clients[client].lastCheckin, s.now);
  }

  lemma StepKeepsInv(cfg: Config, s: State, e: Event)
    requires cfg.CountsOutlast() && Inv(cfg, s)
    ensures Inv(cfg, Next(cfg, s, e))
  {
    assert s.Shape();
    hide ClientPunctual, Timing, CheckStep, AdvanceStep, CheckInStep, InjectStep;
    StepKeepsTiming(cfg, s, e);
    if !s.expired {
      forall client | 0 <= client < CLIENT_COUNT ensures ClientPunctual(cfg, Next(cfg, s, e), client) {
        if e.Check? {
          CheckKeepsClient(cfg, s, client);
        } else {
          OtherStepKeepsClient(cfg, s, e, client);
        }
      }
    }
  }

  lemma InitTiming(cfg: Config)
    requires cfg.Valid()
    ensures Timing(cfg, INIT)
  {
    assert cfg.TickAt(0) == 0;
  }

  lemma {:induction false} RunKeepsTiming(cfg: Config, trace: seq<Event>)
    requires cfg.Valid()
    ensures Timing(cfg, Run(cfg, trace))
  {
    hide Timing, Next;
    if trace == [] {
      InitTiming(cfg);
    } else {
      var n := |trace| - 1;
      RunKeepsTiming(cfg, trace[..n]);
      StepKeepsTiming(cfg, Run(cfg, trace[..n]), trace[n]);
    }
  }

  lemma {:induction false} RunKeepsInv(cfg: Config, trace: seq<Event>)
    requires cfg.CountsOutlast()
    ensures Inv(cfg, Run(cfg, trace))
  {
    hide Timing, Next;
    if trace == [] {
      InitTiming(cfg);
      assert forall client :: 0 <= client < CLIENT_COUNT ==> ClientPunctual(cfg, INIT, client);
    } else {
      var n := |trace| - 1;
      RunKeepsInv(cfg, trace[..n]);
      StepKeepsInv(cfg, Run(cfg, trace[..n]), trace[n]);
    }
  }

  lemma FewTicksAreShort(cfg: Config, from: nat, now: nat, most: nat)
    requires cfg.Valid() && from <= now && cfg.TickAt(now) <= cfg.TickAt(from) + most
    ensures now < from + (most + 1) * cfg.tick
  {
    hide Config.TickAt;
    TickAccuracy(cfg, from, now);
    var ticks := TicksBetween(cfg, from, now);
    assert ticks * cfg.tick + cfg.tick == (ticks + 1) * cfg.tick;
    MulLe(ticks + 1, most + 1, cfg.tick);
  }

  /** A kick at most `MostPunctual` ticks after a check-in comes within that time and a tick. */
  lemma KickIsSoon(cfg: Config, s: State, client: nat)
    requires cfg.Valid() && Inv(cfg, s) && client < CLIENT_COUNT
    ensures s.lastRestart < s.clients[client].lastCheckin + (MostPunctual(LIMITS[client], cfg.tickHz) + 1) * cfg.tick
  {
    hide Config.TickAt, MostPunctual;
    var from, most := s.clients[client].lastCheckin, MostPunctual(LIMITS[client], cfg.tickHz);
    assert ClientPunctual(cfg, s, client);
    if from <= s.lastRestart {
      FewTicksAreShort(cfg, from, s.lastRestart, most);
    }
  }

  /** Which is shorter than `Allowed`. */
  lemma MostPunctualTime(cfg: Config, client: nat)
    requires cfg.Valid() && client < CLIENT_COUNT
    ensures (MostPunctual(LIMITS[client], cfg.tickHz) + 1) * cfg.tick < cfg.Allowed(client)
  {
    var most := MostPunctual(LIMITS[client], cfg.tickHz);
    PunctualTicks(most, cfg.tickHz, LIMITS[client]);
    MsOfTicks(cfg, most, LIMITS[client]);
    assert (most + 1) * cfg.tick == most * cfg.tick + cfg.tick;
  }
}
