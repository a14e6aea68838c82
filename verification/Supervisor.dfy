/** `tasks/task_watchdog.c` as code: the clients' check-ins and the supervisor's loop body. A ghost
    trace records what happened; the fields always agree with `Watchdog.Run` of it. */
module Supervisors {
  import opened Word
  import opened Watchdog
  import opened WatchdogLimits
  import opened WdtDrivers

  /** The countdown that `wdt_drv_init` programs for the requested 2 s, in time units, given the
      length of one watchdog clock cycle: longer than asked for, and at most twice that and one
      reload block of the smallest prescaler. */
  lemma ProgrammedReload(clockHz: U32, cycle: nat, ms: nat, k: nat)
    requires 0 < clockHz && 0 < cycle && cycle * clockHz == 1000 * ms && Chosen(TIMEOUT_MS * clockHz, k)
    ensures
      var reload := Programmed(TIMEOUT_MS * clockHz, k) * cycle;
      TIMEOUT_MS * ms < reload <= 2 * TIMEOUT_MS * ms + Block(8) * cycle
  {
    var request := TIMEOUT_MS * clockHz;
    CountdownCovers(request, k);
    CountdownTime(request, Programmed(request, k), clockHz, cycle, ms);
  }

  /** A countdown of `cycles` just above `request`, given in thousandths of a cycle, as time. */
  lemma CountdownTime(request: nat, cycles: nat, clockHz: nat, cycle: nat, ms: nat)
    requires 0 < cycle && cycle * clockHz == 1000 * ms && request == TIMEOUT_MS * clockHz
    requires request < cycles * 1000 <= 2 * request + 32_768_000
    ensures TIMEOUT_MS * ms < cycles * cycle <= 2 * TIMEOUT_MS * ms + 32_768 * cycle
  {
    assert request * cycle == TIMEOUT_MS * (cycle * clockHz);
    MulLt(request, cycles * 1000, cycle);
    MulLe(cycles * 1000, 2 * request + 32_768_000, cycle);
    assert (cycles * 1000) * cycle == 1000 * (cycles * cycle);
    assert (2 * request + 32_768_000) * cycle == 2 * (request * cycle) + 32_768_000 * cycle;
  }

  /** The counts outlast that countdown at any watchdog clock from 8 Hz on, and at any clock at all
      with a tick rate up to 130 kHz. */
  lemma ReloadOutlasted(cfg: Config, clockHz: U32, cycle: nat)
    requires cfg.Valid() && cfg.running && clockHz > 0 && cycle * clockHz == 1000 * cfg.ms
    requires cfg.reload <= 2 * TIMEOUT_MS * cfg.ms + Block(8) * cycle
    requires clockHz >= 8 || cfg.tickHz <= 130_000
    ensures cfg.CountsOutlast()
  {
    if clockHz >= 8 {
      MulLe(8, clockHz, cycle);
      MsOutlasted(cfg, 4_100_000);
    } else {
      MulLe(1, clockHz, cycle);
      MsOutlasted(cfg, 32_772_000);
    }
  }

  lemma MsOutlasted(cfg: Config, most: nat)
    requires cfg.Valid() && cfg.running && cfg.reload <= most * cfg.ms
    requires most == 4_100_000 || (most == 32_772_000 && cfg.tickHz <= 130_000)
    ensures cfg.CountsOutlast()
  {
    var ticks := FirstHidden(cfg.tickHz) - MostPunctual(LIMITS[2], cfg.tickHz) - 1;
    assert most * cfg.tickHz <= ticks * 1000;
    MulLe(most * cfg.tickHz, ticks * 1000, cfg.ms);
    assert (most * cfg.tickHz) * cfg.ms == (most * cfg.ms) * cfg.tickHz;
    assert (ticks * 1000) * cfg.ms == ticks * (cfg.tick * cfg.tickHz);
    MulAssoc(ticks, cfg.tick, cfg.tickHz);
    MulLt(ticks * cfg.tick, most * cfg.ms, cfg.tickHz);
  }

  /** The documented worst case, limit plus 250 ms plus 2 s, holds as configured at any watchdog clock
      from 150 kHz on. */
  lemma DocumentedAtUsualClocks(cfg: Config, clockHz: U32, cycle: nat, k: nat, client: nat)
    requires cfg.Valid() && cfg.running && client < CLIENT_COUNT
    requires clockHz >= 150_000 && cycle * clockHz == 1000 * cfg.ms && Chosen(TIMEOUT_MS * clockHz, k)
    requires cfg.reload == Programmed(TIMEOUT_MS * clockHz, k) * cycle
    ensures KeepsDocumentedBound(cfg, client)
  {
    hide Programmed, KeepsDocumentedBound;
    ProgrammedReload(clockHz, cycle, cfg.ms, k);
    UsualCountdown(clockHz, k);
    UsualReload(Programmed(TIMEOUT_MS * clockHz, k), clockHz, cycle, cfg.ms);
    ReloadOutlasted(cfg, clockHz, cycle);
    ShortCountdownKeepsBound(cfg, client);
  }

  lemma UsualCountdown(clockHz: U32, k: nat)
    requires clockHz >= 150_000 && Chosen(TIMEOUT_MS * clockHz, k)
    ensures Programmed(TIMEOUT_MS * clockHz, k) * 1000 <= 2219 * clockHz
  {
    hide Programmed;
    CountdownCovers(TIMEOUT_MS * clockHz, k);
  }

  lemma UsualReload(cycles: nat, clockHz: nat, cycle: nat, ms: nat)
    requires cycle * clockHz == 1000 * ms && cycles * 1000 <= 2219 * clockHz
    ensures cycles * cycle <= 2219 * ms
  {
    MulLe(cycles * 1000, 2219 * clockHz, cycle);
    assert (2219 * clockHz) * cycle == 2219 * (cycle * clockHz);
    assert (cycles * 1000) * cycle == 1000 * (cycles * cycle);
  }

  /** At slow clocks it need not: at 20 kHz the countdown for 2 s lasts 3.28 s, and every client has a
      run that exceeds the documented figure. */
  lemma SlowClockExceeds(client: nat)
    requires client < CLIENT_COUNT
    ensures Chosen(TIMEOUT_MS * 20_000, 0)
    ensures
      var cfg := Config(1000, 20, 20, 0, Programmed(TIMEOUT_MS * 20_000, 0), true, 0);
      cfg.CountsOutlast() && !KeepsDocumentedBound(cfg, client)
  {
    assert Crv(TIMEOUT_MS * 20_000, 8) == 1;
    var cfg := Config(1000, 20, 20, 0, Programmed(TIMEOUT_MS * 20_000, 0), true, 0);
    assert cfg.reload == 65_536;
    MsOutlasted(cfg, 4_100_000);
    DocumentedBound(cfg, client);
  }

  /** What the driver reports, whole milliseconds by the clock, is the countdown in whole milliseconds
      of time. */
  lemma ReportedIsWhole(cycles: nat, reported: nat, clockHz: nat, cycle: nat, ms: nat)
    requires 0 < clockHz && 0 < cycle && 0 < ms && cycle * clockHz == 1000 * ms
    requires reported * clockHz <= cycles * 1000 < (reported + 1) * clockHz
    ensures Quotient(cycles * cycle, ms) == reported
  {
    var reload := cycles * cycle;
    assert (cycles * 1000) * cycle == 1000 * reload;
    MulLe(reported * clockHz, cycles * 1000, cycle);
    MulLt(cycles * 1000, (reported + 1) * clockHz, cycle);
    assert (reported * clockHz) * cycle == 1000 * (reported * ms);
    assert ((reported + 1) * clockHz) * cycle == 1000 * ((reported + 1) * ms);
    FloorAtMost(reload, ms, reported);
    if reported > 0 {
      FloorAtMost(reload, ms, reported - 1);
    }
  }

  class Supervisor {
    const wdt: WdtDriver
    const tickHz: nat
    const checkinTick: array<U32>
    const hangRequested: array<bool>
    const worst: array<U32>
    var kicking: bool
    var kicks: U32

    ghost const cfg: Config
    /** The length of a watchdog clock cycle. */
    ghost const cycle: nat
    ghost var trace: seq<Event>
    ghost var s: State

    ghost const Repr: set<object> := {this, wdt, checkinTick, hangRequested, worst}

    ghost predicate Shape() {
      && checkinTick.Length == hangRequested.Length == worst.Length == CLIENT_COUNT
      && checkinTick != worst && cfg.Valid() && tickHz == cfg.tickHz
    }

    ghost predicate ClientAgrees(client: nat)
      requires Shape() && client < CLIENT_COUNT
      reads this`s, checkinTick, hangRequested
    {
      && s.Shape()
      && checkinTick[client] == s.clients[client].checkinTick
      && hangRequested[client] == s.clients[client].hangRequested
    }

    /** The board's countdown is the one in the watchdog's registers. */
    ghost predicate CountdownAgrees()
      requires Shape()
      reads wdt
    {
      && wdt.Valid() && wdt.running == cfg.running
      && (cfg.running ==>
            0 < cycle && cycle * wdt.clockHz == 1000 * cfg.ms && cfg.reload == wdt.Countdown() * cycle)
    }

    ghost predicate Valid()
      reads Repr
    {
      && Shape() && s == Run(cfg, trace)
      && ClientAgrees(0) && ClientAgrees(1) && ClientAgrees(2)
      && worst[..] == s.worst && kicking == s.kicking && kicks == ToU32(s.kicks)
      && CountdownAgrees()
      && wdt.restarts == s.kicks + if cfg.running then 1 else 0
    }

    /** At start-up: nobody checked in yet, and the SWDT was started, or left off. */
    constructor (wdt: WdtDriver, ghost cfg: Config, ghost cycle: nat, tickHz: nat)
      requires cfg.Valid() && tickHz == cfg.tickHz
      requires wdt.Valid() && wdt.running == cfg.running && wdt.restarts == if cfg.running then 1 else 0
      requires cfg.running ==>
                 0 < cycle && cycle * wdt.clockHz == 1000 * cfg.ms && cfg.reload == wdt.Countdown() * cycle
      ensures Valid() && trace == [] && this.wdt == wdt && this.cfg == cfg && fresh(Repr - {wdt})
    {
      this.wdt, this.cfg, this.cycle, this.tickHz := wdt, cfg, cycle, tickHz;
      checkinTick := new U32[CLIENT_COUNT](_ => 0);
      hangRequested := new bool[CLIENT_COUNT](_ => false);
      worst := new U32[CLIENT_COUNT](_ => 0);
      kicking, kicks, trace, s := true, 0, [], INIT;
    }

    ghost method Note(e: Event)
      requires cfg.Valid() && s == Run(cfg, trace)
      modifies this`trace, this`s
      ensures trace == old(trace) + [e] && s == Next(cfg, old(s), e) && s == Run(cfg, trace)
    {
      RunSnoc(cfg, INIT, trace, e);
      trace, s := trace + [e], Next(cfg, s, e);
    }

    ghost method TimePasses(dt: nat)
      requires Valid() && !s.expired
      modifies this`trace, this`s
      ensures Valid() && trace == old(trace) + [Advance(dt)]
    {
      Note(Advance(dt));
    }

    /** `task_watchdog_checkin`: false means the injected hang took the caller; a task that hangs
        never comes back to call again. */
    method CheckIn(client: nat, tickCount: U32) returns (returned: bool)
      requires Valid() && !s.expired && tickCount == cfg.TickCount(s.now)
      requires client < CLIENT_COUNT ==> !s.clients[client].hung
      modifies checkinTick, this`trace, this`s
      ensures Valid() && trace == old(trace) + [Event.CheckIn(client)]
      ensures returned == !(client < CLIENT_COUNT && old(s.clients[client].hangRequested))
      ensures returned && client < CLIENT_COUNT ==>
                s.clients[client].lastCheckin == s.now && checkinTick[..] == old(checkinTick[..])[client := tickCount]
      ensures !returned || client >= CLIENT_COUNT ==> checkinTick[..] == old(checkinTick[..])
    {
      Note(Event.CheckIn(client));
      if client >= CLIENT_COUNT {
        return true;
      }
      if hangRequested[client] {
        return false;
      }
      checkinTick[client] := tickCount;
      return true;
    }

    /** `task_watchdog_inject_hang` */
    method InjectHang(client: nat)
      requires Valid() && !s.expired
      modifies hangRequested, this`trace, this`s
      ensures Valid() && trace == old(trace) + [Event.InjectHang(client)]
      ensures hangRequested[..] ==
              if client < CLIENT_COUNT then old(hangRequested[..])[client := true] else old(hangRequested[..])
    {
      Note(Event.InjectHang(client));
      if client < CLIENT_COUNT {
        hangRequested[client] := true;
      }
    }

    /** Reads one client's silence and keeps the worst of it. */
    method Look(idx: nat, now: U32) returns (silence: U32)
      requires Shape() && idx < CLIENT_COUNT
      modifies worst
      ensures silence == TicksToMs(ToU32(now - checkinTick[idx]), tickHz)
      ensures worst[..] == old(worst[..])[idx := if silence > old(worst[idx]) then silence else old(worst[idx])]
    {
      silence := TicksToMs(ToU32(now - checkinTick[idx]), tickHz);
      if silence > worst[idx] {
        worst[idx] := silence;
      }
    }

    /** The supervisor's look at all clients: the first late one, and every client's worst. */
    method LookAtAll(now: U32) returns (lateClient: nat, lateMs: U32)
      requires Valid() && now == cfg.TickCount(s.now)
      modifies worst
      ensures worst[..] == Worse(old(worst[..]), Silences(cfg, s))
      ensures lateClient <= CLIENT_COUNT && (lateClient < CLIENT_COUNT <==> AnyLate(Silences(cfg, s)))
      ensures forall i :: 0 <= i < lateClient ==> Silences(cfg, s)[i] <= LIMITS[i]
      ensures lateClient < CLIENT_COUNT ==>
                lateMs == Silences(cfg, s)[lateClient] && lateMs > LIMITS[lateClient]
    {
      lateClient, lateMs := CLIENT_COUNT, 0;
      ghost var silences := Silences(cfg, s);
      ghost var target := Worse(worst[..], silences);
      for idx := 0 to CLIENT_COUNT
        invariant forall i :: 0 <= i < idx ==> worst[i] == target[i]
        invariant forall i :: idx <= i < CLIENT_COUNT ==> worst[i] == old(worst[i])
        invariant lateClient == CLIENT_COUNT ==> forall i :: 0 <= i < idx ==> silences[i] <= LIMITS[i]
        invariant lateClient != CLIENT_COUNT ==>
                    && lateClient < idx && lateMs == silences[lateClient] && lateMs > LIMITS[lateClient]
                    && forall i :: 0 <= i < lateClient ==> silences[i] <= LIMITS[i]
      {
        assert ClientAgrees(idx);
        ghost var before := worst[..];
        var silence := Look(idx, now);
        assert silence == silences[idx];
        assert forall i :: 0 <= i < CLIENT_COUNT && i != idx ==> worst[..][i] == before[i];
        if silence > LIMITS[idx] && lateClient == CLIENT_COUNT {
          lateClient, lateMs := idx, silence;
        }
      }
      assert worst[..] == target;
    }

    /** One pass of the supervisor's loop after its wait; the report line names the first late client
        and its silence, once. */
    method CheckOnce(now: U32) returns (report: bool, lateClient: nat, lateMs: U32)
      requires Valid() && !s.expired && now == cfg.TickCount(s.now)
      modifies worst, this`kicking, this`kicks, wdt`restarts, this`trace, this`s
      ensures Valid() && trace == old(trace) + [Check]
      ensures report == (old(kicking) && !kicking)
      ensures report ==>
                && lateClient < CLIENT_COUNT && lateMs > LIMITS[lateClient]
                && lateMs == SilenceMs(cfg, old(s.now), old(s.clients[lateClient].checkinTick))
    {
      hide SilenceMs, AnyLate, Worse, Run, Cycles, ReportedMs;
      lateClient, lateMs := LookAtAll(now);
      Carries(kicks, s.kicks, 1);
      Note(Check);
      report := Conclude(lateClient < CLIENT_COUNT);
    }

    /** The end of the report line, "SWDT reset in T ms or less", printed when kicking has stopped. With
        a watchdog clock above 16 kHz it is true of every continuation exactly when the last kick is at
        least as long ago as what T rounds off. */
    method AnnounceReset() returns (timeoutMs: U32)
      requires Valid() && !kicking
      ensures !cfg.running ==> timeoutMs == 0
      ensures cfg.running && wdt.clockHz > 16_000 ==>
                (ResetWithin(cfg, trace, timeoutMs) <==> s.now - s.lastRestart >= Remainder(cfg.reload, cfg.ms))
    {
      timeoutMs := wdt.TimeoutMs();
      if cfg.running && wdt.clockHz > 16_000 {
        ReportedIsWhole(wdt.Countdown(), timeoutMs, wdt.clockHz, cycle, cfg.ms);
        PrintedPromise(cfg, trace);
      }
    }

    /** Kicks, or stops kicking for good; true when kicking stops. */
    method Conclude(late: bool) returns (report: bool)
      requires wdt.Valid()
      modifies this`kicking, this`kicks, wdt`restarts
      ensures wdt.Valid() && kicking == (old(kicking) && !late) && report == (old(kicking) && late)
      ensures
        var kick := kicking && wdt.running;
        && kicks == (if kick then ToU32(old(kicks) + 1) else old(kicks))
        && wdt.restarts == old(wdt.restarts) + (if kick then 1 else 0)
    {
      report := false;
      if !kicking {
        return;
      }
      if !late {
        if wdt.running {
          wdt.Kick();
          kicks := ToU32(kicks + 1);
        }
      } else {
        kicking, report := false, true;
      }
    }
  }

  /** Start-up with the SWDT enabled. It fails exactly without a watchdog clock; otherwise a
      countdown longer than 2 s is running when the supervisor starts, and the counts outlast it at any
      clock from 8 Hz on, or at any clock with a tick rate up to 130 kHz. */
  method Boot(clockHz: U32, tickHz: nat, ghost cycle: nat, ghost ms: nat, ghost tick: nat, ghost phase: nat)
    returns (sup: Supervisor?)
    requires 0 < cycle && 0 < ms && (clockHz != 0 ==> cycle * clockHz == 1000 * ms)
    requires 100 <= tickHz <= 1_000_000 && phase < tick && tick * tickHz == 1000 * ms
    ensures sup == null <==> clockHz == 0
    ensures sup != null ==>
              && fresh(sup) && fresh(sup.Repr) && sup.Valid() && sup.trace == []
              && sup.cfg.running && TIMEOUT_MS * ms < sup.cfg.reload
              && sup.cfg.ms == ms && sup.cfg.tick == tick && sup.cfg.phase == phase && sup.cfg.tickHz == tickHz
              && (clockHz >= 8 || tickHz <= 130_000 ==> sup.cfg.CountsOutlast())
              && (clockHz >= 150_000 ==>
                    forall client :: 0 <= client < CLIENT_COUNT ==> KeepsDocumentedBound(sup.cfg, client))
  {
    var wdt := new WdtDriver();
    var status := wdt.Init(TIMEOUT_MS, Clocked(clockHz));
    assert TIMEOUT_MS * clockHz < 0x10_0000_0000 * 1000;
    if !status.Ok? {
      return null;
    }
    wdt.Start();
    ghost var cfg := Config(tickHz, ms, tick, phase, wdt.Countdown() * cycle, true, 0);
    BootPromises(wdt, cfg, clockHz, cycle);
    sup := new Supervisor(wdt, cfg, cycle, tickHz);
  }

  lemma BootPromises(wdt: WdtDriver, cfg: Config, clockHz: U32, cycle: nat)
    requires 0 < clockHz && 0 < cycle && 0 < cfg.ms && cycle * clockHz == 1000 * cfg.ms
    requires exists k: nat :: Chosen(TIMEOUT_MS * clockHz, k) && wdt.divider == PRESCALERS[k]
    requires 0 < wdt.divider && wdt.crv == Crv(TIMEOUT_MS * clockHz, wdt.divider)
    requires cfg.running && cfg.reload == wdt.Countdown() * cycle
    ensures TIMEOUT_MS * cfg.ms < cfg.reload
    ensures cfg.Valid() && (clockHz >= 8 || cfg.tickHz <= 130_000) ==> cfg.CountsOutlast()
    ensures cfg.Valid() && clockHz >= 150_000 ==>
              forall client :: 0 <= client < CLIENT_COUNT ==> KeepsDocumentedBound(cfg, client)
  {
    hide KeepsDocumentedBound;
    var k: nat :| Chosen(TIMEOUT_MS * clockHz, k) && wdt.divider == PRESCALERS[k];
    ProgrammedReload(clockHz, cycle, cfg.ms, k);
    if cfg.Valid() && (clockHz >= 8 || cfg.tickHz <= 130_000) {
      ReloadOutlasted(cfg, clockHz, cycle);
    }
    if cfg.Valid() && clockHz >= 150_000 {
      forall client | 0 <= client < CLIENT_COUNT ensures KeepsDocumentedBound(cfg, client) {
        DocumentedAtUsualClocks(cfg, clockHz, cycle, k, client);
      }
    }
  }
}
