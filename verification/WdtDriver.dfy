/** `drivers/wdt_drv.c`: programming the SWDT. A countdown is a number of whole reload blocks, at
    most 2^12 of them, and one of four prescalers sets the length of a block. */
module WdtDrivers {
  import opened Word

  const CRV_MAX: nat := 0xFFF

  const PRESCALERS: seq<nat> := [8, 64, 512, 4096]

  datatype Status = Ok | ErrLookup | ErrInit | ErrRange

  /** What the hardware configuration offers: no watchdog, one that fails to initialise, or a clock. */
  datatype Hardware = Missing | Broken | Clocked(clockHz: U32)

  /** The reload value for a divider, two nested floors. `request` is the requested time in
      thousandths of a clock cycle, `timeout_ms * clock_hz`. */
  function Crv(request: nat, divider: nat): nat
    requires 0 < divider
  {
    Quotient(Quotient(request, 1000 * divider), 4096)
  }

  predicate Fits(request: nat, divider: nat)
    requires 0 < divider
  {
    Crv(request, divider) <= CRV_MAX
  }

  /** Clock cycles from a restart to the reset. */
  function Cycles(crv: nat, divider: nat): nat {
    (crv + 1) * 4096 * divider
  }

  /** The cycles programmed for a request and a prescaler. */
  function Programmed(request: nat, k: nat): nat
    requires k < |PRESCALERS|
  {
    Cycles(Crv(request, PRESCALERS[k]), PRESCALERS[k])
  }

  /** Clock cycles of one reload block, the step in which a timeout can be set. */
  function Block(divider: nat): nat {
    4096 * divider
  }

  /** The smallest prescaler that fits. */
  ghost predicate Chosen(request: nat, k: nat) {
    && k < |PRESCALERS| && Fits(request, PRESCALERS[k])
    && forall i :: 0 <= i < k ==> !Fits(request, PRESCALERS[i])
  }

  // ---- what the floors amount to ----

  /** `Crv` is the number of whole reload blocks in the requested time. */
  lemma CrvIsBlocks(request: nat, divider: nat)
    requires divider in PRESCALERS
    ensures Crv(request, divider) * Block(divider) * 1000 <= request
    ensures request < Cycles(Crv(request, divider), divider) * 1000
  {
    assert divider == 8 || divider == 64 || divider == 512 || divider == 4096;
  }

  /** A divider fits exactly when the requested time is shorter than its longest countdown. */
  lemma FitsBelow(request: nat, divider: nat)
    requires divider in PRESCALERS
    ensures Fits(request, divider) <==> request < 0x100_0000 * divider * 1000
  {
    CrvIsBlocks(request, divider);
    assert divider == 8 || divider == 64 || divider == 512 || divider == 4096;
  }

  ghost predicate NoneFits(request: nat) {
    forall i :: 0 <= i < |PRESCALERS| ==> !Fits(request, PRESCALERS[i])
  }

  /** The search fails exactly from 2^36 clock cycles on. */
  lemma OutOfReach(request: nat)
    ensures NoneFits(request) <==> request >= 0x10_0000_0000 * 1000
  {
    forall i | 0 <= i < |PRESCALERS|
      ensures Fits(request, PRESCALERS[i]) <==> request < 0x100_0000 * PRESCALERS[i] * 1000
    {
      FitsBelow(request, PRESCALERS[i]);
    }
    if request < 0x10_0000_0000 * 1000 {
      assert Fits(request, PRESCALERS[3]);
    }
  }

  /** The programmed countdown is longer than the request, by at most one reload block; with any
      divider above 8 that is at most 1/512 of the request. */
  lemma CountdownCovers(request: nat, k: nat)
    requires Chosen(request, k)
    ensures
      var cycles := Programmed(request, k);
      && request < cycles * 1000 <= request + Block(PRESCALERS[k]) * 1000
      && cycles <= 0x10_0000_0000
      && (k > 0 ==> (cycles * 1000 - request) * 512 <= request)
  {
    CrvIsBlocks(request, PRESCALERS[k]);
    if k > 0 {
      FitsBelow(request, PRESCALERS[k - 1]);
    }
  }

  /** The timeout the driver reports, in ms. */
  function ReportedMs(cycles: nat, clockHz: U32): U32
    requires clockHz > 0
  {
    ToU32(Quotient(ToU64(cycles * 1000), clockHz))
  }

  /** With any clock above 16 kHz nothing overflows: the reported timeout is the true one rounded
      down to a millisecond, never below the request and, with a divider above 8, at most 1/512
      above it. */
  lemma ReportHonest(timeoutMs: U32, clockHz: U32, k: nat)
    requires clockHz > 16_000 && Chosen(timeoutMs * clockHz, k)
    ensures
      var cycles := Programmed(timeoutMs * clockHz, k);
      var reported := ReportedMs(cycles, clockHz);
      && reported == Quotient(cycles * 1000, clockHz)
      && timeoutMs <= reported
      && (k > 0 ==> (reported - timeoutMs) * 512 <= timeoutMs)
  {
    var request := timeoutMs * clockHz;
    var cycles := Programmed(request, k);
    CountdownCovers(request, k);
    QuotientFits(cycles * 1000, clockHz);
    QuotientAtLeast(cycles * 1000, clockHz, timeoutMs);
    if k > 0 {
      ExcessSmall(cycles * 1000, clockHz, timeoutMs);
    }
  }

  lemma QuotientFits(x: nat, clockHz: nat)
    requires clockHz > 16_000 && x <= 0x10_0000_0000 * 1000
    ensures Quotient(x, clockHz) < 0x1_0000_0000
  {
    FloorAtMost(x, clockHz, 0xFFFF_FFFF);
  }

  lemma WholeMilliseconds(cycles: nat, clockHz: U32)
    requires clockHz > 16_000 && cycles <= 0x10_0000_0000
    ensures ReportedMs(cycles, clockHz) * clockHz <= cycles * 1000 < (ReportedMs(cycles, clockHz) + 1) * clockHz
  {
    QuotientFits(cycles * 1000, clockHz);
    DivBounds(cycles * 1000, clockHz);
  }

  lemma QuotientAtLeast(x: nat, clockHz: nat, timeoutMs: nat)
    requires clockHz > 0 && x >= timeoutMs * clockHz
    ensures Quotient(x, clockHz) >= timeoutMs
  {
    if timeoutMs > 0 {
      FloorAtMost(x, clockHz, timeoutMs - 1);
    }
  }

  lemma ExcessSmall(x: nat, clockHz: nat, timeoutMs: nat)
    requires clockHz > 0 && (x - timeoutMs * clockHz) * 512 <= timeoutMs * clockHz
    ensures (Quotient(x, clockHz) - timeoutMs) * 512 <= timeoutMs
  {
    var q := Quotient(x, clockHz);
    DivBounds(x, clockHz);
    assert (513 * timeoutMs) * clockHz == 513 * (timeoutMs * clockHz);
    assert (512 * q) * clockHz == 512 * (q * clockHz);
    MulLt(513 * timeoutMs, 512 * q, clockHz);
  }

  /** With this clock the reported timeout is the true one, rounded down, for every request the
      driver accepts. */
  ghost predicate ReportsTruly(clockHz: U32)
    requires clockHz > 0
  {
    forall timeoutMs: U32, k: nat | Chosen(timeoutMs * clockHz, k) ::
      ReportedMs(Programmed(timeoutMs * clockHz, k), clockHz)
      == Quotient(Programmed(timeoutMs * clockHz, k) * 1000, clockHz)
  }

  /** Those clocks are exactly the ones above 16 kHz. */
  lemma TrueReports(clockHz: U32)
    requires clockHz > 0
    ensures ReportsTruly(clockHz) <==> clockHz > 16_000
  {
    if clockHz > 16_000 {
      forall timeoutMs: U32, k: nat | Chosen(timeoutMs * clockHz, k)
        ensures ReportedMs(Programmed(timeoutMs * clockHz, k), clockHz)
                == Quotient(Programmed(timeoutMs * clockHz, k) * 1000, clockHz)
      {
        ReportHonest(timeoutMs, clockHz, k);
      }
    } else {
      var k := LongestRequest(clockHz);
      assert Chosen(0xFFFF_FFFF * clockHz, k);
    }
  }

  /** With any clock up to 16 kHz the longest request is accepted and reported wrongly: its
      countdown is a whole number of blocks, and none ends within the last millisecond below
      2^32 ms, so the true timeout does not fit 32 bits. */
  lemma LongestRequest(clockHz: U32) returns (k: nat)
    requires 0 < clockHz <= 16_000
    ensures Chosen(0xFFFF_FFFF * clockHz, k)
    ensures ReportedMs(Programmed(0xFFFF_FFFF * clockHz, k), clockHz)
            < Quotient(Programmed(0xFFFF_FFFF * clockHz, k) * 1000, clockHz)
  {
    var request := 0xFFFF_FFFF * clockHz;
    k := SmallestFit(request);
    CountdownCovers(request, k);
    var programmed := Programmed(request, k);
    NoBlockEnds(programmed * 1000, Crv(request, PRESCALERS[k]) + 1, PRESCALERS[k], clockHz);
    QuotientAtLeast(programmed * 1000, clockHz, 0x1_0000_0000);
  }

  lemma SmallestFit(request: nat) returns (k: nat)
    requires request < 0x10_0000_0000 * 1000
    ensures Chosen(request, k)
  {
    OutOfReach(request);
    k := 0;
    while !Fits(request, PRESCALERS[k])
      invariant k < |PRESCALERS| && forall i :: 0 <= i < k ==> !Fits(request, PRESCALERS[i])
      invariant exists i :: k <= i < |PRESCALERS| && Fits(request, PRESCALERS[i])
      decreases |PRESCALERS| - k
    {
      k := k + 1;
    }
  }

  lemma NoBlockEnds(x: nat, blocks: nat, divider: nat, clockHz: nat)
    requires divider in PRESCALERS && x == blocks * 4096 * divider * 1000
    requires 0 < clockHz <= 16_000 && x > 0xFFFF_FFFF * clockHz
    ensures x >= 0x1_0000_0000 * clockHz
  {
    BlocksAre32K(blocks, divider);
    NothingBetween(blocks * (divider / 8) * 1000, clockHz);
  }

  lemma BlocksAre32K(blocks: nat, divider: nat)
    requires divider in PRESCALERS
    ensures blocks * 4096 * divider * 1000 == 32_768 * (blocks * (divider / 8) * 1000)
  {
    assert divider == 8 || divider == 64 || divider == 512 || divider == 4096;
  }

  lemma NothingBetween(m: int, clockHz: nat)
    requires 0 < clockHz <= 16_000 && 32_768 * m > 0xFFFF_FFFF * clockHz
    ensures 32_768 * m >= 0x1_0000_0000 * clockHz
  {
  }

  /** The 64-bit product of two 32-bit values is exact. */
  lemma ProductFits(a: U32, b: U32)
    ensures ToU64(a * b) == a * b
  {
    MulLe(a, 0xFFFF_FFFF, b);
    assert 0 <= a * b <= 0xFFFF_FFFF * b;
  }

  // ---- the driver ----

  class WdtDriver {
    // the watchdog's registers
    var divider: nat
    var crv: nat
    var resetOutput: bool
    /** Restarts of the countdown so far. */
    ghost var restarts: nat
    /** The clock the registers were programmed for; 0 before the first time. */
    ghost var clockHz: U32

    var ready: bool
    var running: bool
    var timeoutMs: U32

    /** Clock cycles from a restart to the reset, as programmed. */
    ghost function Countdown(): nat
      reads this
    {
      Cycles(crv, divider)
    }

    /** A countdown that is ready or running was programmed, into 12 and 2 bits, and its timeout
        noted. */
    ghost predicate Valid()
      reads this
    {
      && (ready || running ==> clockHz > 0)
      && (clockHz > 0 ==>
            divider in PRESCALERS && crv <= CRV_MAX && resetOutput && timeoutMs == ReportedMs(Countdown(), clockHz))
    }

    constructor ()
      ensures Valid() && !ready && !running && timeoutMs == 0 && restarts == 0
    {
      ready, running, timeoutMs, restarts, clockHz := false, false, 0, 0, 0;
      divider, crv, resetOutput := 8, 0, false;
    }

    /** `wdt_drv_init` */
    method Init(timeout: U32, hw: Hardware) returns (status: Status)
      requires Valid()
      modifies this`divider, this`crv, this`resetOutput, this`ready, this`timeoutMs, this`clockHz
      ensures Valid() && ready == status.Ok?
      ensures status.ErrLookup? <==> timeout != 0 && hw.Missing?
      ensures status.ErrInit? <==> timeout != 0 && (hw.Broken? || (hw.Clocked? && hw.clockHz == 0))
      ensures status.ErrRange? <==>
                (timeout == 0 || (hw.Clocked? && hw.clockHz != 0 && timeout * hw.clockHz >= 0x10_0000_0000 * 1000))
      ensures !status.Ok? ==>
                && timeoutMs == old(timeoutMs) && clockHz == old(clockHz)
                && divider == old(divider) && crv == old(crv) && resetOutput == old(resetOutput)
      ensures status.Ok? ==>
                && hw.Clocked? && hw.clockHz > 0 && resetOutput && clockHz == hw.clockHz
                && (exists k: nat :: Chosen(timeout * hw.clockHz, k) && divider == PRESCALERS[k])
                && crv == Crv(timeout * hw.clockHz, divider)
                && timeoutMs == ReportedMs(Cycles(crv, divider), hw.clockHz)
    {
      ready := false;
      if timeout == 0 {
        return ErrRange;
      }
      if hw.Missing? {
        return ErrLookup;
      }
      if hw.Broken? {
        return ErrInit;
      }
      var hz := hw.clockHz;
      if hz == 0 {
        return ErrInit;
      }
      var request := ToU64(timeout * hz);
      ProductFits(timeout, hz);
      OutOfReach(request);
      for idx := 0 to |PRESCALERS|
        invariant forall i :: 0 <= i < idx ==> !Fits(request, PRESCALERS[i])
        invariant Valid() && !ready && timeoutMs == old(timeoutMs) && clockHz == old(clockHz)
        invariant divider == old(divider) && crv == old(crv) && resetOutput == old(resetOutput)
      {
        var newCrv := Crv(request, PRESCALERS[idx]);
        if newCrv > CRV_MAX {
          continue;
        }
        divider, crv, resetOutput := PRESCALERS[idx], newCrv, true;
        timeoutMs := ReportedMs(Cycles(crv, divider), hz);
        ready, clockHz := true, hz;
        assert Chosen(request, idx);
        return Ok;
      }
      return ErrRange;
    }

    /** `wdt_drv_start` */
    method Start()
      requires Valid()
      modifies this`running, this`restarts
      ensures Valid() && running == (old(running) || ready)
      ensures restarts == old(restarts) + if ready then 1 else 0
    {
      if !ready {
        return;
      }
      restarts := restarts + 1;
      running := true;
    }

    /** `wdt_drv_kick` */
    method Kick()
      requires Valid()
      modifies this`restarts
      ensures Valid() && restarts == old(restarts) + if running then 1 else 0
    {
      if running {
        restarts := restarts + 1;
      }
    }

    /** `wdt_drv_timeout_ms`: 0 while nothing counts, otherwise - with a clock above 16 kHz - the
        programmed countdown lasts so many whole milliseconds and less than one more. */
    method TimeoutMs() returns (ms: U32)
      requires Valid()
      ensures !running ==> ms == 0
      ensures running && clockHz > 16_000 ==> ms * clockHz <= Countdown() * 1000 < (ms + 1) * clockHz
    {
      hide Cycles, ReportedMs;
      if running && clockHz > 16_000 {
        CountdownFits(crv, divider);
        WholeMilliseconds(Countdown(), clockHz);
      }
      return if running then timeoutMs else 0;
    }
  }

  lemma CountdownFits(crv: nat, divider: nat)
    requires crv <= CRV_MAX && divider in PRESCALERS
    ensures Cycles(crv, divider) <= 0x10_0000_0000
  {
    assert divider == 8 || divider == 64 || divider == 512 || divider == 4096;
  }
}
