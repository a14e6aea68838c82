/** `system/uptime.c`: the 64-bit timer count as microseconds, without the product that would
    overflow. */
module Uptime {
  import opened Word

  type U64 = x: int | 0 <= x < 0x1_0000_0000_0000_0000

  /** `uptime_us`: whole seconds first, then the rest, in 64-bit arithmetic. */
  function UptimeUs(counts: U64, countsPerSec: nat): U64
    requires 0 < countsPerSec
  {
    var wholeSec := Quotient(counts, countsPerSec);
    var remCounts := Remainder(counts, countsPerSec);
    ToU64(ToU64(wholeSec * 1_000_000) + Quotient(ToU64(remCounts * 1_000_000), countsPerSec))
  }

  /** `uptime_ms` */
  function UptimeMs(counts: U64, countsPerSec: nat): U32
    requires 0 < countsPerSec
  {
    ToU32(UptimeUs(counts, countsPerSec) / 1000)
  }

  /** What it should be: the exact time, rounded down. */
  function ExactUs(counts: nat, countsPerSec: nat): nat
    requires 0 < countsPerSec
  {
    Quotient(counts * 1_000_000, countsPerSec)
  }

  /** Clocks for which the split form is exact: at least 1 MHz, and a second's counts times 10^6
      within 64 bits. */
  predicate ClockFits(countsPerSec: nat) {
    1_000_000 <= countsPerSec && countsPerSec * 1_000_000 <= TWO_64
  }

  /** The two parts of the split form add up to the exact time. */
  lemma SplitIsExact(counts: nat, countsPerSec: nat)
    requires 0 < countsPerSec
    ensures ExactUs(counts, countsPerSec)
            == Quotient(counts, countsPerSec) * 1_000_000
               + Quotient(Remainder(counts, countsPerSec) * 1_000_000, countsPerSec)
  {
    var q, r := Quotient(counts, countsPerSec), Remainder(counts, countsPerSec);
    QuotientAndRemainder(counts, countsPerSec);
    assert counts * 1_000_000 == r * 1_000_000 + (q * 1_000_000) * countsPerSec;
    DivShift(r * 1_000_000, countsPerSec, q * 1_000_000);
  }

  lemma SlowerThanCounts(counts: nat, countsPerSec: nat)
    requires 1_000_000 <= countsPerSec
    ensures ExactUs(counts, countsPerSec) <= counts
  {
    FloorAtMost(counts * 1_000_000, countsPerSec, counts);
    MulLe(1_000_000, countsPerSec, counts + 1);
  }

  /** For every 64-bit count no intermediate overflows and the result is the exact time, rounded
      down to a microsecond. */
  lemma UptimeExact(counts: U64, countsPerSec: nat)
    requires ClockFits(countsPerSec)
    ensures UptimeUs(counts, countsPerSec) == ExactUs(counts, countsPerSec)
  {
    var q, r := Quotient(counts, countsPerSec), Remainder(counts, countsPerSec);
    SplitIsExact(counts, countsPerSec);
    SlowerThanCounts(counts, countsPerSec);
    NothingWraps(q * 1_000_000, r * 1_000_000, Quotient(r * 1_000_000, countsPerSec));
  }

  lemma NothingWraps(seconds: nat, rest: nat, micros: nat)
    requires seconds + micros < TWO_64 && rest < TWO_64
    ensures ToU64(seconds) == seconds && ToU64(rest) == rest && ToU64(seconds + micros) == seconds + micros
  {
  }

  /** The bound the source relies on: every clock from 1 MHz up to 2^29 counts per second fits. */
  lemma UsualClocksFit(countsPerSec: nat)
    requires 1_000_000 <= countsPerSec <= 0x2000_0000
    ensures ClockFits(countsPerSec)
  {
  }

  /** Timestamps never go backwards. */
  lemma UptimeMonotone(a: U64, b: U64, countsPerSec: nat)
    requires ClockFits(countsPerSec) && a <= b
    ensures UptimeUs(a, countsPerSec) <= UptimeUs(b, countsPerSec)
  {
    UptimeExact(a, countsPerSec);
    UptimeExact(b, countsPerSec);
    Floors(a * 1_000_000, b * 1_000_000, countsPerSec);
  }

  /** The plain product would be wrong from 2^64 millionths of a count on, 15 hours at 333 MHz. */
  lemma PlainProductOverflows(counts: U64, countsPerSec: nat)
    requires ClockFits(countsPerSec)
    ensures Quotient(ToU64(counts * 1_000_000), countsPerSec) == UptimeUs(counts, countsPerSec)
            <==> counts * 1_000_000 < TWO_64
  {
    hide UptimeUs;
    UptimeExact(counts, countsPerSec);
    if counts * 1_000_000 >= TWO_64 {
      WrapTakesMuch(counts * 1_000_000);
      QuotientsDiffer(ToU64(counts * 1_000_000), counts * 1_000_000, countsPerSec);
    }
  }

  lemma WrapTakesMuch(x: nat)
    requires x >= TWO_64
    ensures ToU64(x) + TWO_64 <= x
  {
    DivBounds(x, 0x1_0000_0000_0000_0000);
  }

  lemma QuotientsDiffer(small: nat, big: nat, d: nat)
    requires 0 < d && small + d <= big
    ensures Quotient(small, d) < Quotient(big, d)
  {
    DivShift(small, d, 1);
    Floors(small + 1 * d, big, d);
  }

  /** The wrapping millisecond clock measures any interval below 2^32 ms by unsigned subtraction, to
      the millisecond. */
  lemma MsInterval(a: U64, b: U64, countsPerSec: nat)
    requires ClockFits(countsPerSec) && a <= b
    requires ExactUs(b, countsPerSec) / 1000 - ExactUs(a, countsPerSec) / 1000 < TWO_32
    ensures
      var elapsed := ToU32(UptimeMs(b, countsPerSec) - UptimeMs(a, countsPerSec));
      elapsed == ExactUs(b, countsPerSec) / 1000 - ExactUs(a, countsPerSec) / 1000
  {
    UptimeExact(a, countsPerSec);
    UptimeExact(b, countsPerSec);
    Floors(a * 1_000_000, b * 1_000_000, countsPerSec);
    MsDifference(ExactUs(a, countsPerSec), ExactUs(b, countsPerSec));
  }

  lemma MsDifference(a: nat, b: nat)
    requires a <= b && b / 1000 - a / 1000 < TWO_32
    ensures ToU32(ToU32(b / 1000) - ToU32(a / 1000)) == b / 1000 - a / 1000
  {
    SubWraps(b / 1000, a / 1000);
  }
}
