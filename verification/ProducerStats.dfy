/** The producer's statistics, `producer_update_stats` in `tasks/task_producer.c`: event counters,
    per-sensor extremes and sample interval extremes, all updated in place. */
module ProducerStats {
  import opened Word
  import opened Records

  const SENSOR_COUNT: nat := 7
  const UINT32_MAX: U32 := 0xFFFF_FFFF

  /** The samples taken so far, newest outermost. */
  datatype History = Start | Then(earlier: History, last: Record)

  function Size(h: History): nat {
    match h
    case Start => 0
    case Then(earlier, _) => Size(earlier) + 1
  }

  function ToSeq(h: History): seq<Record> {
    match h
    case Start => []
    case Then(earlier, last) => ToSeq(earlier) + [last]
  }

  /** Every sample carries one code per sensor. */
  predicate WellFormed(h: History) {
    h.Start? || (|h.last.codes| == SENSOR_COUNT && WellFormed(h.earlier))
  }

  /** Some sample has this code for the sensor. */
  predicate HasCode(h: History, sensor: nat, code: nat)
    requires WellFormed(h) && sensor < SENSOR_COUNT
  {
    h.Then? && (h.last.codes[sensor] == code || HasCode(h.earlier, sensor, code))
  }

  /** Some two consecutive captures are this far apart. */
  predicate HasGap(h: History, gap: int) {
    h.Then? && h.earlier.Then? &&
    (h.last.captureUs - h.earlier.last.captureUs == gap || HasGap(h.earlier, gap))
  }

  // ---- extremes as folds ----

  function MinCode(h: History, sensor: nat): nat
    requires h.Then? && WellFormed(h) && sensor < SENSOR_COUNT
  {
    var code := h.last.codes[sensor];
    if h.earlier.Start? then code else Min(MinCode(h.earlier, sensor), code)
  }

  function MaxCode(h: History, sensor: nat): nat
    requires h.Then? && WellFormed(h) && sensor < SENSOR_COUNT
  {
    var code := h.last.codes[sensor];
    if h.earlier.Start? then code else Max(MaxCode(h.earlier, sensor), code)
  }

  /** The folds are the extremes: they bound every code and each is one of the codes. */
  lemma {:induction false} ExtremesExact(h: History, sensor: nat)
    requires h.Then? && WellFormed(h) && sensor < SENSOR_COUNT
    ensures forall code: nat :: HasCode(h, sensor, code) ==> MinCode(h, sensor) <= code <= MaxCode(h, sensor)
    ensures HasCode(h, sensor, MinCode(h, sensor)) && HasCode(h, sensor, MaxCode(h, sensor))
  {
    if h.earlier.Then? {
      ExtremesExact(h.earlier, sensor);
    }
  }

  /** The samples whose extremes are kept after `h`. The 32-bit sample counter reads 1 again after
      2^32 samples, and the extremes then start over. */
  function Span(h: History): (span: History)
    ensures span.Start? <==> h.Start?
    ensures WellFormed(h) ==> WellFormed(span)
  {
    match h
    case Start => Start
    case Then(earlier, last) => Then(if ToU32(Size(h)) == 1 then Start else Span(earlier), last)
  }

  lemma {:induction false} SpanIsAll(h: History)
    requires Size(h) <= TWO_32
    ensures Span(h) == h
  {
    if h.Then? {
      SpanIsAll(h.earlier);
    }
  }

  /** `n` samples of which only the first reads 0. */
  function ColdStart(n: nat): (h: History)
    ensures Size(h) == n && WellFormed(h)
  {
    if n == 0 then Start
    else Then(ColdStart(n - 1), Record(0, 0, seq(SENSOR_COUNT, _ => if n == 1 then 0 else 1), 0))
  }

  lemma {:induction false} ColdStartMin(n: nat, sensor: nat)
    requires n > 0 && sensor < SENSOR_COUNT
    ensures MinCode(ColdStart(n), sensor) == 0
  {
    if n > 1 {
      ColdStartMin(n - 1, sensor);
    }
  }

  lemma {:induction false} ColdStartForgotten(n: nat, sensor: nat)
    requires n > TWO_32 && sensor < SENSOR_COUNT
    ensures MinCode(Span(ColdStart(n)), sensor) == 1
  {
    if n == TWO_32 + 1 {
      assert ToU32(n) == 1;
    } else {
      ColdStartForgotten(n - 1, sensor);
    }
  }

  /** The recorded extremes cover every sample taken as long as at most 2^32 were taken; from then
      on, for every length, there is a history whose minimum has been forgotten. */
  lemma ExtremesCoverAllSamples(n: nat, sensor: nat)
    requires n > 0 && sensor < SENSOR_COUNT
    ensures
      (forall h :: WellFormed(h) && Size(h) == n ==>
         MinCode(Span(h), sensor) == MinCode(h, sensor) && MaxCode(Span(h), sensor) == MaxCode(h, sensor))
      <==> n <= TWO_32
  {
    if n <= TWO_32 {
      forall h | WellFormed(h) && Size(h) == n ensures Span(h) == h {
        SpanIsAll(h);
      }
    } else {
      ColdStartMin(n, sensor);
      ColdStartForgotten(n, sensor);
      assert WellFormed(ColdStart(n)) && Size(ColdStart(n)) == n;
    }
  }

  // ---- sample intervals ----

  /** The shortest interval measured: 32-bit differences of consecutive captures, skipping those
      whose first timestamp is 0. */
  function PeriodMin(h: History): U32 {
    if h.Start? || h.earlier.Start? then UINT32_MAX
    else if h.earlier.last.captureUs == 0 then PeriodMin(h.earlier)
    else Min(PeriodMin(h.earlier), ToU32(h.last.captureUs - h.earlier.last.captureUs))
  }

  function PeriodMax(h: History): U32 {
    if h.Start? || h.earlier.Start? then 0
    else if h.earlier.last.captureUs == 0 then PeriodMax(h.earlier)
    else Max(PeriodMax(h.earlier), ToU32(h.last.captureUs - h.earlier.last.captureUs))
  }

  /** Timestamps are non-zero, never go backwards and are less than 2^32 us apart. */
  predicate Steady(h: History) {
    h.Start? || h.earlier.Start? ||
    (0 < h.earlier.last.captureUs <= h.last.captureUs < h.earlier.last.captureUs + TWO_32 && Steady(h.earlier))
  }

  /** Then, from the second sample on, the recorded periods are the extremes of the true gaps. */
  lemma {:induction false} PeriodsExact(h: History)
    requires Steady(h) && Size(h) >= 2
    ensures forall gap :: HasGap(h, gap) ==> PeriodMin(h) <= gap <= PeriodMax(h)
    ensures HasGap(h, PeriodMin(h)) && HasGap(h, PeriodMax(h))
  {
    if h.earlier.earlier.Then? {
      PeriodsExact(h.earlier);
    } else {
      assert !HasGap(h.earlier, PeriodMin(h)) && PeriodMin(h.earlier) == UINT32_MAX;
    }
  }

  // ---- histories as sequences ----

  lemma {:induction false} EverySampleCounts(h: History, sensor: nat, i: nat)
    requires WellFormed(h) && sensor < SENSOR_COUNT && i < |ToSeq(h)|
    ensures |ToSeq(h)[i].codes| == SENSOR_COUNT && HasCode(h, sensor, ToSeq(h)[i].codes[sensor])
  {
    if i < |ToSeq(h.earlier)| {
      EverySampleCounts(h.earlier, sensor, i);
    }
  }

  lemma {:induction false} CodeIsFromSample(h: History, sensor: nat, code: nat) returns (i: nat)
    requires WellFormed(h) && sensor < SENSOR_COUNT && HasCode(h, sensor, code)
    ensures i < |ToSeq(h)| && |ToSeq(h)[i].codes| == SENSOR_COUNT && ToSeq(h)[i].codes[sensor] == code
  {
    if h.last.codes[sensor] == code {
      i := |ToSeq(h)| - 1;
    } else {
      i := CodeIsFromSample(h.earlier, sensor, code);
    }
  }

  /** Consecutive timestamps are non-zero, do not go backwards and are less than 2^32 us apart. */
  predicate SteadySamples(taken: seq<Record>) {
    forall i :: 0 <= i < |taken| - 1 ==>
      0 < taken[i].captureUs <= taken[i + 1].captureUs < taken[i].captureUs + TWO_32
  }

  function Gap(taken: seq<Record>, i: nat): int
    requires i + 1 < |taken|
  {
    taken[i + 1].captureUs - taken[i].captureUs
  }

  lemma {:induction false} SteadyHistory(h: History)
    requires SteadySamples(ToSeq(h))
    ensures Steady(h)
  {
    if h.Then? && h.earlier.Then? {
      var n := |ToSeq(h)|;
      assert ToSeq(h.earlier) == ToSeq(h.earlier.earlier) + [h.earlier.last];
      assert ToSeq(h)[n - 1] == h.last && ToSeq(h)[n - 2] == h.earlier.last;
      assert forall i :: 0 <= i < n - 1 ==> ToSeq(h.earlier)[i] == ToSeq(h)[i];
      SteadyHistory(h.earlier);
    }
  }

  lemma {:induction false} EveryGapCounts(h: History, i: nat)
    requires i + 1 < |ToSeq(h)|
    ensures HasGap(h, Gap(ToSeq(h), i))
  {
    if i + 1 < |ToSeq(h.earlier)| {
      EveryGapCounts(h.earlier, i);
    }
  }

  lemma {:induction false} GapIsFromSamples(h: History, gap: int) returns (i: nat)
    requires HasGap(h, gap)
    ensures i + 1 < |ToSeq(h)| && Gap(ToSeq(h), i) == gap
  {
    assert ToSeq(h.earlier) == ToSeq(h.earlier.earlier) + [h.earlier.last];
    var n := |ToSeq(h)|;
    if h.last.captureUs - h.earlier.last.captureUs == gap {
      i := n - 2;
    } else {
      i := GapIsFromSamples(h.earlier, gap);
    }
  }

  lemma {:induction false} SizeIsLength(h: History)
    ensures Size(h) == |ToSeq(h)|
  {
    if h.Then? {
      SizeIsLength(h.earlier);
    }
  }

  lemma ExtremesOfSamples(h: History, sensor: nat)
    requires h.Then? && WellFormed(h) && sensor < SENSOR_COUNT
    ensures
      var taken, low, high := ToSeq(h), MinCode(h, sensor), MaxCode(h, sensor);
      && (forall i :: 0 <= i < |taken| ==> |taken[i].codes| == SENSOR_COUNT && low <= taken[i].codes[sensor] <= high)
      && (exists i :: 0 <= i < |taken| && |taken[i].codes| == SENSOR_COUNT && taken[i].codes[sensor] == low)
      && (exists i :: 0 <= i < |taken| && |taken[i].codes| == SENSOR_COUNT && taken[i].codes[sensor] == high)
  {
    ExtremesExact(h, sensor);
    forall i | 0 <= i < |ToSeq(h)|
      ensures |ToSeq(h)[i].codes| == SENSOR_COUNT
      ensures MinCode(h, sensor) <= ToSeq(h)[i].codes[sensor] <= MaxCode(h, sensor)
    {
      EverySampleCounts(h, sensor, i);
    }
    var low := CodeIsFromSample(h, sensor, MinCode(h, sensor));
    var high := CodeIsFromSample(h, sensor, MaxCode(h, sensor));
  }

  lemma PeriodsOfSamples(h: History)
    requires Steady(h) && Size(h) >= 2
    ensures
      && (forall i: nat :: i + 1 < |ToSeq(h)| ==> PeriodMin(h) <= Gap(ToSeq(h), i) <= PeriodMax(h))
      && (exists i: nat :: i + 1 < |ToSeq(h)| && Gap(ToSeq(h), i) == PeriodMin(h))
      && (exists i: nat :: i + 1 < |ToSeq(h)| && Gap(ToSeq(h), i) == PeriodMax(h))
  {
    PeriodsExact(h);
    forall i: nat | i + 1 < |ToSeq(h)| ensures PeriodMin(h) <= Gap(ToSeq(h), i) <= PeriodMax(h) {
      EveryGapCounts(h, i);
    }
    var low := GapIsFromSamples(h, PeriodMin(h));
    var high := GapIsFromSamples(h, PeriodMax(h));
  }

  // ---- the statistics record ----

  class Stats {
    var samples: U32
    var overruns: U32
    var timeouts: U32
    var periodMinUs: U32
    var periodMaxUs: U32
    var logWriteDrops: U32
    var doorbellRetries: U32
    const sensorMin: array<nat>
    const sensorMax: array<nat>

    /** Every sample taken so far, stored or dropped. */
    ghost var taken: History

    ghost const Repr: set<object> := {this, sensorMin, sensorMax}

    /** The arrays hold the extremes of these samples. */
    ghost predicate Extremes(h: History)
      reads sensorMin, sensorMax
    {
      && sensorMin.Length == sensorMax.Length == SENSOR_COUNT
      && WellFormed(h)
      && (h.Then? ==> forall k :: 0 <= k < SENSOR_COUNT ==>
            sensorMin[k] == MinCode(h, k) && sensorMax[k] == MaxCode(h, k))
    }

    ghost predicate Valid()
      reads Repr
    {
      && sensorMin != sensorMax
      && WellFormed(taken) && Extremes(Span(taken))
      && samples == ToU32(Size(taken))
      && periodMinUs == PeriodMin(taken) && periodMaxUs == PeriodMax(taken)
    }

    constructor ()
      ensures Valid() && fresh(Repr) && taken == Start
      ensures samples == overruns == timeouts == logWriteDrops == doorbellRetries == 0
    {
      samples, overruns, timeouts, logWriteDrops, doorbellRetries := 0, 0, 0, 0, 0;
      periodMinUs, periodMaxUs := UINT32_MAX, 0;
      sensorMin := new nat[SENSOR_COUNT];
      sensorMax := new nat[SENSOR_COUNT];
      taken := Start;
    }

    /** Accounts for one producer cycle. */
    method Update(record: Record, prevCaptureUs: nat, missedTicks: U32, writeDropped: bool, doorbellFailed: bool)
      requires Valid() && |record.codes| == SENSOR_COUNT
      requires prevCaptureUs == if taken.Start? then 0 else taken.last.captureUs
      modifies Repr
      ensures Valid() && taken == Then(old(taken), record)
      ensures samples == ToU32(old(samples) + 1)
      ensures overruns == ToU32(old(overruns) + missedTicks) && timeouts == old(timeouts)
      ensures logWriteDrops == if writeDropped then ToU32(old(logWriteDrops) + 1) else old(logWriteDrops)
      ensures doorbellRetries == if doorbellFailed then ToU32(old(doorbellRetries) + 1) else old(doorbellRetries)
    {
      UpdateCounters(missedTicks, writeDropped, doorbellFailed);
      UpdatePeriods(record, prevCaptureUs);
      UpdateExtremes(record, if samples == 1 then Start else Span(taken));
      taken := Then(taken, record);
    }

    method UpdateCounters(missedTicks: U32, writeDropped: bool, doorbellFailed: bool)
      requires samples == ToU32(Size(taken))
      modifies this`samples, this`overruns, this`logWriteDrops, this`doorbellRetries
      ensures samples == ToU32(old(samples) + 1) == ToU32(Size(taken) + 1)
      ensures overruns == ToU32(old(overruns) + missedTicks)
      ensures logWriteDrops == if writeDropped then ToU32(old(logWriteDrops) + 1) else old(logWriteDrops)
      ensures doorbellRetries == if doorbellFailed then ToU32(old(doorbellRetries) + 1) else old(doorbellRetries)
    {
      Carries(samples, Size(taken), 1);
      samples := ToU32(samples + 1);
      overruns := ToU32(overruns + missedTicks);
      if writeDropped {
        logWriteDrops := ToU32(logWriteDrops + 1);
      }
      if doorbellFailed {
        doorbellRetries := ToU32(doorbellRetries + 1);
      }
    }

    /** Measures the interval to the previous capture, if there was one. */
    method UpdatePeriods(record: Record, prevCaptureUs: nat)
      requires prevCaptureUs == if taken.Start? then 0 else taken.last.captureUs
      requires periodMinUs == PeriodMin(taken) && periodMaxUs == PeriodMax(taken)
      modifies this`periodMinUs, this`periodMaxUs
      ensures periodMinUs == PeriodMin(Then(taken, record)) && periodMaxUs == PeriodMax(Then(taken, record))
    {
      if prevCaptureUs != 0 {
        var intervalUs := ToU32(record.captureUs - prevCaptureUs);
        if intervalUs < periodMinUs {
          periodMinUs := intervalUs;
        }
        if intervalUs > periodMaxUs {
          periodMaxUs := intervalUs;
        }
      }
    }

    /** The first sample sets the extremes, every other one can only widen them. */
    method UpdateExtremes(record: Record, ghost span: History)
      requires sensorMin != sensorMax && Extremes(span)
      requires |record.codes| == SENSOR_COUNT && (samples == 1 <==> span.Start?)
      modifies sensorMin, sensorMax
      ensures Extremes(Then(span, record))
    {
      if samples == 1 {
        forall k | 0 <= k < SENSOR_COUNT {
          sensorMin[k] := record.codes[k];
        }
        forall k | 0 <= k < SENSOR_COUNT {
          sensorMax[k] := record.codes[k];
        }
      } else {
        for sensor := 0 to SENSOR_COUNT
          invariant forall k :: 0 <= k < sensor ==>
                      && sensorMin[k] == MinCode(Then(span, record), k)
                      && sensorMax[k] == MaxCode(Then(span, record), k)
          invariant forall k :: sensor <= k < SENSOR_COUNT ==>
                      sensorMin[k] == MinCode(span, k) && sensorMax[k] == MaxCode(span, k)
        {
          var code := record.codes[sensor];
          if code < sensorMin[sensor] {
            sensorMin[sensor] := code;
          }
          if code > sensorMax[sensor] {
            sensorMax[sensor] := code;
          }
        }
      }
    }

    /** One more timed-out wait. */
    method CountTimeout()
      requires Valid()
      modifies this`timeouts
      ensures Valid() && timeouts == ToU32(old(timeouts) + 1)
    {
      timeouts := ToU32(timeouts + 1);
    }
  }
}
