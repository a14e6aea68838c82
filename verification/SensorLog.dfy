/** `datalog/sensor_log.c`: the ring behind a mutex. Each method is one locked section; `locked`
    says whether the mutex was obtained within the caller's wait. */
module SensorLogs {
  import opened Word
  import opened AppConfig
  import opened Wrappers
  import opened Records
  import DropOldest
  import opened RingBuffers

  datatype LogStats = LogStats(
    capacity: U32, fill: U32, fillHighWater: U32, written: U32, read: U32, overwritten: U32)

  lemma CapacityIsPow2()
    ensures IsPow2(LOG_CAPACITY)
  {
    Pow2Add(8, 4);
    assert LOG_CAPACITY == Pow2(12);
  }

  class SensorLog {
    const ring: RingBuffer<Record>
    const storage: array<Record>

    ghost const Repr: set<object> := {this, ring, storage}

    ghost predicate Valid()
      reads Repr
    {
      ring.storage == storage && ring.Valid() && ring.capacity == LOG_CAPACITY
    }

    constructor (filler: Record)
      ensures Valid() && fresh(Repr) && ring.fifo == DropOldest.Empty()
    {
      var rb := new RingBuffer<Record>();
      var slots := new Record[LOG_CAPACITY](_ => filler);
      CapacityIsPow2();
      var ok := rb.Init(slots, LOG_CAPACITY);
      ring, storage := rb, slots;
    }

    /** One push under the lock. `wasEmpty` is true when the push found an empty model; without the lock
        the model stays as it is and `wasEmpty` is handed through. */
    method Write(record: Record, locked: bool, wasEmptyBefore: bool) returns (stored: bool, wasEmpty: bool)
      requires Valid()
      modifies ring, storage
      ensures Valid()
      ensures stored == locked
      ensures !locked ==> wasEmpty == wasEmptyBefore && ring.fifo == old(ring.fifo)
      ensures locked ==>
                && wasEmpty == (old(ring.fifo.contents) == [])
                && ring.fifo == DropOldest.Push(old(ring.fifo), record, LOG_CAPACITY)
    {
      if !locked {
        return false, wasEmptyBefore;
      }
      wasEmpty := ring.Count() == 0;
      var _ := ring.Push(record);
      return true, wasEmpty;
    }

    /** One pop under the lock, into the front of `recordsOut`. */
    method Read(recordsOut: array<Record>, maxRecords: U32, locked: bool) returns (ok: bool, count: U32)
      requires Valid() && recordsOut != storage && recordsOut.Length >= maxRecords
      modifies ring`tail, ring`fifo, recordsOut
      ensures Valid()
      ensures ok == locked
      ensures !locked ==> count == 0 && ring.fifo == old(ring.fifo) && recordsOut[..] == old(recordsOut[..])
      ensures locked ==>
                && count == Min(maxRecords, |old(ring.fifo.contents)|)
                && recordsOut[..count] == DropOldest.Oldest(old(ring.fifo.contents), maxRecords)
                && ring.fifo == DropOldest.Pop(old(ring.fifo), maxRecords)
    {
      if !locked {
        return false, 0;
      }
      count := ring.Pop(recordsOut, maxRecords);
      return true, count;
    }

    /** The model's newest element, under the lock. */
    method PeekNewest(locked: bool) returns (record: Option<Record>)
      requires Valid()
      ensures record == if locked then ring.fifo.newest else None
    {
      if !locked {
        return None;
      }
      record := ring.PeekNewest();
    }

    /** A consistent snapshot: every record ever written was read, is waiting, or was overwritten,
        in the 32-bit counters as in fact. */
    method GetStats(locked: bool) returns (stats: Option<LogStats>)
      requires Valid()
      ensures stats.Some? <==> locked
      ensures locked ==>
                var f, st := ring.fifo, stats.value;
                && st.capacity == LOG_CAPACITY && st.fill == |f.contents| && st.fillHighWater == f.peak
                && st.written == ToU32(f.pushed) && st.read == ToU32(f.popped)
                && st.overwritten == ToU32(f.dropped)
                && st.written == ToU32(st.read + st.fill + st.overwritten)
    {
      if !locked {
        return None;
      }
      SubWraps(ring.Removed(), ring.fifo.dropped);
      SumWraps(ring.fifo.popped, |ring.fifo.contents|, ring.fifo.dropped);
      return Some(LogStats(ring.capacity, ring.Count(), ring.fillHighWater, ring.head,
                           ToU32(ring.tail - ring.overwritten), ring.overwritten));
    }
  }
}
