/** `datalog/ring_buffer.c`: an array, a mask and two wrapping counters, standing for a `Fifo`. */
module RingBuffers {
  import opened Word
  import opened Wrappers
  import opened DropOldest

  /** The largest capacity `Init` accepts; up to here a full buffer's fill level is a 32-bit number. */
  const RING_CAPACITY_MAX: U32 := 0x8000_0000

  /** The slot of the n-th record ever pushed: n modulo the capacity. */
  function Slot(n: nat, cap: nat): (i: nat)
    requires 0 < cap
    ensures i < cap
  {
    if n < cap then n else Slot(n - cap, cap)
  }

  lemma {:induction false} SlotIsMod(n: nat, cap: nat)
    requires 0 < cap
    ensures Slot(n, cap) == n % cap
  {
    if n < cap {
      DivModUnique(n, cap, 0, n);
    } else {
      SlotIsMod(n - cap, cap);
      var q, r := (n - cap) / cap, (n - cap) % cap;
      assert n - cap == cap * q + r;
      assert n == cap * (q + 1) + r;
      DivModUnique(n, cap, q + 1, r);
    }
  }

  /** The masked 32-bit counter picks that slot, however often the counter has wrapped. */
  lemma SlotOfCounter(counter: U32, n: nat, bits: nat, mask: nat)
    requires counter == ToU32(n) && bits <= 31 && mask == Pow2(bits) - 1
    ensures And(counter, mask) == Slot(n, Pow2(bits))
  {
    MaskOfCounter(n, bits);
    SlotIsMod(n, Pow2(bits));
  }

  lemma SlotsDiffer(a: nat, b: nat, cap: nat)
    requires 0 < cap && a < b < a + cap
    ensures Slot(a, cap) != Slot(b, cap)
  {
    SlotIsMod(a, cap);
    SlotIsMod(b, cap);
    ModDistinct(a, b, cap);
  }

  /** Slots `from`, `from + 1`, ... of the store, modulo its size, hold `contents`. */
  ghost predicate SlotsHold<T>(store: seq<T>, from: nat, contents: seq<T>, cap: nat) {
    && 0 < cap <= |store|
    && forall i :: 0 <= i < |contents| ==> store[Slot(from + i, cap)] == contents[i]
  }

  /** Writing the next slot adds a record and disturbs none of the others. */
  lemma SlotsAppend<T>(store: seq<T>, from: nat, contents: seq<T>, x: T, cap: nat)
    requires SlotsHold(store, from, contents, cap) && |contents| < cap
    ensures SlotsHold(store[Slot(from + |contents|, cap) := x], from, contents + [x], cap)
  {
    var store' := store[Slot(from + |contents|, cap) := x];
    forall i | 0 <= i < |contents|
      ensures store'[Slot(from + i, cap)] == contents[i]
    {
      SlotsDiffer(from + i, from + |contents|, cap);
    }
  }

  lemma SlotsDrop<T>(store: seq<T>, from: nat, contents: seq<T>, k: nat, cap: nat)
    requires SlotsHold(store, from, contents, cap) && k <= |contents|
    ensures SlotsHold(store, from + k, contents[k..], cap)
  {
    forall i | 0 <= i < |contents[k..]|
      ensures store[Slot(from + k + i, cap)] == contents[k..][i]
    {
      assert contents[k..][i] == contents[k + i];
      assert from + k + i == from + (k + i);
    }
  }

  /** What the buffer's storage has to hold for a model state. */
  ghost predicate Stores<T>(store: seq<T>, f: Fifo<T>, cap: nat) {
    && SlotsHold(store, f.popped + f.dropped, f.contents, cap)
    && f.pushed == f.popped + f.dropped + |f.contents| && |f.contents| <= cap
    && (f.newest.Some? <==> f.pushed > 0)
    && (f.newest.Some? ==> store[Slot(f.pushed - 1, cap)] == f.newest.value)
  }

  /** One array write takes the storage from one model state to the next. */
  lemma StoresAppend<T>(store: seq<T>, f: Fifo<T>, x: T, cap: nat)
    requires Stores(store, f, cap) && |f.contents| < cap
    ensures Stores(store[Slot(f.pushed, cap) := x], Append(f, x), cap)
  {
    SlotsAppend(store, f.popped + f.dropped, f.contents, x, cap);
  }

  lemma StoresDiscard<T>(store: seq<T>, f: Fifo<T>, cap: nat)
    requires Stores(store, f, cap) && f.contents != []
    ensures Stores(store, Discard(f), cap)
  {
    SlotsDrop(store, f.popped + f.dropped, f.contents, 1, cap);
  }

  lemma StoresPop<T>(store: seq<T>, f: Fifo<T>, max: nat, cap: nat)
    requires Stores(store, f, cap)
    ensures Stores(store, DropOldest.Pop(f, max), cap)
  {
    SlotsDrop(store, f.popped + f.dropped, f.contents, Min(max, |f.contents|), cap);
  }

  class RingBuffer<T> {
    var storage: array?<T>
    var capacity: U32
    var indexMask: U32
    var head: U32
    var tail: U32
    var overwritten: U32
    var fillHighWater: U32
    var hasNewest: bool

    /** The unbounded bounded-sequence model this buffer stands for. */
    ghost var fifo: Fifo<T>
    /** The capacity is 2^bits. */
    ghost var bits: nat

    ghost function Frame(): set<object>
      reads this
    {
      if storage == null then {} else {storage}
    }

    /** Unbounded count of the elements that have left. */
    ghost function Removed(): nat
      reads this
    {
      fifo.popped + fifo.dropped
    }

    /** Holds before initialisation too; operations on such a buffer do nothing. */
    ghost predicate Valid()
      reads this, Frame()
    {
      storage != null ==>
        && Counters()
        && storage.Length >= capacity
        && Stores(storage[..], fifo, capacity)
    }

    ghost predicate Geometry()
      reads this
    {
      bits <= 31 && capacity == Pow2(bits) && indexMask == capacity - 1
    }

    /** The 32-bit fields are the model's counters modulo 2^32. */
    ghost predicate Counters()
      reads this
    {
      && Geometry()
      && capacity <= RING_CAPACITY_MAX
      && head == ToU32(fifo.pushed) && tail == ToU32(Removed())
      && overwritten == ToU32(fifo.dropped)
      && fillHighWater == fifo.peak
      && (hasNewest <==> fifo.newest.Some?)
    }

    constructor ()
      ensures Valid() && storage == null
    {
      storage, capacity, indexMask, head, tail := null, 0, 0, 0, 0;
      overwritten, fillHighWater, hasNewest := 0, 0, false;
      fifo, bits := Empty(), 0;
    }

    /** Succeeds exactly for non-null storage and a power-of-two capacity up to 2^31. */
    method Init(storage: array?<T>, capacity: U32) returns (ok: bool)
      requires storage != null ==> storage.Length >= capacity
      requires Valid()
      modifies this
      ensures Valid()
      ensures ok <==> storage != null && capacity <= RING_CAPACITY_MAX && IsPow2(capacity)
      ensures ok ==> this.storage == storage && this.capacity == capacity && fifo == Empty()
      ensures !ok ==> unchanged(this)
    {
      if storage == null {
        return false;
      }
      if capacity == 0 || And(capacity, capacity - 1) != 0 || capacity > RING_CAPACITY_MAX {
        if capacity == 0 {
          assert forall k: nat :: Pow2(k) > 0;
        } else {
          PowerOfTwoTest(capacity);
        }
        return false;
      }
      PowerOfTwoTest(capacity);
      ghost var k: nat :| capacity == Pow2(k);
      if k > 31 {
        Pow2Of32();
        Pow2Monotone(32, k);
      }
      this.storage := storage;
      this.capacity := capacity;
      indexMask := capacity - 1;
      head := 0;
      tail := 0;
      overwritten := 0;
      fillHighWater := 0;
      hasNewest := false;
      fifo, bits := Empty(), k;
      return true;
    }

    /** The model's number of elements, whatever the counters have wrapped to. */
    function Count(): (n: U32)
      reads this, Frame()
      requires Valid()
      ensures storage != null ==> n == |fifo.contents|
    {
      SubWraps(fifo.pushed, Removed());
      ToU32(head - tail)
    }

    /** Array index for a counter value: the counter AND-ed with the mask. */
    method IndexOf(counter: U32, ghost n: nat) returns (index: nat)
      requires storage != null && Geometry() && counter == ToU32(n)
      ensures index == Slot(n, capacity)
    {
      SlotOfCounter(counter, n, bits, indexMask);
      return And(counter, indexMask);
    }

    /** Makes room in a full buffer by discarding the oldest element of the model. */
    method DropOne()
      requires Valid() && storage != null && fifo.contents != []
      modifies this`tail, this`overwritten, this`fifo
      ensures Valid() && fifo == Discard(old(fifo))
    {
      tail := ToU32(tail + 1);
      overwritten := ToU32(overwritten + 1);
      AddWraps(Removed(), 1);
      AddWraps(fifo.dropped, 1);
      StoresDiscard(storage[..], fifo, capacity);
      fifo := Discard(fifo);
    }

    /** Counts the record just written under `head`. */
    method Advance(ghost record: T)
      requires storage != null && Counters() && storage.Length >= capacity
      requires Stores(storage[..], Append(fifo, record), capacity)
      modifies this`head, this`hasNewest, this`fillHighWater, this`fifo
      ensures Valid() && fifo == Append(old(fifo), record)
    {
      AddWraps(fifo.pushed, 1);
      head := ToU32(head + 1);
      hasNewest := true;
      NotePeak(|fifo.contents| + 1, fifo.pushed + 1);
      fifo := Append(fifo, record);
    }

    /** Keeps the highest fill level. */
    method NotePeak(ghost filled: nat, ghost pushed: nat)
      requires head == ToU32(pushed) && tail == ToU32(pushed - filled) && filled < TWO_32
      modifies this`fillHighWater
      ensures fillHighWater == Max(old(fillHighWater), filled)
    {
      SubWraps(pushed, pushed - filled);
      var fill := ToU32(head - tail);
      if fill > fillHighWater {
        fillHighWater := fill;
      }
    }

    /** Writes the slot under `head` of a buffer that has room. */
    method Store(record: T)
      requires Valid() && storage != null && |fifo.contents| < capacity
      modifies this`head, this`hasNewest, this`fillHighWater, this`fifo, storage
      ensures Valid() && fifo == Append(old(fifo), record)
    {
      ghost var was := storage[..];
      StoresAppend(was, fifo, record, capacity);
      var index := IndexOf(head, fifo.pushed);
      storage[index] := record;
      assert storage[..] == was[index := record];
      Advance(record);
    }

    /** Appends one record; the result says whether the oldest had to go. */
    method Push(record: T) returns (droppedOldest: bool)
      requires Valid()
      modifies this, Frame()
      ensures Valid()
      ensures storage == old(storage) && capacity == old(capacity)
      ensures storage == null ==> !droppedOldest && unchanged(this)
      ensures storage != null ==>
                && droppedOldest == (|old(fifo.contents)| == capacity)
                && fifo == DropOldest.Push(old(fifo), record, capacity)
    {
      droppedOldest := false;
      if storage == null {
        return;
      }
      if Count() == capacity {
        DropOne();
        droppedOldest := true;
      }
      Store(record);
    }

    /** Copies the `n` oldest records to the front of `recordsOut`. */
    method CopyOldest(recordsOut: array<T>, n: U32)
      requires Valid() && storage != null && n <= |fifo.contents|
      requires recordsOut != storage && n <= recordsOut.Length
      modifies recordsOut
      ensures recordsOut[..n] == fifo.contents[..n]
      ensures forall i :: n <= i < recordsOut.Length ==> recordsOut[i] == old(recordsOut[i])
    {
      for idx := 0 to n
        invariant forall i :: 0 <= i < idx ==> recordsOut[i] == fifo.contents[i]
        invariant forall i :: n <= i < recordsOut.Length ==> recordsOut[i] == old(recordsOut[i])
      {
        AddWraps(Removed(), idx);
        var index := IndexOf(ToU32(tail + idx), Removed() + idx);
        assert storage[..][index] == fifo.contents[idx];
        recordsOut[idx] := storage[index];
      }
    }

    /** Counts the copied records as removed; their slots keep what they hold. */
    method Retire(popCount: U32, ghost maxRecords: U32)
      requires Valid() && storage != null && popCount == Min(maxRecords, |fifo.contents|)
      modifies this`tail, this`fifo
      ensures Valid() && fifo == DropOldest.Pop(old(fifo), maxRecords)
    {
      AddWraps(Removed(), popCount);
      tail := ToU32(tail + popCount);
      StoresPop(storage[..], fifo, maxRecords, capacity);
      fifo := DropOldest.Pop(fifo, maxRecords);
    }

    /** Moves the oldest records, at most `maxRecords`, to the front of `recordsOut`. */
    method Pop(recordsOut: array?<T>, maxRecords: U32) returns (popCount: U32)
      requires Valid()
      requires recordsOut != null && storage != null ==>
                 recordsOut != storage && recordsOut.Length >= Min(maxRecords, |fifo.contents|)
      modifies this`tail, this`fifo, recordsOut
      ensures Valid()
      ensures storage == null || recordsOut == null ==> popCount == 0 && unchanged(this)
      ensures storage != null && recordsOut != null ==>
                && popCount == Min(maxRecords, |old(fifo.contents)|)
                && recordsOut[..popCount] == Oldest(old(fifo.contents), maxRecords)
                && (forall i :: popCount <= i < recordsOut.Length ==> recordsOut[i] == old(recordsOut[i]))
                && fifo == DropOldest.Pop(old(fifo), maxRecords)
    {
      if storage == null || recordsOut == null {
        return 0;
      }
      popCount := Count();
      if popCount > maxRecords {
        popCount := maxRecords;
      }
      CopyOldest(recordsOut, popCount);
      Retire(popCount, maxRecords);
    }

    /** The model's newest element: what the last push wrote, whether or not it was handed out. */
    method PeekNewest() returns (record: Option<T>)
      requires Valid()
      ensures record == if storage == null then None else fifo.newest
    {
      if storage == null || !hasNewest {
        return None;
      }
      AddWraps(fifo.pushed, -1);
      var index := IndexOf(ToU32(head - 1), fifo.pushed - 1);
      return Some(storage[index]);
    }
  }
}
