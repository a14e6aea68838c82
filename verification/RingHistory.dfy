/** Whole push and pop histories of the ring buffer, however often its counters wrap. */
module RingHistories {
  import opened DropOldest
  import opened RingBuffers

  /** The amounts asked for fit the 32-bit parameter. */
  predicate Callable<T>(h: seq<Op<T>>) {
    forall i :: 0 <= i < |h| && h[i].PopOp? ==> h[i].max < 0x1_0000_0000
  }

  lemma OutputsSnoc<T>(h: seq<Op<T>>, op: Op<T>, cap: nat)
    requires 0 < cap
    ensures Outputs(h + [op], cap)
            == Outputs(h, cap) + (if op.PopOp? then Oldest(Run(h, cap).contents, op.max) else [])
  {
    assert (h + [op])[..|h|] == h;
  }

  /** One operation of a history on the real buffer. */
  method Perform<T>(rb: RingBuffer<T>, recordsOut: array<T>, op: Op<T>) returns (out: seq<T>)
    requires rb.Valid() && rb.storage != null && rb.capacity > 0
    requires recordsOut != rb.storage && recordsOut.Length >= rb.capacity
    requires op.PopOp? ==> op.max < 0x1_0000_0000
    modifies rb, rb.storage, recordsOut
    ensures rb.Valid() && rb.storage == old(rb.storage) && rb.capacity == old(rb.capacity)
    ensures rb.fifo == Apply(old(rb.fifo), op, rb.capacity)
    ensures out == if op.PopOp? then Oldest(old(rb.fifo.contents), op.max) else []
  {
    match op
    case PushOp(x) =>
      var _ := rb.Push(x);
      out := [];
    case PopOp(max) =>
      var n := rb.Pop(recordsOut, max);
      out := recordsOut[..n];
  }

  /** After any history from a fresh buffer, the array, the mask and the 32-bit counters stand for
      exactly the drop-oldest sequence of that history, and handed out exactly what it did. */
  method Replay<T>(rb: RingBuffer<T>, recordsOut: array<T>, h: seq<Op<T>>) returns (outputs: seq<T>)
    requires rb.Valid() && rb.storage != null && rb.capacity > 0 && rb.fifo == Empty()
    requires recordsOut != rb.storage && recordsOut.Length >= rb.capacity && Callable(h)
    modifies rb, rb.storage, recordsOut
    ensures rb.Valid() && rb.storage == old(rb.storage) && rb.capacity == old(rb.capacity)
    ensures rb.fifo == Run(h, rb.capacity) && outputs == Outputs(h, rb.capacity)
    ensures Accounts(rb.fifo, Pushes(h), outputs, rb.capacity)
  {
    outputs := [];
    for i := 0 to |h|
      invariant rb.Valid() && rb.storage == old(rb.storage) && rb.capacity == old(rb.capacity)
      invariant rb.fifo == Run(h[..i], rb.capacity) && outputs == Outputs(h[..i], rb.capacity)
    {
      RunSnoc(h[..i], h[i], rb.capacity);
      OutputsSnoc(h[..i], h[i], rb.capacity);
      assert h[..i + 1] == h[..i] + [h[i]];
      var out := Perform(rb, recordsOut, h[i]);
      outputs := outputs + out;
    }
    assert h[..|h|] == h;
    HistoryContents(h, rb.capacity);
  }
}
