module Wrappers {
  datatype Option<+T> = None | Some(value: T)
}

/** Reference model of the sensor log's ring: a bounded sequence that gives up its oldest element
    when a new one arrives and it is full. All counters are unbounded here. */
module DropOldest {
  import opened Word
  import opened Wrappers

  datatype Fifo<T> = Fifo(
    contents: seq<T>,   // waiting, oldest first
    pushed: nat,        // elements ever pushed
    popped: nat,        // elements ever handed out
    dropped: nat,       // elements given up to make room
    peak: nat,          // highest fill level so far
    newest: Option<T>)  // last element pushed, waiting or not

  function Empty<T>(): Fifo<T> {
    Fifo([], 0, 0, 0, 0, None)
  }

  /** The oldest `max` elements, or all of them. */
  function Oldest<T>(contents: seq<T>, max: nat): seq<T> {
    contents[..Min(max, |contents|)]
  }

  function Rest<T>(contents: seq<T>, max: nat): seq<T> {
    contents[Min(max, |contents|)..]
  }

  /** Gives up the oldest element. */
  function Discard<T>(f: Fifo<T>): Fifo<T>
    requires f.contents != []
  {
    f.(contents := f.contents[1..], dropped := f.dropped + 1)
  }

  function Append<T>(f: Fifo<T>, x: T): Fifo<T> {
    f.(contents := f.contents + [x], pushed := f.pushed + 1,
       peak := Max(f.peak, |f.contents| + 1), newest := Some(x))
  }

  function Push<T>(f: Fifo<T>, x: T, cap: nat): Fifo<T>
    requires 0 < cap
  {
    Append(if |f.contents| >= cap then Discard(f) else f, x)
  }

  function Pop<T>(f: Fifo<T>, max: nat): Fifo<T> {
    f.(contents := Rest(f.contents, max), popped := f.popped + |Oldest(f.contents, max)|)
  }

  // ---- histories ----

  datatype Op<T> = PushOp(x: T) | PopOp(max: nat)

  function Apply<T>(f: Fifo<T>, op: Op<T>, cap: nat): Fifo<T>
    requires 0 < cap
  {
    match op
    case PushOp(x) => Push(f, x, cap)
    case PopOp(max) => Pop(f, max)
  }

  function Run<T>(h: seq<Op<T>>, cap: nat): Fifo<T>
    requires 0 < cap
  {
    if h == [] then Empty() else Apply(Run(h[..|h| - 1], cap), h[|h| - 1], cap)
  }

  lemma RunSnoc<T>(h: seq<Op<T>>, op: Op<T>, cap: nat)
    requires 0 < cap
    ensures Run(h + [op], cap) == Apply(Run(h, cap), op, cap)
  {
    assert (h + [op])[..|h|] == h;
  }

  /** Everything pushed in a history, in order. */
  function Pushes<T>(h: seq<Op<T>>): seq<T> {
    if h == [] then []
    else
      var earlier := Pushes(h[..|h| - 1]);
      match h[|h| - 1]
      case PushOp(x) => earlier + [x]
      case PopOp(_) => earlier
  }

  /** Everything handed out in a history, in order. */
  function Outputs<T>(h: seq<Op<T>>, cap: nat): seq<T>
    requires 0 < cap
  {
    if h == [] then []
    else
      var earlier := Outputs(h[..|h| - 1], cap);
      match h[|h| - 1]
      case PushOp(_) => earlier
      case PopOp(max) => earlier + Oldest(Run(h[..|h| - 1], cap).contents, max)
  }

  /** The buffer is a suffix of what was pushed, and every push is accounted for: handed out,
      given up, or still waiting. */
  ghost predicate Accounts<T>(f: Fifo<T>, pushes: seq<T>, outputs: seq<T>, cap: nat) {
    && f.pushed == |pushes|
    && f.popped == |outputs|
    && f.pushed == f.popped + f.dropped + |f.contents|
    && |f.contents| <= cap
    && f.contents == pushes[f.popped + f.dropped..]
  }

  lemma PushAccounts<T>(f: Fifo<T>, pushes: seq<T>, outputs: seq<T>, x: T, cap: nat)
    requires 0 < cap && Accounts(f, pushes, outputs, cap)
    ensures Accounts(Push(f, x, cap), pushes + [x], outputs, cap)
  {
    var k := f.popped + f.dropped;
    assert (pushes + [x])[k..] == pushes[k..] + [x];
    if |f.contents| == cap {
      assert (pushes + [x])[k + 1..] == f.contents[1..] + [x];
    }
  }

  lemma PopAccounts<T>(f: Fifo<T>, pushes: seq<T>, outputs: seq<T>, max: nat, cap: nat)
    requires Accounts(f, pushes, outputs, cap)
    ensures Accounts(Pop(f, max), pushes, outputs + Oldest(f.contents, max), cap)
  {
    var k := f.popped + f.dropped;
    assert pushes[k..][Min(max, |f.contents|)..] == pushes[k + Min(max, |f.contents|)..];
  }

  /** After any history the buffer holds exactly the most recent pushes, never more than its
      capacity, and no push is unaccounted for. */
  lemma {:induction false} HistoryContents<T>(h: seq<Op<T>>, cap: nat)
    requires 0 < cap
    ensures Accounts(Run(h, cap), Pushes(h), Outputs(h, cap), cap)
  {
    if h != [] {
      var h' := h[..|h| - 1];
      HistoryContents(h', cap);
      match h[|h| - 1]
      case PushOp(x) => PushAccounts(Run(h', cap), Pushes(h'), Outputs(h', cap), x, cap);
      case PopOp(max) => PopAccounts(Run(h', cap), Pushes(h'), Outputs(h', cap), max, cap);
    }
  }

  /** A push adds one element, and gives one up exactly if there is no room; a pop takes what it
      asks for, or all there is. */
  lemma HistoryMoves<T>(h: seq<Op<T>>, x: T, max: nat, cap: nat)
    requires 0 < cap
    ensures
      var f, pushed, popped := Run(h, cap), Run(h + [PushOp(x)], cap), Run(h + [PopOp(max)], cap);
      && |pushed.contents| == Min(|f.contents| + 1, cap)
      && pushed.dropped == f.dropped + (if |f.contents| == cap then 1 else 0)
      && |popped.contents| == |f.contents| - Min(max, |f.contents|)
      && popped.dropped == f.dropped
  {
    assert |Run(h, cap).contents| <= cap by {
      HistoryContents(h, cap);
    }
    RunSnoc(h, PushOp(x), cap);
    RunSnoc(h, PopOp(max), cap);
    hide Run;
  }

  /** The newest element stays visible after it has been handed out; there is none only before
      the first push. */
  lemma {:induction false} HistoryNewest<T>(h: seq<Op<T>>, cap: nat)
    requires 0 < cap
    ensures
      Run(h, cap).newest ==
      (if Pushes(h) == [] then None else Some(Pushes(h)[|Pushes(h)| - 1]))
  {
    if h != [] {
      HistoryNewest(h[..|h| - 1], cap);
    }
  }

  /** The fill level after the first `k` operations. */
  function FillAt<T>(h: seq<Op<T>>, k: nat, cap: nat): nat
    requires 0 < cap && k <= |h|
  {
    |Run(h[..k], cap).contents|
  }

  /** The recorded peak bounds the fill at every moment of the history ... */
  lemma {:induction false} HistoryPeakBounds<T>(h: seq<Op<T>>, k: nat, cap: nat)
    requires 0 < cap && k <= |h|
    ensures FillAt(h, k, cap) <= Run(h, cap).peak
  {
    if k == |h| {
      assert h[..k] == h;
      if h != [] {
        HistoryPeakBounds(h[..k - 1], k - 1, cap);
        assert h[..k - 1][..k - 1] == h[..k - 1];
        PeakStep(Run(h[..k - 1], cap), h[k - 1], cap);
      }
    } else {
      var h' := h[..|h| - 1];
      HistoryPeakBounds(h', k, cap);
      assert h[..k] == h'[..k];
    }
  }

  /** ... and was reached at one of them. */
  lemma {:induction false} HistoryPeakReached<T>(h: seq<Op<T>>, cap: nat) returns (k: nat)
    requires 0 < cap
    ensures k <= |h| && FillAt(h, k, cap) == Run(h, cap).peak
  {
    if h == [] {
      k := 0;
    } else {
      var h' := h[..|h| - 1];
      k := HistoryPeakReached(h', cap);
      assert h[..k] == h'[..k];
      HistoryPeakBounds(h', |h'|, cap);
      assert h'[..|h'|] == h' && h[..|h|] == h;
      PeakStep(Run(h', cap), h[|h| - 1], cap);
      if Run(h, cap).peak != Run(h', cap).peak {
        k := |h|;
      }
    }
  }

  lemma PeakStep<T>(f: Fifo<T>, op: Op<T>, cap: nat)
    requires 0 < cap && |f.contents| <= f.peak
    ensures var f' := Apply(f, op, cap); |f'.contents| <= f'.peak && f'.peak == Max(f.peak, |f'.contents|)
  {
  }

  /** Nothing is given up and nothing is reordered as long as the buffer never overflows. */
  lemma {:induction false} LosslessHistory<T>(h: seq<Op<T>>, cap: nat)
    requires 0 < cap
    requires Run(h, cap).dropped == 0
    ensures Outputs(h, cap) + Run(h, cap).contents == Pushes(h)
  {
    if h != [] {
      LosslessHistory(h[..|h| - 1], cap);
      var before := Run(h[..|h| - 1], cap);
      match h[|h| - 1]
      case PushOp(_) =>
      case PopOp(max) =>
        assert Oldest(before.contents, max) + Rest(before.contents, max) == before.contents;
    }
  }
}
