/** Samples are numbered 1, 2, 3, ... in the order they are taken. Some never reach the consumer;
    `Remaining` lists the others. */
module Survivors {

  /** The numbers 1..n without those in `gone`, in order. */
  function Remaining(n: nat, gone: set<nat>): seq<nat> {
    if n == 0 then [] else Remaining(n - 1, gone) + (if n in gone then [] else [n])
  }

  /** How many of 1..n are in `gone`. */
  function CountGone(n: nat, gone: set<nat>): nat {
    if n == 0 then 0 else CountGone(n - 1, gone) + (if n in gone then 1 else 0)
  }

  lemma {:induction false} RemainingSize(n: nat, gone: set<nat>)
    ensures |Remaining(n, gone)| + CountGone(n, gone) == n
  {
    if n > 0 {
      RemainingSize(n - 1, gone);
    }
  }

  /** `Remaining` is strictly increasing and holds exactly the numbers that are not gone: no
      duplicate, no reordering, nothing else missing. */
  lemma {:induction false} RemainingExact(n: nat, gone: set<nat>)
    ensures forall i, j :: 0 <= i < j < |Remaining(n, gone)| ==> Remaining(n, gone)[i] < Remaining(n, gone)[j]
    ensures forall x: nat :: x in Remaining(n, gone) <==> 1 <= x <= n && x !in gone
  {
    if n > 0 {
      RemainingExact(n - 1, gone);
      var prev := Remaining(n - 1, gone);
      assert forall i :: 0 <= i < |prev| ==> prev[i] in prev;
    }
  }

  /** Numbers above n do not matter. */
  lemma {:induction false} RemainingFrame(n: nat, gone: set<nat>, x: nat)
    requires n < x
    ensures Remaining(n, gone + {x}) == Remaining(n, gone)
    ensures CountGone(n, gone + {x}) == CountGone(n, gone)
  {
    if n > 0 {
      RemainingFrame(n - 1, gone, x);
    }
  }

  lemma SnocUnique(p: seq<nat>, u: nat, q: seq<nat>, v: nat)
    requires p + [u] == q + [v]
    ensures p == q && u == v
  {
    assert |p| == |q|;
    assert (p + [u])[|p|] == (q + [v])[|q|];
    assert (p + [u])[..|p|] == (q + [v])[..|q|];
  }

  /** Losing one more number takes it out of the list and leaves the rest in place. */
  lemma {:induction false} RemainingRemove(n: nat, gone: set<nat>, a: seq<nat>, x: nat, b: seq<nat>)
    requires Remaining(n, gone) == a + [x] + b
    ensures 1 <= x <= n && x !in gone
    ensures Remaining(n, gone + {x}) == a + b
  {
    assert n > 0;
    var prev := Remaining(n - 1, gone);
    if n in gone {
      RemainingRemove(n - 1, gone, a, x, b);
    } else if b == [] {
      assert prev + [n] == a + [x];
      SnocUnique(prev, n, a, x);
      RemainingFrame(n - 1, gone, x);
      assert a + b == a;
    } else {
      var b' := b[..|b| - 1];
      var last := b[|b| - 1];
      assert a + [x] + b == (a + [x] + b') + [last];
      SnocUnique(prev, n, a + [x] + b', last);
      RemainingRemove(n - 1, gone, a, x, b');
      assert a + b == (a + b') + [last];
    }
  }

  /** A non-empty front part of the list is itself the complete list up to its last number. */
  lemma {:induction false} RemainingFront(n: nat, gone: set<nat>, front: seq<nat>, rest: seq<nat>)
    requires front != [] && Remaining(n, gone) == front + rest
    ensures front[|front| - 1] <= n && front == Remaining(front[|front| - 1], gone)
  {
    assert n > 0;
    if rest == [] && n !in gone {
      assert front == Remaining(n - 1, gone) + [n];
    } else if n in gone {
      RemainingFront(n - 1, gone, front, rest);
    } else {
      var whole := front + rest;
      assert Remaining(n - 1, gone) == whole[..|whole| - 1] == front + rest[..|rest| - 1];
      RemainingFront(n - 1, gone, front, rest[..|rest| - 1]);
    }
  }

  lemma {:induction false} CountUnion(n: nat, a: set<nat>, b: set<nat>)
    requires a !! b
    ensures CountGone(n, a + b) == CountGone(n, a) + CountGone(n, b)
  {
    if n > 0 {
      CountUnion(n - 1, a, b);
    }
  }

  lemma {:induction false} CountAdd(n: nat, gone: set<nat>, x: nat)
    requires 1 <= x <= n && x !in gone
    ensures CountGone(n, gone + {x}) == CountGone(n, gone) + 1
  {
    if n == x {
      RemainingFrame(n - 1, gone, x);
    } else {
      CountAdd(n - 1, gone, x);
    }
  }

  /** When everything after m is gone, the counts at m and n differ by n - m. */
  lemma {:induction false} CountTail(m: nat, n: nat, gone: set<nat>)
    requires m <= n && forall x :: m < x <= n ==> x in gone
    ensures CountGone(n, gone) == CountGone(m, gone) + (n - m)
  {
    if m < n {
      CountTail(m, n - 1, gone);
    }
  }
}
