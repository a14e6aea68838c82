/** Unsigned machine words of the target: wrap-around at 2^32 and 2^64, and the bitwise AND
    that the ring buffer uses in place of a division. */
module Word {

  const TWO_32: int := 0x1_0000_0000
  const TWO_64: int := 0x1_0000_0000_0000_0000

  type U32 = x: int | 0 <= x < 0x1_0000_0000

  /** Conversion to `uint32_t`; every 32-bit addition and subtraction of the source ends in it. */
  function ToU32(x: int): U32 {
    x % 0x1_0000_0000
  }

  /** Conversion to `uint64_t`. */
  function ToU64(x: int): int {
    x % 0x1_0000_0000_0000_0000
  }

  /** Wrapping early or late makes no difference to a sum or a difference. */
  lemma AddWraps(a: int, b: int)
    ensures ToU32(ToU32(a) + b) == ToU32(a + b)
  {
  }

  /** A counter that agrees with n modulo 2^32 agrees with n + d after adding d. */
  lemma Carries(counter: U32, n: int, d: int)
    requires counter == ToU32(n)
    ensures ToU32(counter + d) == ToU32(n + d)
  {
  }

  lemma SubWraps(a: int, b: int)
    ensures ToU32(ToU32(a) - ToU32(b)) == ToU32(a - b)
  {
  }

  lemma SumWraps(a: int, b: int, c: int)
    ensures ToU32(ToU32(a) + b + ToU32(c)) == ToU32(a + b + c)
  {
    AddWraps(a, b + ToU32(c));
    AddWraps(c, a + b);
    assert a + (b + ToU32(c)) == ToU32(c) + (a + b);
  }

  function Max(a: int, b: int): int {
    if a < b then b else a
  }

  function Min(a: int, b: int): int {
    if a < b then a else b
  }

  // ---- remainders with a variable divisor ----

  lemma MulStep(d: int, a: int, b: int)
    requires 0 < d && a < b
    ensures d * a + d <= d * b
  {
    var k := b - a;
    assert d * b == d * a + d * k;
    assert d * (k - 1) >= 0;
  }

  /** Quotient and remainder are unique. */
  lemma QuotientUnique(d: int, q: int, r: int, q': int, r': int)
    requires 0 <= r < d && 0 <= r' < d && d * q + r == d * q' + r'
    ensures q == q' && r == r'
  {
    if q < q' {
      MulStep(d, q, q');
    } else if q' < q {
      MulStep(d, q', q);
    }
  }

  lemma DivModUnique(x: int, d: int, q: int, r: int)
    requires 0 <= r < d && x == d * q + r
    ensures x / d == q && x % d == r
  {
    QuotientUnique(d, q, r, x / d, x % d);
  }

  /** Reducing modulo a multiple of `a` first changes nothing modulo `a`. */
  lemma ModOfMod(x: int, a: int, b: int)
    requires 0 < a && 0 < b
    ensures 0 < a * b
    ensures (x % (a * b)) % a == x % a
  {
    assert 0 < a * b;
    var q, r := x / (a * b), x % (a * b);
    var q2, r2 := r / a, r % a;
    assert x == a * (b * q + q2) + r2 by {
      assert x == (a * b) * q + r;
      assert r == a * q2 + r2;
      assert (a * b) * q == a * (b * q);
      assert a * (b * q) + a * q2 == a * (b * q + q2);
    }
    DivModUnique(x, a, b * q + q2, r2);
  }

  /** Two counters less than `d` apart fall into the same residue only when they are equal. */
  lemma ModDistinct(x: int, y: int, d: int)
    requires 0 < d && x <= y < x + d
    ensures x % d == y % d <==> x == y
  {
    if x % d == y % d {
      var qx, qy, r := x / d, y / d, x % d;
      assert x == d * qx + r && y == d * qy + r;
      if qx < qy {
        MulStep(d, qx, qy);
      } else if qy < qx {
        MulStep(d, qy, qx);
      }
    }
  }

  function Quotient(x: nat, d: nat): nat
    requires 0 < d
  {
    x / d
  }

  function Remainder(x: nat, d: nat): (r: nat)
    requires 0 < d
    ensures r < d
  {
    x % d
  }

  lemma QuotientAndRemainder(x: nat, d: nat)
    requires 0 < d
    ensures Quotient(x, d) * d + Remainder(x, d) == x
  {
  }

  lemma DivBounds(x: nat, d: nat)
    requires 0 < d
    ensures x / d * d <= x < x / d * d + d
  {
  }

  lemma MulLe(a: int, b: int, k: nat)
    requires a <= b
    ensures a * k <= b * k
  {
  }

  lemma MulLt(a: int, b: int, k: nat)
    requires 0 < k
    ensures a < b <==> a * k < b * k
  {
    if a < b {
      MulLe(a + 1, b, k);
    } else {
      MulLe(b, a, k);
    }
  }

  lemma MulAssoc(a: int, b: int, c: int)
    ensures a * b * c == a * (b * c)
  {
  }

  lemma FloorAtMost(x: nat, d: nat, limit: nat)
    requires 0 < d
    ensures x / d <= limit <==> x < (limit + 1) * d
  {
    DivBounds(x, d);
    if x / d <= limit {
      MulLe(x / d + 1, limit + 1, d);
    } else {
      MulLe(limit + 1, x / d, d);
    }
  }

  lemma Floors(x: nat, y: nat, d: nat)
    requires 0 < d && x <= y
    ensures x / d <= y / d
    ensures y - x < (y / d - x / d) * d + d
    ensures (y / d - x / d) * d < y - x + d
  {
    var qx, qy := x / d, y / d;
    DivBounds(x, d);
    DivBounds(y, d);
    if qy < qx {
      MulLe(qy + 1, qx, d);
      assert false;
    }
    assert (qy - qx) * d == qy * d - qx * d;
  }

  lemma DivShift(x: nat, d: nat, n: nat)
    requires 0 < d
    ensures (x + n * d) / d == x / d + n
  {
    assert x + n * d == d * (x / d + n) + x % d;
    DivModUnique(x + n * d, d, x / d + n, x % d);
  }

  // ---- powers of two and bitwise AND ----

  function Pow2(k: nat): (r: nat)
    ensures 1 <= r
  {
    if k == 0 then 1 else 2 * Pow2(k - 1)
  }

  ghost predicate IsPow2(c: int) {
    exists k: nat :: c == Pow2(k)
  }

  lemma Pow2Add(a: nat, b: nat)
    ensures Pow2(a + b) == Pow2(a) * Pow2(b)
  {
    if a == 0 {
    } else {
      Pow2Add(a - 1, b);
      assert Pow2(a + b) == 2 * Pow2((a - 1) + b);
      assert 2 * (Pow2(a - 1) * Pow2(b)) == (2 * Pow2(a - 1)) * Pow2(b);
    }
  }

  lemma Pow2Monotone(a: nat, b: nat)
    requires a <= b
    ensures Pow2(a) <= Pow2(b)
  {
    if a == b {
    } else {
      Pow2Monotone(a, b - 1);
    }
  }

  lemma Pow2Of32()
    ensures Pow2(31) == 0x8000_0000
    ensures Pow2(32) == TWO_32
  {
    assert Pow2(8) == 256;
    Pow2Add(8, 8);
    Pow2Add(16, 8);
    Pow2Add(24, 7);
    assert Pow2(7) == 128;
  }

  /** The C operator `&` on unsigned operands, bit by bit. */
  function And(x: nat, y: nat): nat {
    if x == 0 || y == 0 then 0
    else 2 * And(x / 2, y / 2) + (if x % 2 == 1 && y % 2 == 1 then 1 else 0)
  }

  lemma {:induction false} AndSelf(x: nat)
    ensures And(x, x) == x
  {
    if x == 0 {
    } else {
      AndSelf(x / 2);
    }
  }

  lemma DoubleMod(x: nat, m: nat)
    requires 0 < m
    ensures x % (2 * m) == 2 * ((x / 2) % m) + x % 2
  {
    var h := x / 2;
    var q, r := h / m, h % m;
    assert h == m * q + r;
    assert x == (2 * m) * q + (2 * r + x % 2);
    DivModUnique(x, 2 * m, q, 2 * r + x % 2);
  }

  /** `x & (2^k - 1)` is `x mod 2^k`. */
  lemma {:induction false} MaskIsMod(x: nat, k: nat)
    ensures And(x, Pow2(k) - 1) == x % Pow2(k)
  {
    if k == 0 {
    } else if x == 0 {
    } else {
      MaskIsMod(x / 2, k - 1);
      DoubleMod(x, Pow2(k - 1));
    }
  }

  /** The test `(c & (c - 1)) == 0` accepts exactly the powers of two. */
  lemma {:induction false} PowerOfTwoTest(c: nat)
    requires 0 < c
    ensures And(c, c - 1) == 0 <==> IsPow2(c)
  {
    if c == 1 {
      assert 1 == Pow2(0);
    } else if c % 2 == 1 {
      AndSelf(c / 2);
      forall k: nat ensures c != Pow2(k) {
        if k > 0 {
          assert Pow2(k) % 2 == 0;
        }
      }
    } else {
      PowerOfTwoTest(c / 2);
      assert (c - 1) / 2 == c / 2 - 1;
      if IsPow2(c / 2) {
        var k: nat :| c / 2 == Pow2(k);
        assert c == Pow2(k + 1);
      }
      if IsPow2(c) {
        var k: nat :| c == Pow2(k);
        assert k > 0 && c / 2 == Pow2(k - 1);
      }
    }
  }

  /** A power-of-two mask applied to a wrapped counter indexes like the unbounded counter. */
  lemma MaskOfCounter(n: nat, k: nat)
    requires k <= 31
    ensures And(ToU32(n), Pow2(k) - 1) == n % Pow2(k)
  {
    MaskIsMod(ToU32(n), k);
    Pow2Of32();
    Pow2Add(k, 32 - k);
    ModOfMod(n, Pow2(k), Pow2(32 - k));
  }
}
