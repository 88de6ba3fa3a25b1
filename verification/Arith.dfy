/** Division facts the solver does not find on its own. */
module Arith {

  lemma MulMonotone(a: nat, b: nat, d: nat)
    requires a <= b
    ensures a * d <= b * d
  {
  }

  lemma Distribute(a: int, b: int, c: int)
    ensures (a - b) * c == a * c - b * c
  {
  }

  lemma Swap(a: int, b: int, c: int)
    ensures a * b * c == a * c * b && a * b * c == c * a * b && a * (b * c) == a * b * c
  {
  }

  lemma Products(a: nat, b: nat, c: nat, d: nat)
    requires a <= b && c <= d
    ensures a * c <= b * d
  {
    MulMonotone(a, b, c);
    MulMonotone(c, d, b);
  }

  /** A quotient is the number whose multiple leaves a remainder below the divisor. */
  lemma Quotient(q: nat, r: nat, d: nat)
    requires r < d
    ensures (q * d + r) / d == q && (q * d + r) % d == r
  {
    var y := q * d + r;
    var q' := y / d;
    assert y == q' * d + y % d;
    if q' > q {
      MulMonotone(q + 1, q', d);
    } else if q' < q {
      MulMonotone(q' + 1, q, d);
    }
  }

  lemma AddMultiple(x: nat, n: nat, d: nat)
    requires d > 0
    ensures (x + n * d) / d == x / d + n
  {
    var q, r := x / d, x % d;
    assert x + n * d == (q + n) * d + r;
    Quotient(q + n, r, d);
  }

  lemma ModAddMultiple(x: nat, n: nat, d: nat)
    requires d > 0
    ensures (x + n * d) % d == x % d
  {
    var q, r := x / d, x % d;
    assert x + n * d == (q + n) * d + r;
    Quotient(q + n, r, d);
  }

  lemma Regroup(q: nat, b: nat, r: nat, a: nat, t: nat)
    requires r < b && t < a
    ensures (q * b + r) * a + t == q * (a * b) + (r * a + t) && r * a + t < a * b
  {
    MulMonotone(r + 1, b, a);
    assert (r + 1) * a == r * a + a;
    assert (q * b + r) * a == q * b * a + r * a;
  }

  lemma DivDivParts(x: nat, a: nat, b: nat, y: nat, q: nat, r: nat, t: nat)
    requires x == y * a + t && y == q * b + r && r < b && t < a
    ensures a * b > 0 && x / (a * b) == q
  {
    Regroup(q, b, r, a, t);
    Quotient(q, r * a + t, a * b);
  }

  lemma DivDiv(x: nat, a: nat, b: nat)
    requires a > 0 && b > 0
    ensures a * b > 0 && x / a / b == x / (a * b)
  {
    DivDivParts(x, a, b, x / a, x / a / b, x / a % b, x % a);
  }

  lemma Shuffle(q: nat, d: nat, n: nat, m: nat)
    ensures q * (d * n * m) == q * m * n * d
  {
    assert d * n * m == m * n * d;
    assert q * (m * n * d) == q * m * n * d;
  }

  lemma DigitParts(x: nat, d: nat, n: nat, k: nat, y: nat)
    requires d > 0 && n > 0 && x == y + k * n * d
    ensures x / d % n == y / d % n
  {
    AddMultiple(y, k * n, d);
    ModAddMultiple(y / d, k, n);
  }

  /** Reducing modulo a multiple of `d * n` does not change the `n`-fold digit above `d`. */
  lemma DigitOfReduced(x: nat, d: nat, n: nat, m: nat, s: nat)
    requires d > 0 && n > 0 && s > 0 && s == d * n * m
    ensures x % s / d % n == x / d % n
  {
    var q, y := x / s, x % s;
    assert x == y + q * s;
    Shuffle(q, d, n, m);
    DigitParts(x, d, n, q * m, y);
  }

  lemma ModOfReduced(x: nat, d: nat, m: nat, s: nat)
    requires d > 0 && s > 0 && s == m * d
    ensures x % s % d == x % d
  {
    var q, y := x / s, x % s;
    assert x == y + q * s;
    Swap(q, m, d);
    ModAddMultiple(y, q * m, d);
  }

  lemma SmallMultiple(k: int, b: nat)
    requires 0 - b < k * b < b
    ensures k == 0
  {
    if k >= 1 {
      MulMonotone(1, k, b);
    }
  }

  /** Floor division of any integer. */
  lemma Floor(a: int, b: nat, q: int, r: int)
    requires b > 0 && a == q * b + r && 0 <= r < b
    ensures a / b == q && a % b == r
  {
    var q', r' := a / b, a % b;
    assert a == q' * b + r';
    assert (q' - q) * b == r - r';
    SmallMultiple(q' - q, b);
  }

  lemma ShiftDiv(x: int, k: int, d: nat)
    requires d > 0
    ensures (x + k * d) / d == x / d + k && (x + k * d) % d == x % d
  {
    assert x + k * d == (x / d + k) * d + x % d;
    Floor(x + k * d, d, x / d + k, x % d);
  }

  lemma CeilDiv(x: int, d: nat)
    requires d > 0
    ensures (x + d - 1) / d == x / d + (if x % d == 0 then 0 else 1)
  {
    if x % d == 0 {
      Floor(x + d - 1, d, x / d, d - 1);
    } else {
      assert x + d - 1 == (x / d + 1) * d + (x % d - 1);
      Floor(x + d - 1, d, x / d + 1, x % d - 1);
    }
  }

  function Pow2(k: nat): (n: nat)
    ensures n > 0
  {
    if k == 0 then 1 else 2 * Pow2(k - 1)
  }

  lemma {:induction false} PowersGrow(j: nat, k: nat)
    requires j <= k
    ensures Pow2(j) <= Pow2(k)
  {
    if j < k {
      PowersGrow(j, k - 1);
    }
  }

  lemma Pow32()
    ensures Pow2(32) == 0x1_0000_0000
  {
    assert Pow2(8) == 0x100;
    PowSum(8, 8);
    PowSum(16, 16);
  }

  lemma {:induction false} PowSum(j: nat, k: nat)
    ensures Pow2(j + k) == Pow2(j) * Pow2(k)
  {
    if k > 0 {
      PowSum(j, k - 1);
      Swap(Pow2(j), 2, Pow2(k - 1));
    }
  }
}
