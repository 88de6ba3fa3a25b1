/** Fixed-point ratios: `numerator / denominator` kept as `mult / 2^shift`. */
module Ratios {
  import opened Arith

  const U32_MAX := 0xffff_ffff
  const U64_SIZE := 0x1_0000_0000_0000_0000

  datatype Ratio = Ratio(numerator: nat, denominator: nat, mult: nat, shift: nat)

  /** `n / d` in units of `2^-s`, to the nearest. */
  function MultAt(n: nat, d: nat, s: nat): nat
    requires d > 0
  {
    (n * Pow2(s) + d / 2) / d
  }

  /** `mult / 2^shift` has the value of the nearest multiple of `2^-s` to `n / d`. */
  ghost predicate SameValue(r: Ratio, s: nat)
    requires r.denominator > 0
  {
    r.shift <= s && MultAt(r.numerator, r.denominator, s) * Pow2(r.shift) == r.mult * Pow2(s)
  }

  method New(n: nat, d: nat) returns (r: Ratio, ghost s: nat)
    requires n <= U32_MAX && d <= U32_MAX && (d == 0 ==> n == 0)
    ensures r.numerator == n && r.denominator == d && r.mult <= U32_MAX
    ensures n == 0 ==> r.mult == 0 && r.shift == 0
    ensures n > 0 ==> s <= 32 && SameValue(r, s) && (r.shift == 0 || r.mult % 2 == 1)
    ensures n > 0 && s < 32 ==> MultAt(n, d, s + 1) > U32_MAX
  {
    s := 0;
    if n == 0 {
      return Ratio(n, d, 0, 0), 0;
    }
    hide MultAt, Pow2;
    var shift: nat, mult: nat := 32, 0;
    while true
      invariant 0 <= shift <= 32
      invariant shift < 32 ==> MultAt(n, d, shift + 1) > U32_MAX
      decreases shift
    {
      NoOverflow(n, d, shift);
      mult := MultAt(n, d, shift);
      if mult <= U32_MAX || shift == 0 {
        break;
      }
      shift := shift - 1;
    }
    s := shift;
    assert mult == MultAt(n, d, s) && mult <= U32_MAX by {
      if shift == 0 {
        UnitFits(n, d);
      }
    }
    while mult % 2 == 0 && shift > 0
      invariant shift <= s && mult <= U32_MAX && MultAt(n, d, s) * Pow2(shift) == mult * Pow2(s)
      decreases shift
    {
      Halve(MultAt(n, d, s), shift, mult, Pow2(s));
      mult := mult / 2;
      shift := shift - 1;
    }
    r := Ratio(n, d, mult, shift);
  }

  /** The 64-bit sum before the division does not wrap around. */
  lemma NoOverflow(n: nat, d: nat, s: nat)
    requires n <= U32_MAX && d <= U32_MAX && s <= 32
    ensures n * Pow2(s) + d / 2 < U64_SIZE
  {
    Pow32();
    PowersGrow(s, 32);
    Products(n, U32_MAX, Pow2(s), 0x1_0000_0000);
  }

  lemma UnitFits(n: nat, d: nat)
    requires n <= U32_MAX && 0 < d <= U32_MAX
    ensures MultAt(n, d, 0) <= U32_MAX
  {
    var q, r := (n + d / 2) / d, (n + d / 2) % d;
    assert n + d / 2 == q * d + r;
    if q > U32_MAX {
      MulMonotone(U32_MAX + 1, q, d);
    }
  }

  lemma Halve(m: nat, shift: nat, mult: nat, p: nat)
    requires shift > 0 && mult % 2 == 0 && m * Pow2(shift) == mult * p
    ensures m * Pow2(shift - 1) == mult / 2 * p
  {
    var h := mult / 2;
    assert m * (2 * Pow2(shift - 1)) == 2 * (m * Pow2(shift - 1));
    assert (2 * h) * p == 2 * (h * p);
  }

  /** Rounding to the nearest is off by at most half a unit. */
  lemma Nearest(n: nat, d: nat, s: nat)
    requires d > 0
    ensures 0 - d <= 2 * (MultAt(n, d, s) * d - n * Pow2(s)) <= d
  {
    NearestMultiple(n * Pow2(s), d);
  }

  lemma NearestMultiple(x: nat, d: nat)
    requires d > 0
    ensures 0 - d <= 2 * ((x + d / 2) / d * d - x) <= d
  {
    var y := x + d / 2;
    assert y == y / d * d + y % d;
  }

  lemma Scale(v: nat, a: int, b: int)
    requires -b <= a <= b
    ensures 0 - v * b <= v * a <= v * b
  {
    MulMonotone(0, b - a, v);
    MulMonotone(0, b + a, v);
    assert v * (b - a) == v * b - v * a && v * (b + a) == v * b + v * a;
  }

  /** The stored value is within half of `2^-s` of `n / d`, so products are within `v / 2^(s+1)`. */
  lemma ProductError(r: Ratio, s: nat, v: nat)
    requires r.denominator > 0 && SameValue(r, s)
    ensures var error := v * (r.mult * r.denominator - r.numerator * Pow2(r.shift));
      0 - v * (Pow2(r.shift) * r.denominator) <= 2 * (error * Pow2(s)) <= v * (Pow2(r.shift) * r.denominator)
  {
    var n, d, m, p, q := r.numerator, r.denominator, MultAt(r.numerator, r.denominator, s), Pow2(s), Pow2(r.shift);
    Nearest(n, d, s);
    hide MultAt, Pow2;
    var e: int, f: int := m * d - n * p, r.mult * d - n * q;
    CrossMultiply(n, d, m, p, q, r.mult);
    assert 0 - d <= 2 * e <= d && f * p == q * e;
    hide *;
    HalfBound(v, q, d, e, f, p);
  }

  lemma CrossMultiply(n: nat, d: nat, m: nat, p: nat, q: nat, k: nat)
    requires m * q == k * p
    ensures (k * d - n * q) * p == q * (m * d - n * p)
  {
    Distribute(k * d, n * q, p);
    Distribute(m * d, n * p, q);
    Swap(k, d, p);
    Swap(m, d, q);
    Swap(n, q, p);
  }

  lemma HalfBound(v: nat, q: nat, d: nat, e: int, f: int, p: nat)
    requires 0 - d <= 2 * e <= d && f * p == q * e
    ensures 0 - v * (q * d) <= 2 * ((v * f) * p) <= v * (q * d)
  {
    Scale(q, 2 * e, d);
    assert q * (2 * e) == 2 * (q * e);
    Scale(v, 2 * (f * p), q * d);
    assert (v * f) * p == v * (f * p);
    assert v * (2 * (f * p)) == 2 * (v * (f * p));
  }

  /** `a / p` and `b / d` are less than half apart. */
  ghost predicate CloseTo(a: nat, p: nat, b: nat, d: nat) {
    0 - d * p < 2 * (a * d - b * p) < d * p
  }

  /** For values below `2^s` the product is less than half a unit off. */
  lemma BelowHalf(r: Ratio, s: nat, v: nat)
    requires r.denominator > 0 && SameValue(r, s) && v < Pow2(s)
    ensures CloseTo(v * r.mult, Pow2(r.shift), v * r.numerator, r.denominator)
  {
    ProductError(r, s, v);
    hide SameValue, CloseTo;
    BelowHalfParts(v, r.mult, r.denominator, r.numerator, Pow2(r.shift), Pow2(s));
  }

  lemma BelowHalfParts(v: nat, k: nat, d: nat, n: nat, q: nat, p: nat)
    requires d > 0 && q > 0 && v < p
    requires 0 - v * (q * d) <= 2 * (v * (k * d - n * q) * p) <= v * (q * d)
    ensures CloseTo(v * k, q, v * n, d)
  {
    var f: int := k * d - n * q;
    Expand(v, k, d, n, q);
    CancelParts(v, q * d, f, p, d, q);
  }

  lemma CancelParts(v: nat, b: nat, f: int, p: nat, d: nat, q: nat)
    requires d > 0 && q > 0 && v < p && b == q * d && 0 - v * b <= 2 * (v * f * p) <= v * b
    ensures 0 - d * q < 2 * (v * f) < d * q
  {
    MulMonotone(1, q, d);
    assert b > 0;
    Double(v * f, p);
    Cancel(2 * (v * f), b, v, p);
  }

  lemma Double(a: int, b: int)
    ensures (2 * a) * b == 2 * (a * b)
  {
  }

  lemma Expand(v: nat, k: nat, d: nat, n: nat, q: nat)
    ensures v * (k * d - n * q) == v * k * d - v * n * q
  {
    Distribute(k * d, n * q, v);
    Swap(v, k, d);
    Swap(v, n, q);
  }

  lemma Cancel(a: int, b: nat, v: nat, p: nat)
    requires 0 - v * b <= a * p <= v * b && v < p && b > 0
    ensures 0 - b < a < b
  {
    CancelAbove(a, b, v, p);
    assert (0 - a) * p == 0 - a * p;
    CancelAbove(0 - a, b, v, p);
  }

  lemma CancelAbove(a: int, b: nat, v: nat, p: nat)
    requires a * p <= v * b && v < p && b > 0
    ensures a < b
  {
    MulMonotone(v + 1, p, b);
    assert (v + 1) * b == v * b + b;
    if a >= b {
      MulMonotone(b, a, p);
    }
  }

  // ----- multiplying -----

  function ShiftRight(x: nat, s: nat): nat {
    Quot(x, Pow2(s))
  }

  function Quot(x: nat, p: nat): nat
    requires p > 0
  {
    x / p
  }

  function Cast64(x: nat): (r: nat)
    ensures x < U64_SIZE ==> r == x
  {
    x % U64_SIZE
  }

  function MulTrunc(r: Ratio, v: nat): nat {
    Cast64(ShiftRight(v * r.mult, r.shift))
  }

  function MulRound(r: Ratio, v: nat): nat {
    Cast64(ShiftRight(v * r.mult + Pow2(r.shift) / 2, r.shift))
  }

  lemma FloorsNear(a: nat, p: nat, b: nat, d: nat)
    requires p > 0 && d > 0 && CloseTo(a, p, b, d)
    ensures b / d - 1 <= a / p <= b / d + 1
  {
    hide CloseTo;
    assert a == a / p * p + a % p;
    assert b == b / d * d + b % d;
    NearParts(a, p, b, d, a / p, b / d);
  }

  lemma NearParts(a: nat, p: nat, b: nat, d: nat, q: nat, t: nat)
    requires q * p <= a < q * p + p && t * d <= b < t * d + d && CloseTo(a, p, b, d)
    ensures t - 1 <= q <= t + 1
  {
    if q >= t + 2 {
      FarApart(a, p, b, d, q, t);
    } else if t >= q + 2 {
      FarApart(b, d, a, p, t, q);
    }
  }

  /** Quotients two apart differ by more than a unit. */
  lemma FarApart(a: nat, p: nat, b: nat, d: nat, q: nat, t: nat)
    requires q * p <= a && b < t * d + d && q >= t + 2
    ensures a * d - b * p >= d * p
  {
    Products((t + 2) * p, a, d, d) by { MulMonotone(t + 2, q, p); }
    Products(b, (t + 1) * d, p, p);
    assert (t + 2) * p * d - (t + 1) * d * p == d * p;
  }

  lemma RoundExact(a: nat, p: nat, k: nat, d: nat)
    requires d > 0 && (p == 1 || (p > 0 && p % 2 == 0)) && CloseTo(a, p, k * d, d)
    ensures (a + p / 2) / p == k
  {
    var e: int := a - k * p;
    Distribute(a, k * p, d);
    Swap(k, p, d);
    assert 0 - p < 2 * e < p by {
      SmallFactor(2 * e, p, d);
    }
    assert a + p / 2 == k * p + (e + p / 2);
    hide *;
    Floor(a + p / 2, p, k, e + p / 2);
  }

  lemma SmallFactor(x: int, p: nat, d: nat)
    requires 0 - d * p < x * d < d * p
    ensures 0 - p < x < p
  {
    BelowFactor(x, p, d);
    assert (0 - x) * d == 0 - x * d;
    BelowFactor(0 - x, p, d);
  }

  lemma BelowFactor(x: int, p: nat, d: nat)
    requires x * d < d * p
    ensures x < p
  {
    if x >= p {
      MulMonotone(p, x, d);
    }
  }

  lemma Below64(v: nat, m: nat)
    requires v <= U32_MAX && m <= U32_MAX
    ensures v * m <= U64_SIZE - 0x1_0000_0000
  {
    Products(v, U32_MAX, m, U32_MAX);
  }

  lemma SmallerQuotient(x: nat, p: nat)
    requires p > 0
    ensures x / p <= x
  {
    MulMonotone(1, p, x / p);
    assert x == x / p * p + x % p;
  }

  /** A product of 32-bit values survives the cast back to 64 bits. */
  lemma Fits(x: nat, shift: nat, half: nat)
    requires x <= U64_SIZE - 0x1_0000_0000 && half <= 0x8000_0000
    ensures ShiftRight(x + half, shift) < U64_SIZE
  {
    SmallerQuotient(x + half, Pow2(shift));
  }

  function TrueFloor(r: Ratio, v: nat): nat
    requires r.denominator > 0
  {
    Quot(v * r.numerator, r.denominator)
  }

  /** Truncated products are within one of the true floor; rounded ones exact when `d` divides `v * n`. */
  lemma MulCorrect(r: Ratio, s: nat, v: nat)
    requires r.denominator > 0 && s <= 32 && SameValue(r, s) && r.mult <= U32_MAX && v < Pow2(s)
    ensures TrueFloor(r, v) - 1 <= MulTrunc(r, v) <= TrueFloor(r, v) + 1
    ensures forall k: nat | v * r.numerator == k * r.denominator :: MulRound(r, v) == k
  {
    hide Pow2, SameValue, CloseTo, ShiftRight, Cast64, Quot, MultAt;
    BelowHalf(r, s, v);
    Bounds(r, s);
    Below64(v, r.mult);
    MulParts(v * r.mult, r.shift, v * r.numerator, r.denominator);
  }

  lemma Bounds(r: Ratio, s: nat)
    requires r.denominator > 0 && s <= 32 && SameValue(r, s)
    ensures Pow2(r.shift) <= Pow2(s) <= 0x1_0000_0000
  {
    Pow32();
    PowersGrow(s, 32);
    PowersGrow(r.shift, s);
  }

  lemma MulParts(a: nat, shift: nat, b: nat, d: nat)
    requires d > 0 && CloseTo(a, Pow2(shift), b, d) && a <= U64_SIZE - 0x1_0000_0000 && Pow2(shift) <= 0x1_0000_0000
    ensures Quot(b, d) - 1 <= Cast64(ShiftRight(a, shift)) <= Quot(b, d) + 1
    ensures forall k: nat | b == k * d :: Cast64(ShiftRight(a + Pow2(shift) / 2, shift)) == k
  {
    PowEven(shift);
    Fits(a, shift, 0);
    Fits(a, shift, Pow2(shift) / 2);
    ProductsNear(a, Pow2(shift), b, d);
    hide Pow2, CloseTo, Cast64;
  }

  lemma {:induction false} PowEven(k: nat)
    ensures Pow2(k) == 1 || Pow2(k) % 2 == 0
  {
    if k > 0 {
      Quotient(Pow2(k - 1), 0, 2);
    }
  }

  lemma ProductsNear(a: nat, p: nat, b: nat, d: nat)
    requires d > 0 && (p == 1 || (p > 0 && p % 2 == 0)) && CloseTo(a, p, b, d)
    ensures b / d - 1 <= a / p <= b / d + 1
    ensures forall k: nat | b == k * d :: (a + p / 2) / p == k
  {
    hide CloseTo;
    FloorsNear(a, p, b, d);
    forall k: nat | b == k * d ensures (a + p / 2) / p == k {
      RoundExact(a, p, k, d);
    }
  }

  /** `mul_trunc` rounds the product down, and is the exact floor for a ratio that the multiplier meets;
      `mul_round` rounds it to the nearest. */
  lemma MulRounds(r: Ratio, v: nat)
    requires v * r.mult + Pow2(r.shift) < U64_SIZE * Pow2(r.shift)
    ensures MulTrunc(r, v) * Pow2(r.shift) <= v * r.mult < (MulTrunc(r, v) + 1) * Pow2(r.shift)
    ensures 2 * MulRound(r, v) * Pow2(r.shift) <= 2 * (v * r.mult) + Pow2(r.shift)
    ensures 2 * (v * r.mult) < 2 * MulRound(r, v) * Pow2(r.shift) + Pow2(r.shift)
    ensures r.denominator > 0 && r.mult * r.denominator == r.numerator * Pow2(r.shift) ==>
      MulTrunc(r, v) == v * r.numerator / r.denominator
  {
    hide Pow2;
    var p, x := Pow2(r.shift), v * r.mult;
    PowEven(r.shift);
    Truncates(x, p);
    Truncates(x + p / 2, p);
    RoundBounds(x, p, MulRound(r, v));
    if r.denominator > 0 && r.mult * r.denominator == r.numerator * p {
      Swap(v, r.mult, r.denominator);
      Swap(v, r.numerator, p);
      SameFloor(x, p, v * r.numerator, r.denominator);
    }
  }

  lemma Truncates(x: nat, p: nat)
    requires p > 0 && x < U64_SIZE * p
    ensures Cast64(Quot(x, p)) == Quot(x, p) && Quot(x, p) * p <= x < (Quot(x, p) + 1) * p
  {
    var q := Quot(x, p);
    assert x == q * p + x % p;
    assert (q + 1) * p == q * p + p;
    if q >= U64_SIZE {
      MulMonotone(U64_SIZE, q, p);
    }
  }

  lemma RoundBounds(x: nat, p: nat, q: nat)
    requires (p == 1 || (p > 0 && p % 2 == 0)) && q * p <= x + p / 2 < (q + 1) * p
    ensures 2 * q * p <= 2 * x + p && 2 * x < 2 * q * p + p
  {
    assert (q + 1) * p == q * p + p;
    assert 2 * q * p == 2 * (q * p);
  }

  /** Equal fractions have the same floor. */
  lemma SameFloor(a: nat, p: nat, b: nat, d: nat)
    requires p > 0 && d > 0 && a * d == b * p
    ensures a / p == b / d
  {
    var q := a / p;
    assert a == q * p + a % p;
    MulMonotone(q * p, a, d);
    MulMonotone(a + 1, (q + 1) * p, d);
    assert (q + 1) * p == q * p + p;
    Swap(q, p, d);
    FloorBetween(b, d, q, p);
  }

  lemma FloorBetween(b: nat, d: nat, q: nat, p: nat)
    requires p > 0 && d > 0 && q * d * p <= b * p < (q + 1) * d * p
    ensures b / d == q
  {
    AtMostFactor(q * d, b, p);
    LessFactor(b, (q + 1) * d, p);
    assert (q + 1) * d == q * d + d;
    Floor(b, d, q, b - q * d);
  }

  lemma AtMostFactor(x: nat, y: nat, p: nat)
    requires p > 0 && x * p <= y * p
    ensures x <= y
  {
    if x > y {
      MulMonotone(y + 1, x, p);
    }
  }

  lemma LessFactor(x: nat, y: nat, p: nat)
    requires x * p < y * p
    ensures x < y
  {
    if x >= y {
      MulMonotone(y, x, p);
    }
  }
}
