/** Checked 64-bit arithmetic and rounding to the nearest unit, as `packages/money` computes them. */
module Arith {
  import opened Int64
  import opened Rows

  const MAX_SCALE := 18

  function Abs(x: int): nat {
    if x < 0 then -x else x
  }

  // ----- Exact multiplication and addition -----

  function MulInt64(a: int64, b: int64): Option<int64> {
    if a == 0 || b == 0 then Some(0)
    else if a == MIN_INT64 && b == -1 then None
    else if b == MIN_INT64 && a == -1 then None
    else
      var res := Wrap(a * b);
      if Wrap(Quo(res, a)) != b then None else Some(res)
  }

  function AddInt64(a: int64, b: int64): Option<int64> {
    if (b > 0 && a > Wrap(MAX_INT64 - b)) || (b < 0 && a < Wrap(MIN_INT64 - b)) then None else Some(Wrap(a + b))
  }

  lemma AbsMul(x: int, y: int)
    ensures Abs(x * y) == Abs(x) * Abs(y)
  {
    if x >= 0 && y < 0 { assert x * y == -(x * -y); }
    if x < 0 && y >= 0 { assert x * y == -(-x * y); }
    if x < 0 && y < 0 { assert x * y == -x * -y; }
  }

  lemma MulMonotone(x: nat, y: nat, k: nat)
    requires x <= y
    ensures x * k <= y * k
  {
    assert (y - x) * k >= 0;
  }

  lemma SmallMultiple(k: int, a: int)
    requires a != 0 && Abs(k * a) < Abs(a)
    ensures k == 0
  {
    AbsMul(k, a);
    if k != 0 { MulMonotone(1, Abs(k), Abs(a)); }
  }

  lemma QuotientBound(m: nat, b: int, q: int, r: int)
    requires b != 0 && m == b * q + r && 0 <= r < Abs(b)
    ensures Abs(q) * Abs(b) <= m
  {
    AbsMul(q, b);
    assert q * b == m - r;
    if r > m { SmallMultiple(q, b); }
  }

  lemma QuoRemParts(a: int, b: int) returns (q: int, r: int)
    requires b != 0
    ensures Abs(a) == b * q + r && 0 <= r < Abs(b)
    ensures Quo(a, b) == if a >= 0 then q else -q
    ensures Rem(a, b) == if a >= 0 then r else -r
  {
    q, r := Abs(a) / b, Abs(a) % b;
  }

  /** Truncated division: a remainder smaller than the divisor, a quotient no larger than it should be. */
  lemma QuoRem(a: int, b: int)
    requires b != 0
    ensures a == Quo(a, b) * b + Rem(a, b) && Abs(Rem(a, b)) < Abs(b)
    ensures Abs(Quo(a, b)) * Abs(b) <= Abs(a)
  {
    hide Quo, Rem;
    var q, r := QuoRemParts(a, b);
    QuotientBound(Abs(a), b, q, r);
    assert (-q) * b == -(b * q) && q * b == b * q;
  }

  lemma Factor(b: int, q: int, a: int)
    ensures (b - q) * a == b * a - q * a
  {
  }

  lemma SameQuotient(a: int, b: int, q: int, r: int)
    requires b * a == q * a + r && Abs(r) < Abs(a)
    ensures b == q
  {
    Factor(b, q, a);
    SmallMultiple(b - q, a);
  }

  lemma Commute(a: int, b: int)
    ensures a * b == b * a
  {
  }

  lemma ExactQuo(a: int, b: int)
    requires a != 0
    ensures Quo(a * b, a) == b
  {
    hide Quo, Rem, Abs;
    var x := a * b;
    Commute(a, b);
    QuoRem(x, a);
    SameQuotient(a, b, Quo(x, a), Rem(x, a));
  }

  lemma HalfAtMost(q: nat, a: nat, m: nat)
    requires a >= 2 && q * a <= m
    ensures 2 * q <= m
  {
    MulMonotone(2, a, q);
  }

  /** The truncated quotient wraps only for the smallest value over minus one. */
  lemma QuotientFits(res: int64, a: int64)
    requires a != 0 && !(a == -1 && res == MIN_INT64)
    ensures Fits(Quo(res, a))
  {
    if a == 1 || a == -1 {
      UnitQuotient(res);
    } else {
      hide Quo, Rem;
      QuoRem(res, a);
      HalfAtMost(Abs(Quo(res, a)), Abs(a), Abs(res));
    }
  }

  lemma UnitQuotient(x: int)
    ensures Quo(x, 1) == x && Quo(x, -1) == -x
  {
  }

  lemma MultipleOfModulus(x: int)
    requires x % TWO_TO_64 == 0 && Abs(x) < TWO_TO_64
    ensures x == 0
  {
  }

  lemma WrappedQuotient(a: int64, b: int64, res: int64)
    requires a != 0 && (a * b - res) % TWO_TO_64 == 0 && Quo(res, a) == b
    ensures Fits(a * b)
  {
    hide Quo, Rem;
    QuoRem(res, a);
    assert a * b == b * a;
    MultipleOfModulus(a * b - res);
  }

  /** The product is returned exactly when it fits, whatever the wrap-around did in between. */
  lemma MulExact(a: int64, b: int64)
    ensures MulInt64(a, b) == if Fits(a * b) then Some(a * b) else None
  {
    hide Quo, Wrap;
    if a != 0 && b != 0 && !(a == MIN_INT64 && b == -1) && !(b == MIN_INT64 && a == -1) {
      var res := Wrap(a * b);
      if Fits(a * b) {
        ExactQuo(a, b);
      } else {
        QuotientFits(res, a);
        if MulInt64(a, b).Some? { WrappedQuotient(a, b, res); }
      }
    }
  }

  lemma AddExact(a: int64, b: int64)
    ensures AddInt64(a, b) == if Fits(a + b) then Some(a + b) else None
  {
  }

  // ----- Rounding division -----

  function Abs64(v: int64): int64 {
    if v < 0 then Wrap(0 - v) else v
  }

  /** The part after the division: bump the quotient from one half on, then restore the sign. */
  function RoundUp(q: int64, r: int64, ad: int64, neg: bool): int64 {
    var rounded := if Wrap(r * 2) >= ad then Wrap(q + 1) else q;
    if neg then Wrap(0 - rounded) else rounded
  }

  function DivRoundHalfUp(num: int64, den: int64): Option<int64> {
    if den == 0 then None
    else
      var an, ad := Abs64(num), Abs64(den);
      Some(RoundUp(Wrap(Quo(an, ad)), Wrap(Rem(an, ad)), ad, (num < 0) != (den < 0)))
  }

  /** `q` is the integer nearest to `n / d`; of two equally near ones, the one further from zero. */
  predicate Nearest(n: int, d: int, q: int) {
    || 2 * Abs(n - q * d) < Abs(d)
    || (2 * Abs(n - q * d) == Abs(d) && Abs(q * d) > Abs(n))
  }

  lemma NearestNegates(n: int, d: int, q: int)
    ensures Nearest(-n, d, -q) <==> Nearest(n, d, q)
    ensures Nearest(n, -d, -q) <==> Nearest(n, d, q)
  {
    assert (-q) * d == -(q * d) && (-q) * -d == q * d;
  }

  /** Counted from the remainder: down below one half, up from one half on. */
  lemma NearestByRemainder(n: nat, d: nat, q: nat, r: nat)
    requires n == q * d + r && r < d
    ensures Nearest(n, d, q) <==> 2 * r < d
    ensures Nearest(n, d, q + 1) <==> 2 * r >= d
  {
    assert (q + 1) * d == q * d + d;
  }

  lemma NonzeroMultiple(k: int, d: int)
    requires k * d != 0
    ensures Abs(k * d) >= Abs(d)
  {
    AbsMul(k, d);
    assert k != 0;
    MulMonotone(1, Abs(k), Abs(d));
  }

  lemma TiesAgree(n: int, d: nat, x: int, y: int)
    requires 2 * Abs(n - x) == d && 2 * Abs(n - y) == d
    requires Abs(x) > Abs(n) && Abs(y) > Abs(n) && Abs(x) >= d && Abs(y) >= d
    ensures x == y
  {
  }

  /** There is one nearest integer. */
  lemma NearestUnique(n: int, d: int, p: int, q: int)
    requires d != 0 && Nearest(n, d, p) && Nearest(n, d, q)
    ensures p == q
  {
    var x, y := p * d, q * d;
    assert (p - q) * d == x - y;
    if Abs(x - y) >= Abs(d) {
      assert 2 * Abs(n - x) == Abs(d) && 2 * Abs(n - y) == Abs(d);
      NonzeroMultiple(p, d);
      NonzeroMultiple(q, d);
      TiesAgree(n, Abs(d), x, y);
    }
    SmallMultiple(p - q, d);
  }

  const HALF: int := 0x4000_0000_0000_0000

  /** When the rounded quotient is the nearest integer: no operand at the bottom of the range, no doubling that wraps. */
  predicate RoundsCorrectly(num: int64, den: int64) {
    if den == MIN_INT64 then num != MIN_INT64 && Abs(num) >= HALF
    else if num == MIN_INT64 then den == 1
    else den != 0 && Abs(num) % Abs(den) < HALF
  }

  lemma NearestSigned(num: int, den: int, m: int)
    ensures Nearest(num, den, if (num < 0) != (den < 0) then -m else m) <==> Nearest(Abs(num), Abs(den), m)
  {
    hide Nearest;
    if num >= 0 && den < 0 {
      NearestNegates(num, -den, m);
    } else if num < 0 && den >= 0 {
      NearestNegates(-num, den, m);
    } else if num < 0 && den < 0 {
      NearestNegates(-num, den, -m);
      NearestNegates(-num, -den, m);
    }
  }

  lemma RoundUpValue(q: int64, r: int64, d: int64, neg: bool)
    requires 0 <= r < d && 0 <= q && (2 * r >= d ==> q < MAX_INT64)
    ensures
      var m: int := if 2 * r >= d && r < HALF then q + 1 else q;
      RoundUp(q, r, d, neg) == if neg then 0 - m else m
  {
    hide Wrap;
  }

  lemma QuotientRoom(n: nat, d: nat, q: nat, r: nat)
    requires n == d * q + r && r < d && n <= MAX_INT64
    ensures q <= MAX_INT64 && (2 * r >= d ==> q < MAX_INT64)
  {
    MulMonotone(1, d, q);
    if 2 * r >= d && r > 0 { assert d * q < n; }
  }

  lemma DivMod(n: nat, d: nat) returns (q: nat, r: nat)
    requires d > 0
    ensures n == d * q + r && r < d && r == n % d && q == Quo(n, d) && r == Rem(n, d)
  {
    q, r := n / d, n % d;
  }

  /** What the code computes on ordinary operands, from the mathematical quotient and remainder. */
  lemma OrdinaryValue(num: int64, den: int64) returns (q: nat, r: nat)
    requires den != 0 && num != MIN_INT64 && den != MIN_INT64
    ensures Abs(num) == q * Abs(den) + r && r < Abs(den) && r == Abs(num) % Abs(den)
    ensures
      var m := if 2 * r >= Abs(den) && r < HALF then q + 1 else q;
      DivRoundHalfUp(num, den) == Some(if (num < 0) != (den < 0) then 0 - m else m)
  {
    hide Quo, Rem, Wrap, RoundUp;
    assert Abs64(num) == Abs(num) && Abs64(den) == Abs(den);
    q, r := DivMod(Abs(num), Abs(den));
    QuotientRoom(Abs(num), Abs(den), q, r);
    RoundUpValue(q, r, Abs(den), (num < 0) != (den < 0));
    assert q * Abs(den) == Abs(den) * q;
  }

  lemma RoundsOrdinary(num: int64, den: int64)
    requires den != 0 && num != MIN_INT64 && den != MIN_INT64
    ensures Nearest(num, den, DivRoundHalfUp(num, den).value) <==> Abs(num) % Abs(den) < HALF
  {
    hide DivRoundHalfUp, Nearest;
    var q, r := OrdinaryValue(num, den);
    var m := if 2 * r >= Abs(den) && r < HALF then q + 1 else q;
    NearestByRemainder(Abs(num), Abs(den), q, r);
    NearestSigned(num, den, m);
  }

  /** Far from zero the nearest integer has the sign of the quotient. */
  lemma NearestSign(n: int, d: int, q: int)
    requires d != 0 && Nearest(n, d, q) && 2 * Abs(n) >= Abs(d)
    ensures q != 0 && (q < 0 <==> (n < 0) != (d < 0))
  {
    hide Nearest;
    var m := if (n < 0) != (d < 0) then -q else q;
    NearestSigned(n, d, m);
    NearestPositive(Abs(n), Abs(d), m);
  }

  lemma NearestPositive(n: nat, d: nat, m: int)
    requires d > 0 && Nearest(n, d, m) && 2 * n >= d
    ensures m > 0
  {
    if m <= 0 { NonPositiveProduct(m, d); }
  }

  lemma NonPositiveProduct(m: int, d: nat)
    requires m <= 0
    ensures m * d <= 0
  {
  }

  lemma SmallestParts(d: nat) returns (q: nat, r: nat)
    requires d > 0
    ensures 0 - MIN_INT64 == d * q + r && r < d && Quo(MIN_INT64, d) == 0 - q && Rem(MIN_INT64, d) == 0 - r
  {
    q, r := 0x8000_0000_0000_0000 / d, 0x8000_0000_0000_0000 % d;
  }

  /** The smallest numerator keeps its sign through `abs64`, so only division by one comes out right. */
  lemma RoundsSmallest(den: int64)
    requires den != 0 && den != MIN_INT64
    ensures Nearest(MIN_INT64, den, DivRoundHalfUp(MIN_INT64, den).value) <==> den == 1
  {
    hide Quo, Rem, Wrap, Nearest;
    var q, r := SmallestParts(Abs(den));
    var code: int := DivRoundHalfUp(MIN_INT64, den).value;
    assert Abs64(MIN_INT64) == MIN_INT64 && Abs64(den) == Abs(den);
    if Abs(den) == 1 {
      assert q == 0 - MIN_INT64 && r == 0;
      assert code == MIN_INT64;
      UnitNearest(MIN_INT64);
    } else {
      MulMonotone(2, Abs(den), q);
      assert q > 0;
      assert den > 0 ==> code >= 0;
      assert den < 0 ==> code <= 0;
      if Nearest(MIN_INT64, den, code) { NearestSign(MIN_INT64, den, code); }
    }
  }

  lemma UnitNearest(n: int)
    ensures Nearest(n, 1, n)
    ensures n < 0 ==> !Nearest(n, -1, n)
  {
  }

  /** Over the smallest denominator the code always answers one, negated for a numerator that is not negative. */
  lemma RoundsOverSmallest(num: int64)
    ensures Nearest(num, MIN_INT64, DivRoundHalfUp(num, MIN_INT64).value) <==> num != MIN_INT64 && Abs(num) >= HALF
  {
    var code: int := DivRoundHalfUp(num, MIN_INT64).value;
    assert code == if num == MIN_INT64 then 2 else if num >= 0 then -1 else 1 by {
      QuoSmallest(Abs64(num));
      hide Quo, Rem, Wrap;
    }
    hide *;
    assert code * MIN_INT64 == if num == MIN_INT64 then 2 * MIN_INT64 else if num >= 0 then -MIN_INT64 else MIN_INT64;
    OneOverSmallest(num, code, code * MIN_INT64);
  }

  lemma OneOverSmallest(num: int64, code: int, x: int)
    requires x == code * MIN_INT64
    requires x == if num == MIN_INT64 then 2 * MIN_INT64 else if num >= 0 then -MIN_INT64 else MIN_INT64
    ensures Nearest(num, MIN_INT64, code) <==> num != MIN_INT64 && Abs(num) >= HALF
  {
  }

  lemma QuoSmallest(a: int64)
    requires a >= 0 || a == MIN_INT64
    ensures Quo(a, MIN_INT64) == (if a >= 0 then 0 else 1) && Rem(a, MIN_INT64) == if a >= 0 then a else 0
  {
  }

  /** Exactly when the rounded division is right, over all pairs of operands. */
  lemma RoundsIff(num: int64, den: int64)
    ensures DivRoundHalfUp(num, den).None? <==> den == 0
    ensures den != 0 ==> (Nearest(num, den, DivRoundHalfUp(num, den).value) <==> RoundsCorrectly(num, den))
  {
    hide Nearest, RoundUp, Wrap, Quo, Rem;
    if den == MIN_INT64 { RoundsOverSmallest(num); }
    else if den != 0 && num == MIN_INT64 { RoundsSmallest(den); }
    else if den != 0 { RoundsOrdinary(num, den); }
  }

  // ----- Powers of ten -----

  function Pow10(k: nat): nat {
    if k == 0 then 1 else 10 * Pow10(k - 1)
  }

  lemma {:induction false} Pow10Monotone(j: nat, k: nat)
    requires j <= k
    ensures 1 <= Pow10(j) <= Pow10(k)
  {
    if k > 0 {
      if j < k { Pow10Monotone(j, k - 1); } else { Pow10Monotone(j - 1, k - 1); }
    }
  }

  lemma {:induction false} Pow10Add(j: nat, k: nat)
    ensures Pow10(j + k) == Pow10(j) * Pow10(k)
  {
    if j > 0 {
      Pow10Add(j - 1, k);
      assert Pow10(j + k) == 10 * Pow10(j - 1 + k);
    }
  }

  lemma Pow10Bound(k: nat)
    requires k <= MAX_SCALE
    ensures 1 <= Pow10(k) <= 1_000_000_000_000_000_000
  {
    Pow10Monotone(k, MAX_SCALE);
    assert Pow10(3) == 1_000;
    Pow10Add(3, 3);
    Pow10Add(6, 6);
    Pow10Add(12, 6);
  }

  function Pow10Of(exp: int): Option<int64> {
    if 0 <= exp <= MAX_SCALE then Pow10Bound(exp); Some(Pow10(exp)) else None
  }

  /** The checked loop: every power up to the largest scale is exact, no multiplication overflows. */
  method Pow10Checked(exp: int) returns (r: Option<int64>)
    ensures r == Pow10Of(exp)
  {
    if exp < 0 || exp > MAX_SCALE { return None; }
    var out: int64 := 1;
    var i := 0;
    while i < exp
      invariant 0 <= i <= exp && out == Pow10(i)
    {
      Pow10Bound(i + 1);
      MulExact(out, 10);
      assert Pow10(i + 1) == out * 10;
      var next := MulInt64(out, 10);
      if next.None? { return None; }
      out, i := next.value, i + 1;
    }
    return Some(out);
  }
}
