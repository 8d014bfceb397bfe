/** Fixed-point values, money and rational weights: pure arithmetic on top of the checked operations. */
module FixedPoint {
  import opened Int64
  import opened Rows
  import opened Arith

  /** The value `units / 10^scale`. */
  datatype Fixed = Fixed(units: int64, scale: int)

  predicate ScaleValid(scale: int) {
    0 <= scale <= MAX_SCALE
  }

  function Rescale(f: Fixed, newScale: int): Option<Fixed> {
    if !ScaleValid(newScale) then None
    else if newScale == f.scale then Some(f)
    else if newScale > f.scale then
      match Pow10Of(newScale - f.scale)
      case None => None
      case Some(factor) =>
        match MulInt64(f.units, factor)
        case None => None
        case Some(units) => Some(Fixed(units, newScale))
    else
      match Pow10Of(f.scale - newScale)
      case None => None
      case Some(factor) =>
        match DivRoundHalfUp(f.units, factor)
        case None => None
        case Some(units) => Some(Fixed(units, newScale))
  }

  /** When rescaling fails: an invalid target scale, or a refinement that does not fit; at the same scale nothing changes. */
  lemma RescaleIff(f: Fixed, newScale: int)
    requires ScaleValid(f.scale)
    ensures Rescale(f, newScale).Some? <==>
      ScaleValid(newScale) && (f.scale < newScale ==> Fits(f.units * Pow10(newScale - f.scale)))
    ensures newScale == f.scale ==> Rescale(f, newScale) == Some(f)
  {
    hide Pow10, Nearest;
    if ScaleValid(newScale) && f.scale < newScale { RescaleUp(f, newScale); }
    if ScaleValid(newScale) && newScale < f.scale { RescaleDownIff(f, newScale); }
    hide Rescale;
  }

  /** To a finer scale: the exact value, or an error exactly when it does not fit. */
  lemma RescaleUp(f: Fixed, newScale: int)
    requires ScaleValid(f.scale) && ScaleValid(newScale) && f.scale < newScale
    ensures
      var exact := f.units * Pow10(newScale - f.scale);
      Rescale(f, newScale) == if Fits(exact) then Some(Fixed(exact, newScale)) else None
  {
    hide MulInt64, DivRoundHalfUp, Pow10;
    Pow10Bound(newScale - f.scale);
    MulExact(f.units, Pow10(newScale - f.scale));
  }

  /** To a coarser scale: never an error, and the nearest value exactly when the units are not the smallest. */
  lemma RescaleDownIff(f: Fixed, newScale: int)
    requires ScaleValid(f.scale) && ScaleValid(newScale) && newScale < f.scale
    ensures Rescale(f, newScale).Some? && Rescale(f, newScale).value.scale == newScale
    ensures Nearest(f.units, Pow10(f.scale - newScale), Rescale(f, newScale).value.units) <==> f.units != MIN_INT64
  {
    var factor := Pow10(f.scale - newScale);
    hide MulInt64, DivRoundHalfUp, Nearest;
    Pow10Bound(f.scale - newScale);
    Pow10Monotone(1, f.scale - newScale);
    assert Pow10(1) == 10;
    RoundsIff(f.units, factor);
    assert Abs(f.units) % factor < factor;
  }

  /** Refining and coarsening again is the identity, for every value that can be refined. */
  lemma UpThenDown(f: Fixed, newScale: int)
    requires ScaleValid(f.scale) && ScaleValid(newScale) && f.scale <= newScale && Rescale(f, newScale).Some?
    ensures Rescale(Rescale(f, newScale).value, f.scale) == Some(f)
  {
    hide MulInt64, DivRoundHalfUp, Nearest;
    if f.scale < newScale {
      var factor := Pow10(newScale - f.scale);
      var g := Rescale(f, newScale).value;
      RescaleUp(f, newScale);
      RescaleDownIff(g, f.scale);
      MultipleOfTen(f.units, newScale - f.scale);
      var h := Rescale(g, f.scale).value;
      Pow10Monotone(0, newScale - f.scale);
      ExactIsNearest(f.units, factor);
      NearestUnique(g.units, factor, h.units, f.units);
    }
  }

  lemma ExactIsNearest(q: int, d: int)
    requires d > 0
    ensures Nearest(q * d, d, q)
  {
  }

  lemma MultipleOfTen(units: int, k: nat)
    requires k > 0
    ensures units * Pow10(k) != MIN_INT64
  {
    assert units * Pow10(k) == 10 * (units * Pow10(k - 1));
  }

  /** Coarsening keeps the order. */
  lemma DownMonotone(f: Fixed, g: Fixed, newScale: int)
    requires ScaleValid(f.scale) && ScaleValid(newScale) && newScale < f.scale && g.scale == f.scale
    requires f.units != MIN_INT64 && f.units <= g.units
    ensures Rescale(f, newScale).Some? && Rescale(g, newScale).Some?
    ensures Rescale(f, newScale).value.units <= Rescale(g, newScale).value.units
  {
    hide Rescale, Nearest;
    RescaleDownIff(f, newScale);
    RescaleDownIff(g, newScale);
    Pow10Monotone(0, f.scale - newScale);
    NearestMonotone(f.units, g.units, Pow10(f.scale - newScale), Rescale(f, newScale).value.units,
                    Rescale(g, newScale).value.units);
  }

  lemma NearestMonotone(m: int, n: int, d: int, p: int, q: int)
    requires d > 0 && m <= n && Nearest(m, d, p) && Nearest(n, d, q)
    ensures p <= q
  {
    var x, y := p * d, q * d;
    if p > q {
      assert x - y == (p - q) * d;
      MulMonotone(1, p - q, d);
      assert 2 * (x - m) <= d && 2 * (n - y) <= d;
      hide Nearest;
      NearestUnique(m, d, p, q);
    }
  }

  /** Coarsening commutes with negation. */
  lemma DownOdd(f: Fixed, newScale: int)
    requires ScaleValid(f.scale) && ScaleValid(newScale) && newScale < f.scale && f.units != MIN_INT64
    ensures Rescale(f.(units := 0 - f.units), newScale).Some? && Rescale(f, newScale).Some?
    ensures Rescale(f.(units := 0 - f.units), newScale).value.units == 0 - Rescale(f, newScale).value.units
  {
    hide Rescale, Nearest;
    var d := Pow10(f.scale - newScale);
    var g := f.(units := 0 - f.units);
    RescaleDownIff(f, newScale);
    RescaleDownIff(g, newScale);
    Pow10Monotone(0, f.scale - newScale);
    var q: int, p: int := Rescale(f, newScale).value.units, Rescale(g, newScale).value.units;
    NearestNegates(f.units, d, q);
    NearestUnique(g.units, d, p, -q);
  }

  // ----- Money and rational weights -----

  /** `Money.Sub`: negate, then add with the overflow check. */
  function Sub(m: int64, o: int64): Option<int64> {
    AddInt64(m, Wrap(0 - o))
  }

  /** Subtraction is exact or an overflow error, exactly when the subtrahend is not the smallest value. */
  lemma SubIff(m: int64, o: int64)
    ensures Sub(m, o) == (if Fits(m - o) then Some(m - o) else None) <==> o != MIN_INT64
  {
    AddExact(m, Wrap(0 - o));
  }

  function ApplyBps(m: int64, bps: int64): Option<int64> {
    if bps < 0 then None
    else
      match MulInt64(m, bps)
      case None => None
      case Some(prod) => DivRoundHalfUp(prod, 10_000)
  }

  datatype Rational = Rational(num: int64, den: int64)

  function NewRational(num: int64, den: int64): Option<Rational> {
    if den <= 0 then None else Some(Rational(num, den))
  }

  function ApplyToMoney(r: Rational, m: int64): Option<int64> {
    match MulInt64(m, r.num)
    case None => None
    case Some(prod) => DivRoundHalfUp(prod, r.den)
  }

  /** An error exactly for negative rates and unrepresentable products; the nearest amount unless the product is the smallest. */
  lemma ApplyBpsIff(m: int64, bps: int64)
    ensures ApplyBps(m, bps).Some? <==> bps >= 0 && Fits(m * bps)
    ensures ApplyBps(m, bps).Some? ==> (Nearest(m * bps, 10_000, ApplyBps(m, bps).value) <==> m * bps != MIN_INT64)
  {
    hide MulInt64, DivRoundHalfUp, Nearest;
    MulExact(m, bps);
    if Fits(m * bps) { RoundsIff(m * bps, 10_000); }
  }

  /** A share of at most the whole never exceeds the amount it is taken from. */
  lemma ApplyBpsShare(m: int64, bps: int64)
    requires m >= 0 && 0 <= bps <= 10_000 && m * bps <= MAX_INT64
    ensures ApplyBps(m, bps).Some? && 0 <= ApplyBps(m, bps).value <= m
  {
    hide ApplyBps, Nearest;
    assert m * bps >= 0;
    ApplyBpsIff(m, bps);
    var share: int := ApplyBps(m, bps).value;
    assert 0 <= m * bps <= m * 10_000;
    ExactIsNearest(0, 10_000);
    ExactIsNearest(m, 10_000);
    NearestMonotone(0, m * bps, 10_000, 0, share);
    NearestMonotone(m * bps, m * 10_000, 10_000, share, m);
  }

  /** For a constructed weight: an error exactly when the product does not fit, and otherwise exactly when it is right. */
  lemma ApplyToMoneyIff(num: int64, den: int64, m: int64)
    requires NewRational(num, den).Some?
    ensures ApplyToMoney(Rational(num, den), m).Some? <==> Fits(m * num)
    ensures ApplyToMoney(Rational(num, den), m).Some? ==>
      (Nearest(m * num, den, ApplyToMoney(Rational(num, den), m).value) <==>
        if m * num == MIN_INT64 then den == 1 else Abs(m * num) % den < 0x4000_0000_0000_0000)
  {
    hide MulInt64, DivRoundHalfUp, Nearest;
    MulExact(m, num);
    if Fits(m * num) { RoundsIff(m * num, den); }
  }
}
