/** The text that printing units at a scale produces: the one canonical decimal of its value. */
module DecimalText {
  import opened Int64
  import opened Rows
  import opened Arith
  import opened FixedPoint
  import opened Decimals

  /** No leading zero but the zero itself. */
  predicate Plain(whole: string) {
    AllDigits(whole) && whole != "" && (whole[0] == '0' ==> whole == "0")
  }

  predicate CanonicalAs(t: string, units: int, scale: nat, whole: string, frac: string) {
    && Plain(whole) && AllDigits(frac) && |frac| == scale && AllDigits(whole + frac)
    && Value(whole + frac) == Abs(units)
    && t == (if units < 0 then "-" else "") + whole + (if scale == 0 then "" else "." + frac)
  }

  /** A minus sign iff negative, a whole part without leading zeros, and exactly `scale` digits after the point. */
  ghost predicate Canonical(t: string, units: int, scale: nat) {
    exists whole, frac :: CanonicalAs(t, units, scale, whole, frac)
  }

  // ----- Digits are determined by their value -----

  lemma {:induction false} ValueBelow(s: string)
    requires AllDigits(s)
    ensures Value(s) < Pow10(|s|)
  {
    if s != [] {
      ValueBelow(s[..|s| - 1]);
    }
  }

  lemma {:induction false} SameLength(s: string, t: string)
    requires AllDigits(s) && AllDigits(t) && |s| == |t| && Value(s) == Value(t)
    ensures s == t
  {
    if s != [] {
      var a, b := s[..|s| - 1], t[..|t| - 1];
      SameLength(a, b);
      assert s == a + [s[|s| - 1]] && t == b + [t[|t| - 1]];
    }
  }

  lemma {:induction false} DigitsPlain(n: nat)
    ensures Plain(Digits(n)) && (n > 0 ==> Digits(n)[0] != '0')
  {
    if n >= 10 {
      DigitsPlain(n / 10);
      assert Digits(n)[0] == Digits(n / 10)[0];
    }
  }

  lemma DigitsAppend(v: nat, c: char)
    requires v > 0 && IsDigit(c)
    ensures Digits(10 * v + (c - '0') as nat) == Digits(v) + [c]
  {
    var d := (c - '0') as nat;
    assert (10 * v + d) / 10 == v && (10 * v + d) % 10 == d;
  }

  lemma OneDigit(c: char)
    requires IsDigit(c)
    ensures Value([c]) == (c - '0') as nat && Digits(Value([c])) == [c]
  {
    assert [c][..0] == "";
  }

  /** Without leading zeros too: a plain run of digits is the one that spells its value. */
  lemma {:induction false} PlainIsDigits(s: string)
    requires Plain(s)
    ensures s == Digits(Value(s))
    decreases |s|
  {
    hide Digits;
    var front, last := s[..|s| - 1], s[|s| - 1];
    assert s == front + [last];
    if front != [] {
      assert front[0] == s[0] && front[0] != '0';
      PlainIsDigits(front);
      PositiveValue(front);
      DigitsAppend(Value(front), last);
    } else {
      OneDigit(last);
    }
  }

  lemma {:induction false} PositiveValue(s: string)
    requires AllDigits(s) && s != "" && s[0] != '0'
    ensures Value(s) > 0
  {
    if |s| > 1 {
      PositiveValue(s[..|s| - 1]);
    } else {
      assert s[..0] == [];
    }
  }

  lemma QuotientUnique(q: nat, r: nat, q': nat, r': nat, p: nat)
    requires q * p + r == q' * p + r' && r < p && r' < p
    ensures q == q' && r == r'
  {
    if q > q' { MulMonotone(q' + 1, q, p); }
    if q' > q { MulMonotone(q + 1, q', p); }
  }

  /** There is only one canonical text. */
  lemma CanonicalUnique(t: string, t': string, units: int, scale: nat)
    requires Canonical(t, units, scale) && Canonical(t', units, scale)
    ensures t == t'
  {
    var whole, frac :| CanonicalAs(t, units, scale, whole, frac);
    var whole', frac' :| CanonicalAs(t', units, scale, whole', frac');
    ValueConcat(whole, frac);
    ValueConcat(whole', frac');
    ValueBelow(frac);
    ValueBelow(frac');
    hide Value, Pow10;
    QuotientUnique(Value(whole), Value(frac), Value(whole'), Value(frac'), Pow10(scale));
    SameLength(frac, frac');
    PlainIsDigits(whole);
    PlainIsDigits(whole');
  }

  // ----- What is printed -----

  lemma FormatParts(units: int64, scale: int)
    requires ScaleValid(scale) && scale > 0 && units != MIN_INT64
    ensures Canonical(FormatUnits(units, scale), units, scale)
  {
    hide Pow10, Wrap, Quo, Rem, Value, Digits, PrintPadded;
    var n := Abs(units);
    Pow10Bound(scale);
    var q, r := DivMod(n, Pow10(scale));
    assert Abs64(units) == n;
    var whole, frac := Digits(q), PrintPadded(scale, r);
    PaddedFraction(scale, r);
    DigitsPlain(q);
    ValueDigits(q);
    ValueConcat(whole, frac);
    assert q * Pow10(scale) == Pow10(scale) * q;
    assert FormatUnits(units, scale) == (if units < 0 then "-" else "") + whole + ("." + frac);
    assert CanonicalAs(FormatUnits(units, scale), units, scale, whole, frac);
  }

  lemma FormatWhole(units: int64)
    ensures Canonical(FormatUnits(units, 0), units, 0)
  {
    hide Value, Digits;
    var whole := Digits(Abs(units));
    DigitsPlain(Abs(units));
    ValueDigits(Abs(units));
    assert whole + "" == whole;
    assert CanonicalAs(FormatUnits(units, 0), units, 0, whole, "");
  }

  lemma OneSign(t: string, units: int, scale: nat)
    requires Canonical(t, units, scale) && units < 0
    ensures |t| > 1 && t[1] != '-'
  {
    var whole, frac :| CanonicalAs(t, units, scale, whole, frac);
    assert t[1] == whole[0];
  }

  /** The smallest value prints a second sign. */
  lemma SmallestIsGarbled(scale: int)
    requires ScaleValid(scale) && scale > 0
    ensures !Canonical(FormatUnits(MIN_INT64, scale), MIN_INT64, scale)
  {
    hide Pow10, Wrap, Digits, Value, Canonical;
    Pow10Bound(scale);
    var t := FormatUnits(MIN_INT64, scale);
    assert Abs64(MIN_INT64) == MIN_INT64;
    assert Quo(MIN_INT64, Pow10(scale)) < 0;
    hide Quo, Rem;
    assert t[1] == '-';
    if Canonical(t, MIN_INT64, scale) { OneSign(t, MIN_INT64, scale); }
  }

  /** Printing yields the canonical text, exactly when the scale is zero or the units are not the smallest. */
  lemma FormatIff(units: int64, scale: int, t: string)
    requires ScaleValid(scale)
    ensures units != MIN_INT64 || scale == 0 ==> (FormatUnits(units, scale) == t <==> Canonical(t, units, scale))
    ensures units == MIN_INT64 && scale > 0 ==> !Canonical(FormatUnits(units, scale), units, scale)
  {
    hide Canonical, FormatUnits;
    if scale == 0 {
      FormatWhole(units);
    } else if units != MIN_INT64 {
      FormatParts(units, scale);
    } else {
      SmallestIsGarbled(scale);
    }
    if (units != MIN_INT64 || scale == 0) && Canonical(t, units, scale) {
      CanonicalUnique(t, FormatUnits(units, scale), units, scale);
    }
  }
}
