/** Printing and parsing decimals: units at a scale against their text. */
module Decimals {
  import opened Int64
  import opened Rows
  import opened Text
  import opened Arith
  import opened FixedPoint

  // ----- Digits -----

  predicate IsDigit(c: char) {
    '0' <= c <= '9'
  }

  predicate AllDigits(s: string) {
    forall i :: 0 <= i < |s| ==> IsDigit(s[i])
  }

  /** The number a string of digits spells. */
  function Value(s: string): nat
    requires AllDigits(s)
  {
    if s == [] then 0 else 10 * Value(s[..|s| - 1]) + (s[|s| - 1] - '0') as nat
  }

  function Digits(n: nat): (s: string)
    ensures s != [] && AllDigits(s)
  {
    var last := '0' + (n % 10) as char;
    if n < 10 then [last] else Digits(n / 10) + [last]
  }

  function Zeros(k: nat): (s: string)
    ensures |s| == k && AllDigits(s)
  {
    seq(k, _ => '0')
  }

  lemma TimesTen(v: nat, p: nat)
    ensures v * (10 * p) == 10 * (v * p)
  {
  }

  lemma {:induction false} ValueConcat(a: string, b: string)
    requires AllDigits(a) && AllDigits(b)
    ensures AllDigits(a + b) && Value(a + b) == Value(a) * Pow10(|b|) + Value(b)
    decreases |b|
  {
    if b == [] {
      assert a + b == a;
    } else {
      var front, last := b[..|b| - 1], b[|b| - 1];
      ValueConcat(a, front);
      assert (a + b)[..|a + b| - 1] == a + front && (a + b)[|a + b| - 1] == last;
      var p := Pow10(|front|);
      assert Pow10(|b|) == 10 * p;
      TimesTen(Value(a), p);
    }
  }

  lemma {:induction false} ValueZeros(k: nat)
    ensures Value(Zeros(k)) == 0
  {
    if k > 0 {
      assert Zeros(k)[..k - 1] == Zeros(k - 1);
      ValueZeros(k - 1);
    }
  }

  lemma {:induction false} ValueDigits(n: nat)
    ensures Value(Digits(n)) == n
  {
    var s := Digits(n);
    if n >= 10 {
      ValueDigits(n / 10);
      assert s[..|s| - 1] == Digits(n / 10);
    } else {
      assert s[..0] == [];
    }
  }

  lemma {:induction false} DigitsLength(n: nat, k: nat)
    requires k > 0 && n < Pow10(k)
    ensures |Digits(n)| <= k
  {
    if n >= 10 {
      assert Pow10(1) == 10 && k > 1;
      DigitsLength(n / 10, k - 1);
    }
  }

  // ----- Printing -----

  /** `%d`. */
  function Print(n: int): string {
    if n < 0 then "-" + Digits(-n) else Digits(n)
  }

  /** `%0*d`: zeros after the sign up to the width, which counts the sign. */
  function PrintPadded(width: nat, n: int): string {
    var sign := if n < 0 then "-" else "";
    var digits := Digits(Abs(n));
    var room := width - |sign| - |digits|;
    sign + Zeros(if room > 0 then room else 0) + digits
  }

  function FormatUnits(units: int64, scale: int): string {
    if scale == 0 then Print(units)
    else
      match Pow10Of(scale)
      case None => Print(units)
      case Some(factor) =>
        Pow10Bound(scale);
        var u := Abs64(units);
        var out := Print(Quo(u, factor)) + "." + PrintPadded(scale, Rem(u, factor));
        if units < 0 then "-" + out else out
  }

  // ----- Parsing, as a grammar and a value -----

  datatype Decimal = Decimal(neg: bool, whole: string, frac: string)

  /** The position of the first point, or the length. */
  function FindPoint(s: string): (i: nat)
    ensures i <= |s| && (forall k :: 0 <= k < i ==> s[k] != '.') && (i < |s| ==> s[i] == '.')
  {
    if s == [] || s[0] == '.' then 0 else 1 + FindPoint(s[1..])
  }

  function Unsigned(t: string): string {
    if t != [] && (t[0] == '-' || t[0] == '+') then t[1..] else t
  }

  function ReadBody(neg: bool, body: string): (r: Option<Decimal>)
    ensures r.Some? ==> AllDigits(r.value.whole) && AllDigits(r.value.frac)
  {
    var i := FindPoint(body);
    var whole, frac := body[..i], if i < |body| then body[i + 1..] else "";
    if AllDigits(whole) && AllDigits(frac) then Some(Decimal(neg, whole, frac)) else None
  }

  /** A sign, digits, and at most one point with digits after it; either run of digits may be empty. */
  function Read(s: string): (r: Option<Decimal>)
    ensures r.Some? ==> AllDigits(r.value.whole) && AllDigits(r.value.frac)
  {
    var t := TrimSpace(s);
    if t == "" then None else ReadBody(t[0] == '-', Unsigned(t))
  }

  /** The units of a decimal at a scale that has room for its fraction. */
  function Magnitude(d: Decimal, scale: nat): nat
    requires AllDigits(d.whole) && AllDigits(d.frac) && |d.frac| <= scale
  {
    Value(d.whole) * Pow10(scale) + Value(d.frac) * Pow10(scale - |d.frac|)
  }

  function UnitsAt(read: Option<Decimal>, scale: nat): Option<int64>
    requires read.Some? ==> AllDigits(read.value.whole) && AllDigits(read.value.frac)
  {
    match read
    case None => None
    case Some(d) =>
      if |d.frac| > scale || Magnitude(d, scale) > MAX_INT64 then None
      else Some(if d.neg then 0 - Magnitude(d, scale) else Magnitude(d, scale))
  }

  function ParseUnits(s: string, scale: int): Option<int64> {
    if ScaleValid(scale) then UnitsAt(Read(s), scale) else None
  }

  // ----- The parser -----

  method ParseInt64(s: string) returns (r: Option<int64>)
    requires AllDigits(s)
    ensures r == if Value(s) <= MAX_INT64 then Some(Value(s)) else None
  {
    var out: int64 := 0;
    for i := 0 to |s|
      invariant out == Value(s[..i])
    {
      var d := (s[i] - '0') as int;
      assert s[..i + 1][..i] == s[..i];
      ValuePrefix(s, i + 1);
      hide MulInt64, AddInt64;
      MulExact(out, 10);
      var next := MulInt64(out, 10);
      if next.None? { return None; }
      AddExact(next.value, d);
      var sum := AddInt64(next.value, d);
      if sum.None? { return None; }
      out := sum.value;
    }
    assert s[..|s|] == s;
    return Some(out);
  }

  lemma {:induction false} ValuePrefix(s: string, i: nat)
    requires AllDigits(s) && i <= |s|
    ensures Value(s[..i]) <= Value(s)
    decreases |s|
  {
    if i < |s| {
      var front := s[..|s| - 1];
      ValuePrefix(front, i);
      assert front[..i] == s[..i];
    } else {
      assert s[..i] == s;
    }
  }

  method CheckDigits(s: string) returns (ok: bool)
    ensures ok == AllDigits(s)
  {
    for i := 0 to |s|
      invariant AllDigits(s[..i])
    {
      if s[i] < '0' || s[i] > '9' { return false; }
    }
    assert s[..|s|] == s;
    return true;
  }

  /** `strings.Split(s, ".")`. */
  function Split(s: string): (parts: seq<string>)
    ensures |parts| >= 1
    decreases |s|
  {
    var i := FindPoint(s);
    if i == |s| then [s] else [s[..i]] + Split(s[i + 1..])
  }

  lemma SplitMeaning(s: string)
    ensures var i := FindPoint(s);
      && Split(s)[0] == s[..i] && (|Split(s)| == 1 <==> i == |s|)
      && (|Split(s)| == 2 ==> Split(s)[1] == s[i + 1..])
      && (|Split(s)| > 2 ==> !AllDigits(s[i + 1..]))
  {
    var i := FindPoint(s);
    if i < |s| {
      var rest := s[i + 1..];
      var j := FindPoint(rest);
      assert Split(s)[1] == rest[..j];
      if j < |rest| { assert !IsDigit(rest[j]); }
    } else {
      assert s[..i] == s;
    }
  }

  lemma PaddedValue(frac: string, k: nat)
    requires AllDigits(frac)
    ensures AllDigits(frac + Zeros(k)) && Value(frac + Zeros(k)) == Value(frac) * Pow10(k)
  {
    ValueConcat(frac, Zeros(k));
    ValueZeros(k);
  }

  /** Whole and padded fraction, put together with the checked operations. */
  method Combine(neg: bool, whole: string, frac: string, scale: int) returns (r: Option<int64>)
    requires AllDigits(whole) && AllDigits(frac) && ScaleValid(scale)
    ensures var m := Value(whole) * Pow10(scale) + Value(frac);
      r == if m > MAX_INT64 then None else Some(if neg then 0 - m else m)
  {
    hide MulInt64, AddInt64, Value, Pow10;
    var factor := Pow10Checked(scale);
    if factor.None? { return None; }
    var w := ParseInt64(whole);
    AtLeastFactor(Value(whole), Pow10(scale), scale);
    if w.None? { return None; }
    var f := ParseInt64(frac);
    if f.None? { return None; }
    MulExact(w.value, factor.value);
    var wu := MulInt64(w.value, factor.value);
    if wu.None? { return None; }
    AddExact(wu.value, f.value);
    var sum := AddInt64(wu.value, f.value);
    if sum.None? { return None; }
    return Some(if neg then Wrap(0 - sum.value) else sum.value);
  }

  lemma AtLeastFactor(w: nat, factor: nat, scale: nat)
    requires factor == Pow10(scale)
    ensures w <= w * factor
  {
    Pow10Monotone(0, scale);
    MulMonotone(1, factor, w);
  }

  method PadFraction(frac: string, scale: nat) returns (padded: string)
    requires |frac| <= scale
    ensures padded == frac + Zeros(scale - |frac|)
  {
    padded := frac;
    while |padded| < scale
      invariant |frac| <= |padded| <= scale && padded == frac + Zeros(|padded| - |frac|)
    {
      padded := padded + "0";
    }
  }

  /** After the sign: split at the point, check both runs of digits, pad, combine. */
  method ParseBody(neg: bool, body: string, scale: nat) returns (r: Option<int64>)
    requires ScaleValid(scale)
    ensures r == UnitsAt(ReadBody(neg, body), scale)
  {
    hide Value, Pow10, FindPoint, Split, AllDigits;
    var parts := Split(body);
    SplitMeaning(body);
    if |parts| > 2 { return None; }
    var whole := parts[0];
    EmptyIsZero();
    if whole == "" { whole := "0"; }
    var ok := CheckDigits(whole);
    if !ok { return None; }
    var frac := "";
    if |parts| == 2 {
      frac := parts[1];
      ok := CheckDigits(frac);
      if !ok { return None; }
      if |frac| > scale { return None; }
    }
    PaddedValue(frac, scale - |frac|);
    var padded := PadFraction(frac, scale);
    r := Combine(neg, whole, padded, scale);
  }

  method ParseToUnits(text: string, scale: int) returns (r: Option<int64>)
    ensures r == ParseUnits(text, scale)
  {
    hide TrimSpace, ReadBody, Magnitude;
    if scale < 0 || scale > MAX_SCALE { return None; }
    var s := TrimSpace(text);
    if s == "" { return None; }
    var neg := false;
    if s[0] == '-' {
      neg := true;
      s := s[1..];
    } else if s[0] == '+' {
      s := s[1..];
    }
    r := ParseBody(neg, s, scale);
  }

  lemma EmptyIsZero()
    ensures AllDigits("") && Value("") == 0 && AllDigits("0") && Value("0") == 0
  {
    assert "0"[..0] == "";
  }

  // ----- What is accepted, and what it denotes -----

  function Unsplit(whole: string, dotted: bool, frac: string): string {
    whole + (if dotted then "." else "") + frac
  }

  predicate IsSign(sign: string) {
    sign == "" || sign == "+" || sign == "-"
  }

  /** The text of a decimal: sign, digits, and a point that may be missing when no digits follow it. */
  predicate SpelledWith(t: string, d: Decimal, sign: string, dotted: bool) {
    && AllDigits(d.whole) && AllDigits(d.frac) && (d.frac != "" ==> dotted)
    && IsSign(sign) && (d.neg <==> sign == "-")
    && t == sign + Unsplit(d.whole, dotted, d.frac)
  }

  ghost predicate Spells(t: string, d: Decimal) {
    t != "" && exists sign, dotted :: SpelledWith(t, d, sign, dotted)
  }

  lemma ReadUnsplit(neg: bool, whole: string, dotted: bool, frac: string)
    requires AllDigits(whole) && AllDigits(frac) && (frac != "" ==> dotted)
    ensures ReadBody(neg, Unsplit(whole, dotted, frac)) == Some(Decimal(neg, whole, frac))
  {
    hide FindPoint;
    var body := Unsplit(whole, dotted, frac);
    var i := FindPoint(body);
    assert forall k :: 0 <= k < |whole| ==> body[k] == whole[k];
    assert i >= |whole|;
    if dotted { assert body[|whole|] == '.'; }
    assert i == |whole|;
    assert body[..i] == whole;
    if dotted { assert body[i + 1..] == frac; }
  }

  lemma ReadBodyShape(neg: bool, body: string)
    requires ReadBody(neg, body).Some?
    ensures
      var d := ReadBody(neg, body).value;
      var dotted := FindPoint(body) < |body|;
      d.neg == neg && AllDigits(d.whole) && AllDigits(d.frac) && (d.frac != "" ==> dotted) &&
      body == Unsplit(d.whole, dotted, d.frac)
  {
    hide FindPoint, AllDigits;
    var i := FindPoint(body);
    if i < |body| {
      SplitAt(body, i);
    } else {
      assert body[..i] == body && body + "" + "" == body;
    }
  }

  lemma SplitAt(body: string, i: nat)
    requires i < |body| && body[i] == '.'
    ensures body == body[..i] + "." + body[i + 1..]
  {
  }

  lemma UnsignedBody(sign: string, body: string)
    requires IsSign(sign) && (body != "" ==> body[0] != '-' && body[0] != '+')
    ensures Unsigned(sign + body) == body
    ensures sign + body != "" ==> ((sign + body)[0] == '-' <==> sign == "-")
  {
    if sign == "" { assert sign + body == body; } else { assert (sign + body)[1..] == body; }
  }

  lemma ReadSpelled(s: string, d: Decimal, sign: string, dotted: bool)
    requires TrimSpace(s) != "" && SpelledWith(TrimSpace(s), d, sign, dotted)
    ensures Read(s) == Some(d)
  {
    hide TrimSpace, ReadBody, Unsigned;
    var body := Unsplit(d.whole, dotted, d.frac);
    if body != "" { assert body[0] == if d.whole != "" then d.whole[0] else '.'; }
    UnsignedBody(sign, body);
    ReadUnsplit(d.neg, d.whole, dotted, d.frac);
  }

  /** The reader accepts exactly the spelled decimals. */
  lemma ReadIff(s: string, d: Decimal)
    ensures Read(s) == Some(d) <==> Spells(TrimSpace(s), d)
  {
    hide TrimSpace, ReadBody, Unsplit, FindPoint;
    if Read(s) == Some(d) {
      var t := TrimSpace(s);
      var body := Unsigned(t);
      ReadBodyShape(t[0] == '-', body);
      var sign := if t[0] == '-' || t[0] == '+' then t[..1] else "";
      assert t == sign + body;
      assert SpelledWith(t, d, sign, FindPoint(body) < |body|);
    }
    if Spells(TrimSpace(s), d) {
      var sign, dotted :| SpelledWith(TrimSpace(s), d, sign, dotted);
      ReadSpelled(s, d, sign, dotted);
    }
  }

  /** The decimal without its point, so that it denotes this number over `10^|frac|`. */
  function Numerator(d: Decimal): int
    requires AllDigits(d.whole + d.frac)
  {
    if d.neg then 0 - Value(d.whole + d.frac) else Value(d.whole + d.frac)
  }

  lemma MagnitudeScales(d: Decimal, scale: nat)
    requires AllDigits(d.whole) && AllDigits(d.frac) && |d.frac| <= scale
    ensures Magnitude(d, scale) * Pow10(|d.frac|) == Value(d.whole + d.frac) * Pow10(scale)
  {
    var w, f, p, q := Value(d.whole), Value(d.frac), Pow10(|d.frac|), Pow10(scale - |d.frac|);
    ValueConcat(d.whole, d.frac);
    Pow10Add(scale - |d.frac|, |d.frac|);
    Regroup(w, f, p, q, Pow10(scale));
  }

  lemma Regroup(w: int, f: int, p: int, q: int, k: int)
    requires k == q * p
    ensures (w * k + f * q) * p == (w * p + f) * k
  {
    assert (w * k + f * q) * p == w * k * p + f * (q * p);
  }

  lemma Cancel(x: int, y: int, p: int)
    requires p > 0 && x * p == y * p
    ensures x == y
  {
    assert (x - y) * p == 0;
  }

  /** The text denotes exactly `units / 10^scale`. */
  ghost predicate Denotes(s: string, units: int, scale: int) {
    exists d :: Spells(TrimSpace(s), d) && AllDigits(d.whole + d.frac) && |d.frac| <= scale &&
      units * Pow10(|d.frac|) == Numerator(d) * Pow10(scale)
  }

  lemma UnitsOf(d: Decimal, scale: nat, u: int)
    requires AllDigits(d.whole) && AllDigits(d.frac) && AllDigits(d.whole + d.frac) && |d.frac| <= scale
    ensures u * Pow10(|d.frac|) == Numerator(d) * Pow10(scale) <==>
      u == if d.neg then 0 - Magnitude(d, scale) else Magnitude(d, scale)
  {
    hide Magnitude, Value, Pow10;
    var m: int, p: int, v: int, k: int := Magnitude(d, scale), Pow10(|d.frac|), Value(d.whole + d.frac), Pow10(scale);
    var x := if d.neg then -m else m;
    MagnitudeScales(d, scale);
    assert x * p == Numerator(d) * k by {
      if d.neg { assert (-m) * p == -(m * p) && (-v) * k == -(v * k); }
    }
    Pow10Monotone(0, |d.frac|);
    if u * p == Numerator(d) * k { Cancel(u, x, p); }
  }

  /**
    A parse succeeds with `u` exactly when the scale is allowed, the text denotes `u / 10^scale` with no more
    fraction digits than the scale, and `u` is in range. It never yields the smallest value.
   */
  lemma ParseIff(s: string, scale: int, u: int64)
    ensures ParseUnits(s, scale) == Some(u) <==> ScaleValid(scale) && Denotes(s, u, scale) && u != MIN_INT64
  {
    hide TrimSpace, Magnitude, Value, Pow10, Numerator, Spells, Read;
    if ParseUnits(s, scale) == Some(u) {
      var d := Read(s).value;
      ReadDigits(s, d);
      UnitsOf(d, scale, u);
    }
    if ScaleValid(scale) && Denotes(s, u, scale) && u != MIN_INT64 {
      var d :| Spells(TrimSpace(s), d) && AllDigits(d.whole + d.frac) && |d.frac| <= scale
        && u * Pow10(|d.frac|) == Numerator(d) * Pow10(scale);
      ReadIff(s, d);
      ReadDigits(s, d);
      UnitsOf(d, scale, u);
    }
  }

  lemma ReadDigits(s: string, d: Decimal)
    requires Read(s) == Some(d)
    ensures AllDigits(d.whole) && AllDigits(d.frac) && AllDigits(d.whole + d.frac) && Spells(TrimSpace(s), d)
  {
    hide TrimSpace;
    ReadIff(s, d);
  }

  // ----- Print, then parse -----

  lemma NothingToTrim(t: string)
    requires t != "" && !IsSpace(t[0]) && !IsSpace(t[|t| - 1])
    ensures TrimSpace(t) == t
  {
  }

  /** What printing an ordinary value spells. */
  lemma FormatSpells(units: int64, scale: int) returns (d: Decimal)
    requires ScaleValid(scale) && units != MIN_INT64
    ensures Read(FormatUnits(units, scale)) == Some(d) && AllDigits(d.whole) && AllDigits(d.frac)
    ensures d.neg == (units < 0) && |d.frac| == scale && Magnitude(d, scale) == Abs(units)
  {
    hide TrimSpace, Read, Digits, Pow10, Wrap, Quo, Rem;
    var n := Abs(units);
    var sign := if units < 0 then "-" else "";
    var t := FormatUnits(units, scale);
    if scale == 0 {
      d := Decimal(units < 0, Digits(n), "");
      assert t == sign + Unsplit(d.whole, false, d.frac);
      assert SpelledWith(t, d, sign, false);
      SpellingIsTrimmed(t, d, sign, false);
      ReadSpelled(t, d, sign, false);
      ValueDigits(n);
      WholeMagnitude(d);
    } else {
      Pow10Bound(scale);
      var q, r := DivMod(n, Pow10(scale));
      var pad := PrintPadded(scale, r);
      PaddedFraction(scale, r);
      d := Decimal(units < 0, Digits(q), pad);
      assert Abs64(units) == n;
      assert t == sign + Unsplit(d.whole, true, d.frac);
      assert SpelledWith(t, d, sign, true);
      SpellingIsTrimmed(t, d, sign, true);
      ReadSpelled(t, d, sign, true);
      ValueDigits(q);
      FullMagnitude(d, scale);
      assert q * Pow10(scale) == Pow10(scale) * q;
    }
  }

  lemma WholeMagnitude(d: Decimal)
    requires AllDigits(d.whole) && d.frac == ""
    ensures Magnitude(d, 0) == Value(d.whole)
  {
  }

  lemma FullMagnitude(d: Decimal, scale: nat)
    requires AllDigits(d.whole) && AllDigits(d.frac) && |d.frac| == scale
    ensures Magnitude(d, scale) == Value(d.whole) * Pow10(scale) + Value(d.frac)
  {
  }

  lemma PaddedFraction(scale: nat, r: nat)
    requires scale > 0 && r < Pow10(scale)
    ensures var pad := PrintPadded(scale, r); |pad| == scale && AllDigits(pad) && Value(pad) == r
  {
    DigitsLength(r, scale);
    ValueDigits(r);
    var zeros := Zeros(scale - |Digits(r)|);
    assert PrintPadded(scale, r) == zeros + Digits(r);
    ValueConcat(zeros, Digits(r));
    ValueZeros(|zeros|);
  }

  lemma SpellingIsTrimmed(t: string, d: Decimal, sign: string, dotted: bool)
    requires SpelledWith(t, d, sign, dotted) && d.whole != "" && (dotted ==> d.frac != "")
    ensures t != "" && TrimSpace(t) == t
  {
    hide TrimSpace;
    assert t[0] == (if sign == "" then d.whole else sign)[0];
    assert t[|t| - 1] == (if d.frac == "" then d.whole[|d.whole| - 1] else d.frac[|d.frac| - 1]);
    NothingToTrim(t);
  }

  /** The smallest value prints with a second sign, or past the range: it never parses. */
  lemma SmallestDoesNotParse(scale: int)
    ensures ParseUnits(FormatUnits(MIN_INT64, scale), scale) == None
  {
    hide TrimSpace, Digits, Pow10, Wrap;
    if scale == 0 {
      var n := Abs(MIN_INT64);
      var d := Decimal(true, Digits(n), "");
      var t := FormatUnits(MIN_INT64, 0);
      assert t == "-" + Unsplit(d.whole, false, d.frac);
      assert SpelledWith(t, d, "-", false);
      SpellingIsTrimmed(t, d, "-", false);
      ReadSpelled(t, d, "-", false);
      ValueDigits(n);
      WholeMagnitude(d);
    } else if ScaleValid(scale) {
      SecondSign(scale);
    }
  }

  lemma SecondSign(scale: int)
    requires 0 < scale <= MAX_SCALE
    ensures Read(FormatUnits(MIN_INT64, scale)) == None
  {
    hide TrimSpace, Digits, Pow10, Wrap, FindPoint;
    Pow10Bound(scale);
    var t := FormatUnits(MIN_INT64, scale);
    assert Abs64(MIN_INT64) == MIN_INT64;
    assert Quo(MIN_INT64, Pow10(scale)) < 0;
    hide Quo, Rem;
    var tail := PrintPadded(scale, Rem(MIN_INT64, Pow10(scale)));
    assert t[0] == '-' && t[1] == '-';
    assert t[|t| - 1] == tail[|tail| - 1] && IsDigit(tail[|tail| - 1]);
    NothingToTrim(t);
    var body := Unsigned(t);
    assert body[0] == '-';
    var i := FindPoint(body);
    assert body[..i] == "" || !IsDigit(body[..i][0]);
  }

  /** Printing and parsing back gives the units again, exactly when the scale is allowed and they are not the smallest. */
  lemma RoundTripIff(units: int64, scale: int)
    ensures ParseUnits(FormatUnits(units, scale), scale) == Some(units) <==> ScaleValid(scale) && units != MIN_INT64
  {
    hide FormatUnits, Read, Magnitude;
    if units == MIN_INT64 {
      SmallestDoesNotParse(scale);
    } else if ScaleValid(scale) {
      var d := FormatSpells(units, scale);
    }
  }

  /** So whatever a parse accepts can be printed and parsed again. */
  lemma ParseThenPrint(s: string, scale: int)
    requires ParseUnits(s, scale).Some?
    ensures ParseUnits(FormatUnits(ParseUnits(s, scale).value, scale), scale) == ParseUnits(s, scale)
  {
    hide ParseUnits, FormatUnits, Denotes;
    ParseIff(s, scale, ParseUnits(s, scale).value);
    RoundTripIff(ParseUnits(s, scale).value, scale);
  }
}
