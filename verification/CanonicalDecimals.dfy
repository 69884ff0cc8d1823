/** Canonical decimal numerals: the printer, the grammar it prints in, and the parser it is inverse to. */
module CanonicalDecimals {
  import opened Wrappers

  /** A decimal as its tuple shows it; infinities and NaNs are not finite. */
  datatype Decimal = Finite(negative: bool, digits: seq<nat>, exponent: int) | NotFinite

  datatype DecimalError = MustBeFinite | NotCanonical

  predicate AreDigits(digits: seq<nat>) {
    forall i | 0 <= i < |digits| :: digits[i] < 10
  }

  /** The coefficient has a digit, and no leading zero unless it is zero. */
  predicate IsDecimal(d: Decimal) {
    d.Finite? ==> d.digits != [] && AreDigits(d.digits) && (|d.digits| > 1 ==> d.digits[0] != 0)
  }

  predicate IsZero(digits: seq<nat>) {
    forall i | 0 <= i < |digits| :: digits[i] == 0
  }

  // ----- texts of digits -----

  predicate AreDigitChars(s: string) {
    forall i | 0 <= i < |s| :: '0' <= s[i] <= '9'
  }

  function Show(digits: seq<nat>): (s: string)
    requires AreDigits(digits)
    ensures |s| == |digits| && AreDigitChars(s)
    ensures forall i | 0 <= i < |s| :: s[i] == ('0' as int + digits[i]) as char
  {
    if digits == [] then ""
    else Show(digits[..|digits| - 1]) + [('0' as int + digits[|digits| - 1]) as char]
  }

  function Read(s: string): (digits: seq<nat>)
    requires AreDigitChars(s)
    ensures |digits| == |s| && AreDigits(digits)
    ensures forall i | 0 <= i < |s| :: digits[i] == s[i] as int - '0' as int
  {
    if s == "" then [] else Read(s[..|s| - 1]) + [s[|s| - 1] as int - '0' as int]
  }

  function Zeros(n: nat): (s: string)
    ensures |s| == n && forall i | 0 <= i < n :: s[i] == '0'
  {
    if n == 0 then "" else Zeros(n - 1) + "0"
  }

  // ----- the printer -----

  /** The coefficient without its trailing zeros, and the exponent that makes up for them. */
  function Trim(digits: seq<nat>, exponent: int): (seq<nat>, int) {
    if digits != [] && digits[|digits| - 1] == 0 then Trim(digits[..|digits| - 1], exponent + 1)
    else (digits, exponent)
  }

  /** The digits with the point where the exponent puts it. */
  function Layout(text: string, exponent: int): string {
    if exponent >= 0 then text + Zeros(exponent)
    else
      var point := |text| + exponent;
      if point > 0 then text[..point] + "." + text[point..]
      else "0." + Zeros(-point) + text
  }

  function Canonical(d: Decimal): Result<string, DecimalError>
    requires IsDecimal(d)
  {
    if d.NotFinite? then Failure(MustBeFinite)
    else if IsZero(d.digits) then Success("0")
    else
      var (digits, exponent) := Trim(d.digits, d.exponent);
      TrimKeepsDigits(d.digits, d.exponent);
      Success((if d.negative then "-" else "") + Layout(Show(digits), exponent))
  }

  lemma {:induction false} TrimKeepsDigits(digits: seq<nat>, exponent: int)
    ensures Trim(digits, exponent).0 <= digits
    ensures AreDigits(digits) ==> AreDigits(Trim(digits, exponent).0)
    ensures !IsZero(digits) ==>
              var t := Trim(digits, exponent).0; t != [] && t[0] == digits[0] && t[|t| - 1] != 0
  {
    if digits != [] && digits[|digits| - 1] == 0 {
      TrimKeepsDigits(digits[..|digits| - 1], exponent + 1);
    }
  }

  /** Pops zeros off the coefficient, then places the point. */
  method CanonicalDecimal(d: Decimal) returns (r: Result<string, DecimalError>)
    requires IsDecimal(d)
    ensures r == Canonical(d)
  {
    if d.NotFinite? {
      return Failure(MustBeFinite);
    }
    var coefficient, exponent := d.digits, d.exponent;
    if IsZero(coefficient) {
      return Success("0");
    }
    while coefficient[|coefficient| - 1] == 0
      invariant !IsZero(coefficient) && AreDigits(coefficient)
      invariant Trim(coefficient, exponent) == Trim(d.digits, d.exponent)
      decreases |coefficient|
    {
      coefficient := coefficient[..|coefficient| - 1];
      exponent := exponent + 1;
    }
    assert Trim(d.digits, d.exponent) == (coefficient, exponent);
    hide Trim, IsZero, AreDigits, Show, Zeros;
    var text := Show(coefficient);
    if exponent >= 0 {
      text := text + Zeros(exponent);
    } else {
      var point := |text| + exponent;
      if point > 0 {
        text := text[..point] + "." + text[point..];
      } else {
        text := "0." + Zeros(-point) + text;
      }
    }
    r := Success((if d.negative then "-" else "") + text);
  }

  // ----- the grammar -----

  /** A nonzero digit, then digits. */
  predicate IsNatural(s: string) {
    s != "" && AreDigitChars(s) && s[0] != '0'
  }

  /** Digits, the last of them nonzero. */
  predicate IsFraction(s: string) {
    s != "" && AreDigitChars(s) && s[|s| - 1] != '0'
  }

  function Unsigned(s: string): string {
    if s != "" && s[0] == '-' then s[1..] else s
  }

  /** The position of the first point, or the end. */
  function Point(s: string): (p: nat)
    ensures p <= |s| && '.' !in s[..p] && (p < |s| ==> s[p] == '.')
  {
    if s == "" || s[0] == '.' then 0 else 1 + Point(s[1..])
  }

  predicate IsPointed(u: string) {
    var p := Point(u);
    p < |u| && (u[..p] == "0" || IsNatural(u[..p])) && IsFraction(u[p + 1..])
  }

  /** The pattern of canonical numerals. */
  predicate IsCanonical(s: string) {
    s == "0" || IsNatural(Unsigned(s)) || IsPointed(Unsigned(s))
  }

  // ----- the parser -----

  function WithoutLeadingZeros(digits: seq<nat>): seq<nat> {
    if |digits| > 1 && digits[0] == 0 then WithoutLeadingZeros(digits[1..]) else digits
  }

  /** What the decimal constructor makes of an unsigned numeral: all its digits, and minus the number of
      digits after the point. */
  function ParseUnsigned(u: string, negative: bool): Decimal
    requires IsNatural(u) || IsPointed(u) || u == "0"
  {
    var p := Point(u);
    NumeralDigits(u);
    if p == |u| then Finite(negative, WithoutLeadingZeros(Read(u)), 0)
    else Finite(negative, WithoutLeadingZeros(Read(u[..p] + u[p + 1..])), -(|u| - p - 1))
  }

  lemma {:induction false} NumeralDigits(u: string)
    requires IsNatural(u) || IsPointed(u) || u == "0"
    ensures var p := Point(u); if p == |u| then AreDigitChars(u) else AreDigitChars(u[..p] + u[p + 1..])
  {
    PointIsFirst(u);
    hide Point;
    var p := Point(u);
    if p < |u| {
      assert AreDigitChars(u[..p]) && AreDigitChars(u[p + 1..]);
    }
  }

  lemma {:induction false} PointIsFirst(u: string)
    ensures AreDigitChars(u) ==> Point(u) == |u|
  {
    if Point(u) < |u| {
      assert u[Point(u)] == '.';
    }
  }

  /** Validation of a JSON text: only canonical numerals are read. */
  function Parse(s: string): Result<Decimal, DecimalError> {
    if !IsCanonical(s) then Failure(NotCanonical)
    else Success(ParseUnsigned(Unsigned(s), s != "" && s[0] == '-'))
  }

  // ----- the number behind a decimal -----

  function Coefficient(digits: seq<nat>): nat {
    if digits == [] then 0 else 10 * Coefficient(digits[..|digits| - 1]) + digits[|digits| - 1]
  }

  /** Ten to any power. */
  ghost function Power(e: int): (r: real)
    ensures r > 0.0
    decreases if e < 0 then -e else e
  {
    if e == 0 then 1.0 else if e > 0 then 10.0 * Power(e - 1) else Power(e + 1) / 10.0
  }

  ghost function Times(a: real, b: real): real {
    a * b
  }

  ghost function Magnitude(digits: seq<nat>, exponent: int): real {
    Times(Coefficient(digits) as real, Power(exponent))
  }

  ghost function Number(d: Decimal): real
    requires d.Finite?
  {
    if d.negative then -Magnitude(d.digits, d.exponent) else Magnitude(d.digits, d.exponent)
  }

  // ----- the normal form -----

  /** Neither end is zero. */
  predicate IsCoefficient(digits: seq<nat>) {
    AreDigits(digits) && digits != [] && digits[0] != 0 && digits[|digits| - 1] != 0
  }

  /** Zero has one form; other numbers have no zero at either end of the coefficient. */
  predicate IsNormal(d: Decimal) {
    d.Finite? && (d == Finite(false, [0], 0) || IsCoefficient(d.digits))
  }

  function Normal(d: Decimal): (n: Decimal)
    requires IsDecimal(d) && d.Finite?
    ensures IsNormal(n)
  {
    if IsZero(d.digits) then Finite(false, [0], 0)
    else
      var (digits, exponent) := Trim(d.digits, d.exponent);
      TrimKeepsDigits(d.digits, d.exponent);
      Finite(d.negative, digits, exponent)
  }

  lemma {:induction false} ZeroCoefficient(digits: seq<nat>)
    ensures Coefficient(digits) == 0 <==> IsZero(digits)
  {
    if digits != [] {
      ZeroCoefficient(digits[..|digits| - 1]);
    }
  }

  lemma {:induction false} PowerStep(e: int)
    ensures Power(e + 1) == Times(10.0, Power(e))
  {}

  lemma {:induction false} TimesAssoc(a: real, b: real, c: real)
    ensures Times(a, Times(b, c)) == Times(Times(a, b), c)
  {}

  lemma {:induction false} TimesSwap(a: real, b: real, c: real)
    ensures Times(Times(a, b), c) == Times(b, Times(a, c))
  {}

  lemma {:induction false} TimesNat(m: nat, n: nat)
    ensures Times(m as real, n as real) == (m * n) as real
  {}

  lemma {:induction false} TimesCancel(m: real, n: real, p: real)
    requires p > 0.0 && Times(m, p) == Times(n, p)
    ensures m == n
  {
    assert (m - n) * p == 0.0;
  }

  lemma {:induction false} TrimKeepsMagnitude(digits: seq<nat>, exponent: int)
    ensures Magnitude(Trim(digits, exponent).0, Trim(digits, exponent).1) == Magnitude(digits, exponent)
  {
    hide Times;
    if digits != [] && digits[|digits| - 1] == 0 {
      var front := digits[..|digits| - 1];
      TrimKeepsMagnitude(front, exponent + 1);
      PowerStep(exponent);
      TimesNat(10, Coefficient(front));
      TimesSwap(10.0, Coefficient(front) as real, Power(exponent));
    }
  }

  /** Normalising does not change the number. */
  lemma {:induction false} NormalKeepsNumber(d: Decimal)
    requires IsDecimal(d) && d.Finite?
    ensures Number(Normal(d)) == Number(d)
  {
    ZeroCoefficient(d.digits);
    ZeroCoefficient([0]);
    TrimKeepsMagnitude(d.digits, d.exponent);
  }

  // ----- numbers determine normal forms -----

  function TenTo(k: nat): nat {
    if k == 0 then 1 else 10 * TenTo(k - 1)
  }

  lemma {:induction false} PowerAdds(e: int, k: nat)
    ensures Power(e + k) == Times(TenTo(k) as real, Power(e))
  {
    if k > 0 {
      PowerAdds(e, k - 1);
      PowerStep(e + k - 1);
      TimesNat(10, TenTo(k - 1));
      TimesAssoc(10.0, TenTo(k - 1) as real, Power(e));
      hide Times, Power;
    }
  }

  lemma {:induction false} CoefficientPositive(digits: seq<nat>)
    requires digits != [] && digits[0] != 0
    ensures Coefficient(digits) > 0
  {
    ZeroCoefficient(digits);
  }

  lemma {:induction false} SameCoefficientSameDigits(a: seq<nat>, b: seq<nat>)
    requires AreDigits(a) && AreDigits(b) && (a != [] ==> a[0] != 0) && (b != [] ==> b[0] != 0)
    requires Coefficient(a) == Coefficient(b)
    ensures a == b
  {
    if a != [] { CoefficientPositive(a); }
    if b != [] { CoefficientPositive(b); }
    if a != [] && b != [] {
      var x, y := a[|a| - 1], b[|b| - 1];
      assert x < 10 && y < 10 && x == y && Coefficient(a[..|a| - 1]) == Coefficient(b[..|b| - 1]);
      SameCoefficientSameDigits(a[..|a| - 1], b[..|b| - 1]);
      assert a == a[..|a| - 1] + [x] && b == b[..|b| - 1] + [y];
    }
  }

  lemma {:induction false} NotTenfold(digits: seq<nat>, c: nat, k: nat)
    requires IsCoefficient(digits) && Coefficient(digits) == c * TenTo(k)
    ensures k == 0
  {
    if k > 0 {
      TenDivides(c, TenTo(k - 1));
      LastDigit(digits);
      assert false;
    }
  }

  lemma {:induction false} CompareCoefficients(ca: nat, cb: nat, t: nat, p: real)
    requires p > 0.0 && Times(ca as real, p) == Times(cb as real, Times(t as real, p))
    ensures ca == cb * t
  {
    hide Times;
    TimesAssoc(cb as real, t as real, p);
    TimesNat(cb, t);
    TimesCancel(ca as real, (cb * t) as real, p);
  }

  /** Coefficients that do not end in zero agree only at the same exponent. */
  lemma {:induction false} SameMagnitudeSameForm(a: seq<nat>, ea: int, b: seq<nat>, eb: int)
    requires IsCoefficient(a) && IsCoefficient(b)
    requires ea <= eb && Magnitude(a, ea) == Magnitude(b, eb)
    ensures a == b && ea == eb
  {
    hide Times;
    var k: nat := eb - ea;
    PowerAdds(ea, k);
    CompareCoefficients(Coefficient(a), Coefficient(b), TenTo(k), Power(ea));
    NotTenfold(a, Coefficient(b), k);
    SameCoefficientSameDigits(a, b);
  }

  lemma {:induction false} TenDivides(c: nat, t: nat)
    ensures c * (10 * t) % 10 == 0
  {
    assert c * (10 * t) == 10 * (c * t);
  }

  lemma {:induction false} LastDigit(digits: seq<nat>)
    requires AreDigits(digits) && digits != []
    ensures Coefficient(digits) % 10 == digits[|digits| - 1]
  {}

  lemma {:induction false} MagnitudePositive(digits: seq<nat>, exponent: int)
    requires !IsZero(digits)
    ensures Magnitude(digits, exponent) > 0.0
  {
    ZeroCoefficient(digits);
  }

  lemma {:induction false} SameNumberSameNormal(a: Decimal, b: Decimal)
    requires IsNormal(a) && IsNormal(b) && Number(a) == Number(b)
    ensures a == b
  {
    hide Magnitude;
    ZeroMagnitude(0);
    if a.digits[0] != 0 { MagnitudePositive(a.digits, a.exponent); }
    if b.digits[0] != 0 { MagnitudePositive(b.digits, b.exponent); }
    if a.digits[0] != 0 && b.digits[0] != 0 {
      if a.exponent <= b.exponent {
        SameMagnitudeSameForm(a.digits, a.exponent, b.digits, b.exponent);
      } else {
        SameMagnitudeSameForm(b.digits, b.exponent, a.digits, a.exponent);
      }
    }
  }

  lemma {:induction false} ZeroMagnitude(e: int)
    ensures Magnitude([0], e) == 0.0
  {
    ZeroCoefficient([0]);
  }

  // ----- printing and parsing -----

  ghost predicate Spells(text: string, digits: seq<nat>) {
    |text| == |digits| && AreDigits(digits) && forall i | 0 <= i < |text| :: text[i] == ('0' as int + digits[i]) as char
  }

  ghost predicate AllZeros(text: string) {
    forall i | 0 <= i < |text| :: text[i] == '0'
  }

  lemma {:induction false} ReadSpelled(text: string, digits: seq<nat>)
    requires Spells(text, digits)
    ensures AreDigitChars(text) && Read(text) == digits
  {
    assert forall i | 0 <= i < |digits| :: Read(text)[i] == digits[i];
  }

  lemma {:induction false} ShowSpelled(text: string, digits: seq<nat>)
    requires Spells(text, digits)
    ensures Show(digits) == text
  {
    assert forall i | 0 <= i < |text| :: Show(digits)[i] == text[i];
  }

  lemma {:induction false} ReadSpells(text: string)
    requires AreDigitChars(text)
    ensures Spells(text, Read(text))
  {}

  /** Trimming takes off the zeros that were put after. */
  lemma {:induction false} TrimZeros(digits: seq<nat>, zeros: nat, all: seq<nat>, exponent: int)
    requires digits != [] && digits[|digits| - 1] != 0
    requires |all| == |digits| + zeros && all[..|digits|] == digits && forall i | |digits| <= i < |all| :: all[i] == 0
    ensures Trim(all, exponent) == (digits, exponent + zeros)
    decreases zeros
  {
    if zeros == 0 {
      assert all == digits;
    } else {
      TrimZeros(digits, zeros - 1, all[..|all| - 1], exponent + 1);
    }
  }

  lemma {:induction false} LeadingZerosGo(zeros: nat, digits: seq<nat>, all: seq<nat>)
    requires digits != [] && digits[0] != 0
    requires |all| == zeros + |digits| && all[zeros..] == digits && forall i | 0 <= i < zeros :: all[i] == 0
    ensures WithoutLeadingZeros(all) == digits
    decreases zeros
  {
    if zeros > 0 {
      LeadingZerosGo(zeros - 1, digits, all[1..]);
    } else {
      assert all == digits;
    }
  }

  /** A coefficient with zeros after it is normalised by raising the exponent. */
  lemma {:induction false} NormalOfPadded(negative: bool, digits: seq<nat>, zeros: nat, all: seq<nat>, exponent: int)
    requires IsCoefficient(digits) && AreDigits(all)
    requires |all| == |digits| + zeros && all[..|digits|] == digits && forall i | |digits| <= i < |all| :: all[i] == 0
    ensures IsDecimal(Finite(negative, all, exponent))
    ensures Normal(Finite(negative, all, exponent)) == Finite(negative, digits, exponent + zeros)
  {
    assert all[0] == digits[0];
    TrimZeros(digits, zeros, all, exponent);
  }

  /** A point after digits is the first point. */
  lemma {:induction false} PointAfter(front: string, back: string)
    requires AreDigitChars(front)
    ensures Point(front + "." + back) == |front|
  {
    var s := front + "." + back;
    if front != "" {
      assert s[1..] == front[1..] + "." + back && s[0] == front[0];
      PointAfter(front[1..], back);
    }
  }

  lemma {:induction false} ReadWhole(u: string, all: seq<nat>, negative: bool)
    requires IsNatural(u) && Spells(u, all)
    ensures ParseUnsigned(u, negative) == Finite(negative, all, 0)
  {
    PointIsFirst(u);
    ReadSpelled(u, all);
  }

  lemma {:induction false} PointedParts(front: string, back: string)
    requires (front == "0" || IsNatural(front)) && IsFraction(back)
    ensures var u := front + "." + back;
      IsPointed(u) && Point(u) == |front| && u[..|front|] == front && u[|front| + 1..] == back
  {
    PointAfter(front, back);
    var u := front + "." + back;
    assert u[..|front|] == front && u[|front| + 1..] == back;
  }

  lemma {:induction false} ReadPointed(front: string, back: string, zeros: nat, digits: seq<nat>, all: seq<nat>,
                                       negative: bool)
    requires (front == "0" || IsNatural(front)) && IsFraction(back)
    requires Spells(front + back, all) && digits != [] && digits[0] != 0
    requires |all| == zeros + |digits| && all[zeros..] == digits && forall i | 0 <= i < zeros :: all[i] == 0
    ensures IsPointed(front + "." + back)
    ensures ParseUnsigned(front + "." + back, negative) == Finite(negative, digits, -|back|)
  {
    PointedParts(front, back);
    ReadSpelled(front + back, all);
    LeadingZerosGo(zeros, digits, all);
    hide Point, Read, WithoutLeadingZeros, IsPointed;
  }

  /** The numeral reads as the given coefficient and exponent. */
  ghost predicate ReadsAs(u: string, negative: bool, digits: seq<nat>, exponent: int)
    requires IsNatural(u) || IsPointed(u)
  {
    var d := ParseUnsigned(u, negative);
    IsDecimal(d) && d.Finite? && Normal(d) == Finite(negative, digits, exponent)
  }

  ghost predicate IsNumeral(u: string) {
    u != "" && '0' <= u[0] <= '9' && u != "0" && (IsNatural(u) || IsPointed(u))
  }

  ghost predicate Reads(u: string, digits: seq<nat>, exponent: int) {
    IsNumeral(u) && ReadsAs(u, true, digits, exponent) && ReadsAs(u, false, digits, exponent)
  }

  lemma {:induction false} WholeReads(text: string, digits: seq<nat>, zeros: string)
    requires IsCoefficient(digits) && Spells(text, digits) && AllZeros(zeros)
    ensures Reads(text + zeros, digits, |zeros|)
  {
    hide Normal, ParseUnsigned, IsPointed;
    var u, all := text + zeros, digits + seq(|zeros|, _ => 0);
    assert u[0] == text[0];
    var exponent := |zeros|;
    forall negative: bool ensures ReadsAs(u, negative, digits, exponent) {
      ReadWhole(u, all, negative);
      NormalOfPadded(negative, digits, |zeros|, all, 0);
    }
  }

  lemma {:induction false} PointedReadsAs(front: string, back: string, zeros: nat, digits: seq<nat>, all: seq<nat>,
                                          negative: bool)
    requires (front == "0" || IsNatural(front)) && IsFraction(back) && IsCoefficient(digits)
             && Spells(front + back, all)
    requires |all| == zeros + |digits| && all[zeros..] == digits && forall i | 0 <= i < zeros :: all[i] == 0
    ensures IsPointed(front + "." + back) && ReadsAs(front + "." + back, negative, digits, -|back|)
  {
    ReadPointed(front, back, zeros, digits, all, negative);
    NormalOfPadded(negative, digits, 0, digits, -|back|);
    hide Normal, ParseUnsigned, IsPointed, IsFraction, IsNatural, Spells;
  }

  lemma {:induction false} PointedReads(front: string, back: string, zeros: nat, digits: seq<nat>, all: seq<nat>)
    requires (front == "0" || IsNatural(front)) && IsFraction(back) && IsCoefficient(digits)
             && Spells(front + back, all)
    requires |all| == zeros + |digits| && all[zeros..] == digits && forall i | 0 <= i < zeros :: all[i] == 0
    ensures Reads(front + "." + back, digits, -|back|)
  {
    var u := front + "." + back;
    PointedParts(front, back);
    assert u[0] == front[0] && |u| > 1;
    hide ReadsAs;
    PointedReadsAs(front, back, zeros, digits, all, true);
    PointedReadsAs(front, back, zeros, digits, all, false);
    hide IsPointed, IsFraction, IsNatural, IsCoefficient, Spells;
  }

  lemma {:induction false} InsideReads(front: string, back: string, digits: seq<nat>)
    requires IsCoefficient(digits) && Spells(front + back, digits) && front != "" && back != ""
    ensures Reads(front + "." + back, digits, -|back|)
  {
    hide Reads;
    var text := front + back;
    assert forall i | 0 <= i < |front| :: front[i] == text[i];
    assert forall i | 0 <= i < |back| :: back[i] == text[|front| + i];
    PointedReads(front, back, 0, digits, digits);
  }

  lemma {:induction false} BelowReads(zeros: string, text: string, digits: seq<nat>)
    requires IsCoefficient(digits) && Spells(text, digits) && AllZeros(zeros)
    ensures Reads("0" + "." + (zeros + text), digits, -|zeros + text|)
  {
    hide Reads;
    var back, all := zeros + text, seq(|zeros| + 1, _ => 0) + digits;
    assert "0" + back == ("0" + zeros) + text;
    assert back[|back| - 1] == text[|text| - 1];
    PointedReads("0", back, |zeros| + 1, digits, all);
  }

  /** What the layout prints is a numeral, and parsing it gives back coefficient and exponent. */
  lemma {:induction false} LayoutReads(text: string, digits: seq<nat>, exponent: int)
    requires IsCoefficient(digits) && Spells(text, digits)
    ensures Reads(Layout(text, exponent), digits, exponent)
  {
    hide Reads, Spells, IsCoefficient;
    assert |text| == |digits| by { SpellsLength(text, digits); }
    var point := |text| + exponent;
    if exponent >= 0 {
      WholeReads(text, digits, Zeros(exponent));
    } else if point > 0 {
      assert text[..point] + text[point..] == text;
      InsideReads(text[..point], text[point..], digits);
    } else {
      var zeros := Zeros(-point);
      BelowReads(zeros, text, digits);
      assert "0." + zeros + text == "0" + "." + (zeros + text);
    }
  }

  lemma {:induction false} SpellsLength(text: string, digits: seq<nat>)
    requires Spells(text, digits)
    ensures |text| == |digits|
  {}

  lemma {:induction false} ShowSpells(digits: seq<nat>)
    requires AreDigits(digits)
    ensures Spells(Show(digits), digits)
  {}

  /** A numeral with its sign is canonical and parses to what it reads as. */
  lemma {:induction false} SignedParse(u: string, negative: bool, digits: seq<nat>, exponent: int)
    requires Reads(u, digits, exponent)
    ensures var s := (if negative then "-" else "") + u;
      && IsCanonical(s) && Parse(s) == Success(ParseUnsigned(u, negative)) && ReadsAs(u, negative, digits, exponent)
  {
    hide ReadsAs, IsNatural, IsPointed, ParseUnsigned;
    var s := (if negative then "-" else "") + u;
    assert Unsigned(s) == u && (s[0] == '-' <==> negative) && s != "0" by {
      assert negative ==> s[1..] == u && s[0] == '-';
      assert !negative ==> s == u;
    }
  }

  // ----- every numeral is printed -----

  /** Splits digits at their trailing zeros. */
  lemma {:induction false} TrailingZeros(s: string) returns (n: nat)
    requires IsNatural(s)
    ensures n < |s| && s[|s| - n - 1] != '0' && forall i | |s| - n <= i < |s| :: s[i] == '0'
  {
    if s[|s| - 1] != '0' {
      n := 0;
    } else {
      n := TrailingZeros(s[..|s| - 1]);
      n := n + 1;
    }
  }

  lemma {:induction false} LeadingZeros(s: string) returns (n: nat)
    requires IsFraction(s)
    ensures n < |s| && s[n] != '0' && forall i | 0 <= i < n :: s[i] == '0'
  {
    if s[0] != '0' {
      n := 0;
    } else {
      var m := LeadingZeros(s[1..]);
      assert forall i | 1 <= i <= m :: s[i] == s[1..][i - 1];
      n := m + 1;
    }
  }

  lemma {:induction false} ZerosAre(s: string)
    requires AllZeros(s)
    ensures Zeros(|s|) == s
  {
    assert forall i | 0 <= i < |s| :: Zeros(|s|)[i] == s[i];
  }

  lemma {:induction false} NaturalIsLaidOut(u: string) returns (digits: seq<nat>, exponent: int)
    requires IsNatural(u)
    ensures IsCoefficient(digits) && Layout(Show(digits), exponent) == u
  {
    var n := TrailingZeros(u);
    var text, zeros := u[..|u| - n], u[|u| - n..];
    digits, exponent := Read(text), n;
    ReadSpells(text);
    ShowSpelled(text, digits);
    ZerosAre(zeros);
  }

  /** Digit characters without a zero at either end are a coefficient and its text. */
  lemma {:induction false} CoefficientText(text: string)
    requires IsNatural(text) && IsFraction(text)
    ensures IsCoefficient(Read(text)) && Show(Read(text)) == text
  {
    ReadSpells(text);
    ShowSpelled(text, Read(text));
    hide Read, Show;
  }

  lemma {:induction false} SplitLayout(front: string, back: string)
    requires front != "" && back != ""
    ensures Layout(front + back, -|back|) == front + "." + back
  {
    var text := front + back;
    assert text[..|front|] == front && text[|front|..] == back;
  }

  lemma {:induction false} InsideIsLaidOut(front: string, back: string) returns (digits: seq<nat>, exponent: int)
    requires IsNatural(front) && IsFraction(back)
    ensures IsCoefficient(digits) && Layout(Show(digits), exponent) == front + "." + back
  {
    digits, exponent := Read(front + back), -|back|;
    CoefficientText(front + back);
    SplitLayout(front, back);
    hide Layout, IsCoefficient;
  }

  lemma {:induction false} BelowIsLaidOut(back: string) returns (digits: seq<nat>, exponent: int)
    requires IsFraction(back)
    ensures IsCoefficient(digits) && Layout(Show(digits), exponent) == "0" + "." + back
  {
    var n := LeadingZeros(back);
    var zeros, text := back[..n], back[n..];
    digits, exponent := Read(text), -|back|;
    ReadSpells(text);
    ShowSpelled(text, digits);
    ZerosAre(zeros);
    assert "0." + zeros + text == "0" + "." + back;
  }

  lemma {:induction false} NumeralIsLaidOut(u: string) returns (digits: seq<nat>, exponent: int)
    requires IsNatural(u) || IsPointed(u)
    ensures IsCoefficient(digits) && Layout(Show(digits), exponent) == u
  {
    hide IsCoefficient, Layout;
    if IsNatural(u) {
      digits, exponent := NaturalIsLaidOut(u);
    } else {
      var p := Point(u);
      assert u == u[..p] + "." + u[p + 1..];
      if u[..p] == "0" {
        digits, exponent := BelowIsLaidOut(u[p + 1..]);
      } else {
        digits, exponent := InsideIsLaidOut(u[..p], u[p + 1..]);
      }
    }
  }

  // ----- main results -----

  /** Printing shows the normal form. */
  lemma {:induction false} PrintsNormal(d: Decimal)
    requires IsDecimal(d) && d.Finite?
    ensures var n := Normal(d);
      && (IsZero(d.digits) <==> n == Finite(false, [0], 0))
      && (IsZero(d.digits) ==> Canonical(d) == Success("0"))
      && (!IsZero(d.digits) ==>
            && IsCoefficient(n.digits) && n.negative == d.negative
            && Canonical(d) == Success((if n.negative then "-" else "") + Layout(Show(n.digits), n.exponent)))
  {
    TrimKeepsDigits(d.digits, d.exponent);
  }

  lemma {:induction false} ZeroNumeral()
    ensures Parse("0") == Success(Finite(false, [0], 0))
  {
    assert Point("0") == 1 && Unsigned("0") == "0";
    assert Read("0") == [0];
  }

  /** Every finite decimal prints as a canonical numeral; other values are refused. Parsing the numeral
      gives a decimal with the same normal form. */
  lemma {:induction false} ParsePrinted(d: Decimal)
    requires IsDecimal(d)
    ensures Canonical(d).Success? <==> d.Finite?
    ensures d.Finite? ==> IsCanonical(Canonical(d).value) && Parse(Canonical(d).value).Success?
    ensures d.Finite? ==> var p := Parse(Canonical(d).value).value; IsDecimal(p) && p.Finite? && Normal(p) == Normal(d)
  {
    if d.Finite? {
      PrintsNormal(d);
      ZeroNumeral();
      hide Normal, IsCanonical, Parse, Reads, Spells, Layout;
      if !IsZero(d.digits) {
        var n := Normal(d);
        ShowSpells(n.digits);
        LayoutReads(Show(n.digits), n.digits, n.exponent);
        SignedParse(Layout(Show(n.digits), n.exponent), n.negative, n.digits, n.exponent);
        hide Canonical, ParseUnsigned, IsPointed, IsNatural, IsCoefficient, Unsigned, IsZero;
      }
    }
  }

  /** Parsing what was printed gives the same number. */
  lemma {:induction false} RoundTripNumber(d: Decimal)
    requires IsDecimal(d) && d.Finite?
    ensures Canonical(d).Success? && Parse(Canonical(d).value).Success?
    ensures var p := Parse(Canonical(d).value).value; p.Finite? && Number(p) == Number(d)
  {
    ParsePrinted(d);
    NormalKeepsNumber(d);
    NormalKeepsNumber(Parse(Canonical(d).value).value);
  }

  /** Two finite decimals print alike exactly when they are the same number. */
  lemma {:induction false} PrintsAlikeExactly(a: Decimal, b: Decimal)
    requires IsDecimal(a) && a.Finite? && IsDecimal(b) && b.Finite?
    ensures Canonical(a) == Canonical(b) <==> Number(a) == Number(b)
  {
    RoundTripNumber(a);
    RoundTripNumber(b);
    NormalKeepsNumber(a);
    NormalKeepsNumber(b);
    PrintsNormal(a);
    PrintsNormal(b);
    hide Canonical, Normal, Parse, Number, IsCoefficient;
    if Number(a) == Number(b) {
      SameNumberSameNormal(Normal(a), Normal(b));
    }
  }

  /** Printing the parse of any canonical numeral gives that numeral back. */
  lemma {:induction false} RoundTripText(s: string)
    requires IsCanonical(s)
    ensures Parse(s).Success? && IsDecimal(Parse(s).value) && Canonical(Parse(s).value) == Success(s)
  {
    if s == "0" {
      ZeroNumeral();
    } else {
      var u, negative := Unsigned(s), s != "" && s[0] == '-';
      assert s == (if negative then "-" else "") + u;
      var digits, exponent := NumeralIsLaidOut(u);
      ShowSpells(digits);
      LayoutReads(Show(digits), digits, exponent);
      SignedParse(u, negative, digits, exponent);
      hide Canonical, ParseUnsigned, IsPointed, IsNatural, Layout, IsCanonical, Parse, Reads, Spells, Unsigned, Normal;
      PrintsNormal(ParseUnsigned(u, negative));
    }
  }
}
