/** Number parsing and printing as the source uses them: `parseFloat` /
    `parseInt` on form inputs and the decimal text React prints for a count. */
module Numbers {
  import opened Common
  import opened Text

  predicate IsDigit(c: char) {
    '0' <= c <= '9'
  }

  /** The longest prefix of `s` made of decimal digits. */
  function DigitPrefix(s: string): (ds: string)
    ensures ds <= s
    ensures forall i :: 0 <= i < |ds| ==> IsDigit(ds[i])
    ensures |ds| < |s| ==> !IsDigit(s[|ds|])
  {
    if s != [] && IsDigit(s[0]) then [s[0]] + DigitPrefix(s[1..]) else []
  }

  /** The value of a string of decimal digits, most significant first. */
  function DigitsValue(ds: string): nat
    requires forall i :: 0 <= i < |ds| ==> IsDigit(ds[i])
    decreases |ds|
  {
    if ds == [] then 0
    else
      var last := ds[|ds| - 1];
      assert IsDigit(last);
      DigitsValue(ds[..|ds| - 1]) * 10 + (last as int - '0' as int)
  }

  /** `parseInt(s)` in base 10: leading white space is skipped, one
      optional sign is read, then the longest run of digits; `None` stands
      for `NaN` (no digit at all). */
  function ParseLeadingInt(s: string): Option<int> {
    ParseSigned(TrimStart(s))
  }

  /** An optional sign followed by the leading run of digits. */
  function ParseSigned(t: string): Option<int> {
    if t != [] && (t[0] == '-' || t[0] == '+') then
      var magnitude := ParseDigits(t[1..]);
      if magnitude.None? then None
      else if t[0] == '-' then Some(-(magnitude.value as int))
      else Some(magnitude.value as int)
    else
      var magnitude := ParseDigits(t);
      if magnitude.None? then None else Some(magnitude.value as int)
  }

  /** The value of the leading run of digits, `None` when there is none. */
  function ParseDigits(s: string): (r: Option<nat>)
    ensures r.Some? <==> s != [] && IsDigit(s[0])
  {
    var ds := DigitPrefix(s);
    if ds == [] then None else Some(DigitsValue(ds))
  }

  function DigitChar(d: nat): (c: char)
    requires d < 10
    ensures IsDigit(c) && c as int - '0' as int == d
  {
    ('0' as int + d) as char
  }

  /** The decimal text of a natural number, without leading zeros. */
  function NatToString(n: nat): (s: string)
    ensures s != [] && forall i :: 0 <= i < |s| ==> IsDigit(s[i])
    decreases n
  {
    if n < 10 then [DigitChar(n)] else NatToString(n / 10) + [DigitChar(n % 10)]
  }

  /** `String(n)` for an integer. */
  function IntToString(n: int): string {
    if n < 0 then ['-'] + NatToString(-n) else NatToString(n)
  }

  lemma {:induction false} NatToStringValue(n: nat)
    ensures DigitsValue(NatToString(n)) == n
    decreases n
  {
    if n >= 10 {
      NatToStringValue(n / 10);
      var s := NatToString(n);
      assert s[..|s| - 1] == NatToString(n / 10);
    }
  }

  /** Printing a number and parsing the text back gives the number: the
      decimal text the badge shows reads as the count it stands for. */
  lemma {:induction false} ParsePrinted(n: int)
    ensures ParseLeadingInt(IntToString(n)) == Some(n)
  {
    ParsePrintedFollowed(n, []);
    assert IntToString(n) + [] == IntToString(n);
  }

  /** The same when other text follows the number, as long as it does not
      start with a digit: parsing stops where the digits stop. */
  lemma {:induction false} ParsePrintedFollowed(n: int, rest: string)
    requires rest == [] || !IsDigit(rest[0])
    ensures ParseLeadingInt(IntToString(n) + rest) == Some(n)
  {
    if n < 0 {
      ParseNegativePrinted(n, rest);
    } else {
      ParseNaturalPrinted(n, rest);
    }
  }

  lemma {:induction false} ParseNaturalPrinted(m: nat, rest: string)
    requires rest == [] || !IsDigit(rest[0])
    ensures ParseLeadingInt(NatToString(m) + rest) == Some(m)
  {
    DigitsOfPrinted(m, rest);
    ParseUnsigned(NatToString(m) + rest, m);
  }

  lemma {:induction false} ParseNegativePrinted(n: int, rest: string)
    requires n < 0
    requires rest == [] || !IsDigit(rest[0])
    ensures ParseLeadingInt(IntToString(n) + rest) == Some(n)
  {
    var m: nat := -n;
    var printed := NatToString(m);
    var digits := printed + rest;
    assert IntToString(n) + rest == ['-'] + digits by {
      assert IntToString(n) == ['-'] + printed;
    }
    assert ParseDigits(digits) == Some(m) by {
      DigitsOfPrinted(m, rest);
    }
    ParseNegative(digits, m);
  }

  /** The digits of `NatToString(m)` read back as `m`. */
  lemma {:induction false} DigitsOfPrinted(m: nat, rest: string)
    requires rest == [] || !IsDigit(rest[0])
    ensures ParseDigits(NatToString(m) + rest) == Some(m)
  {
    var digits := NatToString(m);
    DigitPrefixStops(digits, rest);
    NatToStringValue(m);
  }

  lemma {:induction false} DigitPrefixStops(ds: string, rest: string)
    requires forall i :: 0 <= i < |ds| ==> IsDigit(ds[i])
    requires rest == [] || !IsDigit(rest[0])
    ensures DigitPrefix(ds + rest) == ds
    decreases |ds|
  {
    if ds == [] {
      assert ds + rest == rest;
    } else {
      assert (ds + rest)[1..] == ds[1..] + rest;
      DigitPrefixStops(ds[1..], rest);
    }
  }

  lemma {:induction false} ParseUnsigned(digits: string, v: nat)
    requires ParseDigits(digits) == Some(v)
    ensures ParseLeadingInt(digits) == Some(v as int)
  {
    assert TrimStart(digits) == digits by {
      assert IsDigit(digits[0]) && !IsWhitespace(digits[0]);
    }
    ParseTrimmed(digits);
  }

  lemma {:induction false} ParseNegative(digits: string, v: nat)
    requires ParseDigits(digits) == Some(v)
    ensures ParseLeadingInt(['-'] + digits) == Some(-(v as int))
  {
    var s := ['-'] + digits;
    assert s[1..] == digits;
    assert TrimStart(s) == s by {
      assert s[0] == '-' && !IsWhitespace(s[0]);
    }
    ParseTrimmed(s);
  }

  lemma {:induction false} ParseTrimmed(t: string)
    requires TrimStart(t) == t
    ensures ParseLeadingInt(t) == ParseSigned(t)
  {
  }

  // ----- parseFloat -----

  function Pow10(k: nat): (p: nat)
    ensures p >= 1
  {
    if k == 0 then 1 else 10 * Pow10(k - 1)
  }

  /** `m` times ten to the power `e`. */
  function Scale(m: real, e: int): (r: real)
    ensures m >= 0.0 ==> r >= 0.0
    decreases if e >= 0 then e else -e
  {
    if e == 0 then m
    else if e > 0 then Scale(m, e - 1) * 10.0
    else Scale(m, e + 1) / 10.0
  }

  /** `n` divided by ten to the power `k`: the value of `k` digits after
      the point that spell `n`. */
  function Fraction(n: nat, k: nat): (r: real)
    ensures r >= 0.0
  {
    if k == 0 then n as real else Fraction(n, k - 1) / 10.0
  }

  /** Scaling by a non-negative exponent multiplies by that power of ten. */
  lemma {:induction false} ScaleUp(m: real, e: nat)
    ensures Scale(m, e) == m * Pow10(e) as real
  {
    if e > 0 {
      ScaleUp(m, e - 1);
      assert (Pow10(e) as real) == (Pow10(e - 1) as real) * 10.0;
    }
  }

  /** The fraction is the number over that power of ten. */
  lemma {:induction false} FractionQuotient(n: nat, k: nat)
    ensures Fraction(n, k) == n as real / Pow10(k) as real
  {
    if k > 0 {
      FractionQuotient(n, k - 1);
      assert (Pow10(k) as real) == (Pow10(k - 1) as real) * 10.0;
    }
  }

  /** `parseFloat(s)` on decimal text, with exact values: leading white
      space is skipped, one optional sign is read, then the longest prefix
      that reads as an unsigned decimal; `None` stands for `NaN`. */
  function ParseFloat(s: string): Option<real> {
    var t := TrimStart(s);
    if t != [] && (t[0] == '-' || t[0] == '+') then
      var magnitude := ParseDecimal(t[1..]);
      if magnitude.None? then None
      else if t[0] == '-' then Some(-magnitude.value)
      else magnitude
    else ParseDecimal(t)
  }

  /** The parts of a decimal literal: the whole part, the fraction's
      digits read as a number and how many there were, and the exponent. */
  datatype Decimal = Decimal(whole: nat, fraction: nat, places: nat, exponent: int)

  /** The exact value the literal spells. */
  function Value(d: Decimal): (r: real)
    ensures r >= 0.0
  {
    Scale(d.whole as real + Fraction(d.fraction, d.places), d.exponent)
  }

  function ParseDecimal(t: string): (r: Option<real>)
    ensures r.Some? <==> (t != [] && IsDigit(t[0])) || (|t| >= 2 && t[0] == '.' && IsDigit(t[1]))
    ensures r.Some? ==> r.value >= 0.0
  {
    var d := ReadDecimal(t);
    if d.None? then None else Some(Value(d.value))
  }

  /** The longest prefix of `t` of the form `digits [. digits] [e exponent]`,
      with digits on at least one side of the point (`"5."` and `".5"` both
      read). An `e` without digits after it ends the number before the `e`. */
  function ReadDecimal(t: string): (r: Option<Decimal>)
    ensures r.Some? <==> (t != [] && IsDigit(t[0])) || (|t| >= 2 && t[0] == '.' && IsDigit(t[1]))
  {
    var whole := DigitPrefix(t);
    var afterWhole := t[|whole|..];
    var hasPoint := afterWhole != [] && afterWhole[0] == '.';
    var fraction := if hasPoint then DigitPrefix(afterWhole[1..]) else [];
    var afterFraction := if hasPoint then afterWhole[1 + |fraction|..] else afterWhole;
    if whole == [] && fraction == [] then None
    else Some(Decimal(DigitsValue(whole), DigitsValue(fraction), |fraction|, ExponentOf(afterFraction)))
  }

  /** The exponent that starts `t`: `e` or `E`, an optional sign and at
      least one digit; 0 when there is none. */
  function ExponentOf(t: string): int {
    if t != [] && (t[0] == 'e' || t[0] == 'E') then
      var u := t[1..];
      var signed := u != [] && (u[0] == '-' || u[0] == '+');
      var ds := DigitPrefix(if signed then u[1..] else u);
      if ds == [] then 0
      else if signed && u[0] == '-' then -(DigitsValue(ds) as int)
      else DigitsValue(ds)
    else 0
  }

  /** An empty bound is `NaN`. */
  lemma ParseFloatEmpty()
    ensures ParseFloat([]) == None
  {
  }

  /** A printed integer reads back through `parseFloat` as the same number. */
  lemma {:induction false} ParseFloatPrinted(n: int)
    ensures ParseFloat(IntToString(n)) == Some(n as real)
  {
    var m: nat := if n < 0 then -n else n;
    var printed := NatToString(m);
    assert DigitsValue(printed) == m by {
      NatToStringValue(m);
    }
    if n < 0 {
      ParseFloatNegatedDigits(printed);
    } else {
      ParseFloatDigits(printed);
    }
  }

  /** A run of digits alone reads as the whole number it spells. */
  lemma {:induction false} ParseFloatDigits(ds: string)
    requires ds != [] && forall i :: 0 <= i < |ds| ==> IsDigit(ds[i])
    ensures ParseFloat(ds) == Some(DigitsValue(ds) as real)
  {
    var d := Decimal(DigitsValue(ds), 0, 0, 0);
    assert ReadDecimal(ds) == Some(d) by {
      ReadDecimalDigits(ds);
    }
    assert Value(d) == DigitsValue(ds) as real by {
      WholeValue(d);
    }
    ParseFloatNoSign(ds, d, DigitsValue(ds) as real);
  }

  /** A minus sign before a run of digits negates it. */
  lemma {:induction false} ParseFloatNegatedDigits(ds: string)
    requires ds != [] && forall i :: 0 <= i < |ds| ==> IsDigit(ds[i])
    ensures ParseFloat(['-'] + ds) == Some(-(DigitsValue(ds) as real))
  {
    var d := Decimal(DigitsValue(ds), 0, 0, 0);
    assert ReadDecimal(ds) == Some(d) by {
      ReadDecimalDigits(ds);
    }
    assert Value(d) == DigitsValue(ds) as real by {
      WholeValue(d);
    }
    var s := ['-'] + ds;
    assert s[1..] == ds;
    assert TrimStart(s) == s by {
      assert s[0] == '-' && !IsWhitespace(s[0]);
    }
  }

  lemma {:induction false} ReadDecimalDigits(ds: string)
    requires ds != [] && forall i :: 0 <= i < |ds| ==> IsDigit(ds[i])
    ensures ReadDecimal(ds) == Some(Decimal(DigitsValue(ds), 0, 0, 0))
  {
    DigitPrefixStops(ds, []);
    assert ds + [] == ds;
    assert ds[|ds|..] == [];
  }

  /** Digits, a point and digits read as the exact decimal they spell:
      `parseFloat("10.5")` is ten and a half where `parseInt` stops at the
      point, and `parseFloat(".5")` is a half. */
  lemma {:induction false} ParseFloatFraction(w: string, f: string)
    requires forall i :: 0 <= i < |w| ==> IsDigit(w[i])
    requires forall i :: 0 <= i < |f| ==> IsDigit(f[i])
    requires w != [] || f != []
    ensures ParseFloat(w + "." + f) == Some(Value(Decimal(DigitsValue(w), DigitsValue(f), |f|, 0)))
  {
    var s := w + "." + f;
    var d := Decimal(DigitsValue(w), DigitsValue(f), |f|, 0);
    assert ReadDecimal(s) == Some(d) by {
      ReadDecimalPointed(w, f);
    }
    assert IsDigit(s[0]) || s[0] == '.' by {
      assert s[0] == if w == [] then '.' else w[0];
    }
    ParseFloatNoSign(s, d, Value(d));
  }

  /** Text that starts with a point has no integer reading: `parseInt(".5")`
      is `NaN`. */
  lemma {:induction false} PointNotInteger(s: string)
    requires s != [] && s[0] == '.'
    ensures ParseLeadingInt(s) == None
  {
    assert TrimStart(s) == s by {
      assert !IsWhitespace(s[0]);
    }
  }

  lemma {:induction false} ReadDecimalPointed(w: string, f: string)
    requires forall i :: 0 <= i < |w| ==> IsDigit(w[i])
    requires forall i :: 0 <= i < |f| ==> IsDigit(f[i])
    requires w != [] || f != []
    ensures ReadDecimal(w + "." + f) == Some(Decimal(DigitsValue(w), DigitsValue(f), |f|, 0))
  {
    var t := w + "." + f;
    assert t == w + ("." + f);
    DigitPrefixStops(w, "." + f);
    DigitPrefixStops(f, []);
    assert f + [] == f;
    var afterWhole := t[|w|..];
    assert afterWhole == "." + f;
    assert afterWhole[1..] == f;
    assert afterWhole[1 + |f|..] == [];
  }

  /** Digits with a positive exponent read as that power of ten times the
      number: `parseFloat("1e3")` is a thousand. */
  lemma {:induction false} ParseFloatExponent(w: string, e: string)
    requires w != [] && forall i :: 0 <= i < |w| ==> IsDigit(w[i])
    requires e != [] && forall i :: 0 <= i < |e| ==> IsDigit(e[i])
    ensures ParseFloat(w + "e" + e) == Some(Scale(DigitsValue(w) as real, DigitsValue(e)))
  {
    var s := w + "e" + e;
    var d := Decimal(DigitsValue(w), 0, 0, DigitsValue(e));
    assert ReadDecimal(s) == Some(d) by {
      ReadDecimalExponent(w, e);
    }
    assert Value(d) == Scale(DigitsValue(w) as real, DigitsValue(e)) by {
      WholeValue(d);
    }
    assert IsDigit(s[0]) by {
      assert s[0] == w[0];
    }
    ParseFloatNoSign(s, d, Scale(DigitsValue(w) as real, DigitsValue(e)));
  }

  lemma {:induction false} ReadDecimalExponent(w: string, e: string)
    requires w != [] && forall i :: 0 <= i < |w| ==> IsDigit(w[i])
    requires e != [] && forall i :: 0 <= i < |e| ==> IsDigit(e[i])
    ensures ReadDecimal(w + "e" + e) == Some(Decimal(DigitsValue(w), 0, 0, DigitsValue(e)))
  {
    var t := w + "e" + e;
    assert t == w + ("e" + e);
    DigitPrefixStops(w, "e" + e);
    DigitPrefixStops(e, []);
    assert e + [] == e;
    var afterWhole := t[|w|..];
    assert afterWhole == "e" + e;
    assert afterWhole[1..] == e;
    assert !(e[0] == '-' || e[0] == '+');
    assert ExponentOf(afterWhole) == DigitsValue(e);
    assert !(afterWhole != [] && afterWhole[0] == '.');
  }

  /** Text that starts with neither white space nor a sign reads as the
      value of the decimal it starts with. */
  lemma {:induction false} ParseFloatNoSign(s: string, d: Decimal, x: real)
    requires s != [] && (IsDigit(s[0]) || s[0] == '.')
    requires ReadDecimal(s) == Some(d) && Value(d) == x
    ensures ParseFloat(s) == Some(x)
  {
    assert TrimStart(s) == s by {
      assert !IsWhitespace(s[0]);
    }
  }

  /** Without an exponent, the value is the whole part plus the fraction. */
  lemma {:induction false} PointedValue(d: Decimal)
    requires d.exponent == 0
    ensures Value(d) == d.whole as real + Fraction(d.fraction, d.places)
  {
  }

  /** Without a fraction, the value is the whole part scaled by the exponent. */
  lemma {:induction false} WholeValue(d: Decimal)
    requires d.fraction == 0 && d.places == 0
    ensures Value(d) == Scale(d.whole as real, d.exponent)
  {
    assert Fraction(0, 0) == 0.0;
  }
}
