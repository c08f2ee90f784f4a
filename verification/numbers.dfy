/**
 * JavaScript's `parseFloat`, as far as the interpreter depends on it: it
 * reads the longest prefix of its (left-trimmed) argument that is a decimal
 * literal, and yields NaN when there is none. A number is kept as the
 * literal it was read from; the IEEE-754 value and JavaScript's canonical
 * number-to-string conversion are not part of this model.
 */
module Numbers {
  import opened Wrappers
  import opened Text

  datatype Sign = Unsigned | Plus | Minus

  /** `e` or `E`, an optional sign and at least one digit. */
  datatype Exponent = Exponent(marker: char, sign: Sign, digits: string)

  /** The StrDecimalLiteral grammar of ECMAScript. */
  datatype Literal =
    | Infinity(sign: Sign)
    | Decimal(sign: Sign, whole: string, fraction: Option<string>, exponent: Option<Exponent>)

  /** A JavaScript number as the interpreter can produce it. */
  datatype JsNumber = NaN | Num(literal: Literal)

  predicate IsDigit(c: char) {
    '0' <= c <= '9'
  }

  predicate AllDigits(s: string) {
    forall i :: 0 <= i < |s| ==> IsDigit(s[i])
  }

  predicate WellFormedExponent(e: Exponent) {
    (e.marker == 'e' || e.marker == 'E') && |e.digits| > 0 && AllDigits(e.digits)
  }

  /** Digits only, and at least one digit before or after the point. */
  predicate WellFormed(lit: Literal) {
    match lit
    case Infinity(_) => true
    case Decimal(_, whole, fraction, exponent) =>
      && AllDigits(whole)
      && (fraction.Some? ==> AllDigits(fraction.value))
      && (|whole| > 0 || (fraction.Some? && |fraction.value| > 0))
      && (exponent.Some? ==> WellFormedExponent(exponent.value))
  }

  function SignText(sign: Sign): string {
    match sign
    case Unsigned => ""
    case Plus => "+"
    case Minus => "-"
  }

  function RenderExponent(e: Option<Exponent>): string {
    match e
    case None => ""
    case Some(Exponent(marker, sign, digits)) => [marker] + SignText(sign) + digits
  }

  /** The text of a literal after its sign. */
  function Body(lit: Literal): string {
    match lit
    case Infinity(_) => "Infinity"
    case Decimal(_, whole, fraction, exponent) =>
      whole + RenderFraction(fraction) + RenderExponent(exponent)
  }

  function RenderFraction(fraction: Option<string>): string {
    if fraction.Some? then "." + fraction.value else ""
  }

  /** The text of a literal. */
  function Render(lit: Literal): string {
    SignText(lit.sign) + Body(lit)
  }

  /** The maximal run of digits that `s` starts with. */
  function DigitRun(s: string): (d: string)
    ensures StartsWith(s, d) && AllDigits(d)
    ensures |d| == |s| || !IsDigit(s[|d|])
  {
    if |s| > 0 && IsDigit(s[0]) then
      var d := DigitRun(s[1..]);
      assert s[..1 + |d|] == [s[0]] + s[1..][..|d|];
      [s[0]] + d
    else ""
  }

  /** An optional leading sign, and what follows it. */
  function ParseSign(s: string): (r: (Sign, string))
    ensures s == SignText(r.0) + r.1
  {
    if |s| > 0 && s[0] == '+' then (Plus, s[1..])
    else if |s| > 0 && s[0] == '-' then (Minus, s[1..])
    else (Unsigned, s)
  }

  /** An exponent at the start of `s`, if a complete one is there. */
  function ParseExponent(s: string): (e: Option<Exponent>)
    ensures e.Some? ==> WellFormedExponent(e.value) && StartsWith(s, RenderExponent(e))
  {
    if |s| > 0 && (s[0] == 'e' || s[0] == 'E') then
      var signed := ParseSign(s[1..]);
      var digits := DigitRun(signed.1);
      if |digits| > 0 then
        assert s == [s[0]] + SignText(signed.0) + signed.1;
        Some(Exponent(s[0], signed.0, digits))
      else None
    else None
  }

  /** A point and the digits after it, if `s` starts with a point. */
  function ParseFraction(s: string): (r: (Option<string>, string))
    ensures r.0.Some? ==> AllDigits(r.0.value)
    ensures s == RenderFraction(r.0) + r.1
  {
    if |s| > 0 && s[0] == '.' then
      var digits := DigitRun(s[1..]);
      assert s[1..] == digits + s[1 + |digits|..];
      (Some(digits), s[1 + |digits|..])
    else (None, s)
  }

  /** The literal that follows a sign at the start of `t`, if there is one. */
  function ParseBody(sign: Sign, t: string): (r: Option<Literal>)
    ensures r.Some? ==> r.value.sign == sign && WellFormed(r.value) && StartsWith(t, Body(r.value))
  {
    if StartsWith(t, "Infinity") then Some(Infinity(sign)) else ParseDecimal(sign, t)
  }

  /** Digits, an optional point with digits, an optional exponent; at least one digit in all. */
  function ParseDecimal(sign: Sign, t: string): (r: Option<Literal>)
    ensures r.Some? ==> r.value.Decimal? && r.value.sign == sign && WellFormed(r.value)
    ensures r.Some? ==> StartsWith(t, Body(r.value))
  {
    var whole := DigitRun(t);
    var split := ParseFraction(t[|whole|..]);
    var fraction := split.0;
    if |whole| == 0 && (fraction.None? || |fraction.value| == 0) then None
    else
      var exponent := ParseExponent(split.1);
      DecimalPrefix(t, whole, RenderFraction(fraction), split.1, RenderExponent(exponent));
      Some(Decimal(sign, whole, fraction, exponent))
  }

  lemma DecimalPrefix(t: string, whole: string, point: string, rest: string, exp: string)
    requires StartsWith(t, whole) && t[|whole|..] == point + rest
    requires StartsWith(rest, exp)
    ensures StartsWith(t, whole + point + exp)
  {
    assert t == whole + (point + rest);
    StartsWithConcat(point, rest, exp);
    StartsWithConcat(whole, point + rest, point + exp);
    assert whole + point + exp == whole + (point + exp);
  }

  /**
   * The longest prefix of `s` that is a decimal literal: a sign, then
   * `Infinity` or digits with an optional point and fraction, then an
   * optional exponent that is taken only when it is complete.
   */
  function ParsePrefix(s: string): (r: Option<Literal>)
    ensures r.Some? ==> WellFormed(r.value) && StartsWith(s, Render(r.value))
  {
    var signed := ParseSign(s);
    var r := ParseBody(signed.0, signed.1);
    if r.Some? then
      StartsWithConcat(SignText(signed.0), signed.1, Body(r.value));
      r
    else r
  }

  /** `parseFloat(s)`: leading whitespace is skipped, then the longest literal is read. */
  function ParseFloat(s: string): (n: JsNumber)
    ensures n.Num? ==> WellFormed(n.literal)
  {
    match ParsePrefix(TrimStart(s))
    case None => NaN
    case Some(lit) => Num(lit)
  }

  /** `String(n)`, with the number kept as the literal it was read from. */
  function FormatNumber(n: JsNumber): string {
    match n
    case NaN => "NaN"
    case Num(lit) => Render(lit)
  }

  lemma DigitRunOf(d: string, rest: string)
    requires AllDigits(d)
    requires rest == [] || !IsDigit(rest[0])
    ensures DigitRun(d + rest) == d
  {
    if |d| > 0 {
      assert (d + rest)[1..] == d[1..] + rest;
      DigitRunOf(d[1..], rest);
    } else {
      assert d + rest == rest;
    }
  }

  lemma ParseSignOf(sign: Sign, rest: string)
    requires rest == [] || (rest[0] != '+' && rest[0] != '-')
    ensures ParseSign(SignText(sign) + rest) == (sign, rest)
  {
    if sign == Unsigned {
      assert SignText(sign) + rest == rest;
    } else {
      assert (SignText(sign) + rest)[1..] == rest;
    }
  }

  lemma ParseExponentOf(e: Option<Exponent>)
    requires e.Some? ==> WellFormedExponent(e.value)
    ensures ParseExponent(RenderExponent(e)) == e
  {
    if e.Some? {
      var Exponent(marker, sign, digits) := e.value;
      var s := RenderExponent(e);
      assert s[1..] == SignText(sign) + digits;
      ParseSignOf(sign, digits);
      DigitRunOf(digits, []);
      assert digits + [] == digits;
    }
  }

  lemma ParseFractionOf(fraction: Option<string>, rest: string)
    requires fraction.Some? ==> AllDigits(fraction.value)
    requires rest == [] || rest[0] == 'e' || rest[0] == 'E'
    ensures ParseFraction(RenderFraction(fraction) + rest) == (fraction, rest)
  {
    if fraction.Some? {
      var s := RenderFraction(fraction) + rest;
      assert s[1..] == fraction.value + rest;
      DigitRunOf(fraction.value, rest);
    } else {
      assert RenderFraction(fraction) + rest == rest;
    }
  }

  lemma ParseBodyOf(lit: Literal)
    requires WellFormed(lit) && lit.Decimal?
    ensures ParseBody(lit.sign, Body(lit)) == Some(lit)
  {
    var t := Body(lit);
    assert !StartsWith(t, "Infinity") by {
      assert t[0] != 'I';
    }
    ParseDecimalOf(lit.sign, lit.whole, lit.fraction, lit.exponent);
  }

  /** The digits, fraction and exponent of a decimal literal are read back as they were. */
  lemma ParseDecimalOf(sign: Sign, whole: string, fraction: Option<string>, exponent: Option<Exponent>)
    requires WellFormed(Decimal(sign, whole, fraction, exponent))
    ensures ParseDecimal(sign, whole + RenderFraction(fraction) + RenderExponent(exponent)) ==
      Some(Decimal(sign, whole, fraction, exponent))
  {
    var point := RenderFraction(fraction);
    var exp := RenderExponent(exponent);
    var t := whole + point + exp;
    assert t == whole + (point + exp);
    TailStart(fraction, exponent);
    DigitRunOf(whole, point + exp);
    assert t[|whole|..] == point + exp;
    ParseFractionOf(fraction, exp);
    ParseExponentOf(exponent);
  }

  /** What follows the digits of a literal starts with a point, an exponent marker, or nothing. */
  lemma TailStart(fraction: Option<string>, exponent: Option<Exponent>)
    requires exponent.Some? ==> WellFormedExponent(exponent.value)
    ensures var exp := RenderExponent(exponent);
      && (exp == [] || exp[0] == 'e' || exp[0] == 'E')
      && (RenderFraction(fraction) + exp == [] || !IsDigit((RenderFraction(fraction) + exp)[0]))
  {
  }

  /** Every well-formed literal is read back whole: `ParsePrefix` inverts `Render`. */
  lemma RenderParse(lit: Literal)
    requires WellFormed(lit)
    ensures ParsePrefix(Render(lit)) == Some(lit)
  {
    var t := Body(lit);
    assert t[0] != '+' && t[0] != '-';
    ParseSignOf(lit.sign, t);
    if lit.Decimal? {
      ParseBodyOf(lit);
    }
  }

  /** `parseFloat` reads every well-formed literal back whole. */
  lemma ParseFloatRender(lit: Literal)
    requires WellFormed(lit)
    ensures ParseFloat(Render(lit)) == Num(lit)
  {
    var v := Render(lit);
    RenderStart(lit);
    assert !IsWhitespace(v[0]) by {
      var c := v[0];
      assert c == '+' || c == '-' || c == '.' || c == 'I' || IsDigit(c);
    }
    assert TrimStart(v) == v;
    RenderParse(lit);
  }

  /** A literal starts with a sign, a digit, a point or `Infinity`. */
  lemma RenderStart(lit: Literal)
    requires WellFormed(lit)
    ensures |Render(lit)| > 0
    ensures var c := Render(lit)[0]; c == '+' || c == '-' || c == '.' || c == 'I' || IsDigit(c)
  {
  }

  /** Text that starts with a double quote is not a number. */
  lemma QuotedIsNaN(s: string)
    requires |s| > 0 && s[0] == '"'
    ensures ParseFloat(s) == NaN
  {
    assert TrimStart(s) == s;
    assert ParseSign(s) == (Unsigned, s);
    assert !StartsWith(s, "Infinity") by {
      assert s[0] != "Infinity"[0];
    }
    assert DigitRun(s) == "";
    assert ParseFraction(s[0..]) == (None, s) by {
      assert s[0..] == s;
    }
    assert ParseDecimal(Unsigned, s) == None;
    assert ParsePrefix(s) == None;
  }

  /**
   * `ParsePrefix` reads the longest literal that `s` starts with: it fails
   * exactly when no literal starts `s`, and every other literal that starts
   * `s` is strictly shorter than the one it reads.
   */
  lemma ParsePrefixLongest(s: string)
    ensures ParsePrefix(s).None? <==> forall lit :: WellFormed(lit) ==> !StartsWith(s, Render(lit))
    ensures ParsePrefix(s).Some? ==> forall lit :: WellFormed(lit) && StartsWith(s, Render(lit)) ==>
      lit == ParsePrefix(s).value || |Render(lit)| < |Render(ParsePrefix(s).value)|
  {
    forall lit | WellFormed(lit) && StartsWith(s, Render(lit))
      ensures ParsePrefix(s).Some?
      ensures lit == ParsePrefix(s).value || |Render(lit)| < |Render(ParsePrefix(s).value)|
    {
      PrefixCovered(s, lit);
      var r := ParsePrefix(s).value;
      if |Render(lit)| == |Render(r)| {
        assert Render(lit) == s[..|Render(r)|] == Render(r);
        RenderParse(lit);
        RenderParse(r);
      }
    }
  }

  /** `parseFloat` is NaN exactly when no literal follows the leading whitespace, and otherwise reads the longest one. */
  lemma ParseFloatLongest(s: string)
    ensures ParseFloat(s) == NaN <==> forall lit :: WellFormed(lit) ==> !StartsWith(TrimStart(s), Render(lit))
    ensures ParseFloat(s).Num? ==> forall lit :: WellFormed(lit) && StartsWith(TrimStart(s), Render(lit)) ==>
      lit == ParseFloat(s).literal || |Render(lit)| < |Render(ParseFloat(s).literal)|
  {
    ParsePrefixLongest(TrimStart(s));
  }

  /** A literal that starts `s` is no longer than what `ParsePrefix` reads. */
  lemma PrefixCovered(s: string, lit: Literal)
    requires WellFormed(lit) && StartsWith(s, Render(lit))
    ensures ParsePrefix(s).Some?
    ensures |Render(ParsePrefix(s).value)| >= |Render(lit)|
  {
    RenderStart(lit);
    ParseSignPrefix(s, lit.sign, Body(lit));
    var signed := ParseSign(s);
    BodyCovered(signed.0, signed.1, lit);
  }

  lemma BodyCovered(sign: Sign, t: string, lit: Literal)
    requires WellFormed(lit) && StartsWith(t, Body(lit))
    ensures ParseBody(sign, t).Some?
    ensures |Body(ParseBody(sign, t).value)| >= |Body(lit)|
  {
    if lit.Infinity? {
      assert StartsWith(t, "Infinity");
    } else {
      assert !StartsWith(t, "Infinity") by {
        assert t[0] == Body(lit)[0];
        if |lit.whole| > 0 {
          assert Body(lit)[0] == lit.whole[0];
        }
      }
      DecimalCovered(sign, t, lit);
    }
  }

  /** Digits, fraction and exponent: each is read at least as far as the literal's. */
  lemma DecimalCovered(sign: Sign, t: string, lit: Literal)
    requires lit.Decimal? && WellFormed(lit) && StartsWith(t, Body(lit))
    ensures ParseDecimal(sign, t).Some?
    ensures |Body(ParseDecimal(sign, t).value)| >= |Body(lit)|
  {
    var Decimal(_, w, fraction, exponent) := lit;
    TailStart(fraction, exponent);
    assert Body(lit) == w + (RenderFraction(fraction) + RenderExponent(exponent));
    PartsCovered(sign, t, w, fraction, exponent);
  }

  lemma PartsCovered(sign: Sign, t: string, w: string, fraction: Option<string>, exponent: Option<Exponent>)
    requires AllDigits(w) && (fraction.Some? ==> AllDigits(fraction.value))
    requires exponent.Some? ==> WellFormedExponent(exponent.value)
    requires |w| > 0 || (fraction.Some? && |fraction.value| > 0)
    requires var tail := RenderFraction(fraction) + RenderExponent(exponent);
      StartsWith(t, w + tail) && (tail == [] || !IsDigit(tail[0]))
    ensures ParseDecimal(sign, t).Some?
    ensures |Body(ParseDecimal(sign, t).value)| >= |w| + |RenderFraction(fraction)| + |RenderExponent(exponent)|
  {
    var tail := RenderFraction(fraction) + RenderExponent(exponent);
    WholeCovered(t, w, tail);
    ParseDecimalParts(sign, t);
    if |DigitRun(t)| == |w| {
      TailCovered(t[|w|..], fraction, exponent);
    }
  }

  /** What `ParseDecimal` reads, part by part. */
  lemma ParseDecimalParts(sign: Sign, t: string)
    ensures var whole := DigitRun(t);
      var split := ParseFraction(t[|whole|..]);
      && (ParseDecimal(sign, t).Some? <==> |whole| > 0 || (split.0.Some? && |split.0.value| > 0))
      && (ParseDecimal(sign, t).Some? ==>
        |Body(ParseDecimal(sign, t).value)| == |whole| + |RenderFraction(split.0)| + |RenderExponent(ParseExponent(split.1))|)
  {
  }

  /** The digits are read at least as far as the literal's, and further only when nothing follows them in it. */
  lemma WholeCovered(t: string, whole: string, tail: string)
    requires AllDigits(whole) && StartsWith(t, whole + tail)
    requires tail == [] || !IsDigit(tail[0])
    ensures |DigitRun(t)| >= |whole|
    ensures |DigitRun(t)| == |whole| ==> DigitRun(t) == whole && StartsWith(t[|whole|..], tail)
    ensures |DigitRun(t)| > |whole| ==> tail == []
  {
    StartsWithSplit(t, whole, tail);
    DigitRunLongest(t, whole);
    if tail != [] {
      assert t[|whole|] == tail[0];
    }
  }

  /** After the digits, the point, fraction and exponent are read at least as far as the literal's. */
  lemma TailCovered(rest: string, fraction: Option<string>, exponent: Option<Exponent>)
    requires fraction.Some? ==> AllDigits(fraction.value)
    requires exponent.Some? ==> WellFormedExponent(exponent.value)
    requires StartsWith(rest, RenderFraction(fraction) + RenderExponent(exponent))
    ensures var split := ParseFraction(rest);
      && (fraction.Some? ==> split.0.Some? && |split.0.value| >= |fraction.value|)
      && |RenderFraction(split.0)| + |RenderExponent(ParseExponent(split.1))| >=
         |RenderFraction(fraction)| + |RenderExponent(exponent)|
  {
    var exp := RenderExponent(exponent);
    TailStart(fraction, exponent);
    if fraction.Some? {
      assert RenderFraction(fraction) + exp == "." + (fraction.value + exp);
      StartsWithSplit(rest, ".", fraction.value + exp);
      FractionCovered(rest, fraction.value, exponent);
    } else if exponent.Some? {
      assert rest[0] == exp[0];
      ExponentCovered(rest, exponent.value);
    }
  }

  lemma FractionCovered(rest: string, f: string, exponent: Option<Exponent>)
    requires exponent.Some? ==> WellFormedExponent(exponent.value)
    requires AllDigits(f) && |rest| > 0 && rest[0] == '.'
    requires StartsWith(rest[1..], f + RenderExponent(exponent))
    ensures var split := ParseFraction(rest);
      && split.0.Some? && |split.0.value| >= |f|
      && |split.0.value| + |RenderExponent(ParseExponent(split.1))| >= |f| + |RenderExponent(exponent)|
  {
    var exp := RenderExponent(exponent);
    TailStart(Some(f), exponent);
    WholeCovered(rest[1..], f, exp);
    if |DigitRun(rest[1..])| == |f| {
      assert rest[1 + |f|..] == rest[1..][|f|..];
      if exponent.Some? {
        ExponentCovered(rest[1 + |f|..], exponent.value);
      }
    }
  }

  lemma ExponentCovered(s: string, e: Exponent)
    requires WellFormedExponent(e) && StartsWith(s, RenderExponent(Some(e)))
    ensures ParseExponent(s).Some?
    ensures |RenderExponent(ParseExponent(s))| >= |RenderExponent(Some(e))|
  {
    assert RenderExponent(Some(e)) == [e.marker] + (SignText(e.sign) + e.digits);
    StartsWithSplit(s, [e.marker], SignText(e.sign) + e.digits);
    ParseSignPrefix(s[1..], e.sign, e.digits);
    DigitRunLongest(ParseSign(s[1..]).1, e.digits);
  }

  /** `DigitRun` takes every run of digits that `s` starts with, and goes further only over a digit. */
  lemma DigitRunLongest(s: string, d: string)
    requires AllDigits(d) && StartsWith(s, d)
    ensures |DigitRun(s)| >= |d|
    ensures |DigitRun(s)| == |d| ==> DigitRun(s) == d
    ensures |DigitRun(s)| > |d| ==> IsDigit(s[|d|])
  {
    var r := DigitRun(s);
    if |r| == |d| {
      assert r == s[..|d|];
    } else if |r| > |d| {
      assert s[|d|] == r[|d|];
    }
  }

  /** A sign followed by a text that does not start with one is read as that sign. */
  lemma ParseSignPrefix(s: string, sign: Sign, body: string)
    requires StartsWith(s, SignText(sign) + body)
    requires |body| > 0 && body[0] != '+' && body[0] != '-'
    ensures ParseSign(s).0 == sign && StartsWith(ParseSign(s).1, body)
  {
    StartsWithSplit(s, SignText(sign), body);
    if sign == Unsigned {
      assert s[0] == body[0];
      assert s[|SignText(sign)|..] == s;
    } else {
      assert s[0] == SignText(sign)[0];
    }
  }
}
