/** The numeric inputs of the item table: `parseFloat` over the text of an
    `<input type="number">`, followed by `|| 0`, which turns NaN into zero. */
module Numbers {
  import opened Wrappers
  import opened Text

  /** How many decimal digits `s` starts with. */
  function LeadingDigits(s: string): (n: nat)
    ensures n <= |s| && AllDigits(s[..n])
    ensures n < |s| ==> !IsDigit(s[n])
  {
    if |s| > 0 && IsDigit(s[0]) then
      var n := 1 + LeadingDigits(s[1..]);
      assert s[..n] == [s[0]] + s[1..][..n - 1];
      n
    else 0
  }

  /** `m` × 10^e, one decimal place at a time. */
  function Scale(m: real, e: int): real
    decreases if e >= 0 then e else -e
  {
    if e == 0 then m
    else if e > 0 then 10.0 * Scale(m, e - 1)
    else Scale(m, e + 1) / 10.0
  }

  /** `t` without one leading `+` or `-`. */
  function StripSign(t: string): (u: string)
    ensures u == t || (|t| > 0 && u == t[1..])
  {
    if |t| > 0 && (t[0] == '-' || t[0] == '+') then t[1..] else t
  }

  /** The value of a decimal exponent part (`e`, `E`, optional sign, digits)
      at the start of `s`; 0 when there is none, or it has no digits, since
      `parseFloat` then stops before the `e`. */
  function ExponentOf(s: string): int {
    if |s| > 0 && (s[0] == 'e' || s[0] == 'E') then
      var t := s[1..];
      var u := StripSign(t);
      var n := LeadingDigits(u);
      var v := DigitsValue(u[..n]) as int;
      if |t| > 0 && t[0] == '-' then -v else v
    else 0
  }

  /** A decimal literal as `parseFloat` reads it: sign, the digits before
      and after the point, and the exponent. */
  datatype Literal = Literal(negative: bool, whole: string, frac: string, exponent: int)

  /** Whether `t` begins with a decimal literal: an optional sign, then a
      digit, or a point followed by a digit. */
  predicate StartsNumber(t: string) {
    var u := StripSign(t);
    (|u| > 0 && IsDigit(u[0])) || (|u| > 1 && u[0] == '.' && IsDigit(u[1]))
  }

  /** The longest decimal-literal prefix of `t`, or None when there is none. */
  function ScanLiteral(t: string): (r: Option<Literal>)
    ensures r.Some? <==> StartsNumber(t)
    ensures r.Some? ==> AllDigits(r.value.whole) && AllDigits(r.value.frac)
  {
    var u := StripSign(t);
    var n := LeadingDigits(u);
    ScanAfterWhole(|t| > 0 && t[0] == '-', u[..n], u[n..])
  }

  /** The literal read from the digits `whole` followed by `rest`: an
      optional point with fraction digits, then an optional exponent. */
  function ScanAfterWhole(negative: bool, whole: string, rest: string): (r: Option<Literal>)
    requires AllDigits(whole)
    ensures r.Some? <==> |whole| > 0 || (|rest| > 1 && rest[0] == '.' && IsDigit(rest[1]))
    ensures r.Some? ==> r.value.whole == whole && AllDigits(r.value.frac)
  {
    if |rest| > 0 && rest[0] == '.' then
      var f := LeadingDigits(rest[1..]);
      Complete(negative, whole, rest[1..][..f], rest[1 + f..])
    else Complete(negative, whole, [], rest)
  }

  /** A literal from its parts, unless it has no digit at all. */
  function Complete(negative: bool, whole: string, frac: string, after: string): (r: Option<Literal>)
    ensures r.Some? <==> |whole| > 0 || |frac| > 0
    ensures r.Some? ==> r.value == Literal(negative, whole, frac, ExponentOf(after))
  {
    if |whole| == 0 && |frac| == 0 then None
    else Some(Literal(negative, whole, frac, ExponentOf(after)))
  }

  /** The value 0.f of the digits f after a decimal point. */
  function FractionValue(f: string): real
    requires AllDigits(f)
  {
    if |f| == 0 then 0.0 else (DigitValue(f[0]) as real + FractionValue(f[1..])) / 10.0
  }

  /** The number a scanned literal denotes. */
  function LiteralValue(l: Literal): real
    requires AllDigits(l.whole) && AllDigits(l.frac)
  {
    var mantissa := DigitsValue(l.whole) as real + FractionValue(l.frac);
    var magnitude := Scale(mantissa, l.exponent);
    if l.negative then -magnitude else magnitude
  }

  /** `parseFloat`: skip leading whitespace, read the longest prefix that is a
      signed decimal literal and ignore the rest; None stands for NaN. */
  function ParseFloat(s: string): (r: Option<real>)
    ensures r.Some? <==> StartsNumber(TrimStart(s))
  {
    match ScanLiteral(TrimStart(s))
    case None => None
    case Some(l) => Some(LiteralValue(l))
  }

  /** Text with no literal at its start, the empty string included, reads as NaN. */
  lemma BlankIsNaN(s: string)
    requires IsBlank(s)
    ensures ParseFloat(s) == None
  {
    BlankIffAllWhitespace(s);
  }

  /** The onChange handler's `parseFloat(text) || 0`: a parse that yields
      NaN (or zero) gives 0, any other number passes through. */
  function NumberInput(text: string): (r: real)
    ensures ParseFloat(text).None? ==> r == 0.0
    ensures ParseFloat(text).Some? ==> r == ParseFloat(text).value
  {
    match ParseFloat(text)
    case None => 0.0
    case Some(x) => if x == 0.0 then 0.0 else x
  }

  /** A cleared number field (empty or whitespace) is read as 0. */
  lemma BlankInputIsZero(text: string)
    requires IsBlank(text)
    ensures NumberInput(text) == 0.0
  {
    BlankIsNaN(text);
  }

  /** A run of digits reads as the number it denotes. */
  lemma ParseDigits(d: string)
    requires |d| > 0 && AllDigits(d)
    ensures ParseFloat(d) == Some(DigitsValue(d) as real)
  {
    ScanDigits(false, d);
    assert "" + d == d;
    WholeValue(false, d);
    ParseOfScan(d, Literal(false, d, "", 0), DigitsValue(d) as real);
  }

  /** A minus sign and a run of digits read as the negated number. */
  lemma ParseMinusDigits(d: string)
    requires |d| > 0 && AllDigits(d)
    ensures ParseFloat("-" + d) == Some(-(DigitsValue(d) as real))
  {
    ScanDigits(true, d);
    WholeValue(true, d);
    ParseOfScan("-" + d, Literal(true, d, "", 0), -(DigitsValue(d) as real));
  }

  /** Text that starts a literal with no whitespace before it parses as
      the value of the literal the scanner finds. */
  lemma ParseOfScan(s: string, l: Literal, v: real)
    requires |s| > 0 && (s[0] == '-' || IsDigit(s[0]))
    requires ScanLiteral(s) == Some(l) && AllDigits(l.whole) && AllDigits(l.frac)
    requires LiteralValue(l) == v
    ensures ParseFloat(s) == Some(v)
  {
    NoLeadingSpace(s);
  }

  lemma NoLeadingSpace(s: string)
    requires |s| > 0 && (s[0] == '-' || IsDigit(s[0]))
    ensures TrimStart(s) == s
  {
    assert !IsWhitespace(s[0]);
  }

  /** A literal with no fraction and no exponent denotes its signed digits. */
  lemma WholeValue(negative: bool, d: string)
    requires AllDigits(d)
    ensures LiteralValue(Literal(negative, d, "", 0))
         == if negative then -(DigitsValue(d) as real) else DigitsValue(d) as real
  {
    assert DigitsValue("") == 0;
  }

  /** A run of digits typed into a number input passes `|| 0` unchanged. */
  lemma DigitsInputIsValue(d: string)
    requires |d| > 0 && AllDigits(d)
    ensures NumberInput(d) == DigitsValue(d) as real
  {
    ParseDigits(d);
  }

  /** A signed run of digits scans as a whole number with no fraction. */
  lemma ScanDigits(negative: bool, d: string)
    requires |d| > 0 && AllDigits(d)
    ensures ScanLiteral((if negative then "-" else "") + d) == Some(Literal(negative, d, "", 0))
  {
    var t := (if negative then "-" else "") + d;
    assert StripSign(t) == d;
    LeadingAll(d);
    assert d[..|d|] == d;
    assert d[|d|..] == [];
    assert ScanAfterWhole(negative, d, []) == Some(Literal(negative, d, "", 0));
  }

  /** Digits, a point and more digits read as whole part plus fraction,
      which is how a rate such as "12.50" is read. */
  lemma ParseFixedDigits(d: string, f: string, v: real)
    requires |d| > 0 && AllDigits(d) && AllDigits(f)
    requires v == DigitsValue(d) as real + FractionValue(f)
    ensures ParseFloat(d + "." + f) == Some(v)
  {
    var s := d + "." + f;
    ScanFixed(d, f);
    FixedValue(d, f);
    assert s[0] == d[0];
    ParseOfScan(s, Literal(false, d, f, 0), v);
  }

  lemma FixedValue(d: string, f: string)
    requires AllDigits(d) && AllDigits(f)
    ensures LiteralValue(Literal(false, d, f, 0))
         == DigitsValue(d) as real + FractionValue(f)
  {
  }

  /** Digits, a point and more digits scan as a literal with that fraction. */
  lemma ScanFixed(d: string, f: string)
    requires |d| > 0 && AllDigits(d) && AllDigits(f)
    ensures ScanLiteral(d + "." + f) == Some(Literal(false, d, f, 0))
  {
    var s := d + "." + f;
    assert StripSign(s) == s;
    assert LeadingDigits(s) == |d| by {
      LeadingStopsAt(d, "." + f);
      assert s == d + ("." + f);
    }
    assert s[..|d|] == d;
    assert s[|d|..] == "." + f;
    FractionPart(d, f);
  }

  lemma FractionPart(d: string, f: string)
    requires |d| > 0 && AllDigits(d) && AllDigits(f)
    ensures ScanAfterWhole(false, d, "." + f) == Some(Literal(false, d, f, 0))
  {
    var rest := "." + f;
    assert rest[1..] == f;
    LeadingAll(f);
    assert f[..|f|] == f;
    assert rest[1 + |f|..] == [];
  }

  lemma {:induction false} LeadingAll(s: string)
    requires AllDigits(s)
    ensures LeadingDigits(s) == |s|
  {
    if |s| > 0 {
      LeadingAll(s[1..]);
    }
  }

  lemma {:induction false} LeadingStopsAt(s: string, t: string)
    requires AllDigits(s)
    requires |t| > 0 && !IsDigit(t[0])
    ensures LeadingDigits(s + t) == |s|
  {
    if |s| > 0 {
      assert (s + t)[0] == s[0];
      assert (s + t)[1..] == s[1..] + t;
      LeadingStopsAt(s[1..], t);
    } else {
      assert s + t == t;
    }
  }
}
