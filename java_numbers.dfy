/**
 * The numeric text conversions the pipeline uses: `Integer.parseInt` (ASCII
 * digits), `Double.parseDouble` restricted to plain decimal literals, and
 * `String.format("%.2f", x)` for an amount that is a whole number of cents.
 */
module JavaNumbers {
  import opened Wrappers

  /** Bounds of Java's 32-bit `int`. */
  const MinInt: int := -0x8000_0000
  const MaxInt: int := 0x7fff_ffff

  predicate IsDigit(c: char) {
    '0' <= c <= '9'
  }

  predicate AllDigits(s: string) {
    forall k :: 0 <= k < |s| ==> IsDigit(s[k])
  }

  function DigitValue(c: char): nat
    requires IsDigit(c)
  {
    c as int - '0' as int
  }

  function DigitChar(d: nat): char
    requires d < 10
  {
    ('0' as int + d) as char
  }

  /** The value of a string of decimal digits, most significant first ("" is 0). */
  function DigitsValue(s: string): nat
    requires AllDigits(s)
  {
    if s == [] then 0 else 10 * DigitsValue(s[..|s| - 1]) + DigitValue(s[|s| - 1])
  }

  function Pow10(n: nat): (p: nat)
    ensures p > 0
  {
    if n == 0 then 1 else 10 * Pow10(n - 1)
  }

  /**
   * `Integer.parseInt(s)`: an optional '+' or '-' followed by at least one digit,
   * whose value lies in the `int` range; anything else is a NumberFormatException,
   * modelled as None.
   */
  function ParseInt(s: string): (r: Option<int>)
    ensures r.Some? ==> MinInt <= r.value <= MaxInt
    ensures r.Some? ==>
      && s != []
      && var digits := if s[0] == '-' || s[0] == '+' then s[1..] else s;
      && digits != [] && AllDigits(digits)
      && r.value == (if s[0] == '-' then -(DigitsValue(digits) as int) else DigitsValue(digits))
  {
    if s == [] then None
    else
      var digits := if s[0] == '-' || s[0] == '+' then s[1..] else s;
      if digits == [] || !AllDigits(digits) then None
      else
        var v: int := if s[0] == '-' then -(DigitsValue(digits) as int) else DigitsValue(digits);
        if MinInt <= v <= MaxInt then Some(v) else None
  }

  /**
   * `Integer.parseInt` accepts every optional sign followed by a non-empty run of
   * digits (leading zeros allowed) whose signed value is an `int`, and returns that value.
   */
  lemma ParseIntAccepts(sign: string, digits: string)
    requires sign == "" || sign == "+" || sign == "-"
    requires digits != [] && AllDigits(digits)
    requires var v := if sign == "-" then -(DigitsValue(digits) as int) else DigitsValue(digits);
      MinInt <= v <= MaxInt
    ensures ParseInt(sign + digits)
      == Some(if sign == "-" then -(DigitsValue(digits) as int) else DigitsValue(digits))
  {
    var s := sign + digits;
    if sign == "" {
      assert s == digits;
    } else {
      assert s[0] == sign[0] && s[1..] == digits;
    }
  }

  /** The canonical decimal text of a natural number: no sign, no leading zero. */
  function NatToString(n: nat): (s: string)
    ensures s != [] && AllDigits(s)
    ensures DigitsValue(s) == n
    ensures '.' !in s
    ensures s[0] == '0' <==> n == 0
    ensures n == 0 ==> s == "0"
  {
    if n < 10 then [DigitChar(n)]
    else
      var prefix := NatToString(n / 10);
      var s := prefix + [DigitChar(n % 10)];
      assert s[..|s| - 1] == prefix;
      s
  }

  /** The canonical decimal text of an integer, as `Integer.toString` writes it. */
  function IntToString(n: int): (s: string)
    ensures s != [] && (s[0] == '-' <==> n < 0)
    ensures '.' !in s
  {
    if n < 0 then "-" + NatToString(-n) else NatToString(n)
  }

  /** `Integer.parseInt` reads back every `int` that `Integer.toString` writes. */
  lemma ParseIntToString(n: int)
    requires MinInt <= n <= MaxInt
    ensures ParseInt(IntToString(n)) == Some(n)
  {
    if n < 0 {
      var s := IntToString(n);
      assert s[1..] == NatToString(-n);
    }
  }

  /** `Integer.parseInt` refuses the decimal text of every number outside the `int` range. */
  lemma ParseIntOutOfRange(n: int)
    requires n < MinInt || MaxInt < n
    ensures ParseInt(IntToString(n)) == None
  {
    if n < 0 {
      var s := IntToString(n);
      assert s[1..] == NatToString(-n);
    }
  }

  /** Position of the first '.' in `s`, or |s| when there is none. */
  function IndexOfDot(s: string): (i: nat)
    ensures i <= |s|
    ensures forall k :: 0 <= k < i ==> s[k] != '.'
    ensures i < |s| ==> s[i] == '.'
  {
    if s == [] || s[0] == '.' then 0 else 1 + IndexOfDot(s[1..])
  }

  /** The value of the literal with digits `whole` before the point and `fraction` after it. */
  function LiteralValue(whole: string, fraction: string): real
    requires AllDigits(whole) && AllDigits(fraction)
  {
    DigitsValue(whole) as real + DigitsValue(fraction) as real / Pow10(|fraction|) as real
  }

  /** An unsigned plain decimal literal: digits, optionally a '.' and more digits, at least one digit in all. */
  function ParseUnsignedDecimal(s: string): Option<real> {
    var i := IndexOfDot(s);
    var whole := s[..i];
    var fraction := if i < |s| then s[i + 1..] else [];
    if AllDigits(whole) && AllDigits(fraction) && (whole != [] || fraction != []) then
      Some(LiteralValue(whole, fraction))
    else None
  }

  /**
   * `Double.parseDouble(s)` on plain decimal literals: an optional sign, then digits
   * with at most one '.'. The value is the exact rational the literal denotes.
   */
  function ParseDecimal(s: string): Option<real> {
    if s != [] && (s[0] == '-' || s[0] == '+') then
      match ParseUnsignedDecimal(s[1..])
      case None => None
      case Some(v) => Some(if s[0] == '-' then -v else v)
    else ParseUnsignedDecimal(s)
  }

  /** A string of digits has no '.', so the first '.' is its end. */
  lemma {:induction false} IndexOfDotInDigits(s: string)
    requires AllDigits(s)
    ensures IndexOfDot(s) == |s| && '.' !in s
  {
    if s != [] {
      assert IsDigit(s[0]);
      IndexOfDotInDigits(s[1..]);
      assert s == [s[0]] + s[1..];
    }
  }

  /** An unsigned literal with a point: the whole digits plus the fraction digits over their scale. */
  lemma UnsignedPointLiteral(whole: string, fraction: string)
    requires AllDigits(whole) && AllDigits(fraction) && (whole != [] || fraction != [])
    ensures ParseUnsignedDecimal(whole + "." + fraction) == Some(LiteralValue(whole, fraction))
    ensures var c := (whole + "." + fraction)[0]; c != '-' && c != '+'
  {
    var s := whole + "." + fraction;
    IndexOfDotInDigits(whole);
    IndexOfDotInDigits(fraction);
    IndexOfDotAfter(whole, fraction);
    assert s[..|whole|] == whole && s[|whole| + 1..] == fraction;
  }

  /** An unsigned literal without a point is its digits' value. */
  lemma UnsignedWholeLiteral(whole: string)
    requires whole != [] && AllDigits(whole)
    ensures ParseUnsignedDecimal(whole) == Some(LiteralValue(whole, ""))
    ensures LiteralValue(whole, "") == DigitsValue(whole) as real
  {
    IndexOfDotInDigits(whole);
    assert whole[..|whole|] == whole;
  }

  /** A sign in front of an unsigned literal: '+' keeps its value and '-' negates it. */
  lemma SignedLiteral(sign: string, body: string)
    requires sign == "" || sign == "+" || sign == "-"
    requires body != [] && body[0] != '-' && body[0] != '+'
    requires ParseUnsignedDecimal(body).Some?
    ensures var v := ParseUnsignedDecimal(body).value;
      ParseDecimal(sign + body) == Some(if sign == "-" then -v else v)
  {
    if sign == "" {
      assert sign + body == body;
    } else {
      assert (sign + body)[0] == sign[0] && (sign + body)[1..] == body;
    }
  }

  /**
   * `Double.parseDouble` accepts every optional sign followed by digits, a '.' and
   * digits, with at least one digit, and returns the signed value the literal denotes:
   * "2.5", ".5", "5.", "007.125" and "-0.5" included.
   */
  lemma ParseDecimalAccepts(sign: string, whole: string, fraction: string)
    requires sign == "" || sign == "+" || sign == "-"
    requires AllDigits(whole) && AllDigits(fraction) && (whole != [] || fraction != [])
    ensures var v := LiteralValue(whole, fraction);
      ParseDecimal(sign + (whole + "." + fraction)) == Some(if sign == "-" then -v else v)
  {
    var body := whole + "." + fraction;
    UnsignedPointLiteral(whole, fraction);
    SignedLiteral(sign, body);
  }

  /** The same without a point: an optional sign and a non-empty run of digits, "-5" or "007". */
  lemma ParseDecimalAcceptsWhole(sign: string, whole: string)
    requires sign == "" || sign == "+" || sign == "-"
    requires whole != [] && AllDigits(whole)
    ensures var v := LiteralValue(whole, "");
      ParseDecimal(sign + whole) == Some(if sign == "-" then -v else v)
  {
    UnsignedWholeLiteral(whole);
    assert IsDigit(whole[0]);
    SignedLiteral(sign, whole);
  }

  /**
   * Conversely, an accepted literal is an optional sign followed by a non-empty text
   * other than "." in which every character but the first '.' is a digit.
   */
  lemma ParseDecimalShape(s: string)
    requires ParseDecimal(s).Some?
    ensures var body := if s != [] && (s[0] == '-' || s[0] == '+') then s[1..] else s;
      && body != [] && body != "."
      && forall k :: 0 <= k < |body| && k != IndexOfDot(body) ==> IsDigit(body[k])
  {
    var body := if s != [] && (s[0] == '-' || s[0] == '+') then s[1..] else s;
    var i := IndexOfDot(body);
    var whole := body[..i];
    var fraction := if i < |body| then body[i + 1..] else [];
    assert AllDigits(whole) && AllDigits(fraction);
    forall k | 0 <= k < |body| && k != i
      ensures IsDigit(body[k])
    {
      if k < i {
        assert body[k] == whole[k];
      } else {
        assert body[k] == fraction[k - i - 1];
      }
    }
  }

  /** The two-digit text of the cents part of an amount of `m` cents. */
  function CentsFraction(m: nat): string {
    [DigitChar(m % 100 / 10), DigitChar(m % 10)]
  }

  /** The text of a non-negative amount of `m` cents: whole part, '.', two digits. */
  function CentsText(m: nat): string {
    NatToString(m / 100) + "." + CentsFraction(m)
  }

  /**
   * `String.format("%.2f", cents / 100.0)`: optional minus sign, the whole part,
   * a '.', and exactly two digits of cents.
   */
  function FormatCents(cents: int): string {
    if cents < 0 then "-" + CentsText(-cents) else CentsText(cents)
  }

  /** The two cent digits are digits and denote the cents part. */
  lemma {:induction false} CentsFractionValue(m: nat)
    ensures AllDigits(CentsFraction(m)) && '.' !in CentsFraction(m)
    ensures DigitsValue(CentsFraction(m)) == m % 100
  {
    var fraction := CentsFraction(m);
    var high := [DigitChar(m % 100 / 10)];
    assert fraction[..1] == high && high[..0] == [];
    assert DigitsValue(high) == m % 100 / 10;
  }

  /** The unsigned text of `m` cents reads back as `m / 100` and starts with a digit. */
  lemma {:induction false} CentsTextParses(m: nat)
    ensures ParseUnsignedDecimal(CentsText(m)) == Some(m as real / 100.0)
    ensures IsDigit(CentsText(m)[0])
  {
    var whole := NatToString(m / 100);
    var fraction := CentsFraction(m);
    var body := CentsText(m);
    CentsFractionValue(m);
    assert IndexOfDot(body) == |whole| by {
      IndexOfDotAfter(whole, fraction);
    }
    assert body[..|whole|] == whole;
    assert body[|whole| + 1..] == fraction;
    assert Pow10(|fraction|) == 100;
    assert (m / 100) as real + (m % 100) as real / 100.0 == m as real / 100.0;
    assert body[0] == whole[0];
  }

  /** A literal that starts with a digit has no sign: it parses as an unsigned literal. */
  lemma UnsignedLiteral(s: string)
    requires s != [] && IsDigit(s[0])
    ensures ParseDecimal(s) == ParseUnsignedDecimal(s)
  {
  }

  /** A leading '-' negates the value of the literal after it. */
  lemma NegatedLiteral(s: string)
    requires ParseUnsignedDecimal(s).Some?
    ensures ParseDecimal("-" + s) == Some(-ParseUnsignedDecimal(s).value)
  {
    assert ("-" + s)[0] == '-' && ("-" + s)[1..] == s;
  }

  /** The formatted price reads back, as a decimal literal, as exactly `cents / 100`. */
  lemma {:induction false} FormatCentsRoundTrip(cents: int)
    ensures ParseDecimal(FormatCents(cents)) == Some(cents as real / 100.0)
  {
    if cents < 0 {
      NegativeRoundTrip(-cents);
    } else {
      CentsTextParses(cents);
      UnsignedLiteral(CentsText(cents));
    }
  }

  lemma {:induction false} NegativeRoundTrip(m: nat)
    requires m > 0
    ensures ParseDecimal(FormatCents(-(m as int))) == Some(-(m as real) / 100.0)
  {
    CentsTextParses(m);
    NegatedLiteral(CentsText(m));
  }

  /** The unsigned text of `m` cents: its whole part, then the first '.', then two digits. */
  lemma {:induction false} CentsTextShape(m: nat)
    ensures var t := CentsText(m);
      && |t| >= 4
      && IndexOfDot(t) == |t| - 3
      && IsDigit(t[|t| - 2]) && IsDigit(t[|t| - 1])
      && t[..|t| - 3] == NatToString(m / 100)
  {
    var w := NatToString(m / 100);
    var f := CentsFraction(m);
    CentsFractionValue(m);
    IndexOfDotAfter(w, f);
    var t := CentsText(m);
    assert t[..|w|] == w && t[|w| + 1..] == f;
  }

  /** A '-' in front of a literal moves its first '.' one place along. */
  lemma IndexOfDotAfterMinus(body: string)
    ensures IndexOfDot("-" + body) == 1 + IndexOfDot(body)
  {
    assert ("-" + body)[1..] == body;
  }

  /**
   * The shape `%.2f` writes: a '-' exactly for a negative amount, then a whole part
   * of digits without a leading zero (other than "0" itself), then a '.' that is the
   * first one, then exactly two digits.
   */
  lemma {:induction false} FormatCentsShape(cents: int)
    ensures var t := FormatCents(cents);
      && |t| >= 4
      && (t[0] == '-' <==> cents < 0)
      && IndexOfDot(t) == |t| - 3
      && IsDigit(t[|t| - 2]) && IsDigit(t[|t| - 1])
      && var whole := if cents < 0 then t[1..|t| - 3] else t[..|t| - 3];
        && whole != [] && AllDigits(whole)
        && (whole[0] == '0' ==> whole == "0")
  {
    var m: nat := if cents < 0 then -cents else cents;
    var body := CentsText(m);
    var w := NatToString(m / 100);
    CentsTextShape(m);
    assert body[0] == w[0];
    if cents < 0 {
      var t := "-" + body;
      IndexOfDotAfterMinus(body);
      assert t[1..|t| - 3] == body[..|body| - 3];
      assert t[|t| - 2] == body[|body| - 2] && t[|t| - 1] == body[|body| - 1];
    }
  }

  lemma IndexOfDotAfter(whole: string, fraction: string)
    requires '.' !in whole && '.' !in fraction
    ensures IndexOfDot(whole + "." + fraction) == |whole|
  {
    var body := whole + "." + fraction;
    assert body[|whole|] == '.';
    assert forall k :: 0 <= k < |whole| ==> body[k] == whole[k];
  }
}
