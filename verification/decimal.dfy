/** Decimal text for integers and money: the `${n}` interpolation of an
    integer, `toFixed(2)` on a price held as integer cents, and
    `Number.prototype.toString` on such a price. Each formatter comes with
    the parser that undoes it. */
module Decimal {
  import opened Values

  predicate IsDigit(c: char) {
    '0' <= c <= '9'
  }

  predicate AllDigits(s: string) {
    forall i :: 0 <= i < |s| ==> IsDigit(s[i])
  }

  function DigitChar(d: int): (c: char)
    requires 0 <= d < 10
    ensures IsDigit(c) && DigitValue(c) == d
  {
    ('0' as int + d) as char
  }

  function DigitValue(c: char): (d: int)
    requires IsDigit(c)
    ensures 0 <= d < 10
  {
    c as int - '0' as int
  }

  /** The number a string of decimal digits denotes (most significant first). */
  function DigitsValue(s: string): nat
    requires AllDigits(s)
  {
    if s == [] then 0 else 10 * DigitsValue(s[..|s| - 1]) + DigitValue(s[|s| - 1])
  }

  /** Canonical decimal text of a natural number: no sign, no leading zero. */
  function NatToString(n: nat): (s: string)
    ensures |s| >= 1 && AllDigits(s)
    ensures |s| == 1 || s[0] != '0'
    ensures DigitsValue(s) == n
  {
    if n < 10 then [DigitChar(n)]
    else
      var prefix := NatToString(n / 10);
      var s := prefix + [DigitChar(n % 10)];
      assert s[..|s| - 1] == prefix;
      s
  }

  /** `${i}` for an integer `i`: a minus sign before the magnitude when negative. */
  function IntToString(i: int): (s: string)
    ensures |s| >= 1
    ensures (s[0] == '-') <==> i < 0
    ensures i >= 0 ==> AllDigits(s) && DigitsValue(s) == i
    ensures i < 0 ==> AllDigits(s[1..]) && DigitsValue(s[1..]) == -i
  {
    if i < 0 then "-" + NatToString(-i) else NatToString(i)
  }

  /** Reads back a string produced by IntToString: an optional minus sign
      followed by one or more digits. */
  function ParseInt(s: string): Option<int> {
    if |s| >= 2 && s[0] == '-' && AllDigits(s[1..]) then Some(-(DigitsValue(s[1..]) as int))
    else if |s| >= 1 && AllDigits(s) then Some(DigitsValue(s))
    else None
  }

  lemma IntRoundTrip(i: int)
    ensures ParseInt(IntToString(i)) == Some(i)
  {
  }

  /** Two digits for a value below 100, with a leading zero when needed. */
  function TwoDigits(n: int): (s: string)
    requires 0 <= n < 100
    ensures |s| == 2 && AllDigits(s) && DigitsValue(s) == n
  {
    var s := [DigitChar(n / 10), DigitChar(n % 10)];
    assert s[..1] == [DigitChar(n / 10)];
    assert DigitsValue(s[..1]) == n / 10 by {
      assert s[..1][..0] == [];
    }
    s
  }

  /** `(a / 100).toFixed(2)` for a non-negative amount of cents: whole
      units, a point, exactly two digits of cents. */
  function FixedText(a: nat): (s: string)
    ensures |s| >= 4 && IsDigit(s[0]) && s[|s| - 3] == '.'
    ensures AllDigits(s[|s| - 2..])
    ensures |s| == 4 || s[0] != '0'
  {
    var whole := NatToString(a / 100);
    var s := whole + "." + TwoDigits(a % 100);
    assert s[0] == whole[0];
    assert s[|s| - 2..] == TwoDigits(a % 100);
    s
  }

  /** `(cents / 100).toFixed(2)`: a minus sign for a negative price, then
      the fixed-point text of its magnitude. */
  function FormatCents(cents: int): (s: string)
    ensures |s| >= 4 && s[|s| - 3] == '.'
    ensures AllDigits(s[|s| - 2..])
    ensures (s[0] == '-') <==> cents < 0
    ensures var w := if cents < 0 then 1 else 0;
      w < |s| && IsDigit(s[w]) && (|s| == w + 4 || s[w] != '0')
  {
    if cents < 0 then "-" + FixedText(-cents) else FixedText(cents)
  }

  /** Reads back unsigned fixed-point text with exactly two decimals. */
  function ParseUnsignedCents(s: string): Option<int> {
    if |s| >= 4 && s[|s| - 3] == '.' && AllDigits(s[..|s| - 3]) && AllDigits(s[|s| - 2..])
    then Some(100 * DigitsValue(s[..|s| - 3]) + DigitsValue(s[|s| - 2..]))
    else None
  }

  /** Reads back fixed-point text with an optional leading minus sign. */
  function ParseCents(s: string): Option<int> {
    if |s| >= 1 && s[0] == '-' then
      match ParseUnsignedCents(s[1..])
      case Some(v) => Some(-v)
      case None => None
    else ParseUnsignedCents(s)
  }

  lemma FixedRoundTrip(a: nat)
    ensures ParseUnsignedCents(FixedText(a)) == Some(a)
  {
    var whole := NatToString(a / 100);
    var two := TwoDigits(a % 100);
    var s := FixedText(a);
    assert s == whole + "." + two;
    assert s[..|s| - 3] == whole;
    assert s[|s| - 2..] == two;
  }

  /** toFixed(2) loses nothing on a whole number of cents. */
  lemma CentsRoundTrip(cents: int)
    ensures ParseCents(FormatCents(cents)) == Some(cents)
  {
    if cents < 0 {
      FixedRoundTrip(-cents);
      SignedCents(FixedText(-cents), -cents);
      assert FormatCents(cents) == "-" + FixedText(-cents);
    } else {
      FixedRoundTrip(cents);
      SignedCents(FixedText(cents), cents);
      assert FormatCents(cents) == FixedText(cents);
    }
  }

  /** Unsigned fixed-point text reads back as itself, and with a minus sign
      in front as its negation. */
  lemma SignedCents(t: string, v: int)
    requires |t| >= 1 && t[0] != '-' && ParseUnsignedCents(t) == Some(v)
    ensures ParseCents(t) == Some(v)
    ensures ParseCents("-" + t) == Some(-v)
  {
    assert ("-" + t)[1..] == t;
  }

  /** `String(a / 100)` for a non-negative amount of cents: no trailing
      zeros in the fraction and no point at all for a whole amount. */
  function UnsignedNumberText(a: nat): (s: string)
    ensures |s| >= 1 && IsDigit(s[0])
    ensures s[0] == '0' ==> |s| == 1 || s[1] == '.'
    ensures a % 100 == 0 <==> AllDigits(s)
    ensures a % 100 != 0 ==> s[|s| - 1] != '0'
  {
    var whole := NatToString(a / 100);
    var frac := a % 100;
    var fraction :=
      if frac == 0 then ""
      else if frac % 10 == 0 then "." + [DigitChar(frac / 10)]
      else "." + TwoDigits(frac);
    var s := whole + fraction;
    assert s[0] == whole[0];
    assert frac != 0 ==> s[|whole|] == '.';
    assert frac == 0 ==> s == whole;
    s
  }

  /** `String(cents / 100)` for a price held in cents: a minus sign exactly
      for a negative price, no leading zero in the whole part, and a
      fraction, without trailing zeros, exactly when the price is not a whole
      number of units. */
  function NumberText(cents: int): (s: string)
    ensures |s| >= 1
    ensures (s[0] == '-') <==> cents < 0
    ensures var w := if cents < 0 then 1 else 0;
      && w < |s| && IsDigit(s[w])
      && (s[w] == '0' ==> |s| == w + 1 || s[w + 1] == '.')
      && (cents % 100 == 0 <==> AllDigits(s[w..]))
      && (cents % 100 != 0 ==> s[|s| - 1] != '0')
  {
    if cents < 0 then
      var u := UnsignedNumberText(-cents);
      SignedText(u);
      WholeCentsOfNegation(cents);
      "-" + u
    else UnsignedNumberText(cents)
  }

  /** A minus sign in front of a text moves every character up by one. */
  lemma SignedText(u: string)
    requires |u| >= 1
    ensures ("-" + u)[1..] == u
    ensures forall i :: 0 <= i < |u| ==> ("-" + u)[i + 1] == u[i]
  {
  }

  /** A price is a whole number of units exactly when its negation is. */
  lemma WholeCentsOfNegation(cents: int)
    ensures (-cents) % 100 == 0 <==> cents % 100 == 0
  {
  }

  /** `parseFloat`, in cents, on the unsigned shapes NumberText produces:
      whole units alone, or with one or two decimals. */
  function ParseUnsignedNumber(s: string): Option<int> {
    if |s| >= 1 && AllDigits(s) then Some(100 * DigitsValue(s))
    else if |s| >= 3 && s[|s| - 2] == '.' && AllDigits(s[..|s| - 2]) && IsDigit(s[|s| - 1]) then
      Some(100 * DigitsValue(s[..|s| - 2]) + 10 * DigitValue(s[|s| - 1]))
    else ParseUnsignedCents(s)
  }

  /** `parseFloat`, in cents, on NumberText's shapes with an optional minus sign. */
  function ParseNumber(s: string): Option<int> {
    if |s| >= 1 && s[0] == '-' then
      match ParseUnsignedNumber(s[1..])
      case Some(v) => Some(-v)
      case None => None
    else ParseUnsignedNumber(s)
  }

  lemma UnsignedNumberRoundTrip(a: nat)
    ensures ParseUnsignedNumber(UnsignedNumberText(a)) == Some(a)
  {
    var whole := NatToString(a / 100);
    var frac := a % 100;
    var body := UnsignedNumberText(a);
    if frac == 0 {
      assert body == whole;
    } else if frac % 10 == 0 {
      assert body == whole + "." + [DigitChar(frac / 10)];
      assert body[..|body| - 2] == whole;
      assert !AllDigits(body) by { assert !IsDigit(body[|body| - 2]); }
    } else {
      var two := TwoDigits(frac);
      assert body == whole + "." + two;
      assert body[..|body| - 3] == whole;
      assert body[|body| - 2..] == two;
      assert !AllDigits(body) by { assert !IsDigit(body[|whole|]); }
      assert body[|body| - 2] == two[0];
    }
  }

  /** A price printed by NumberText reads back to the same number of cents. */
  lemma NumberRoundTrip(cents: int)
    ensures ParseNumber(NumberText(cents)) == Some(cents)
  {
    if cents < 0 {
      UnsignedNumberRoundTrip(-cents);
      SignedNumber(UnsignedNumberText(-cents), -cents);
      assert NumberText(cents) == "-" + UnsignedNumberText(-cents);
    } else {
      UnsignedNumberRoundTrip(cents);
      SignedNumber(UnsignedNumberText(cents), cents);
      assert NumberText(cents) == UnsignedNumberText(cents);
    }
  }

  /** Unsigned number text reads back as itself, and with a minus sign in
      front as its negation. */
  lemma SignedNumber(t: string, v: int)
    requires |t| >= 1 && t[0] != '-' && ParseUnsignedNumber(t) == Some(v)
    ensures ParseNumber(t) == Some(v)
    ensures ParseNumber("-" + t) == Some(-v)
  {
    assert ("-" + t)[1..] == t;
  }

  /** Twenty units print as `20.00`; five cents owed print as `-0.05`. */
  lemma FormatExamples()
    ensures FormatCents(2000) == "20.00"
    ensures FormatCents(-5) == "-0.05"
    ensures NumberText(1250) == "12.5"
  {
    FixedTwenty();
    FixedFiveCents();
    TwelveFifty();
  }

  lemma FixedTwenty()
    ensures FixedText(2000) == "20.00"
  {
    assert NatToString(2) == "2";
    assert NatToString(20) == "20";
    assert TwoDigits(0) == "00";
  }

  lemma FixedFiveCents()
    ensures FixedText(5) == "0.05"
  {
    assert NatToString(0) == "0";
    assert TwoDigits(5) == "05";
  }

  lemma TwelveFifty()
    ensures UnsignedNumberText(1250) == "12.5"
  {
    assert NatToString(1) == "1";
    assert NatToString(12) == "12";
  }
}
