/**
 * Decimal rendering of integers as `String(format: "%0Nd")` and string
 * interpolation produce it, and the reading that undoes it.
 */
module Numerals {
  import opened Options

  predicate IsDigit(c: char) {
    '0' <= c <= '9'
  }

  /** Characters a rendered integer may contain */
  predicate IsNumeralChar(c: char) {
    c == '-' || IsDigit(c)
  }

  predicate AllNumeral(s: string) {
    forall i :: 0 <= i < |s| ==> IsNumeralChar(s[i])
  }

  predicate AllDigits(s: string) {
    forall i :: 0 <= i < |s| ==> IsDigit(s[i])
  }

  function DigitChar(d: nat): (c: char)
    requires d < 10
    ensures IsDigit(c)
  {
    ('0' as int + d) as char
  }

  function DigitValue(c: char): (d: nat)
    requires IsDigit(c)
    ensures d < 10 && DigitChar(d) == c
  {
    c as int - '0' as int
  }

  /** The shortest decimal numeral of `n`, most significant digit first */
  function Digits(n: nat): (s: string)
    ensures 1 <= |s| && AllDigits(s)
  {
    if n < 10 then [DigitChar(n)] else Digits(n / 10) + [DigitChar(n % 10)]
  }

  /** The number a string of digits denotes */
  function ValueOf(s: string): nat
    requires AllDigits(s)
  {
    if s == [] then 0 else ValueOf(s[..|s| - 1]) * 10 + DigitValue(s[|s| - 1])
  }

  function Zeros(k: nat): (s: string)
    ensures |s| == k && AllDigits(s)
  {
    if k == 0 then [] else "0" + Zeros(k - 1)
  }

  /** `String(format: "%0<width>d", n)`; a width of 0 is plain `%d` and `"\(n)"`:
      the sign, then as many zeros as bring the text to `width`, then the digits. */
  function Format(n: int, width: nat): (r: string)
    ensures |r| >= 1 && |r| >= width && AllNumeral(r)
    ensures r[0] == '-' <==> n < 0
    ensures IsDigit(r[|r| - 1])
  {
    if n < 0 then "-" + Padded(-n, width - 1) else Padded(n, width)
  }

  /** The digits of `m` after as many zeros as bring them to `width` */
  function Padded(m: nat, width: int): (s: string)
    ensures AllDigits(s) && |s| >= 1 && |s| >= width
  {
    var digits := Digits(m);
    Zeros(if width > |digits| then width - |digits| else 0) + digits
  }

  /** Reading an integer back: an optional minus sign, then at least one digit */
  function ParseInt(s: string): Option<int>
  {
    if |s| > 0 && s[0] == '-' then
      if |s| > 1 && AllDigits(s[1..]) then Some(0 - ValueOf(s[1..])) else None
    else if |s| > 0 && AllDigits(s) then Some(ValueOf(s))
    else None
  }

  lemma {:induction false} ValueOfDigits(n: nat)
    ensures ValueOf(Digits(n)) == n
  {
    if n >= 10 {
      var s := Digits(n);
      assert s[..|s| - 1] == Digits(n / 10);
      ValueOfDigits(n / 10);
    }
  }

  lemma {:induction false} ValueOfLeadingZero(s: string)
    requires AllDigits(s)
    ensures ValueOf("0" + s) == ValueOf(s)
  {
    if s != [] {
      var t := "0" + s;
      assert t[..|t| - 1] == "0" + s[..|s| - 1];
      ValueOfLeadingZero(s[..|s| - 1]);
    }
  }

  /** Zero padding does not change the value a numeral denotes */
  lemma {:induction false} ValueOfZeroPadded(k: nat, s: string)
    requires AllDigits(s)
    ensures ValueOf(Zeros(k) + s) == ValueOf(s)
  {
    if k > 0 {
      var rest := Zeros(k - 1) + s;
      assert AllDigits(rest);
      assert Zeros(k) + s == "0" + rest;
      calc {
        ValueOf(Zeros(k) + s);
        ValueOf("0" + rest);
        { ValueOfLeadingZero(rest); }
        ValueOf(rest);
        { ValueOfZeroPadded(k - 1, s); }
        ValueOf(s);
      }
    } else {
      assert Zeros(k) + s == s;
    }
  }

  lemma ValueOfPadded(m: nat, width: int)
    ensures ValueOf(Padded(m, width)) == m
  {
    var digits := Digits(m);
    ValueOfZeroPadded(if width > |digits| then width - |digits| else 0, digits);
    ValueOfDigits(m);
  }

  lemma ParseUnsigned(body: string)
    requires |body| >= 1 && AllDigits(body)
    ensures AllNumeral(body)
    ensures ParseInt(body) == Some(ValueOf(body))
  {
    assert IsDigit(body[0]);
  }

  lemma ParseNegative(body: string)
    requires |body| >= 1 && AllDigits(body)
    ensures AllNumeral("-" + body)
    ensures ParseInt("-" + body) == Some(0 - ValueOf(body))
  {
    var s := "-" + body;
    assert s[1..] == body;
    forall i | 0 <= i < |s|
      ensures IsNumeralChar(s[i])
    {
      if i > 0 {
        assert s[i] == body[i - 1];
      }
    }
  }

  /** The rendering is made of numeral characters, is at least `width` long,
      and reading it back gives `n` again. */
  lemma FormatRoundTrip(n: int, width: nat)
    ensures AllNumeral(Format(n, width))
    ensures |Format(n, width)| >= width
    ensures ParseInt(Format(n, width)) == Some(n)
  {
    if n < 0 {
      var body := Padded(-n, width - 1);
      assert Format(n, width) == "-" + body;
      ValueOfPadded(-n, width - 1);
      ParseNegative(body);
    } else {
      var body := Padded(n, width);
      assert Format(n, width) == body;
      ValueOfPadded(n, width);
      ParseUnsigned(body);
    }
  }

  /** Two-digit fields: `%02d` of a number below 100 is exactly two characters. */
  lemma FormatTwoDigits(n: int)
    requires 0 <= n < 100
    ensures |Format(n, 2)| == 2 && AllDigits(Format(n, 2))
  {
    if n >= 10 {
      assert Digits(n) == Digits(n / 10) + [DigitChar(n % 10)];
    }
  }

  /** Padding to a wider field only adds leading zeros: a number with fewer
      than two digits gets one zero from `%02d` and none from `%d`. */
  lemma FormatPadOne(n: int)
    ensures Format(n, 2) == (if 0 <= n < 10 then "0" else "") + Format(n, 0)
  {
    if n >= 10 {
      assert |Digits(n)| >= 2 by {
        assert Digits(n) == Digits(n / 10) + [DigitChar(n % 10)];
      }
    }
  }
}
