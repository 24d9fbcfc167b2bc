/** The part of Go's fmt that the error messages rely on: the `%d` verb for an
    `int`, and reading a number back out of such text. */
module Format {
  import opened Wrappers

  predicate IsDigit(ch: char)
  {
    '0' <= ch <= '9'
  }

  predicate AllDigits(s: string)
  {
    forall i :: 0 <= i < |s| ==> IsDigit(s[i])
  }

  function DigitChar(d: nat): (ch: char)
    requires d < 10
    ensures IsDigit(ch)
  {
    ('0' as int + d) as char
  }

  function DigitValue(ch: char): (d: nat)
    requires IsDigit(ch)
    ensures d < 10
  {
    ch as int - '0' as int
  }

  /** Decimal digits of `n`, most significant first, without leading zeros. */
  function NatToDecimal(n: nat): (s: string)
    ensures |s| > 0 && AllDigits(s)
    decreases n
  {
    if n < 10 then [DigitChar(n)] else NatToDecimal(n / 10) + [DigitChar(n % 10)]
  }

  /** `fmt.Sprintf("%d", n)`: a minus sign for negative values, then the digits. */
  function Decimal(n: int): string
  {
    if n < 0 then "-" + NatToDecimal(-n) else NatToDecimal(n)
  }

  /** The value of a string of decimal digits. */
  function DecimalValue(s: string): nat
    requires AllDigits(s)
  {
    if s == [] then 0 else DecimalValue(s[..|s| - 1]) * 10 + DigitValue(s[|s| - 1])
  }

  /** The longest prefix of `s` made of digits. */
  function LeadingDigits(s: string): (d: string)
    ensures d <= s && AllDigits(d)
    ensures |d| < |s| ==> !IsDigit(s[|d|])
  {
    if s != [] && IsDigit(s[0]) then [s[0]] + LeadingDigits(s[1..]) else []
  }

  /** Reads an optionally negative integer at the start of `s`; `None` when
      no digit is there. */
  function ParseInt(s: string): Option<int>
  {
    if s != [] && s[0] == '-' then
      var d := LeadingDigits(s[1..]);
      var v: int := DecimalValue(d);
      if d == [] then None else Some(-v)
    else
      var d := LeadingDigits(s);
      if d == [] then None else Some(DecimalValue(d))
  }

  /** Reading the digits back gives the number that was printed. */
  lemma {:induction false} NatToDecimalRoundTrip(n: nat)
    ensures DecimalValue(NatToDecimal(n)) == n
    decreases n
  {
    if n >= 10 {
      var s := NatToDecimal(n);
      NatToDecimalRoundTrip(n / 10);
      assert s[..|s| - 1] == NatToDecimal(n / 10);
    }
  }

  /** The digits of a number end where a non-digit follows them. */
  lemma {:induction false} LeadingDigitsOfDigits(d: string, rest: string)
    requires AllDigits(d)
    requires rest == [] || !IsDigit(rest[0])
    ensures LeadingDigits(d + rest) == d
  {
    if d != [] {
      assert (d + rest)[1..] == d[1..] + rest;
      LeadingDigitsOfDigits(d[1..], rest);
    }
  }

  /** `%d` followed by anything that does not start with a digit can be read
      back: the number printed is recovered exactly. */
  lemma DecimalRoundTrip(n: int, rest: string)
    requires rest == [] || !IsDigit(rest[0])
    ensures ParseInt(Decimal(n) + rest) == Some(n)
  {
    if n < 0 {
      NegativeRoundTrip(-n, rest);
    } else {
      DigitsRoundTrip(n, rest);
    }
  }

  lemma DigitsRoundTrip(n: nat, rest: string)
    requires rest == [] || !IsDigit(rest[0])
    ensures ParseInt(NatToDecimal(n) + rest) == Some(n)
  {
    var digits := NatToDecimal(n);
    var s := digits + rest;
    assert s[0] == digits[0] && s[0] != '-';
    LeadingDigitsOfDigits(digits, rest);
    NatToDecimalRoundTrip(n);
  }

  lemma NegativeRoundTrip(m: nat, rest: string)
    requires m > 0
    requires rest == [] || !IsDigit(rest[0])
    ensures ParseInt("-" + NatToDecimal(m) + rest) == Some(0 - m as int)
  {
    var digits := NatToDecimal(m);
    var s := "-" + digits + rest;
    assert s[0] == '-';
    assert s[1..] == digits + rest;
    LeadingDigitsOfDigits(digits, rest);
    NatToDecimalRoundTrip(m);
  }
}
