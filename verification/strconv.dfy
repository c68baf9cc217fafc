/**
 Decimal integer conversion as performed by Go's `strconv.Atoi` on a 64-bit
 platform: an optional '+' or '-' sign followed by at least one ASCII digit,
 with the value inside the int64 range; anything else is an error.
 */
module Strconv {
  import opened Options

  const MinInt64: int := -0x8000_0000_0000_0000
  const MaxInt64: int := 0x7FFF_FFFF_FFFF_FFFF

  predicate IsDigit(c: char) {
    '0' <= c <= '9'
  }

  predicate AllDigits(s: string) {
    forall i | 0 <= i < |s| :: IsDigit(s[i])
  }

  function DigitValue(c: char): (d: nat)
    requires IsDigit(c)
    ensures d < 10
  {
    c as int - '0' as int
  }

  function DigitChar(d: nat): (c: char)
    requires d < 10
    ensures IsDigit(c) && DigitValue(c) == d
  {
    ('0' as int + d) as char
  }

  /** The value of a run of decimal digits, most significant first. */
  function DecimalValue(ds: string): nat
    requires AllDigits(ds)
  {
    if |ds| == 0 then 0
    else DecimalValue(ds[..|ds| - 1]) * 10 + DigitValue(ds[|ds| - 1])
  }

  /** The shortest decimal spelling of a natural number (no sign, no leading zeros). */
  function FormatDecimal(n: nat): (s: string)
    ensures |s| > 0 && AllDigits(s)
  {
    if n < 10 then [DigitChar(n)]
    else FormatDecimal(n / 10) + [DigitChar(n % 10)]
  }

  /**
   `strconv.Itoa`: a '-' for negative numbers, then the decimal digits. Not
   called by the program; it is the inverse against which `Atoi` is stated.
   */
  function Itoa(n: int): string {
    if n < 0 then "-" + FormatDecimal(-n) else FormatDecimal(n)
  }

  /**
   `strconv.Atoi`: `None` stands for the syntax and range errors. The three
   accepted shapes are plain digits, '+' then digits, and '-' then digits;
   each is read as its value when that value fits int64 and is a range error
   otherwise. Every other string (empty, a lone sign, any other character) is
   a syntax error.
   */
  function Atoi(s: string): (r: Option<int>)
    ensures r.Some? ==> MinInt64 <= r.value <= MaxInt64
    ensures |s| > 0 && AllDigits(s) ==>
              r == (if DecimalValue(s) <= MaxInt64 then Some(DecimalValue(s)) else None)
    ensures |s| > 1 && s[0] == '+' && AllDigits(s[1..]) ==>
              r == (if DecimalValue(s[1..]) <= MaxInt64 then Some(DecimalValue(s[1..])) else None)
    ensures |s| > 1 && s[0] == '-' && AllDigits(s[1..]) ==>
              r == (if DecimalValue(s[1..]) <= -MinInt64 then Some(-(DecimalValue(s[1..]) as int)) else None)
    ensures !(|s| > 0 && AllDigits(s)) && !(|s| > 1 && (s[0] == '+' || s[0] == '-') && AllDigits(s[1..])) ==>
              r == None
  {
    if |s| == 0 then None
    else
      var signed := s[0] == '-' || s[0] == '+';
      var body := if signed then s[1..] else s;
      if |body| == 0 || !AllDigits(body) then None
      else
        var magnitude: int := DecimalValue(body);
        var v := if s[0] == '-' then -magnitude else magnitude;
        if MinInt64 <= v <= MaxInt64 then Some(v) else None
  }

  lemma {:induction false} FormatDecimalValue(n: nat)
    ensures DecimalValue(FormatDecimal(n)) == n
    decreases n
  {
    var s := FormatDecimal(n);
    if n >= 10 {
      FormatDecimalValue(n / 10);
      assert s[..|s| - 1] == FormatDecimal(n / 10);
    }
  }

  /** Every int64 survives a trip through `Itoa` and back through `Atoi`. */
  lemma AtoiItoa(n: int)
    requires MinInt64 <= n <= MaxInt64
    ensures Atoi(Itoa(n)) == Some(n)
  {
    if n < 0 {
      FormatDecimalValue(-n);
      assert Itoa(n)[1..] == FormatDecimal(-n);
    } else {
      FormatDecimalValue(n);
    }
  }

  /**
   The edges of the int64 range: one past the maximum is a range error, the
   minimum is accepted although its magnitude is not, and a lone sign is a
   syntax error.
   */
  lemma AtoiRangeEdges()
    ensures Atoi(FormatDecimal(MaxInt64 + 1)) == None
    ensures Atoi("+" + FormatDecimal(MaxInt64 + 1)) == None
    ensures Atoi("-" + FormatDecimal(-MinInt64)) == Some(MinInt64)
    ensures Atoi("-" + FormatDecimal(-MinInt64 + 1)) == None
    ensures Atoi("+") == None && Atoi("-") == None
  {
    FormatDecimalValue(MaxInt64 + 1);
    assert ("+" + FormatDecimal(MaxInt64 + 1))[1..] == FormatDecimal(MaxInt64 + 1);
    assert ("-" + FormatDecimal(-MinInt64))[1..] == FormatDecimal(-MinInt64);
    FormatDecimalValue(-MinInt64 + 1);
    assert ("-" + FormatDecimal(-MinInt64 + 1))[1..] == FormatDecimal(-MinInt64 + 1);
  }

  /** A string containing a character that is neither a digit nor a leading sign is rejected. */
  lemma AtoiRejectsNonDigit(s: string, i: nat)
    requires i < |s| && !IsDigit(s[i])
    requires i > 0 || (s[i] != '-' && s[i] != '+')
    ensures Atoi(s) == None
  {
    if |s| > 0 && (s[0] == '-' || s[0] == '+') {
      assert s[1..][i - 1] == s[i];
    }
  }
}
