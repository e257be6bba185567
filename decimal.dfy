/** Decimal integer parsing as done by Rust's `str::parse` for unsigned and
    signed integer types: an optional sign followed by one or more ASCII digits.
    Fixed-width overflow is not modelled (values are unbounded). */
module Decimal {
  import opened Wrappers

  predicate IsDigit(c: char) {
    '0' <= c <= '9'
  }

  predicate AllDigits(s: string) {
    forall i | 0 <= i < |s| :: IsDigit(s[i])
  }

  function DigitValue(c: char): (d: nat)
    requires IsDigit(c)
    ensures d < 10
  {
    c as int - '0' as int
  }

  function DigitChar(d: nat): (c: char)
    requires d < 10
    ensures IsDigit(c) && DigitValue(c) == d
  {
    ('0' as int + d) as char
  }

  /** The value of a string of digits, most significant digit first. */
  function DigitsValue(s: string): nat
    requires AllDigits(s)
  {
    if s == [] then 0 else DigitsValue(s[..|s| - 1]) * 10 + DigitValue(s[|s| - 1])
  }

  /** A non-empty run of digits and nothing else (a regular expression `\d+`). */
  function ParseDigits(s: string): (r: Option<nat>)
    ensures r.Some? <==> s != [] && AllDigits(s)
  {
    if s != [] && AllDigits(s) then Some(DigitsValue(s)) else None
  }

  /** `parse::<usize>()` (or `u32`, `u64`): an optional '+', then digits. */
  function ParseUnsigned(s: string): (r: Option<nat>)
    ensures r.Some? <==> (s != [] && s[0] == '+' && ParseDigits(s[1..]).Some?) || ParseDigits(s).Some?
  {
    if s != [] && s[0] == '+' then ParseDigits(s[1..]) else ParseDigits(s)
  }

  /** `parse::<isize>()`: an optional '+' or '-', then digits. */
  function ParseSigned(s: string): (r: Option<int>)
    ensures r.Some? <==> (s != [] && s[0] in {'+', '-'} && ParseDigits(s[1..]).Some?) || ParseDigits(s).Some?
    ensures r.Some? && s != [] && s[0] == '-' ==> r.value <= 0
    ensures r.Some? && (s == [] || s[0] != '-') ==> r.value >= 0
  {
    if s != [] && s[0] == '-' then
      match ParseDigits(s[1..])
      case Some(n) => Some(-(n as int))
      case None => None
    else
      match ParseUnsigned(s)
      case Some(n) => Some(n as int)
      case None => None
  }

  /** The shortest decimal rendering of `n`, as Rust's `Display` prints it. */
  function ToDecimal(n: nat): (s: string)
    ensures s != [] && AllDigits(s)
    ensures s[0] != '0' || n == 0
  {
    if n < 10 then [DigitChar(n)] else ToDecimal(n / 10) + [DigitChar(n % 10)]
  }

  /** A signed rendering: a '-' before the magnitude of a negative number. */
  function SignedToDecimal(i: int): (s: string)
    ensures s != []
  {
    if i < 0 then "-" + ToDecimal(-i) else ToDecimal(i)
  }

  lemma {:induction false} DigitsValueToDecimal(n: nat)
    ensures DigitsValue(ToDecimal(n)) == n
  {
    if n >= 10 {
      var s := ToDecimal(n / 10);
      var t := s + [DigitChar(n % 10)];
      assert t[..|t| - 1] == s;
      DigitsValueToDecimal(n / 10);
    }
  }

  /** Parsing what `ToDecimal` prints gives the number back. */
  lemma ParseToDecimal(n: nat)
    ensures ParseDigits(ToDecimal(n)) == Some(n)
    ensures ParseUnsigned(ToDecimal(n)) == Some(n)
  {
    DigitsValueToDecimal(n);
  }

  /** Parsing what `SignedToDecimal` prints gives the signed number back. */
  lemma ParseSignedToDecimal(i: int)
    ensures ParseSigned(SignedToDecimal(i)) == Some(i)
  {
    if i < 0 {
      ParseToDecimal(-i);
      assert ("-" + ToDecimal(-i))[1..] == ToDecimal(-i);
    } else {
      ParseToDecimal(i);
    }
  }
}
