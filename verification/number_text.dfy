/** `parseFloat` over exact rationals: the longest decimal prefix of the text after its leading
    white space, or `None` where JavaScript yields NaN. */
module NumberText {
  import opened Base
  import opened Text

  predicate IsDigit(c: char)
  {
    '0' <= c <= '9'
  }

  /** Length of the run of digits that starts `s`. */
  function DigitRun(s: string): (n: nat)
    ensures n <= |s|
    ensures forall i :: 0 <= i < n ==> IsDigit(s[i])
    ensures n < |s| ==> !IsDigit(s[n])
  {
    if |s| > 0 && IsDigit(s[0]) then 1 + DigitRun(s[1..]) else 0
  }

  /** Value of a decimal digit. */
  function DigitOf(c: char): (v: nat)
    ensures v < 10
  {
    if IsDigit(c) then c as int - '0' as int else 0
  }

  /** Value of a string of decimal digits, most significant first. */
  function DigitsValue(d: string): nat
  {
    if |d| == 0 then 0 else DigitsValue(d[..|d| - 1]) * 10 + DigitOf(d[|d| - 1])
  }

  function Pow10(e: nat): (r: nat)
    ensures r >= 1
  {
    if e == 0 then 1 else 10 * Pow10(e - 1)
  }

  /** `10` raised to an integer power. */
  function Scale(e: int): (r: real)
    ensures r > 0.0
  {
    if e >= 0 then Pow10(e) as real else 1.0 / (Pow10(-e) as real)
  }

  /** The exponent written at the start of `s` (`e`, an optional sign, at least one digit),
      or 0 when `s` does not start with one. */
  function ExponentOf(s: string): int
  {
    if |s| >= 2 && (s[0] == 'e' || s[0] == 'E') then
      var neg := s[1] == '-';
      var digits := if s[1] == '-' || s[1] == '+' then s[2..] else s[1..];
      var n := DigitRun(digits);
      if n == 0 then 0
      else if neg then -(DigitsValue(digits[..n]) as int)
      else DigitsValue(digits[..n]) as int
    else 0
  }

  /** `parseFloat(s)`: leading white space is skipped, then an optional sign, then the number;
      `None` stands for NaN. */
  function ParseFloat(s: string): (r: Option<real>)
    ensures r.Some? ==> exists i :: 0 <= i < |s| && IsDigit(s[i])
    decreases |s|
  {
    if |s| > 0 && IsSpace(s[0]) then ParseFloat(s[1..])
    else if |s| > 0 && s[0] == '-' then Negate(ParseUnsigned(s[1..]))
    else if |s| > 0 && s[0] == '+' then ParseUnsigned(s[1..])
    else ParseUnsigned(s)
  }

  function Negate(r: Option<real>): Option<real>
  {
    if r.Some? then Some(-r.value) else None
  }

  /** The number written as the digits `whole`, a point and the digits `frac`, followed by the
      text `rest`, which may start with an exponent. */
  function Number(whole: string, frac: string, rest: string): (r: real)
    ensures r >= 0.0
  {
    var m := DigitsValue(whole + frac) as real / Pow10(|frac|) as real;
    assert m >= 0.0;
    m * Scale(ExponentOf(rest))
  }

  /** The number written at the start of `u`: digits, optionally a point and more digits, at
      least one digit in all, then optionally an exponent. */
  function ParseUnsigned(u: string): (r: Option<real>)
    ensures r.Some? ==> r.value >= 0.0 && exists i :: 0 <= i < |u| && IsDigit(u[i])
  {
    var i := DigitRun(u);
    if i < |u| && u[i] == '.' then
      var f := DigitRun(u[i + 1..]);
      if i == 0 && f == 0 then None
      else
        assert IsDigit(u[0]) || IsDigit(u[i + 1..][0]);
        Some(Number(u[..i], u[i + 1..i + 1 + f], u[i + 1 + f..]))
    else if i == 0 then None
    else
      assert IsDigit(u[0]);
      Some(Number(u[..i], "", u[i..]))
  }

  /** `parseFloat(x) || 0`: NaN and zero both become 0. */
  function OrZero(r: Option<real>): (v: real)
    ensures r.None? ==> v == 0.0
    ensures r.Some? ==> v == r.value
  {
    if r.Some? then r.value else 0.0
  }

  lemma {:induction false} DigitsValueOfNatToString(n: nat)
    ensures DigitsValue(NatToString(n)) == n
    decreases n
  {
    var d := NatToString(n);
    if n >= 10 {
      DigitsValueOfNatToString(n / 10);
      assert d[..|d| - 1] == NatToString(n / 10);
    }
  }

  /** Reading back the decimal text of a whole number gives that number, whatever text follows
      it as long as that text does not continue the number. */
  lemma ParseFloatOfNatToString(n: nat, rest: string)
    requires rest == "" || (!IsDigit(rest[0]) && rest[0] != '.' && rest[0] != 'e' && rest[0] != 'E')
    ensures ParseFloat(NatToString(n) + rest) == Some(n as real)
  {
    var d := NatToString(n);
    var s := d + rest;
    assert s[0] == d[0] && IsDigit(s[0]);
    UnsignedOfDigits(d, rest);
    DigitsValueOfNatToString(n);
  }

  lemma UnsignedOfDigits(d: string, rest: string)
    requires |d| > 0 && forall i :: 0 <= i < |d| ==> IsDigit(d[i])
    requires rest == "" || (!IsDigit(rest[0]) && rest[0] != '.' && rest[0] != 'e' && rest[0] != 'E')
    ensures ParseUnsigned(d + rest) == Some(DigitsValue(d) as real)
  {
    var u := d + rest;
    DigitRunPrefix(d, rest);
    assert u[..|d|] == d;
    assert u[|d|..] == rest;
    assert |d| < |u| ==> u[|d|] == rest[0];
    WholeNumber(d, rest);
  }

  lemma WholeNumber(d: string, rest: string)
    requires rest == "" || (rest[0] != 'e' && rest[0] != 'E')
    ensures Number(d, "", rest) == DigitsValue(d) as real
  {
    assert d + "" == d;
    assert ExponentOf(rest) == 0;
  }

  lemma {:induction false} DigitRunPrefix(d: string, rest: string)
    requires forall i :: 0 <= i < |d| ==> IsDigit(d[i])
    requires rest == "" || !IsDigit(rest[0])
    ensures DigitRun(d + rest) == |d|
  {
    if |d| > 0 {
      assert (d + rest)[1..] == d[1..] + rest;
      DigitRunPrefix(d[1..], rest);
    } else {
      assert d + rest == rest;
    }
  }
}
