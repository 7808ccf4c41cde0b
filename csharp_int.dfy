/** C#'s truncating division and remainder and `int.ToString()`. Division
    and remainder truncate toward zero, unlike Dafny's Euclidean `/` and `%`.
    The pipeline applies `/` to `int` values in the bin-to-hertz step, and
    `%` and `/` to the rounded `float` semitone value followed by an `(int)`
    cast in the label step; on a whole-number `float` both give the same
    result as the integer operators here. `int.ToString()` writes an
    optional minus sign followed by decimal digits. Integer width is not
    modelled: every value the pipeline forms stays far inside 32 bits. */
module CSharpInt {

  import opened Wrappers

  function Abs(x: int): (r: nat)
    ensures r == x || r == -x
  {
    if x < 0 then -x else x
  }

  /** Euclidean division of a natural number, as Dafny defines it. */
  lemma DivModBounds(x: nat, b: int)
    requires b > 0
    ensures x == b * (x / b) + x % b
    ensures b * (x / b) <= x < b * (x / b) + b
    ensures 0 <= x / b
    ensures x < b ==> x / b == 0
  {
    MulSign(b, x / b);
  }

  lemma MulSign(b: int, q: int)
    requires b > 0
    ensures q < 0 ==> b * q < 0
    ensures q > 0 ==> b * q >= b
  {
  }

  /** C#'s `a / b` on `int` for a positive divisor: the quotient truncated
      toward zero. */
  function Div(a: int, b: int): (q: int)
    requires b > 0
    ensures b * Abs(q) <= Abs(a) < b * Abs(q) + b
    ensures a >= 0 ==> q >= 0
    ensures a <= 0 ==> q <= 0
  {
    var m := Abs(a) / b;
    DivModBounds(Abs(a), b);
    if a < 0 then -m else m
  }

  /** C#'s `a % b` on `int` for a positive divisor: the remainder takes the
      sign of the dividend. */
  function Rem(a: int, b: int): (r: int)
    requires b > 0
    ensures a == b * Div(a, b) + r
    ensures Abs(r) < b
    ensures a >= 0 ==> r >= 0
    ensures a <= 0 ==> r <= 0
  {
    var m := Abs(a) % b;
    DivModBounds(Abs(a), b);
    if a < 0 then -m else m
  }

  predicate IsDigit(c: char)
  {
    '0' <= c <= '9'
  }

  function DigitChar(d: nat): (c: char)
    requires d < 10
    ensures IsDigit(c)
  {
    "0123456789"[d]
  }

  function DigitValue(c: char): (d: nat)
    requires IsDigit(c)
    ensures d < 10 && DigitChar(d) == c
  {
    (c - '0') as nat
  }

  /** Decimal digits of a natural number, most significant first, no leading zero. */
  function NatToString(n: nat): (s: string)
    ensures |s| > 0
    ensures forall i :: 0 <= i < |s| ==> IsDigit(s[i])
    ensures |s| > 1 ==> s[0] != '0'
  {
    if n < 10 then [DigitChar(n)] else NatToString(n / 10) + [DigitChar(n % 10)]
  }

  /** C#'s `int.ToString()`, with "-" as the minus sign. */
  function IntToString(i: int): (s: string)
    ensures |s| > 0
    ensures s[0] == '-' <==> i < 0
  {
    if i < 0 then "-" + NatToString(-i) else NatToString(i)
  }

  predicate AllDigits(s: string)
  {
    forall i :: 0 <= i < |s| ==> IsDigit(s[i])
  }

  /** Reads a string of decimal digits back into its value. */
  function ParseDigits(s: string): nat
    requires AllDigits(s)
  {
    if s == [] then 0 else 10 * ParseDigits(s[..|s| - 1]) + DigitValue(s[|s| - 1])
  }

  /** Reads back what IntToString writes; None for anything else. */
  function ParseInt(s: string): (r: Option<int>)
  {
    if |s| > 0 && s[0] == '-' then
      if |s| > 1 && AllDigits(s[1..]) then Some(0 - ParseDigits(s[1..])) else None
    else if |s| > 0 && AllDigits(s) then Some(ParseDigits(s))
    else None
  }

  lemma {:induction false} NatRoundTrip(n: nat)
    ensures ParseDigits(NatToString(n)) == n
  {
    if n >= 10 {
      var s := NatToString(n);
      assert s[..|s| - 1] == NatToString(n / 10);
      NatRoundTrip(n / 10);
    }
  }

  /** Writing an integer and reading it back gives the integer. */
  lemma IntRoundTrip(i: int)
    ensures ParseInt(IntToString(i)) == Some(i)
  {
    var s := IntToString(i);
    if i < 0 {
      var digits := NatToString(-i);
      assert s == "-" + digits && s[1..] == digits;
      assert AllDigits(digits);
      NatRoundTrip(-i);
    } else {
      assert AllDigits(s) && s[0] != '-';
      NatRoundTrip(i);
    }
  }

  /** int.ToString() is injective. */
  lemma IntToStringInjective(i: int, j: int)
    requires IntToString(i) == IntToString(j)
    ensures i == j
  {
    IntRoundTrip(i);
    IntRoundTrip(j);
  }
}
