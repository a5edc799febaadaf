/** Decimal integers as text: the part of Python's `int(str)` and `str(int)`
    the calculator uses, restricted to the ASCII digits '0'..'9'. */
module Numerals {
  import opened Text

  predicate IsDigit(c: char)
  {
    '0' <= c <= '9'
  }

  predicate AllDigits(s: string)
  {
    forall i :: 0 <= i < |s| ==> IsDigit(s[i])
  }

  /** The text `int()` accepts here: an optional '-' then one or more digits. */
  predicate IsIntLiteral(s: string)
  {
    (|s| >= 1 && AllDigits(s)) || (|s| >= 2 && s[0] == '-' && AllDigits(s[1..]))
  }

  function DigitValue(c: char): (v: nat)
    requires IsDigit(c)
    ensures v < 10
  {
    c as int - '0' as int
  }

  function DigitChar(v: nat): (c: char)
    requires v < 10
    ensures IsDigit(c) && DigitValue(c) == v
  {
    ('0' as int + v) as char
  }

  /** The value of a run of decimal digits, most significant first. */
  function ValueOf(ds: string): nat
    requires AllDigits(ds)
  {
    if ds == [] then 0 else 10 * ValueOf(ds[..|ds| - 1]) + DigitValue(ds[|ds| - 1])
  }

  /** `int(s)`: `None` where Python raises `ValueError`. */
  function ParseInt(s: string): (r: Option<int>)
    ensures r.Some? <==> IsIntLiteral(s)
    ensures r.Some? && r.value < 0 ==> s[0] == '-'
  {
    if |s| >= 1 && AllDigits(s) then Some(ValueOf(s))
    else if |s| >= 2 && s[0] == '-' && AllDigits(s[1..]) then Some(-(ValueOf(s[1..]) as int))
    else None
  }

  /** Decimal digits of a natural number, without leading zeros. */
  function NatToString(n: nat): (s: string)
    ensures |s| >= 1 && AllDigits(s)
    ensures s[0] == '0' ==> n == 0
  {
    if n < 10 then [DigitChar(n)] else NatToString(n / 10) + [DigitChar(n % 10)]
  }

  /** `str(n)` for an int. */
  function Show(n: int): (s: string)
    ensures IsIntLiteral(s)
    ensures s[0] == '-' <==> n < 0
  {
    if n < 0 then "-" + NatToString(-n) else NatToString(n)
  }

  lemma {:induction false} NatToStringValue(n: nat)
    ensures ValueOf(NatToString(n)) == n
  {
    if n >= 10 {
      var s := NatToString(n);
      NatToStringValue(n / 10);
      assert s[..|s| - 1] == NatToString(n / 10);
    }
  }

  /** `int(str(n)) == n`: rendering an integer and reading it back is the identity. */
  lemma {:induction false} ParseShow(n: int)
    ensures ParseInt(Show(n)) == Some(n)
  {
    if n < 0 {
      NatToStringValue(-n);
      assert Show(n)[1..] == NatToString(-n);
    } else {
      NatToStringValue(n);
    }
  }
}
