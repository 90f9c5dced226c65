/** Decimal text: how numbers are printed and how a port is read back. */
module Decimal {
  import opened Bytes

  predicate IsDigit(c: char)
  {
    '0' <= c <= '9'
  }

  function Digit(d: nat): (c: char)
    requires d < 10
    ensures IsDigit(c) && c as int - '0' as int == d
  {
    (d + '0' as int) as char
  }

  /** The decimal text of a number, without leading zeros. */
  function Show(n: nat): (s: string)
    ensures |s| > 0 && forall i :: 0 <= i < |s| ==> IsDigit(s[i])
  {
    if n < 10 then [Digit(n)] else Show(n / 10) + [Digit(n % 10)]
  }

  function Value(s: string): (v: nat)
    requires forall i :: 0 <= i < |s| ==> IsDigit(s[i])
  {
    if s == [] then 0 else assert IsDigit(s[|s| - 1]); Value(s[..|s| - 1]) * 10 + (s[|s| - 1] as int - '0' as int)
  }

  lemma {:induction false} ValueShow(n: nat)
    ensures Value(Show(n)) == n
  {
    if n >= 10 {
      ValueShow(n / 10);
      assert Show(n)[..|Show(n)| - 1] == Show(n / 10);
    }
  }

  predicate Digits(s: string)
  {
    s != "" && forall i :: 0 <= i < |s| ==> IsDigit(s[i])
  }

  /** Parse a 16-bit port: an optional '+', then at least one digit, within range. */
  function ParsePort(s: string): (p: Option<u16>)
  {
    var digits := if s != [] && s[0] == '+' then s[1..] else s;
    if !Digits(digits) then None
    else if Value(digits) > U16_MAX then None
    else Some(Value(digits))
  }

  /** A text reads as a port if and only if it is digits of that value, with or without a plus sign. */
  lemma ParsePortExact(s: string, p: u16)
    ensures ParsePort(s) == Some(p) <==>
            exists digits :: Digits(digits) && Value(digits) == p && (s == digits || s == "+" + digits)
  {
    var digits := if s != [] && s[0] == '+' then s[1..] else s;
    assert s == digits || s == "+" + digits;
    forall ds | Digits(ds) && (s == ds || s == "+" + ds)
      ensures ds == digits
    {
      assert IsDigit(ds[0]);
      assert s == "+" + ds ==> s[1..] == ds;
    }
  }

  lemma ParseShow(p: u16)
    ensures ParsePort(Show(p)) == Some(p)
  {
    ValueShow(p);
    assert IsDigit(Show(p)[0]);
  }
}
