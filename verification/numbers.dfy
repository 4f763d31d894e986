/** Decimal number parsing with the semantics of Rust's `str::parse` for
    `i32`, and the natural-number part of its `f32` parser. */
module Numbers {
  import opened Wrappers

  const I32Min: int := -0x8000_0000
  const I32Max: int := 0x7fff_ffff

  predicate InI32(x: int)
  {
    I32Min <= x <= I32Max
  }

  predicate IsDigit(ch: char)
  {
    '0' <= ch <= '9'
  }

  predicate AllDigits(s: string)
  {
    forall i :: 0 <= i < |s| ==> IsDigit(s[i])
  }

  function DigitValue(ch: char): nat
    requires IsDigit(ch)
  {
    (ch as int) - ('0' as int)
  }

  function DigitChar(d: nat): (ch: char)
    requires d < 10
    ensures IsDigit(ch) && DigitValue(ch) == d
  {
    (('0' as int) + d) as char
  }

  /** The value of a string of decimal digits, most significant first. */
  function DigitsValue(s: string): nat
    requires AllDigits(s)
  {
    if |s| == 0 then 0
    else DigitsValue(s[..|s| - 1]) * 10 + DigitValue(s[|s| - 1])
  }

  /** Parses a non-empty run of decimal digits; anything else is rejected. */
  function ParseNat(s: string): (r: Option<nat>)
    ensures r.Some? <==> |s| > 0 && AllDigits(s)
  {
    if |s| > 0 && AllDigits(s) then Some(DigitsValue(s)) else None
  }

  /** `s.parse::<i32>()`: an optional `+` or `-`, then at least one decimal
      digit; values outside the 32-bit signed range are rejected. */
  function ParseI32(s: string): (r: Option<int>)
    ensures r.Some? ==> InI32(r.value)
    ensures |s| == 0 ==> r == None
  {
    if |s| == 0 then None
    else
      var negative := s[0] == '-';
      var digits := if s[0] == '-' || s[0] == '+' then s[1..] else s;
      match ParseNat(digits)
      case None => None
      case Some(v) =>
        var x: int := if negative then -(v as int) else v;
        if InI32(x) then Some(x) else None
  }

  /** The shortest decimal rendering of `n`. */
  function NatToString(n: nat): (s: string)
    ensures |s| > 0 && AllDigits(s)
  {
    if n < 10 then [DigitChar(n)] else NatToString(n / 10) + [DigitChar(n % 10)]
  }

  /** Decimal rendering of an integer, with a leading `-` when negative. */
  function IntToString(x: int): string
  {
    if x < 0 then "-" + NatToString(-x) else NatToString(x)
  }

  /** Reading back a rendered natural gives the number. */
  lemma {:induction false} ParseNatToString(n: nat)
    ensures ParseNat(NatToString(n)) == Some(n)
    ensures DigitsValue(NatToString(n)) == n
  {
    var s := NatToString(n);
    if n >= 10 {
      ParseNatToString(n / 10);
      assert s[..|s| - 1] == NatToString(n / 10);
    } else {
      assert s[..|s| - 1] == [];
    }
    assert DigitsValue(s) == n;
  }

  /** Every 32-bit integer survives rendering and `ParseI32`. */
  lemma ParseI32ToString(x: int)
    requires InI32(x)
    ensures ParseI32(IntToString(x)) == Some(x)
  {
    var s := IntToString(x);
    if x < 0 {
      var d := NatToString(-x);
      ParseNatToString(-x);
      assert s == "-" + d;
      assert s[0] == '-' && s[1..] == d;
    } else {
      ParseNatToString(x);
      assert IsDigit(s[0]);
    }
  }

  /** `ParseI32` reads a leading `+` as a positive sign. */
  lemma ParseI32PlusSign(n: nat)
    requires n <= I32Max
    ensures ParseI32("+" + NatToString(n)) == Some(n)
  {
    ParseNatToString(n);
    assert ("+" + NatToString(n))[1..] == NatToString(n);
  }

  /** Every in-range run of digits is accepted, leading zeros included, bare
      or behind a `+`; behind a `-` it is accepted down to the 32-bit minimum. */
  lemma ParseI32Digits(d: string)
    requires |d| > 0 && AllDigits(d)
    ensures DigitsValue(d) <= I32Max ==>
      ParseI32(d) == Some(DigitsValue(d) as int) && ParseI32("+" + d) == Some(DigitsValue(d) as int)
    ensures DigitsValue(d) <= -I32Min ==> ParseI32("-" + d) == Some(-(DigitsValue(d) as int))
  {
    assert IsDigit(d[0]);
    assert ("+" + d)[1..] == d;
    assert ("-" + d)[1..] == d;
  }

  /** Whatever `ParseI32` accepts consists of an optional sign followed by
      one or more digits, and its value is those digits read in the sign's
      direction. */
  lemma ParseI32Accepts(s: string)
    requires ParseI32(s).Some?
    ensures var k := if s[0] == '-' || s[0] == '+' then 1 else 0;
      && |s| > k && AllDigits(s[k..])
      && ParseI32(s).value == (if s[0] == '-' then -(DigitsValue(s[1..]) as int) else DigitsValue(s[k..]))
  {
  }
}
