/** Decimal renderings and readings of integers: Rust's `{}` formatting of integers and
    `isize::from_str_radix(_, 10)`, as used for time fields and the format version. */
module Decimal {
  import opened Options

  /** Bounds of a 64-bit `isize`. */
  const IsizeMin: int := -0x8000_0000_0000_0000
  const IsizeMax: int := 0x7FFF_FFFF_FFFF_FFFF

  predicate IsDigit(c: char) {
    '0' <= c <= '9'
  }

  function DigitChar(d: nat): (c: char)
    requires d < 10
    ensures IsDigit(c)
  {
    ('0' as int + d) as char
  }

  function DigitVal(c: char): (d: nat)
    requires IsDigit(c)
    ensures d < 10 && DigitChar(d) == c
  {
    c as int - '0' as int
  }

  /** The digits of `n` without leading zeros. */
  function NatDigits(n: nat): (r: string)
    ensures |r| >= 1
    ensures forall i :: 0 <= i < |r| ==> IsDigit(r[i])
  {
    if n < 10 then [DigitChar(n)] else NatDigits(n / 10) + [DigitChar(n % 10)]
  }

  /** Rust's `{}` rendering of an integer. */
  function Render(n: int): string {
    if n < 0 then "-" + NatDigits(-n) else NatDigits(n)
  }

  /** The value of a string of decimal digits; `None` when some character is not a digit.
      The empty string reads as zero; callers that need at least one digit check the length. */
  function DigitsValue(s: string): (r: Option<nat>)
    ensures r.Some? <==> forall i :: 0 <= i < |s| ==> IsDigit(s[i])
  {
    if |s| == 0 then Some(0)
    else
      var last := s[|s| - 1];
      match DigitsValue(s[..|s| - 1])
      case None => None
      case Some(v) => if IsDigit(last) then Some(10 * v + DigitVal(last)) else None
  }

  /** `isize::from_str_radix(s, 10)`: an optional sign, then at least one digit, and a value
      that fits in 64 bits. */
  function ParseIsize(s: string): (r: Option<int>)
    ensures r.Some? ==> IsizeMin <= r.value <= IsizeMax
  {
    var negative := |s| > 0 && s[0] == '-';
    var digits := if |s| > 0 && (s[0] == '-' || s[0] == '+') then s[1..] else s;
    if |digits| == 0 then None
    else
      match DigitsValue(digits)
      case None => None
      case Some(v) =>
        var n: int := if negative then -(v as int) else v;
        if IsizeMin <= n <= IsizeMax then Some(n) else None
  }

  lemma {:induction false} DigitsValueAppend(s: string, c: char)
    requires IsDigit(c)
    ensures DigitsValue(s + [c]).Some? == DigitsValue(s).Some?
    ensures DigitsValue(s).Some? ==> DigitsValue(s + [c]) == Some(10 * DigitsValue(s).value + DigitVal(c))
  {
    assert (s + [c])[..|s + [c]| - 1] == s;
  }

  /** Reading back the digits of `n` gives `n`. */
  lemma {:induction false} DigitsValueOfNatDigits(n: nat)
    ensures DigitsValue(NatDigits(n)) == Some(n)
  {
    if n < 10 {
      assert NatDigits(n)[..0] == [];
    } else {
      DigitsValueOfNatDigits(n / 10);
      DigitsValueAppend(NatDigits(n / 10), DigitChar(n % 10));
    }
  }

  /** A leading zero does not change the value read. */
  lemma {:induction false} DigitsValueLeadingZero(s: string)
    ensures DigitsValue("0" + s) == DigitsValue(s)
    decreases |s|
  {
    if |s| == 0 {
      assert ("0" + s)[..0] == [];
    } else {
      var init := s[..|s| - 1];
      var last := s[|s| - 1];
      assert ("0" + s)[..|"0" + s| - 1] == "0" + init;
      assert ("0" + s)[|"0" + s| - 1] == last;
      DigitsValueLeadingZero(init);
    }
  }

  lemma NatDigitsWidth(n: nat)
    ensures n < 10 ==> |NatDigits(n)| == 1
    ensures 10 <= n < 100 ==> |NatDigits(n)| == 2
    ensures 1000 <= n < 10000 ==> |NatDigits(n)| == 4
    ensures 100 <= n ==> |NatDigits(n)| >= 3
    ensures 10 <= n < 1000 ==> |NatDigits(n)| <= 3
    ensures 10000 <= n ==> |NatDigits(n)| >= 5
  {
    if n >= 10 {
      NatDigitsWidth(n / 10);
    }
  }

  /** The shape of a rendered integer: an optional minus sign, then digits. */
  predicate Numeral(p: string) {
    && |p| >= 1
    && (p[0] == '-' || IsDigit(p[0]))
    && forall i :: 1 <= i < |p| ==> IsDigit(p[i])
  }

  /** Every rendering is a numeral, and it starts with a digit exactly when the number is
      not negative. */
  lemma RenderIsNumeral(n: int)
    ensures Numeral(Render(n))
    ensures IsDigit(Render(n)[0]) <==> n >= 0
  {
  }

  /** `from_str_radix` reads back every 64-bit integer that `{}` renders. */
  lemma ParseIsizeOfRender(n: int)
    requires IsizeMin <= n <= IsizeMax
    ensures ParseIsize(Render(n)) == Some(n)
  {
    if n < 0 {
      DigitsValueOfNatDigits(-n);
      ParseIsizeOfNegatedDigits(NatDigits(-n), -n);
    } else {
      DigitsValueOfNatDigits(n);
      ParseIsizeOfDigits(NatDigits(n), n);
    }
  }

  /** `from_str_radix` on a bare run of digits. */
  lemma ParseIsizeOfDigits(d: string, v: nat)
    requires |d| > 0 && IsDigit(d[0]) && DigitsValue(d) == Some(v)
    ensures ParseIsize(d) == if v <= IsizeMax then Some(v) else None
  {
  }

  /** `from_str_radix` on a run of digits after a minus sign. */
  lemma ParseIsizeOfNegatedDigits(d: string, v: nat)
    requires |d| > 0 && DigitsValue(d) == Some(v)
    ensures ParseIsize("-" + d) == if IsizeMin <= -(v as int) then Some(-(v as int)) else None
  {
    var s := "-" + d;
    assert s[0] == '-' && |s| > 0;
    assert s[1..] == d;
    assert DigitsValue(s[1..]) == Some(v);
  }
}
