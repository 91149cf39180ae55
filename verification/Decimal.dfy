/** Decimal text of 32-bit integers. */
module Decimal {
  import opened Prelude

  const I32_MIN := -0x8000_0000
  const I32_MAX := 0x7FFF_FFFF

  type i32 = x: int | I32_MIN <= x <= I32_MAX

  predicate AllDigits(s: string) { forall i :: 0 <= i < |s| ==> IsDigit(s[i]) }

  function DigitOf(n: nat): (c: char)
    requires n < 10
    ensures IsDigit(c)
  {
    '0' + n as char
  }

  function Digits(n: nat): (s: string)
    ensures s != [] && AllDigits(s)
  {
    if n < 10 then [DigitOf(n)] else Digits(n / 10) + [DigitOf(n % 10)]
  }

  function Value(s: string): nat
    requires AllDigits(s)
  {
    if s == [] then 0 else Value(s[..|s| - 1]) * 10 + (s[|s| - 1] as int - '0' as int)
  }

  function Zeros(n: nat): (s: string)
    ensures |s| == n && AllDigits(s)
  {
    seq(n, i => '0')
  }

  /** `to_string` of an integer. */
  function Print(i: int): string {
    if i < 0 then "-" + Digits(-i) else Digits(i)
  }

  /** `{:0width}`: the sign counts, and the zeros go between it and the digits. */
  function Padded(i: int, width: nat): string {
    var sign, digits := if i < 0 then "-" else "", Digits(if i < 0 then -i else i);
    sign + Zeros(if |sign| + |digits| < width then width - |sign| - |digits| else 0) + digits
  }

  /** `parse::<i32>`. */
  function ParseI32(s: string): Option<i32> {
    var digits := if s != [] && (s[0] == '+' || s[0] == '-') then s[1..] else s;
    if digits == [] || !AllDigits(digits) then None
    else
      var n: int := if s[0] == '-' then 0 - Value(digits) else Value(digits);
      if I32_MIN <= n <= I32_MAX then Some(n) else None
  }

  lemma {:induction false} ValueOfDigits(n: nat)
    ensures Value(Digits(n)) == n
  {
    if n >= 10 {
      ValueOfDigits(n / 10);
      assert Digits(n)[..|Digits(n)| - 1] == Digits(n / 10);
    }
  }

  lemma {:induction false} LeadingZeros(n: nat, s: string)
    requires AllDigits(s)
    ensures AllDigits(Zeros(n) + s) && Value(Zeros(n) + s) == Value(s)
  {
    if s == [] {
      assert Zeros(n) + s == Zeros(n);
      if n > 0 {
        assert Zeros(n)[..n - 1] == Zeros(n - 1);
        LeadingZeros(n - 1, s);
        assert Zeros(n - 1) + s == Zeros(n - 1);
      }
    } else {
      assert (Zeros(n) + s)[..n + |s| - 1] == Zeros(n) + s[..|s| - 1];
      LeadingZeros(n, s[..|s| - 1]);
    }
  }

  lemma ParseOfDigits(s: string)
    requires s != [] && AllDigits(s)
    ensures ParseI32(s) == if Value(s) <= I32_MAX then Some(Value(s)) else None
  {
    assert IsDigit(s[0]);
  }

  /** Printing and parsing a 32-bit integer. */
  lemma ParseOfPrint(i: i32)
    ensures ParseI32(Print(i)) == Some(i)
  {
    var n: int := i;
    if n < 0 {
      ValueOfDigits(-n);
      assert Print(i)[1..] == Digits(-n);
    } else {
      ValueOfDigits(i);
      ParseOfDigits(Digits(i));
    }
  }

  lemma {:induction false} NoLeadingZero(n: nat)
    ensures |Digits(n)| > 1 ==> Digits(n)[0] != '0'
  {
    if n >= 10 {
      NoLeadingZero(n / 10);
      if n / 10 < 10 {
        assert Digits(n)[0] == DigitOf(n / 10);
      }
    }
  }

  /** A number is printed one way: a minus sign if and only if it is negative, and no leading zero. */
  lemma PrintIsCanonical(i: int)
    ensures i >= 0 ==> Print(i) != [] && AllDigits(Print(i)) && Value(Print(i)) == i
    ensures i < 0 ==> Print(i) == "-" + Print(-i)
    ensures i >= 0 && |Print(i)| > 1 ==> Print(i)[0] != '0'
  {
    if i >= 0 {
      ValueOfDigits(i);
      NoLeadingZero(i);
    }
  }

  /** Padding fills up to the width and no further. */
  lemma PaddedIsAsWide(i: int, width: nat)
    ensures |Padded(i, width)| == if |Print(i)| < width then width else |Print(i)|
  {
  }

  /** A padded number is all digits and parses back, unless it is negative: then it starts with its sign. */
  lemma ParseOfPadded(i: i32, width: nat)
    ensures i >= 0 ==> AllDigits(Padded(i, width)) && Padded(i, width) != [] && ParseI32(Padded(i, width)) == Some(i)
    ensures i < 0 ==> Padded(i, width) != [] && Padded(i, width)[0] == '-'
  {
    if i >= 0 {
      var digits := Digits(i);
      var zeros := if |digits| < width then width - |digits| else 0;
      assert Padded(i, width) == Zeros(zeros) + digits;
      LeadingZeros(zeros, digits);
      ValueOfDigits(i);
      ParseOfDigits(Padded(i, width));
    }
  }

  /** Only a leading `-` makes a number negative. */
  lemma UnsignedIsNonNegative(s: string)
    requires '-' !in s
    ensures ParseI32(s).Some? ==> ParseI32(s).value >= 0
  {
  }
}
