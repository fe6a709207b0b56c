/**
 * Decimal text of 64-bit integers, as the broker produces and reads it: the
 * `%d` verb of Go's fmt package (FormatInt) and strconv.ParseInt with base 10
 * and bit size 64 (ParseInt64).
 */
module Decimal {
  import opened Wrappers

  const MinInt64: int := -0x8000_0000_0000_0000
  const MaxInt64: int := 0x7FFF_FFFF_FFFF_FFFF
  const TwoTo64: int := 0x1_0000_0000_0000_0000

  predicate IsInt64(n: int) {
    MinInt64 <= n <= MaxInt64
  }

  /** Two's-complement addition of int64 values, as sync/atomic.AddInt64 performs it. */
  function AddInt64(a: int, b: int): (r: int)
    requires IsInt64(a) && IsInt64(b)
    ensures IsInt64(r)
    ensures (r - (a + b)) % TwoTo64 == 0
    ensures IsInt64(a + b) ==> r == a + b
  {
    (a + b - MinInt64) % TwoTo64 + MinInt64
  }

  predicate IsDigit(c: char) {
    '0' <= c <= '9'
  }

  predicate AllDigits(s: string) {
    forall i :: 0 <= i < |s| ==> IsDigit(s[i])
  }

  function DigitChar(d: nat): (c: char)
    requires d < 10
    ensures IsDigit(c) && c as int - '0' as int == d
  {
    ('0' as int + d) as char
  }

  /** The value of a run of decimal digits, most significant digit first. */
  function ValueOf(digits: string): nat
    requires AllDigits(digits)
  {
    if digits == [] then 0
    else ValueOf(digits[..|digits| - 1]) * 10 + (digits[|digits| - 1] as int - '0' as int)
  }

  /** The shortest decimal digits of `n`: a leading zero only for zero itself. */
  function Digits(n: nat): (s: string)
    ensures 1 <= |s| && AllDigits(s)
    ensures s[0] == '0' <==> n == 0
  {
    if n < 10 then [DigitChar(n)] else Digits(n / 10) + [DigitChar(n % 10)]
  }

  lemma {:induction false} ValueOfDigits(n: nat)
    ensures ValueOf(Digits(n)) == n
  {
    if n >= 10 {
      var init := Digits(n / 10);
      assert Digits(n)[..|Digits(n)| - 1] == init;
      ValueOfDigits(n / 10);
    }
  }

  /** `%d`: a minus sign for negative values, then the digits of the magnitude. */
  function FormatInt(n: int): (s: string)
    ensures 1 <= |s|
    ensures s[0] == '-' <==> n < 0
    ensures forall i :: 0 <= i < |s| ==> IsDigit(s[i]) || (i == 0 && s[i] == '-')
  {
    if n < 0 then "-" + Digits(-n) else Digits(n)
  }

  predicate IsSign(c: char) {
    c == '+' || c == '-'
  }

  /**
   * The text strconv.ParseInt accepts in base 10: an optional sign in front,
   * decimal digits everywhere else, and at least one digit.
   */
  predicate DecimalSyntax(s: string) {
    |s| >= 1 && IsDigit(s[|s| - 1]) &&
    forall i :: 0 <= i < |s| ==> IsDigit(s[i]) || (i == 0 && IsSign(s[i]))
  }

  /** The digits of `digits` without its leading zeros, keeping one digit. */
  function StripZeros(digits: string): (r: string)
    ensures |digits| >= 1 ==> |r| >= 1
    ensures |r| <= |digits| && r == digits[|digits| - |r|..]
    ensures |r| > 1 ==> r[0] != '0'
  {
    if |digits| > 1 && digits[0] == '0' then StripZeros(digits[1..]) else digits
  }

  /** The digits of decimal text, after its sign. */
  function Magnitude(s: string): (digits: string)
    requires DecimalSyntax(s)
    ensures |digits| >= 1 && AllDigits(digits)
  {
    var digits := if IsSign(s[0]) then s[1..] else s;
    assert forall i :: 0 <= i < |digits| ==> digits[i] == s[i + |s| - |digits|];
    digits
  }

  /** The number decimal text denotes. */
  function SignedValue(s: string): int
    requires DecimalSyntax(s)
  {
    if s[0] == '-' then 0 - ValueOf(Magnitude(s)) as int else ValueOf(Magnitude(s))
  }

  /**
   * The spelling of decimal text with the '+' and the leading zeros dropped,
   * and no '-' on zero.
   */
  function Canonical(s: string): string
    requires DecimalSyntax(s)
  {
    var digits := StripZeros(Magnitude(s));
    if s[0] == '-' && digits != "0" then "-" + digits else digits
  }

  /**
   * strconv.ParseInt(s, 10, 64) with its error collapsed to None: an optional
   * '+' or '-' sign, then one or more decimal digits (leading zeros allowed,
   * no underscores in base 10), and the value must fit in an int64 (a value
   * out of range is an error).
   */
  function ParseInt64(s: string): (r: Option<int>)
    ensures r.Some? ==> IsInt64(r.value)
    ensures r.Some? ==> DecimalSyntax(s)
  {
    if s == [] then None
    else
      var body := if IsSign(s[0]) then s[1..] else s;
      if body == [] || !AllDigits(body) then None
      else
        assert s[|s| - 1] == body[|body| - 1];
        assert forall i :: 0 < i < |s| && IsSign(s[0]) ==> s[i] == body[i - 1];
        var v: int := if s[0] == '-' then 0 - ValueOf(body) as int else ValueOf(body);
        if IsInt64(v) then Some(v) else None
  }

  lemma {:induction false} ValueOfLeadingZero(rest: string)
    requires AllDigits(rest)
    ensures ValueOf("0" + rest) == ValueOf(rest)
  {
    if rest != [] {
      var init := rest[..|rest| - 1];
      assert ("0" + rest)[..|"0" + rest| - 1] == "0" + init;
      ValueOfLeadingZero(init);
    }
  }

  lemma {:induction false} StripZerosValue(digits: string)
    requires AllDigits(digits)
    ensures ValueOf(StripZeros(digits)) == ValueOf(digits)
  {
    if |digits| > 1 && digits[0] == '0' {
      StripZerosValue(digits[1..]);
      assert digits == "0" + digits[1..];
      ValueOfLeadingZero(digits[1..]);
    }
  }

  /** Digits that do not start with a zero denote at least 1, and at least 10 when there are two or more. */
  lemma {:induction false} LeadingDigitBound(digits: string)
    requires AllDigits(digits) && |digits| >= 1 && digits[0] != '0'
    ensures ValueOf(digits) >= 1
    ensures |digits| >= 2 ==> ValueOf(digits) >= 10
  {
    var init := digits[..|digits| - 1];
    if |digits| >= 2 {
      LeadingDigitBound(init);
    }
  }

  /** Digits without leading zeros are the `%d` digits of their own value. */
  lemma {:induction false} DigitsOfValue(digits: string)
    requires AllDigits(digits) && |digits| >= 1 && (|digits| == 1 || digits[0] != '0')
    ensures Digits(ValueOf(digits)) == digits
  {
    var init := digits[..|digits| - 1];
    var last := digits[|digits| - 1] as int - '0' as int;
    if |digits| == 1 {
      assert ValueOf(digits) == last;
      assert DigitChar(last) as int == digits[0] as int;
    } else {
      LeadingDigitBound(init);
      DigitsOfValue(init);
      var n := ValueOf(digits);
      assert n == ValueOf(init) * 10 + last && 0 <= last < 10;
      assert n / 10 == ValueOf(init) && n % 10 == last;
      assert DigitChar(last) as int == digits[|digits| - 1] as int;
      assert digits == init + [digits[|digits| - 1]];
    }
  }

  /** Every int64 printed with `%d` parses back to itself. */
  lemma ParseFormatRoundTrip(n: int)
    requires IsInt64(n)
    ensures ParseInt64(FormatInt(n)) == Some(n)
  {
    var s := FormatInt(n);
    if n < 0 {
      assert s == "-" + Digits(-n) && |s| >= 2;
      assert DecimalSyntax(s) && Magnitude(s) == Digits(-n);
      ValueOfDigits(-n);
    } else {
      assert DecimalSyntax(s) && Magnitude(s) == Digits(n);
      ValueOfDigits(n);
    }
    ParseOfSyntax(s);
  }

  /** Digits with their leading zeros dropped are the `%d` digits of their value. */
  lemma StripZerosIsDigits(digits: string)
    requires |digits| >= 1 && AllDigits(digits)
    ensures Digits(ValueOf(digits)) == StripZeros(digits)
    ensures ValueOf(digits) == 0 <==> StripZeros(digits) == "0"
  {
    var d := StripZeros(digits);
    assert AllDigits(d) by {
      assert forall i :: 0 <= i < |d| ==> d[i] == digits[i + |digits| - |d|];
    }
    StripZerosValue(digits);
    DigitsOfValue(d);
    if d[0] != '0' {
      LeadingDigitBound(d);
    }
  }

  /** Dropping the '+' and the leading zeros gives the `%d` spelling of the value the text denotes. */
  lemma CanonicalIsFormat(s: string)
    requires DecimalSyntax(s)
    ensures Canonical(s) == FormatInt(SignedValue(s))
  {
    StripZerosIsDigits(Magnitude(s));
  }

  /** `%d` spells different numbers differently. */
  lemma FormatIntInjective(a: int, b: int)
    requires FormatInt(a) == FormatInt(b)
    ensures a == b
  {
    if a < 0 {
      assert FormatInt(a)[1..] == Digits(-a) && FormatInt(b)[1..] == Digits(-b);
      ValueOfDigits(-a);
      ValueOfDigits(-b);
    } else {
      ValueOfDigits(a);
      ValueOfDigits(b);
    }
  }

  /** On well-formed text, ParseInt64 yields the denoted value when it fits in an int64, and fails otherwise. */
  lemma ParseOfSyntax(s: string)
    requires DecimalSyntax(s)
    ensures ParseInt64(s) == if IsInt64(SignedValue(s)) then Some(SignedValue(s)) else None
  {
  }

  /**
   * What strconv.ParseInt(s, 10, 64) accepts and what it yields: it succeeds
   * with `v` iff `s` is decimal text whose `%d` spelling is that of the int64
   * `v`. Any other text (no digits, a lone sign, a stray character, a value
   * out of range) is rejected.
   */
  lemma ParseInt64Value(s: string, v: int)
    ensures ParseInt64(s) == Some(v) <==> DecimalSyntax(s) && IsInt64(v) && FormatInt(v) == Canonical(s)
  {
    if DecimalSyntax(s) {
      ParseOfSyntax(s);
      CanonicalIsFormat(s);
      if FormatInt(v) == Canonical(s) {
        FormatIntInjective(v, SignedValue(s));
      }
    }
  }
}
