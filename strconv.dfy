/** Go's 64-bit `int` and the two conversions of the `strconv` package the
    service uses: `Atoi` to read the paging parameters of a request and `Itoa`
    to write the LIMIT and OFFSET of a query. */
module Strconv {
  import opened Wrappers

  const MinInt64: int := -0x8000_0000_0000_0000
  const MaxInt64: int := 0x7fff_ffff_ffff_ffff
  const MaxUint64: int := 0xffff_ffff_ffff_ffff
  const TwoTo64: int := 0x1_0000_0000_0000_0000

  /** Go's `int`, 64 bits wide on the platforms the service is built for. */
  type Int64 = x: int | MinInt64 <= x <= MaxInt64

  predicate IsDigit(c: char) {
    '0' <= c <= '9'
  }

  predicate AllDigits(s: string) {
    forall i :: 0 <= i < |s| ==> IsDigit(s[i])
  }

  function DigitValue(c: char): (d: nat)
    requires IsDigit(c)
    ensures d < 10
  {
    (c as int) - ('0' as int)
  }

  function DigitChar(d: nat): (c: char)
    requires d < 10
    ensures IsDigit(c) && DigitValue(c) == d
  {
    (('0' as int) + d) as char
  }

  /** The value of a string of decimal digits, read left to right. */
  function DigitsValue(s: string): nat
    requires AllDigits(s)
  {
    if s == [] then 0 else DigitsValue(s[..|s| - 1]) * 10 + DigitValue(s[|s| - 1])
  }

  /** The longest prefix of `s` made of decimal digits. */
  function LeadingDigits(s: string): (p: string)
    ensures AllDigits(p) && p <= s
    ensures p == s || !IsDigit(s[|p|])
  {
    if s == [] || !IsDigit(s[0]) then [] else [s[0]] + LeadingDigits(s[1..])
  }

  /** Why a text is not an integer: `strconv.ErrSyntax` or `strconv.ErrRange`. */
  datatype NumCause = ErrSyntax | ErrRange

  /** `strconv.NumError`: the refused text and the cause. */
  datatype NumError = NumError(num: string, cause: NumCause)

  /** The sign-stripped part of an integer text: one optional '+' or '-'. */
  function Unsigned(s: string): string {
    if |s| > 0 && (s[0] == '+' || s[0] == '-') then s[1..] else s
  }

  /** A text `Atoi` reads as an integer: an optional sign, then one or more
      decimal digits. */
  predicate IsDecimal(s: string) {
    |Unsigned(s)| > 0 && AllDigits(Unsigned(s))
  }

  function DecimalValue(s: string): int
    requires IsDecimal(s)
  {
    var v: int := DigitsValue(Unsigned(s));
    if s[0] == '-' then -v else v
  }

  /** `strconv.Atoi`. The digits are read left to right: a digit prefix that
      already exceeds the unsigned 64-bit range is reported as out of range
      before a later bad character is seen, every other malformed text as a
      syntax error, and a well-formed value outside `Int64` as out of range. */
  function Atoi(s: string): (r: Result<Int64, NumError>)
    ensures r.Ok? <==> IsDecimal(s) && MinInt64 <= DecimalValue(s) <= MaxInt64
    ensures r.Ok? ==> r.value == DecimalValue(s)
    ensures r.Err? ==> r.error.num == s
    ensures r.Err? ==>
      (r.error.cause == ErrSyntax <==> !IsDecimal(s) && DigitsValue(LeadingDigits(Unsigned(s))) <= MaxUint64)
  {
    var digits := Unsigned(s);
    if digits == [] then Err(NumError(s, ErrSyntax))
    else if DigitsValue(LeadingDigits(digits)) > MaxUint64 then
      assert AllDigits(digits) ==> LeadingDigits(digits) == digits;
      Err(NumError(s, ErrRange))
    else if !AllDigits(digits) then Err(NumError(s, ErrSyntax))
    else
      var u: int := DigitsValue(digits);
      var v := if s[0] == '-' then -u else u;
      if v < MinInt64 || v > MaxInt64 then Err(NumError(s, ErrRange)) else Ok(v)
  }

  /** The decimal digits of a natural number, most significant first. */
  function NatDigits(n: nat): (s: string)
    ensures |s| > 0 && AllDigits(s) && DigitsValue(s) == n
    ensures |s| > 1 ==> s[0] != '0'
  {
    if n < 10 then [DigitChar(n)]
    else
      var high := NatDigits(n / 10);
      assert (high + [DigitChar(n % 10)])[..|high|] == high;
      high + [DigitChar(n % 10)]
  }

  /** `strconv.Itoa`: a '-' for negative numbers, then the digits, with no
      leading zero except in "0" itself. */
  function Itoa(n: int): (s: string)
    ensures |s| > 0 && (s[0] == '-' || IsDigit(s[0]))
    ensures forall i :: 0 < i < |s| ==> IsDigit(s[i])
    ensures s[0] == '-' <==> n < 0
    ensures |Unsigned(s)| > 1 ==> Unsigned(s)[0] != '0'
    ensures n < 0 ==> |Unsigned(s)| > 0 && Unsigned(s)[0] != '0'
  {
    if n < 0 then "-" + NatDigits(-n) else NatDigits(n)
  }

  /** Reading back what `Itoa` wrote gives the number again. */
  lemma ItoaAtoi(n: Int64)
    ensures Atoi(Itoa(n)) == Ok(n)
  {
    var m: int := n;
    var digits := NatDigits(if m < 0 then -m else m);
    assert Unsigned(Itoa(n)) == digits;
    assert LeadingDigits(digits) == digits;
  }

  /** Decimal texts of a few numbers, as the unit tests of the service expect them. */
  lemma ItoaExamples()
    ensures Itoa(0) == "0" && Itoa(10) == "10" && Itoa(17) == "17"
    ensures Itoa(38) == "38" && Itoa(646) == "646"
  {
    assert NatDigits(1) == "1";
    assert NatDigits(3) == "3";
    assert NatDigits(6) == "6";
    assert NatDigits(64) == "64";
  }

  /** The paging values of the route's examples. */
  lemma AtoiExamples()
    ensures Atoi("17") == Ok(17) && Atoi("38") == Ok(38)
  {
    ItoaExamples();
    ItoaAtoi(17);
    ItoaAtoi(38);
  }

  /** Go's 64-bit integer arithmetic: the result wraps around modulo 2^64
      into the signed range. */
  function WrapInt64(x: int): (r: Int64)
    ensures (r - x) % TwoTo64 == 0
    ensures MinInt64 <= x <= MaxInt64 ==> r == x
  {
    (x - MinInt64) % TwoTo64 + MinInt64
  }
}
