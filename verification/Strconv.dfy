/** Decimal text and 64-bit integers, as Go's strconv reads and writes them. */
module Strconv {
  import opened Common
  import opened Text

  predicate AllDigits(s: string) { forall i | 0 <= i < |s| :: IsDigit(s[i]) }

  function DigitChar(d: nat): char
    requires d < 10
  {
    '0' + d as char
  }

  function DigitValue(c: char): nat
    requires IsDigit(c)
  {
    (c - '0') as nat
  }

  /** What a string of digits denotes. */
  function Value(s: string): nat
    requires AllDigits(s)
  {
    if s == [] then 0 else 10 * Value(s[..|s| - 1]) + DigitValue(s[|s| - 1])
  }

  /** The decimal spelling of n, without leading zeros. */
  function Digits(n: nat): (s: string)
    ensures |s| > 0 && AllDigits(s)
    ensures Value(s) == n
    ensures s[0] == '0' ==> n == 0
  {
    if n < 10 then [DigitChar(n)]
    else
      var front := Digits(n / 10);
      var s := front + [DigitChar(n % 10)];
      assert s[..|s| - 1] == front;
      s
  }

  function FormatInt(n: int): string {
    if n < 0 then "-" + Digits(-n) else Digits(n)
  }

  /** strconv.Atoi and ParseInt(s, 10, 64): optional sign, digits, 64-bit range. */
  function Atoi(s: string): Option<int> {
    if s == [] then None
    else
      var negative := s[0] == '-';
      var digits := if s[0] == '-' || s[0] == '+' then s[1..] else s;
      if digits == [] || !AllDigits(digits) then None
      else
        var n: int := Value(digits);
        var n := if negative then -n else n;
        if MIN_INT64 <= n <= MAX_INT64 then Some(n) else None
  }

  /** A plus sign is allowed, and anything but digits after the sign is not. */
  lemma AtoiReads(digits: string)
    requires digits != "" && AllDigits(digits) && Value(digits) <= MAX_INT64
    ensures Atoi(digits) == Atoi("+" + digits) == Some(Value(digits))
    ensures var n: int := Value(digits); Atoi("-" + digits) == Some(-n)
  {
    assert ("+" + digits)[1..] == digits && ("-" + digits)[1..] == digits;
  }

  lemma AtoiRefuses(s: string, i: nat)
    requires i < |s| && !IsDigit(s[i]) && (i > 0 || (s[0] != '+' && s[0] != '-'))
    ensures Atoi(s).None? && Atoi("").None? && Atoi("+").None? && Atoi("-").None?
  {
    var digits := if s[0] == '-' || s[0] == '+' then s[1..] else s;
    assert i > 0 ==> s[i] == s[1..][i - 1];
    assert digits == [] || !AllDigits(digits);
  }

  /** Reading back what was written gives the same number. */
  lemma AtoiFormat(n: int)
    requires MIN_INT64 <= n <= MAX_INT64
    ensures Atoi(FormatInt(n)) == Some(n)
  {
  }
}
