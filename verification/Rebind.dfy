/** SQL placeholders and their numbers (internal/platform/database/database.go). */
module Rebind {
  import opened Common
  import opened Text
  import opened Strconv

  function Pow10(k: nat): nat { if k == 0 then 1 else 10 * Pow10(k - 1) }

  lemma {:induction false} DigitsLength(n: nat, k: nat)
    requires k > 0 && n < Pow10(k)
    ensures |Digits(n)| <= k
  {
    if n >= 10 {
      assert Pow10(1) == 10 * Pow10(0) == 10;
      DigitsLength(n / 10, k - 1);
    }
  }

  lemma TenToThe19()
    ensures Pow10(19) == 10_000_000_000_000_000_000
  {
    assert Pow10(5) == 100_000;
    assert Pow10(10) == 10_000_000_000;
    assert Pow10(15) == 1_000_000_000_000_000;
  }

  /** The digits of n, none for zero. */
  function Leading(n: int): string { if n <= 0 then [] else Digits(n) }

  lemma LeadingFits(n: int)
    requires n <= MAX_INT64
    ensures |Leading(n)| <= 19
  {
    if n > 0 {
      TenToThe19();
      DigitsLength(n, 19);
    }
  }

  /** Taking the last digit off a spelling divides by ten; what is taken off is the remainder. */
  lemma {:induction false} LastDigit(text: string, j: nat)
    requires AllDigits(text) && 0 < j <= |text| && text[0] != '0'
    ensures Value(text[..j]) > 0
    ensures Value(text[..j]) / 10 == Value(text[..j - 1])
    ensures DigitChar(Value(text[..j]) % 10) == text[j - 1]
  {
    assert text[..j][..j - 1] == text[..j - 1];
    if j > 1 { LastDigit(text, j - 1); }
  }

  /** Writes the digits of n backwards from the end of the buffer; i is where they start. */
  method WriteDigits(buf: array<char>, n: int, ghost text: string) returns (i: nat)
    requires buf.Length == 20 && n <= MAX_INT64
    requires AllDigits(text) && |text| <= 19
    requires if n > 0 then text != [] && text[0] != '0' && Value(text) == n else text == []
    modifies buf
    ensures 1 <= i <= 20 && buf[i..] == text
  {
    i := buf.Length;
    var rest := n;
    ghost var j := |text|;
    assert text[..j] == text;
    while rest > 0
      invariant 0 <= j <= |text| && i == 20 - (|text| - j)
      invariant if n > 0 then rest == Value(text[..j]) else rest == n
      invariant buf[i..] == text[j..]
      decreases rest
    {
      LastDigit(text, j);
      i := i - 1;
      j := j - 1;
      buf[i] := DigitChar(rest % 10);
      assert buf[i..] == [text[j]] + text[j + 1..];
      rest := rest / 10;
    }
    if j > 0 { LastDigit(text, j); }
  }

  /** n without its sign, as Go computes it. */
  function Magnitude(n: int): int { if n < 0 then Wrap64(-n) else n }

  lemma Spelled(n: int)
    requires MIN_INT64 <= n <= MAX_INT64
    ensures n == MIN_INT64 ==> Magnitude(n) == n && |FormatInt(n)| > 1
    ensures n != MIN_INT64 ==>
              FormatInt(n) == if n == 0 then "0" else (if n < 0 then "-" else "") + Leading(Magnitude(n))
  {
  }

  lemma LeadingSpells(n: int)
    requires n <= MAX_INT64
    ensures |Leading(n)| <= 19 && AllDigits(Leading(n))
    ensures n > 0 ==> Leading(n) != [] && Leading(n)[0] != '0' && Value(Leading(n)) == n
    ensures n <= 0 ==> Leading(n) == []
  {
    LeadingFits(n);
  }

  /** The buffer with the digits of a non-zero n and its sign. */
  method SpellNonZero(n: int) returns (s: string)
    requires MIN_INT64 <= n <= MAX_INT64 && n != 0
    ensures s == (if n < 0 then "-" else "") + Leading(Magnitude(n))
  {
    var negative, rest := n < 0, Magnitude(n);
    ghost var text := Leading(rest);
    LeadingSpells(rest);
    var buf := new char[20];
    var i := WriteDigits(buf, rest, text);
    if negative {
      i := i - 1;
      buf[i] := '-';
      assert buf[i..] == "-" + text;
    }
    s := buf[i..];
  }

  /** The decimal spelling of a 64-bit integer. Negating the smallest one wraps to itself,
      and then no digit is written. */
  method Itoa(n: int) returns (s: string)
    requires MIN_INT64 <= n <= MAX_INT64
    ensures s == FormatInt(n) <==> n != MIN_INT64
    ensures n == MIN_INT64 ==> s == "-"
  {
    Spelled(n);
    if n == 0 {
      s := "0";
    } else {
      s := SpellNonZero(n);
    }
  }

  function Count(q: string): nat { if q == [] then 0 else (if q[0] == '?' then 1 else 0) + Count(q[1..]) }

  /** Every '?' replaced by '$' and a number, counting from k. */
  function Numbered(q: string, k: nat, spell: int -> string): string {
    if q == [] then []
    else if q[0] == '?' then "$" + spell(k) + Numbered(q[1..], k + 1, spell)
    else [q[0]] + Numbered(q[1..], k, spell)
  }

  function Rebound(q: string, k: nat): string { Numbered(q, k, FormatInt) }

  lemma {:induction false} NumberedConcat(a: string, b: string, k: nat, spell: int -> string)
    ensures Numbered(a + b, k, spell) == Numbered(a, k, spell) + Numbered(b, k + Count(a), spell)
  {
    if a == [] {
      assert a + b == b;
    } else {
      assert (a + b)[0] == a[0] && (a + b)[1..] == a[1..] + b;
      NumberedConcat(a[1..], b, if a[0] == '?' then k + 1 else k, spell);
    }
  }

  /** Wherever a '?' stands, it gets the number of placeholders up to and including it;
      what precedes and follows is rebound around it. */
  lemma KthPlaceholder(a: string, b: string)
    ensures Rebound(a + "?" + b, 1) == Rebound(a, 1) + ("$" + FormatInt(1 + Count(a))) + Rebound(b, 2 + Count(a))
  {
    assert a + "?" + b == a + ("?" + b);
    assert ("?" + b)[1..] == b;
    NumberedConcat(a, "?" + b, 1, FormatInt);
  }

  /** One character of a query at position i. */
  lemma NumberedStep(q: string, i: nat, k: nat, spell: int -> string)
    requires i < |q|
    ensures Numbered(q[i..], k, spell) ==
              if q[i] == '?' then ("$" + spell(k)) + Numbered(q[i + 1..], k + 1, spell)
              else [q[i]] + Numbered(q[i + 1..], k, spell)
  {
  }

  const POSTGRES := "postgres"

  method Rebind(query: string, driver: string) returns (r: string)
    requires |query| < MAX_INT64
    ensures driver != POSTGRES ==> r == query
    ensures driver == POSTGRES ==> r == Rebound(query, 1)
  {
    if driver != POSTGRES { return query; }
    r := "";
    var arg := 1;
    var i := 0;
    ghost var spell: int -> string := FormatInt;
    assert query[0..] == query;
    while i < |query|
      invariant 0 <= i <= |query| && 1 <= arg <= i + 1
      invariant Numbered(query, 1, spell) == r + Numbered(query[i..], arg, spell)
    {
      NumberedStep(query, i, arg, spell);
      ghost var before := r;
      if query[i] == '?' {
        var number := Itoa(arg);
        r := r + "$" + number;
        Regroup(before, "$", number, Numbered(query[i + 1..], arg + 1, spell));
        arg := arg + 1;
      } else {
        r := r + [query[i]];
        Regroup(before, [], [query[i]], Numbered(query[i + 1..], arg, spell));
      }
      i := i + 1;
    }
  }

  lemma Regroup(a: string, b: string, c: string, d: string)
    ensures a + ((b + c) + d) == (a + b + c) + d
    ensures a + (c + d) == (a + c) + d
  {
  }

  // ---- undoing it ----

  function DropDigits(s: string): (r: string)
    ensures |r| <= |s|
    ensures s != [] && IsDigit(s[0]) ==> |r| < |s|
    ensures s == [] || !IsDigit(s[0]) ==> r == s
  {
    if s != [] && IsDigit(s[0]) then DropDigits(s[1..]) else s
  }

  predicate DigitFirst(s: string) { s != [] && IsDigit(s[0]) }

  /** Every '$' that a number follows, with the number, back to '?'. */
  function Unbind(s: string): string
    decreases |s|
  {
    if s == [] then []
    else if s[0] == '$' && DigitFirst(s[1..]) then "?" + Unbind(DropDigits(s[1..]))
    else [s[0]] + Unbind(s[1..])
  }

  lemma {:induction false} DropRebound(q: string, k: nat)
    ensures DigitFirst(Rebound(q, k)) <==> DigitFirst(q)
    ensures DropDigits(Rebound(q, k)) == Rebound(DropDigits(q), k)
  {
    if DigitFirst(q) {
      assert Rebound(q, k)[1..] == Rebound(q[1..], k);
      DropRebound(q[1..], k);
    }
  }

  lemma {:induction false} DropNumber(digits: string, s: string)
    requires AllDigits(digits)
    ensures DropDigits(digits + s) == DropDigits(s)
  {
    if digits == [] {
      assert digits + s == s;
    } else {
      assert (digits + s)[1..] == digits[1..] + s;
      DropNumber(digits[1..], s);
    }
  }

  /** Unbinding what Rebind produced, one character of the query at a time. */
  lemma UnbindRebound(q: string, k: nat)
    requires q != []
    ensures Unbind(Rebound(q, k)) ==
              if q[0] == '?' then "?" + Unbind(Rebound(DropDigits(q[1..]), k + 1))
              else if q[0] == '$' && DigitFirst(q[1..]) then "?" + Unbind(Rebound(DropDigits(q[1..]), k))
              else [q[0]] + Unbind(Rebound(q[1..], k))
  {
    var s, t := Rebound(q, k), q[1..];
    if q[0] == '?' {
      var rest := Rebound(t, k + 1);
      assert s == "$" + FormatInt(k) + rest;
      assert s[1..] == FormatInt(k) + rest;
      assert DigitFirst(s[1..]) by { assert s[1..][0] == FormatInt(k)[0]; }
      DropNumber(FormatInt(k), rest);
      DropRebound(t, k + 1);
    } else {
      assert s[1..] == Rebound(t, k);
      DropRebound(t, k);
    }
  }

  lemma {:induction false} UnbindNoLonger(q: string, k: nat)
    ensures |Unbind(Rebound(q, k))| <= |q|
    decreases |q|
  {
    if q != [] {
      UnbindRebound(q, k);
      UnbindNoLonger(DropDigits(q[1..]), k + 1);
      UnbindNoLonger(DropDigits(q[1..]), k);
      UnbindNoLonger(q[1..], k);
    }
  }

  /** Some '?' or '$' has a digit right after it. */
  predicate Ambiguous(q: string) {
    exists i | 0 <= i < |q| - 1 :: (q[i] == '?' || q[i] == '$') && IsDigit(q[i + 1])
  }

  lemma AmbiguousStep(q: string)
    requires q != []
    ensures Ambiguous(q) <==> ((q[0] == '?' || q[0] == '$') && DigitFirst(q[1..])) || Ambiguous(q[1..])
  {
  }

  /** Unbind gives a query back from what Rebind made of it exactly when it is not ambiguous. */
  lemma {:induction false} RoundTripIff(q: string, k: nat)
    ensures Unbind(Rebound(q, k)) == q <==> !Ambiguous(q)
    decreases |q|
  {
    if q != [] {
      var t := q[1..];
      assert q == [q[0]] + t;
      AmbiguousStep(q);
      UnbindRebound(q, k);
      UnbindNoLonger(DropDigits(t), k + 1);
      RoundTripIff(t, k + 1);
      RoundTripIff(t, k);
    }
  }

  /** So different queries that are not ambiguous are never rebound to the same text. */
  lemma Injective(p: string, q: string, k: nat)
    requires !Ambiguous(p) && !Ambiguous(q) && Rebound(p, k) == Rebound(q, k)
    ensures p == q
  {
    RoundTripIff(p, k);
    RoundTripIff(q, k);
  }

  // ---- which queries have no double at all ----

  lemma {:induction false} NoMarksLeft(q: string, k: nat)
    ensures '?' !in Rebound(q, k)
  {
    if q != [] {
      NoMarksLeft(q[1..], k + 1);
      NoMarksLeft(q[1..], k);
      assert AllDigits(FormatInt(k));
    }
  }

  lemma {:induction false} Unmarked(q: string, k: nat)
    requires '?' !in q
    ensures Rebound(q, k) == q && Count(q) == 0
  {
    if q != [] {
      assert q[0] in q && forall c | c in q[1..] :: c in q;
      Unmarked(q[1..], k);
    }
  }

  predicate HasFirstMark(q: string) { exists i | 0 <= i < |q| - 1 :: q[i] == '$' && q[i + 1] == '1' }

  lemma FirstMark(a: string, b: string)
    requires '?' !in a
    ensures Rebound(a + "?" + b, 1) == a + "$1" + Rebound(b, 2)
    ensures HasFirstMark(Rebound(a + "?" + b, 1))
  {
    Unmarked(a, 1);
    KthPlaceholder(a, b);
    assert FormatInt(1) == "1";
    var s := a + "$1" + Rebound(b, 2);
    assert s[|a|] == '$' && s[|a| + 1] == '1';
  }

  /** Another query with the same rebound text. */
  ghost predicate Double(p: string, q: string) { p != q && Rebound(p, 1) == Rebound(q, 1) }

  lemma PlainDouble(q: string)
    requires '?' in q
    ensures Double(Rebound(q, 1), q)
  {
    NoMarksLeft(q, 1);
    Unmarked(Rebound(q, 1), 1);
  }

  lemma MarkedDouble(q: string) returns (p: string)
    requires '?' !in q && HasFirstMark(q)
    ensures Double(p, q)
  {
    Unmarked(q, 1);
    var i :| 0 <= i < |q| - 1 && q[i] == '$' && q[i + 1] == '1';
    var a, b := q[..i], q[i + 2..];
    assert q == a + "$1" + b;
    assert forall c | c in a || c in b :: c in q;
    Unmarked(b, 2);
    FirstMark(a, b);
    p := a + "?" + b;
    assert p[i] == '?';
  }

  /** A query is the only one with its rebound text exactly when it has no placeholder and
      does not itself contain the text of the first one. */
  lemma UniquePreimageIff(q: string)
    ensures (exists p :: Double(p, q)) <==> '?' in q || HasFirstMark(q)
  {
    if '?' in q {
      PlainDouble(q);
    } else if HasFirstMark(q) {
      var p := MarkedDouble(q);
    } else {
      Unmarked(q, 1);
      forall p ensures !Double(p, q) {
        if Rebound(p, 1) == q { OnlyOne(p, q); }
      }
    }
  }

  lemma OnlyOne(p: string, q: string)
    requires '?' !in q && !HasFirstMark(q) && Rebound(p, 1) == q
    ensures p == q
  {
    if '?' in p {
      var i := IndexOf(p, '?');
      var j :| 0 <= j < |p| && p[j] == '?';
      assert p[..|p|] == p && p[j] in p;
      assert p == p[..i] + "?" + p[i + 1..];
      FirstMark(p[..i], p[i + 1..]);
    } else {
      Unmarked(p, 1);
    }
  }
}
