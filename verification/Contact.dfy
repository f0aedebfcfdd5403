/** Canonical phone numbers (internal/modules/auth/domain/contact.go). */
module Contact {
  import opened Common
  import opened Text
  import opened Strconv

  predicate Kept(c: char) { IsDigit(c) || c == '+' }

  /** contactCleaner: separators of any kind are dropped, wherever they stand. */
  function Clean(s: string): (r: string)
    ensures forall i | 0 <= i < |r| :: Kept(r[i])
    ensures (forall i | 0 <= i < |s| :: Kept(s[i])) ==> r == s
  {
    if s == [] then [] else (if Kept(s[0]) then [s[0]] else []) + Clean(s[1..])
  }

  function TrimPrefix(s: string, p: string): string { if p <= s then s[|p|..] else s }

  predicate Starts(s: string, c: char) { s != "" && s[0] == c }

  predicate IsValidPhone(phone: string) {
    Starts(phone, '+') && 7 <= |phone| - 1 <= 15 && AllDigits(phone[1..])
  }

  /** A leading "00", a local trunk zero, or no prefix at all, turned into "+". */
  function International(phone: string, cc: string): string {
    var p := if Starts(phone, '0') && Starts(phone[1..], '0') then "+" + phone[2..] else phone;
    var q := if Starts(p, '0') && cc != "" then "+" + cc + p[1..] else p;
    if Starts(q, '+') then q else "+" + q
  }

  /** A trunk zero typed after the country code is dropped. */
  function WithoutTrunkZero(phone: string, cc: string): string {
    if cc != "" && "+" + cc + "0" <= phone then "+" + cc + phone[|cc| + 2..] else phone
  }

  function NormalizePhone(raw: string, defaultCountryCode: string): Option<string> {
    var phone := Clean(TrimSpace(raw));
    if phone == "" then None
    else
      var cc := TrimPrefix(defaultCountryCode, "+");
      var p := WithoutTrunkZero(International(phone, cc), cc);
      if (Starts(p, '+') && Starts(p[1..], '0')) || !IsValidPhone(p) then None else Some(p)
  }

  /** Every number accepted is '+' and 7 to 15 digits, the first of them not zero. */
  lemma ResultShape(raw: string, dcc: string)
    requires NormalizePhone(raw, dcc).Some?
    ensures var p := NormalizePhone(raw, dcc).value;
            7 <= |p| - 1 <= 15 && p[0] == '+' && AllDigits(p[1..]) && p[1] != '0'
  {
    var p := NormalizePhone(raw, dcc).value;
    assert p[1..][0] == p[1];
  }

  lemma {:induction false} CleanConcat(a: string, b: string)
    ensures Clean(a + b) == Clean(a) + Clean(b)
  {
    if a == [] {
      assert a + b == b;
    } else {
      assert (a + b)[0] == a[0] && (a + b)[1..] == a[1..] + b;
      CleanConcat(a[1..], b);
    }
  }

  /** Cleaning looks at each character alone: digits and "+" stay, everything else goes. */
  lemma CleanAt(a: string, c: char, b: string)
    ensures Clean(a + [c] + b) == Clean(a) + (if '0' <= c <= '9' || c == '+' then [c] else []) + Clean(b)
    ensures Clean("") == ""
  {
    CleanConcat(a + [c], b);
    CleanConcat(a, [c]);
    assert [c][1..] == [];
  }

  lemma {:induction false} CleanTrimLeft(s: string)
    ensures Clean(TrimLeft(s)) == Clean(s)
  {
    if s != [] && IsSpace(s[0]) { CleanTrimLeft(s[1..]); }
  }

  lemma {:induction false} CleanTrimRight(s: string)
    ensures Clean(TrimRight(s)) == Clean(s)
  {
    if s != [] && IsSpace(s[|s| - 1]) {
      CleanTrimRight(s[..|s| - 1]);
      CleanConcat(s[..|s| - 1], [s[|s| - 1]]);
      assert s == s[..|s| - 1] + [s[|s| - 1]];
    }
  }

  /** Trimming first changes nothing: spaces are separators too. */
  lemma CleanTrim(s: string)
    ensures Clean(TrimSpace(s)) == Clean(s)
  {
    CleanTrimRight(TrimLeft(s));
    CleanTrimLeft(s);
  }

  /** Digits that do not start with zero. */
  predicate Plain(s: string) { s != "" && AllDigits(s) && s[0] != '0' }

  /** The ways to write subscriber n of country cc, separators aside. */
  predicate Spells(s: string, cc: string, n: string) {
    s == "0" + n || WithCode(s, cc + n) || WithCode(s, cc + ("0" + n))
  }

  predicate WithCode(s: string, x: string) { s == x || s == "+" + x || s == "00" + x }

  lemma LocalPrefix(n: string, cc: string)
    requires n != "" && n[0] != '0' && cc != ""
    ensures International("0" + n, cc) == "+" + (cc + n)
  {
  }

  /** Whether a trunk zero is seen after the country code, and what dropping it leaves. */
  lemma TrunkZero(cc: string, rest: string)
    requires cc != ""
    ensures WithoutTrunkZero("+" + (cc + rest), cc) == "+" + (cc + if Starts(rest, '0') then rest[1..] else rest)
  {
    var p := "+" + (cc + rest);
    assert p == ("+" + cc) + rest;
    assert p[|cc| + 1..] == rest;
    if Starts(rest, '0') {
      assert "+" + cc + "0" <= p;
      assert p[|cc| + 2..] == rest[1..];
    } else {
      assert rest != "" ==> p[|cc| + 1] == rest[0];
    }
  }

  lemma SpellingNormalises(cc: string, n: string, s: string)
    requires Plain(cc) && Plain(n) && Spells(s, cc, n)
    ensures WithoutTrunkZero(International(s, cc), cc) == "+" + (cc + n)
  {
    var zero := "0" + n;
    assert zero[0] == '0' && zero[1..] == n;
    if s == zero {
      LocalPrefix(n, cc);
      TrunkZero(cc, n);
    } else if WithCode(s, cc + n) {
      CodePrefix(cc, n, s);
      TrunkZero(cc, n);
    } else {
      CodePrefix(cc, zero, s);
      TrunkZero(cc, zero);
    }
  }

  lemma CodePrefix(cc: string, rest: string, s: string)
    requires Plain(cc) && WithCode(s, cc + rest)
    ensures International(s, cc) == "+" + (cc + rest)
  {
  }

  /** What International leaves is "+" and the rest, whichever prefix there was. */
  lemma Unprefixed(s: string, cc: string)
    requires s != "" && cc != ""
    ensures var p := International(s, cc);
            || s == "+" + p[1..] || s == "00" + p[1..] || s == p[1..]
            || (s == "0" + s[1..] && !Starts(s[1..], '0') && p[1..] == cc + s[1..])
  {
    var p := International(s, cc);
    if Starts(s, '0') {
      assert s == "0" + s[1..];
      if Starts(s[1..], '0') {
        assert s == "00" + s[2..] && p[1..] == s[2..];
      } else {
        assert p == "+" + cc + s[1..] && p[1..] == cc + s[1..];
      }
    } else if Starts(s, '+') {
      assert p == s == "+" + p[1..];
    } else {
      assert p[1..] == s;
    }
  }

  lemma Undropped(p: string, cc: string, n: string)
    requires cc != "" && WithoutTrunkZero(p, cc) == "+" + (cc + n)
    ensures p == "+" + (cc + n) || p == "+" + (cc + ("0" + n))
  {
    if "+" + cc + "0" <= p {
      var rest := p[|cc| + 2..];
      assert p == "+" + cc + "0" + rest;
      assert ("+" + cc + rest)[|cc| + 1..] == rest && ("+" + (cc + n))[|cc| + 1..] == n;
      assert "+" + cc + "0" + n == "+" + (cc + ("0" + n));
    }
  }

  lemma SameTail(a: string, x: string, y: string)
    requires a + x == a + y
    ensures x == y
  {
    assert (a + x)[|a|..] == x && (a + y)[|a|..] == y;
  }

  lemma OnlySpellings(cc: string, n: string, s: string)
    requires Plain(cc) && Plain(n) && s != ""
    requires WithoutTrunkZero(International(s, cc), cc) == "+" + (cc + n)
    ensures Spells(s, cc, n)
  {
    var p := International(s, cc);
    var core, trunk := cc + n, cc + ("0" + n);
    Undropped(p, cc, n);
    assert p[1..] == core || p[1..] == trunk by { assert ("+" + core)[1..] == core && ("+" + trunk)[1..] == trunk; }
    Unprefixed(s, cc);
    if s == "0" + s[1..] && !Starts(s[1..], '0') && p[1..] == cc + s[1..] {
      if p[1..] == core { SameTail(cc, s[1..], n); } else { SameTail(cc, s[1..], "0" + n); }
    }
  }

  lemma ValidForm(cc: string, n: string)
    requires Plain(cc) && Plain(n)
    ensures var good := "+" + (cc + n);
            Starts(good, '+') && !Starts(good[1..], '0') && (IsValidPhone(good) <==> 7 <= |cc + n| <= 15)
  {
  }

  /** A number is the canonical form of exactly the spellings of its subscriber, when its length is legal. */
  lemma NormalisesIff(raw: string, dcc: string, n: string)
    requires Plain(TrimPrefix(dcc, "+")) && Plain(n)
    ensures var cc := TrimPrefix(dcc, "+");
            NormalizePhone(raw, dcc) == Some("+" + (cc + n)) <==> 7 <= |cc + n| <= 15 && Spells(Clean(raw), cc, n)
  {
    var cc, s := TrimPrefix(dcc, "+"), Clean(raw);
    var good := "+" + (cc + n);
    CleanTrim(raw);
    ValidForm(cc, n);
    if Spells(s, cc, n) {
      SpellingNormalises(cc, n, s);
    }
    if NormalizePhone(raw, dcc) == Some(good) {
      OnlySpellings(cc, n, s);
    }
  }

  /** Digits of a number that is not under the default country code. */
  predicate Foreign(x: string, cc: string) { Plain(x) && (cc == "" || !(cc <= x)) }

  /** Dropping a trunk zero leaves a number under the country code. */
  lemma DroppedStaysUnder(p: string, cc: string)
    requires cc != ""
    ensures WithoutTrunkZero(p, cc) == p || (cc <= WithoutTrunkZero(p, cc)[1..] && cc <= p[1..])
  {
    if "+" + cc + "0" <= p {
      var rest := p[|cc| + 2..];
      assert ("+" + cc + rest)[1..] == cc + rest;
      assert p == "+" + cc + "0" + rest;
      assert p[1..] == cc + ("0" + rest);
    }
  }

  lemma ForeignForm(x: string, cc: string, s: string)
    requires Foreign(x, cc) && (cc == "" || Plain(cc)) && WithCode(s, x)
    ensures International(s, cc) == "+" + x && WithoutTrunkZero("+" + x, cc) == "+" + x
  {
    assert ("+" + x)[1..] == x;
    if cc != "" { DroppedStaysUnder("+" + x, cc); }
  }

  lemma OnlyForeignForms(x: string, cc: string, s: string)
    requires Foreign(x, cc) && (cc == "" || Plain(cc)) && s != ""
    requires WithoutTrunkZero(International(s, cc), cc) == "+" + x
    ensures WithCode(s, x)
  {
    var p := International(s, cc);
    assert ("+" + x)[1..] == x;
    if cc == "" {
      assert Starts(s, '0') && Starts(s[1..], '0') ==> s == "00" + s[2..] && p[1..] == s[2..];
      assert Starts(s, '+') ==> s == "+" + s[1..];
      assert s == "00" + p[1..] || s == p || s == p[1..];
    } else {
      DroppedStaysUnder(p, cc);
      Unprefixed(s, cc);
    }
  }

  /**
   A number of another country, or any number when no country code is configured, is the
   canonical form of exactly its digits alone, after "+" or after "00", when its length is legal.
   */
  lemma ForeignNormalisesIff(raw: string, dcc: string, x: string)
    requires Foreign(x, TrimPrefix(dcc, "+")) && (TrimPrefix(dcc, "+") == "" || Plain(TrimPrefix(dcc, "+")))
    ensures NormalizePhone(raw, dcc) == Some("+" + x) <==> 7 <= |x| <= 15 && WithCode(Clean(raw), x)
  {
    var cc, s := TrimPrefix(dcc, "+"), Clean(raw);
    CleanTrim(raw);
    assert ("+" + x)[1..] == x;
    if WithCode(s, x) {
      ForeignForm(x, cc, s);
    }
    if NormalizePhone(raw, dcc) == Some("+" + x) {
      OnlyForeignForms(x, cc, s);
    }
  }

  lemma CanonicalIsKept(p: string)
    requires |p| > 1 && p[0] == '+' && AllDigits(p[1..])
    ensures Clean(TrimSpace(p)) == p
  {
  }

  /** Normalising again changes nothing exactly when the result has no trunk zero left. */
  lemma StableIff(raw: string, dcc: string)
    requires NormalizePhone(raw, dcc).Some?
    ensures var p, cc := NormalizePhone(raw, dcc).value, TrimPrefix(dcc, "+");
            NormalizePhone(p, dcc) == Some(p) <==> cc == "" || !("+" + cc + "0" <= p)
  {
    var p, cc := NormalizePhone(raw, dcc).value, TrimPrefix(dcc, "+");
    ResultShape(raw, dcc);
    CanonicalIsKept(p);
    assert International(p, cc) == p;
    assert p[1..][0] == p[1];
    assert WithoutTrunkZero(p, cc) == p <==> cc == "" || !("+" + cc + "0" <= p);
  }

  lemma SecondZero(p: string, cc: string)
    requires cc != ""
    ensures "+" + cc + "0" <= WithoutTrunkZero(p, cc) <==> "+" + cc + "00" <= p
  {
    var head := "+" + cc;
    if head + "0" <= p {
      var rest := p[|cc| + 2..];
      assert p == head + ("0" + rest);
      assert head + "0" <= head + rest <==> "0" <= rest by { assert (head + rest)[|head|..] == rest; }
      assert head + "00" <= p <==> "0" <= rest by { assert p[|head|..] == "0" + rest; }
    } else {
      assert !(head + "00" <= p) by { assert head + "0" <= head + "00"; }
    }
  }

  /** So an accepted input is normalised once and for all, unless a doubled trunk zero
      follows the country code in what its prefix is turned into. */
  lemma IdempotentIff(raw: string, dcc: string)
    requires NormalizePhone(raw, dcc).Some?
    ensures var p, cc := NormalizePhone(raw, dcc).value, TrimPrefix(dcc, "+");
            NormalizePhone(p, dcc) == Some(p) <==> cc == "" || !("+" + cc + "00" <= International(Clean(raw), cc))
  {
    StableIff(raw, dcc);
    CleanTrim(raw);
    var cc := TrimPrefix(dcc, "+");
    if cc != "" { SecondZero(International(Clean(raw), cc), cc); }
  }

  lemma AlreadyInternational(x: string, cc: string)
    requires Plain(cc) && AllDigits(x) && 7 <= |cc + x| <= 15
    ensures NormalizePhone("+" + (cc + x), cc) ==
              if |cc + if Starts(x, '0') then x[1..] else x| < 7 then None
              else Some("+" + (cc + if Starts(x, '0') then x[1..] else x))
  {
    var p := "+" + (cc + x);
    var y := if Starts(x, '0') then x[1..] else x;
    assert p[1..] == cc + x && AllDigits(cc + x);
    CanonicalIsKept(p);
    assert IsDigit(cc[0]) && TrimPrefix(cc, "+") == cc;
    assert International(p, cc) == p;
    TrunkZero(cc, x);
    var q := "+" + (cc + y);
    assert q[1..] == cc + y && (cc + y)[0] == cc[0] && AllDigits(cc + y);
  }

  /** Every number typed with a doubled trunk zero changes on the second pass. */
  lemma DoubledTrunkZero(cc: string, n: string)
    requires Plain(cc) && AllDigits(n) && 7 <= |cc + n| && |cc + n| <= 13
    ensures NormalizePhone("+" + (cc + ("00" + n)), cc) == Some("+" + (cc + ("0" + n)))
    ensures NormalizePhone("+" + (cc + ("0" + n)), cc) == Some("+" + (cc + n))
  {
    var one, two := "0" + n, "00" + n;
    assert two[1..] == one && one[1..] == n;
    AlreadyInternational(two, cc);
    AlreadyInternational(one, cc);
  }
}
