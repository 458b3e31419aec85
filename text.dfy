/** String helpers standing for JavaScript's `toLowerCase`, `startsWith`,
    `includes`, number-to-string conversion (`${n}`, Python `f"{n}"`) and
    `parseInt`. Case folding is ASCII only. */
module Text {

  import opened Common

  function LowerChar(c: char): char
  {
    if 'A' <= c <= 'Z' then (c as int + 32) as char else c
  }

  /** ASCII lower-casing, character by character. */
  function Lower(s: string): (r: string)
    ensures |r| == |s|
    ensures forall i :: 0 <= i < |s| ==> r[i] == LowerChar(s[i])
  {
    if s == [] then [] else [LowerChar(s[0])] + Lower(s[1..])
  }

  /** Lower-casing twice is lower-casing once. */
  lemma LowerIdempotent(s: string)
    ensures Lower(Lower(s)) == Lower(s)
  {
  }

  /** Lower-casing commutes with taking a slice. */
  lemma LowerSlice(s: string, i: nat, j: nat)
    requires i <= j <= |s|
    ensures Lower(s[i..j]) == Lower(s)[i..j]
  {
  }

  /** JavaScript `s.startsWith(p)`. */
  predicate StartsWith(s: string, p: string)
  {
    |p| <= |s| && s[..|p|] == p
  }

  /** JavaScript `s.includes(sub)`: `sub` occurs at some position of `s`. */
  predicate Includes(s: string, sub: string)
    decreases |s|
  {
    StartsWith(s, sub) || (s != [] && Includes(s[1..], sub))
  }

  /** Every string includes the empty string and itself. */
  lemma IncludesTrivial(s: string)
    ensures Includes(s, "") && Includes(s, s)
  {
    assert StartsWith(s, "");
    assert StartsWith(s, s);
  }

  /** `sub` sits in `s` starting at position `i`. */
  predicate OccursAt(s: string, sub: string, i: int)
  {
    0 <= i && i + |sub| <= |s| && s[i..i + |sub|] == sub
  }

  /** `Includes` finds an occurrence at some position, and only then. */
  lemma {:induction false} IncludesOccurs(s: string, sub: string)
    ensures Includes(s, sub) <==> exists i :: OccursAt(s, sub, i)
    decreases |s|
  {
    if s != [] {
      IncludesOccurs(s[1..], sub);
    }
    if Includes(s, sub) {
      if StartsWith(s, sub) {
        assert OccursAt(s, sub, 0);
      } else {
        var i :| OccursAt(s[1..], sub, i);
        assert s[1..][i..i + |sub|] == s[i + 1..i + 1 + |sub|];
        assert OccursAt(s, sub, i + 1);
      }
    }
    if exists i :: OccursAt(s, sub, i) {
      var i :| OccursAt(s, sub, i);
      if i == 0 {
        assert StartsWith(s, sub);
      } else {
        assert s[1..][i - 1..i - 1 + |sub|] == s[i..i + |sub|];
        assert OccursAt(s[1..], sub, i - 1);
      }
    }
  }

  /** A case-insensitive occurrence: if `sub` occurs in `s`, its lower-cased
      form occurs in the lower-cased `s`. */
  lemma {:induction false} IncludesLower(s: string, sub: string)
    requires Includes(s, sub)
    ensures Includes(Lower(s), Lower(sub))
    decreases |s|
  {
    if StartsWith(s, sub) {
      LowerSlice(s, 0, |sub|);
    } else {
      IncludesLower(s[1..], sub);
      LowerSlice(s, 1, |s|);
    }
  }

  predicate IsDigit(c: char)
  {
    '0' <= c <= '9'
  }

  predicate AllDigits(s: string)
  {
    forall i :: 0 <= i < |s| ==> IsDigit(s[i])
  }

  function DigitChar(n: nat): (c: char)
    requires n < 10
    ensures IsDigit(c)
  {
    ('0' as int + n) as char
  }

  function DigitValue(c: char): (n: nat)
    requires IsDigit(c)
    ensures n < 10 && DigitChar(n) == c
  {
    c as int - '0' as int
  }

  /** The decimal digits of `n`, left-padded with zeros to at least `width`
      characters (date-fns `yyyy`, `MM`, `dd`; Python `%04d`, `%02d`). */
  function Decimal(n: nat, width: nat): (r: string)
    ensures |r| >= 1 && |r| >= width
    ensures AllDigits(r)
    decreases n, width
  {
    if n < 10 && width <= 1 then [DigitChar(n)]
    else Decimal(n / 10, if width == 0 then 0 else width - 1) + [DigitChar(n % 10)]
  }

  /** Two digits for every value below 100. */
  lemma DecimalTwoDigits(n: nat)
    requires n < 100
    ensures |Decimal(n, 2)| == 2
  {
    assert |Decimal(n / 10, 1)| == 1;
  }

  /** The value of a digit string, most significant digit first. */
  function DigitsValue(s: string): nat
    requires AllDigits(s)
  {
    if s == [] then 0 else 10 * DigitsValue(s[..|s| - 1]) + DigitValue(s[|s| - 1])
  }

  /** Reading back the digits written by `Decimal` gives the number. */
  lemma {:induction false} DecimalValue(n: nat, width: nat)
    ensures DigitsValue(Decimal(n, width)) == n
    decreases n, width
  {
    if !(n < 10 && width <= 1) {
      var w := if width == 0 then 0 else width - 1;
      DecimalValue(n / 10, w);
      var r := Decimal(n, width);
      var c := DigitChar(n % 10);
      assert r == Decimal(n / 10, w) + [c];
      assert r[..|r| - 1] == Decimal(n / 10, w) && r[|r| - 1] == c;
      assert DigitValue(c) == n % 10;
      assert DigitsValue(r) == 10 * (n / 10) + n % 10;
    }
  }

  /** Zero padding never makes two numbers look alike. */
  lemma DecimalInjective(a: nat, b: nat, width: nat)
    requires Decimal(a, width) == Decimal(b, width)
    ensures a == b
  {
    DecimalValue(a, width);
    DecimalValue(b, width);
  }

  /** An integer as JavaScript's template literals and Python's f-strings
      print it. */
  function IntText(i: int): (r: string)
    ensures |r| >= 1
    ensures i >= 0 ==> AllDigits(r)
    ensures i < 0 ==> r[0] == '-' && AllDigits(r[1..])
  {
    if i < 0 then "-" + Decimal(-i, 1) else Decimal(i, 1)
  }

  /** The white space `parseInt` skips before the number. */
  predicate IsSpace(c: char)
  {
    c == ' ' || c == '\t' || c == '\n' || c == '\r' || c == '\U{000B}' || c == '\U{000C}'
  }

  function TrimStart(s: string): (r: string)
    ensures |r| <= |s| && r == s[|s| - |r|..]
    ensures r != [] ==> !IsSpace(r[0])
  {
    if s != [] && IsSpace(s[0]) then TrimStart(s[1..]) else s
  }

  /** The length of the run of digits that starts `s`. */
  function LeadingDigits(s: string): (k: nat)
    ensures k <= |s| && AllDigits(s[..k])
    ensures k < |s| ==> !IsDigit(s[k])
  {
    if s != [] && IsDigit(s[0]) then
      var k := 1 + LeadingDigits(s[1..]);
      assert s[..k] == [s[0]] + s[1..][..k - 1];
      k
    else 0
  }

  /** JavaScript `parseInt(s)` in base 10: skip leading white space, read an
      optional sign and the longest run of digits after it; `None` (NaN) when
      there is no digit. */
  function ParseInt(s: string): (r: Option<int>)
    ensures r.None? <==> var t := TrimStart(s);
      var u := if t != [] && (t[0] == '-' || t[0] == '+') then t[1..] else t;
      u == [] || !IsDigit(u[0])
  {
    var t := TrimStart(s);
    var negative := t != [] && t[0] == '-';
    var u := if t != [] && (t[0] == '-' || t[0] == '+') then t[1..] else t;
    var k := LeadingDigits(u);
    if k == 0 then None
    else Some(if negative then -(DigitsValue(u[..k]) as int) else DigitsValue(u[..k]))
  }

  /** `parseInt(String(n)) === n`: the number written into a form field is
      the number read back. */
  lemma ParseIntText(n: int)
    ensures ParseInt(IntText(n)) == Some(n)
  {
    if n < 0 {
      ParseIntTextNegative(n);
    } else {
      var d := Decimal(n, 1);
      assert IntText(n) == d;
      DecimalValue(n, 1);
      ParseIntUnsigned(d);
    }
  }

  /** The negative half of `ParseIntText`. */
  lemma ParseIntTextNegative(n: int)
    requires n < 0
    ensures ParseInt(IntText(n)) == Some(n)
  {
    var s := IntText(n);
    IntTextDigits(n);
    DecimalValue(-n, 1);
    assert DigitsValue(s[1..]) == -n;
    ParseIntNegative(s);
  }

  /** After its minus sign, a negative number's text is the digits of its
      magnitude. */
  lemma IntTextDigits(n: int)
    requires n < 0
    ensures |IntText(n)| >= 2 && IntText(n)[0] == '-'
    ensures IntText(n)[1..] == Decimal(-n, 1) && AllDigits(IntText(n)[1..])
  {
    assert ("-" + Decimal(-n, 1))[1..] == Decimal(-n, 1);
  }

  /** A run of digits reads back as its value. */
  lemma ParseIntUnsigned(d: string)
    requires AllDigits(d) && |d| >= 1
    ensures ParseInt(d) == Some(DigitsValue(d))
  {
    assert IsDigit(d[0]);
    assert TrimStart(d) == d;
    LeadingDigitsAll(d);
    assert ParseInt(d) == Some(DigitsValue(d[..|d|]));
    assert d[..|d|] == d;
  }

  /** A minus sign followed by a run of digits reads back as the negated
      value of the digits. */
  lemma ParseIntNegative(s: string)
    requires |s| >= 2 && s[0] == '-' && AllDigits(s[1..])
    ensures ParseInt(s) == Some(-(DigitsValue(s[1..]) as int))
  {
    var d := s[1..];
    LeadingDigitsAll(d);
    assert d[..|d|] == d;
    assert TrimStart(s) == s;
  }

  lemma {:induction false} LeadingDigitsAll(s: string)
    requires AllDigits(s)
    ensures LeadingDigits(s) == |s|
  {
    if s != [] {
      LeadingDigitsAll(s[1..]);
    }
  }
}
