/**
 * The small part of JavaScript's string library that the storefront relies on:
 * `trim`, `toLowerCase`, `includes`, `startsWith`, `String(n)` for integers and
 * the relational operators `<` / `>` on strings.
 */
module Text {

  /** The characters `String.prototype.trim` removes: white space and line terminators. */
  predicate IsWhitespace(c: char) {
    c == ' ' || c == '\t' || c == '\n' || c == '\r' || c == '\U{000B}' || c == '\U{000C}'
    || c == '\U{00A0}' || c == '\U{1680}' || '\U{2000}' <= c <= '\U{200A}'
    || c == '\U{2028}' || c == '\U{2029}' || c == '\U{202F}' || c == '\U{205F}'
    || c == '\U{3000}' || c == '\U{FEFF}'
  }

  predicate IsAsciiLetter(c: char) {
    'A' <= c <= 'Z' || 'a' <= c <= 'z'
  }

  predicate IsAsciiDigit(c: char) {
    '0' <= c <= '9'
  }

  // ---------------------------------------------------------------------------
  // trim

  /** Drops leading white space. */
  function TrimStart(s: string): (r: string)
    ensures |r| <= |s| && r == s[|s| - |r|..]
    ensures forall i :: 0 <= i < |s| - |r| ==> IsWhitespace(s[i])
    ensures r != [] ==> !IsWhitespace(r[0])
  {
    if s != [] && IsWhitespace(s[0]) then TrimStart(s[1..]) else s
  }

  /** Drops trailing white space. */
  function TrimEnd(s: string): (r: string)
    ensures |r| <= |s| && r == s[..|r|]
    ensures forall i :: |r| <= i < |s| ==> IsWhitespace(s[i])
    ensures r != [] ==> !IsWhitespace(r[|r| - 1])
  {
    if s != [] && IsWhitespace(s[|s| - 1]) then TrimEnd(s[..|s| - 1]) else s
  }

  /** `r` is the stretch of `s` at position `i`, with only white space before and after it. */
  predicate PaddedAt(s: string, r: string, i: int) {
    OccursAt(s, r, i)
    && (forall j :: 0 <= j < i ==> IsWhitespace(s[j]))
    && (forall j :: i + |r| <= j < |s| ==> IsWhitespace(s[j]))
  }

  /**
   * `s.trim()`: a stretch of `s` with only white space around it, neither
   * starting nor ending with white space.
   */
  function Trim(s: string): (r: string)
    ensures r != [] ==> !IsWhitespace(r[0]) && !IsWhitespace(r[|r| - 1])
    ensures exists i :: PaddedAt(s, r, i)
  {
    TrimmedEnds(TrimStart(s));
    TrimmedPadded(s, TrimStart(s), TrimEnd(TrimStart(s)));
    TrimEnd(TrimStart(s))
  }

  /** Trimming the end of a string that does not start with white space keeps that start. */
  lemma TrimmedEnds(t: string)
    requires t != [] ==> !IsWhitespace(t[0])
    ensures TrimEnd(t) != [] ==> !IsWhitespace(TrimEnd(t)[0])
  {
    var r := TrimEnd(t);
    if r != [] {
      assert r[0] == t[..|r|][0];
    }
  }

  /** The two trims together cut a stretch with white space only around it. */
  lemma TrimmedPadded(s: string, t: string, r: string)
    requires |t| <= |s| && t == s[|s| - |t|..] && forall j :: 0 <= j < |s| - |t| ==> IsWhitespace(s[j])
    requires |r| <= |t| && r == t[..|r|] && forall j :: |r| <= j < |t| ==> IsWhitespace(t[j])
    ensures PaddedAt(s, r, |s| - |t|)
  {
    var i := |s| - |t|;
    assert s[i..i + |r|] == r;
    forall j | i + |r| <= j < |s| ensures IsWhitespace(s[j]) {
      assert s[j] == t[j - i];
    }
  }

  /** `!s.trim()`: the trimmed string is empty exactly when every character is white space. */
  lemma TrimEmptyIffBlank(s: string)
    ensures Trim(s) == [] <==> forall i :: 0 <= i < |s| ==> IsWhitespace(s[i])
  {
    var t := TrimStart(s);
    if !forall i :: 0 <= i < |s| ==> IsWhitespace(s[i]) {
      var j :| 0 <= j < |s| && !IsWhitespace(s[j]);
      assert t[j - (|s| - |t|)] == s[j];
    }
  }

  // ---------------------------------------------------------------------------
  // toLowerCase

  /** Lower-cases one character (ASCII letters only). */
  function LowerChar(c: char): char {
    if 'A' <= c <= 'Z' then (c as int + 32) as char else c
  }

  /** `s.toLowerCase()` */
  function ToLower(s: string): (r: string)
    ensures |r| == |s|
  {
    seq(|s|, i requires 0 <= i < |s| => LowerChar(s[i]))
  }

  // ---------------------------------------------------------------------------
  // startsWith, includes

  /** `s.startsWith(p)`: `s` is `p` followed by something. */
  predicate StartsWith(s: string, p: string): (r: bool)
    ensures r <==> exists t :: s == p + t
  {
    assert |p| <= |s| && s[..|p|] == p ==> s == p + s[|p|..];
    |p| <= |s| && s[..|p|] == p
  }

  /** `t` occurs in `s` starting at position `i`. */
  predicate OccursAt(s: string, t: string, i: int) {
    0 <= i && i + |t| <= |s| && s[i..i + |t|] == t
  }

  /** `s.includes(t)`, computed by trying each start position in turn. */
  function Contains(s: string, t: string): (r: bool)
    ensures r <==> exists i :: OccursAt(s, t, i)
    decreases |s|
  {
    if StartsWith(s, t) then
      assert OccursAt(s, t, 0);
      true
    else if s == [] then
      false
    else
      var rest := Contains(s[1..], t);
      assert forall i :: OccursAt(s, t, i) && i > 0 ==> OccursAt(s[1..], t, i - 1) by {
        forall i | OccursAt(s, t, i) && i > 0 ensures OccursAt(s[1..], t, i - 1) {
          assert s[1..][i - 1..i - 1 + |t|] == s[i..i + |t|];
        }
      }
      assert forall i :: OccursAt(s[1..], t, i) ==> OccursAt(s, t, i + 1) by {
        forall i | OccursAt(s[1..], t, i) ensures OccursAt(s, t, i + 1) {
          assert s[1..][i..i + |t|] == s[i + 1..i + 1 + |t|];
        }
      }
      rest
  }

  // ---------------------------------------------------------------------------
  // String(n) for integers

  function DigitChar(d: nat): (c: char)
    requires d < 10
    ensures IsAsciiDigit(c)
  {
    ('0' as int + d) as char
  }

  /** Decimal form of a natural number, most significant digit first. */
  function NatToString(n: nat): (r: string)
    ensures r != []
    ensures forall i :: 0 <= i < |r| ==> IsAsciiDigit(r[i])
    ensures r[0] == '0' ==> r == "0"
  {
    if n < 10 then [DigitChar(n)] else NatToString(n / 10) + [DigitChar(n % 10)]
  }

  /**
   * `String(n)`: a minus sign exactly for negative numbers, then the decimal
   * digits of the magnitude without leading zeros.
   */
  function IntToString(n: int): (r: string)
    ensures r != [] && forall i :: 1 <= i < |r| ==> IsAsciiDigit(r[i])
    ensures r[0] == '-' <==> n < 0
    ensures n >= 0 ==> IsAsciiDigit(r[0]) && DigitsValue(r) == n
    ensures n < 0 ==> DigitsValue(r[1..]) == -n
    ensures n >= 0 && r[0] == '0' ==> r == "0"
    ensures n < 0 ==> r[1] != '0'
  {
    if n < 0 then
      NatToStringRoundTrip(-n);
      assert ("-" + NatToString(-n))[1..] == NatToString(-n);
      "-" + NatToString(-n)
    else
      NatToStringRoundTrip(n);
      NatToString(n)
  }

  function DigitValue(c: char): (d: nat)
    requires IsAsciiDigit(c)
    ensures d < 10
  {
    c as int - '0' as int
  }

  /** The value of a string of decimal digits. */
  function DigitsValue(s: string): nat
    requires forall i :: 0 <= i < |s| ==> IsAsciiDigit(s[i])
  {
    if s == [] then 0 else DigitsValue(s[..|s| - 1]) * 10 + DigitValue(s[|s| - 1])
  }

  /** Reading the decimal form back gives the number: String(n) loses nothing. */
  lemma {:induction false} NatToStringRoundTrip(n: nat)
    ensures DigitsValue(NatToString(n)) == n
  {
    var r := NatToString(n);
    if n >= 10 {
      NatToStringRoundTrip(n / 10);
      assert r[..|r| - 1] == NatToString(n / 10);
    }
  }

  /** Different numbers print differently. */
  lemma IntToStringInjective(a: int, b: int)
    requires IntToString(a) == IntToString(b)
    ensures a == b
  {
  }

  // ---------------------------------------------------------------------------
  // `<` on strings: lexicographic order on characters

  /**
   * `a` is below `b` at position `k`: they agree before `k`, and there `a`
   * has ended while `b` goes on, or `a` has the smaller character.
   */
  predicate LessAt(a: string, b: string, k: int) {
    0 <= k <= |a| && k < |b| && a[..k] == b[..k] && (k == |a| || a[k] < b[k])
  }

  /** `a < b` on strings: decided at the first position where they differ. */
  function StrLess(a: string, b: string): (r: bool)
    ensures r <==> exists k :: LessAt(a, b, k)
  {
    if a == [] then
      assert b != [] ==> LessAt(a, b, 0);
      b != []
    else if b == [] then
      false
    else if a[0] != b[0] then
      assert a[0] < b[0] ==> LessAt(a, b, 0);
      assert forall k :: LessAt(a, b, k) ==> k == 0;
      a[0] < b[0]
    else
      var rest := StrLess(a[1..], b[1..]);
      assert forall k :: LessAt(a[1..], b[1..], k) ==> LessAt(a, b, k + 1) by {
        forall k | LessAt(a[1..], b[1..], k) ensures LessAt(a, b, k + 1) {
          assert a[..k + 1] == [a[0]] + a[1..][..k];
          assert b[..k + 1] == [b[0]] + b[1..][..k];
        }
      }
      assert forall k :: LessAt(a, b, k) ==> k > 0 && LessAt(a[1..], b[1..], k - 1) by {
        forall k | LessAt(a, b, k) ensures k > 0 && LessAt(a[1..], b[1..], k - 1) {
          assert a[1..][..k - 1] == a[..k][1..];
          assert b[1..][..k - 1] == b[..k][1..];
        }
      }
      rest
  }

  lemma {:induction false} StrLessIrreflexive(a: string)
    ensures !StrLess(a, a)
  {
    if a != [] {
      StrLessIrreflexive(a[1..]);
    }
  }

  lemma {:induction false} StrLessTransitive(a: string, b: string, c: string)
    requires StrLess(a, b) && StrLess(b, c)
    ensures StrLess(a, c)
  {
    if a != [] && b != [] && c != [] && a[0] == b[0] == c[0] {
      StrLessTransitive(a[1..], b[1..], c[1..]);
    }
  }

  /** Two different strings are always ordered one way or the other. */
  lemma {:induction false} StrLessTotal(a: string, b: string)
    requires a != b
    ensures StrLess(a, b) || StrLess(b, a)
  {
    if a != [] && b != [] && a[0] == b[0] {
      assert a == [a[0]] + a[1..] && b == [b[0]] + b[1..];
      StrLessTotal(a[1..], b[1..]);
    }
  }

  /** `a <= b` on strings is transitive: what a comparator built on `<` relies on. */
  lemma StrNotLessTransitive(a: string, b: string, c: string)
    requires !StrLess(b, a) && !StrLess(c, b)
    ensures !StrLess(c, a)
  {
    StrLessIrreflexive(a);
    if a != b {
      StrLessTotal(a, b);
    }
    if b != c {
      StrLessTotal(b, c);
    }
    if StrLess(a, b) && StrLess(b, c) {
      StrLessTransitive(a, b, c);
    }
    if StrLess(c, a) {
      if StrLess(a, b) {
        StrLessTransitive(c, a, b);
      } else if StrLess(b, c) {
        StrLessTransitive(b, c, a);
      }
    }
  }
}
