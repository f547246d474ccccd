/**
  The JavaScript string primitives that the contact list relies on:
  `String.prototype.trim`, ASCII lower-casing, the relational `<` on strings,
  and the two regular expressions used by the form checks
  (`/^[a-z]+$/i` and `/^\d{3}-\d{3}-\d{4}$/`), written as character predicates.
*/
module JsText {

  /** WhiteSpace (section 12.2 of ECMA-262) and LineTerminator (section 12.3),
      the code points that `trim` removes at both ends. */
  predicate IsTrimmable(c: char) {
    || c == '\t' || c == '\U{000B}' || c == '\U{000C}' || c == ' '
    || c == '\U{00A0}' || c == '\U{FEFF}'
    || c == '\n' || c == '\r' || c == '\U{2028}' || c == '\U{2029}'
    // the remaining code points of Unicode category Zs
    || c == '\U{1680}' || ('\U{2000}' <= c <= '\U{200A}')
    || c == '\U{202F}' || c == '\U{205F}' || c == '\U{3000}'
  }

  /** Removes the leading whitespace: the result is the longest suffix of `s`
      that does not start with whitespace. */
  function TrimStart(s: string): (r: string)
    ensures |r| <= |s| && r == s[|s| - |r|..]
    ensures forall k :: 0 <= k < |s| - |r| ==> IsTrimmable(s[k])
    ensures r == [] || !IsTrimmable(r[0])
  {
    if |s| > 0 && IsTrimmable(s[0]) then TrimStart(s[1..]) else s
  }

  /** Removes the trailing whitespace: the result is the longest prefix of `s`
      that does not end with whitespace. */
  function TrimEnd(s: string): (r: string)
    ensures |r| <= |s| && r == s[..|r|]
    ensures forall k :: |r| <= k < |s| ==> IsTrimmable(s[k])
    ensures r == [] || !IsTrimmable(r[|r| - 1])
  {
    if |s| > 0 && IsTrimmable(s[|s| - 1]) then TrimEnd(s[..|s| - 1]) else s
  }

  /** `s.trim()` */
  function Trim(s: string): (r: string)
    ensures |r| <= |s|
    ensures r == [] || (!IsTrimmable(r[0]) && !IsTrimmable(r[|r| - 1]))
  {
    TrimEnd(TrimStart(s))
  }

  /** What `trim` removes is whitespace, and only at the two ends: the result
      is a contiguous slice of the input with whitespace on either side of it. */
  lemma {:induction false} TrimIsWhitespaceBoundedSlice(s: string)
    ensures var i := |s| - |TrimStart(s)|; var j := i + |Trim(s)|;
      && 0 <= i <= j <= |s| && Trim(s) == s[i..j]
      && (forall k :: 0 <= k < i ==> IsTrimmable(s[k]))
      && (forall k :: j <= k < |s| ==> IsTrimmable(s[k]))
  {
    var t := TrimStart(s);
    var r := TrimEnd(t);
    var i := |s| - |t|;
    assert t == s[i..];
    assert r == t[..|r|];
    assert r == s[i..i + |r|];
    forall k | i + |r| <= k < |s| ensures IsTrimmable(s[k]) {
      assert |r| <= k - i < |t|;
      assert s[k] == t[k - i];
    }
  }

  /** A string with no whitespace at either end is left alone by `trim`. */
  lemma {:induction false} TrimFixesTrimmed(s: string)
    requires s == [] || (!IsTrimmable(s[0]) && !IsTrimmable(s[|s| - 1]))
    ensures Trim(s) == s
  {
    assert TrimStart(s) == s;
  }

  /** Trimming twice is trimming once. */
  lemma {:induction false} TrimIdempotent(s: string)
    ensures Trim(Trim(s)) == Trim(s)
  {
    TrimFixesTrimmed(Trim(s));
  }

  /** ASCII letters: the characters `[a-z]` matches under the `i` flag. */
  predicate IsAsciiLetter(c: char) {
    'a' <= c <= 'z' || 'A' <= c <= 'Z'
  }

  /** `\d` without the `u` flag. */
  predicate IsDigit(c: char) {
    '0' <= c <= '9'
  }

  /** `toLowerCase` restricted to ASCII: upper-case letters move down by 32. */
  function LowerChar(c: char): (d: char)
    ensures 'A' <= c <= 'Z' ==> 'a' <= d <= 'z' && d as int == c as int + 32
    ensures !('A' <= c <= 'Z') ==> d == c
  {
    if 'A' <= c <= 'Z' then (c as int + 32) as char else c
  }

  /** `s.toLowerCase()`, character by character. */
  function Lower(s: string): (r: string)
    ensures |r| == |s|
    ensures forall i :: 0 <= i < |s| ==> r[i] == LowerChar(s[i])
  {
    if s == [] then [] else [LowerChar(s[0])] + Lower(s[1..])
  }

  /** Lower-casing distributes over concatenation. */
  lemma {:induction false} LowerAppend(a: string, b: string)
    ensures Lower(a + b) == Lower(a) + Lower(b)
  {
    var x, y := Lower(a + b), Lower(a) + Lower(b);
    forall i | 0 <= i < |x| ensures x[i] == y[i] {
      if i < |a| {
        assert (a + b)[i] == a[i];
      } else {
        assert (a + b)[i] == b[i - |a|];
      }
    }
    assert x == y;
  }

  /** The relational `a < b` on strings, scanning from the front: a proper
      prefix is smaller, otherwise the first differing character decides. */
  predicate StrLess(a: string, b: string) {
    if |b| == 0 then false
    else if |a| == 0 then true
    else if a[0] != b[0] then a[0] < b[0]
    else StrLess(a[1..], b[1..])
  }

  /** The definition of IsLessThan on two strings in section 7.2.13 of
      ECMA-262: `a` is a proper prefix of `b`, or at the first index where
      they differ the character of `a` is smaller. */
  ghost predicate EcmaLessThan(a: string, b: string) {
    || (|a| < |b| && a == b[..|a|])
    || exists k :: 0 <= k < |a| && k < |b| && a[..k] == b[..k] && a[k] < b[k]
  }

  lemma {:induction false} StrLessIsEcmaLessThan(a: string, b: string)
    ensures StrLess(a, b) <==> EcmaLessThan(a, b)
  {
    if |b| == 0 {
    } else if |a| == 0 {
      assert a == b[..0];
    } else if a[0] != b[0] {
      if a[0] < b[0] {
        assert a[..0] == b[..0];
      }
      if EcmaLessThan(a, b) {
        assert !(|a| < |b| && a == b[..|a|]) by { if |a| < |b| { assert a[0] != b[..|a|][0]; } }
      }
    } else {
      StrLessIsEcmaLessThan(a[1..], b[1..]);
      if StrLess(a, b) {
        if |a| - 1 < |b| - 1 && a[1..] == b[1..][..|a| - 1] {
          assert a == b[..|a|];
        } else {
          var k :| 0 <= k < |a| - 1 && k < |b| - 1 && a[1..][..k] == b[1..][..k] && a[1..][k] < b[1..][k];
          assert a[..k + 1] == [a[0]] + a[1..][..k];
          assert b[..k + 1] == [b[0]] + b[1..][..k];
        }
      }
      if EcmaLessThan(a, b) {
        if |a| < |b| && a == b[..|a|] {
          assert a[1..] == b[1..][..|a| - 1];
        } else {
          var k :| 0 <= k < |a| && k < |b| && a[..k] == b[..k] && a[k] < b[k];
          assert k > 0;
          assert a[1..][..k - 1] == a[..k][1..];
          assert b[1..][..k - 1] == b[..k][1..];
          assert a[1..][k - 1] < b[1..][k - 1];
        }
      }
    }
  }

  lemma {:induction false} StrLessIrreflexive(a: string)
    ensures !StrLess(a, a)
  {
    if |a| > 0 { StrLessIrreflexive(a[1..]); }
  }

  lemma {:induction false} StrLessTransitive(a: string, b: string, c: string)
    requires StrLess(a, b) && StrLess(b, c)
    ensures StrLess(a, c)
  {
    if |a| > 0 && a[0] == b[0] && b[0] == c[0] {
      StrLessTransitive(a[1..], b[1..], c[1..]);
    }
  }

  /** Any two different strings are ordered one way or the other. */
  lemma {:induction false} StrLessConnected(a: string, b: string)
    ensures a == b || StrLess(a, b) || StrLess(b, a)
  {
    if |a| > 0 && |b| > 0 && a[0] == b[0] {
      StrLessConnected(a[1..], b[1..]);
      if a[1..] == b[1..] {
        assert a == [a[0]] + a[1..] && b == [b[0]] + b[1..];
      }
    }
  }

  lemma {:induction false} StrLessAsymmetric(a: string, b: string)
    requires StrLess(a, b)
    ensures !StrLess(b, a)
  {
    if StrLess(b, a) {
      StrLessTransitive(a, b, a);
      StrLessIrreflexive(a);
    }
  }

  /** `/^[a-z]+$/i.test(t)`: one letter, followed by the match of the rest. */
  predicate IsAlphabetical(t: string) {
    |t| > 0 && IsAsciiLetter(t[0]) && (|t| == 1 || IsAlphabetical(t[1..]))
  }

  /** The pattern `^[a-z]+$` with the `i` flag accepts exactly the non-empty
      strings of ASCII letters. */
  lemma {:induction false} AlphabeticalIffAllLetters(t: string)
    ensures IsAlphabetical(t) <==> |t| > 0 && forall i :: 0 <= i < |t| ==> IsAsciiLetter(t[i])
  {
    if |t| > 1 {
      AlphabeticalIffAllLetters(t[1..]);
      assert forall i :: 1 <= i < |t| ==> t[i] == t[1..][i - 1];
    }
  }

  /** A character class of a regular expression without quantifiers. */
  datatype CharClass = AnyDigit | Exactly(c: char)

  predicate InClass(c: char, cls: CharClass) {
    match cls
    case AnyDigit => IsDigit(c)
    case Exactly(d) => c == d
  }

  /** `cls{n}` */
  function Repeat(cls: CharClass, n: nat): (p: seq<CharClass>)
    ensures |p| == n && forall i :: 0 <= i < n ==> p[i] == cls
  {
    if n == 0 then [] else [cls] + Repeat(cls, n - 1)
  }

  /** `^pattern$`: the whole of `s` matches the classes of `pattern` in turn. */
  predicate MatchesWhole(pattern: seq<CharClass>, s: string) {
    if pattern == [] then s == []
    else |s| > 0 && InClass(s[0], pattern[0]) && MatchesWhole(pattern[1..], s[1..])
  }

  /** Matching a quantifier-free pattern against the whole string compares
      the string with the pattern position by position. */
  lemma {:induction false} MatchesWholeByPositions(pattern: seq<CharClass>, s: string)
    ensures MatchesWhole(pattern, s) <==> |s| == |pattern| && forall i :: 0 <= i < |s| ==> InClass(s[i], pattern[i])
  {
    if pattern != [] && |s| > 0 {
      MatchesWholeByPositions(pattern[1..], s[1..]);
      assert forall i :: 1 <= i < |s| ==> s[i] == s[1..][i - 1];
      assert forall i :: 1 <= i < |pattern| ==> pattern[i] == pattern[1..][i - 1];
    }
  }

  /** `\d{3}-\d{3}-\d{4}` */
  function PhonePattern(): seq<CharClass> {
    Repeat(AnyDigit, 3) + [Exactly('-')] + Repeat(AnyDigit, 3) + [Exactly('-')] + Repeat(AnyDigit, 4)
  }

  /** `/^\d{3}-\d{3}-\d{4}$/.test(p)` */
  predicate IsPhoneNumber(p: string) {
    MatchesWhole(PhonePattern(), p)
  }

  /** A phone number is exactly twelve characters, with dashes at positions 3
      and 7 and a decimal digit everywhere else. */
  lemma {:induction false} PhoneNumberShape(p: string)
    ensures IsPhoneNumber(p) <==> (|p| == 12 && p[3] == '-' && p[7] == '-'
      && forall i :: 0 <= i < 12 && i != 3 && i != 7 ==> IsDigit(p[i]))
  {
    var pat := PhonePattern();
    MatchesWholeByPositions(pat, p);
    assert |pat| == 12;
    assert forall i :: 0 <= i < 12 && i != 3 && i != 7 ==> pat[i] == AnyDigit;
    assert pat[3] == Exactly('-') && pat[7] == Exactly('-');
  }

  /** The phone format checked one position at a time, for concrete numbers. */
  lemma {:induction false} PhoneNumberByPositions(p: string)
    requires |p| == 12 && p[3] == '-' && p[7] == '-'
    requires IsDigit(p[0]) && IsDigit(p[1]) && IsDigit(p[2])
    requires IsDigit(p[4]) && IsDigit(p[5]) && IsDigit(p[6])
    requires IsDigit(p[8]) && IsDigit(p[9]) && IsDigit(p[10]) && IsDigit(p[11])
    ensures IsPhoneNumber(p)
  {
    PhoneNumberShape(p);
  }
}
