/**
 The two JavaScript string primitives the visitor form relies on:
 `String.prototype.trim` and the test of the regular expression `/^\d{10}$/`.
 Strings are sequences of characters; every character these primitives
 inspect lies in the Basic Multilingual Plane, so the UTF-16 code-unit view
 of JavaScript and the character view here agree on them.
 */
module JsText {

  /** WhiteSpace and LineTerminator code points of ECMA-262 (sections 12.2
      and 12.3): the characters `trim` strips from both ends. */
  predicate IsWhitespace(c: char) {
    || c == '\t' || c == '\U{000B}' || c == '\U{000C}' || c == ' '
    || c == '\U{00A0}' || c == '\U{FEFF}'
    || c == '\n' || c == '\r' || c == '\U{2028}' || c == '\U{2029}'
    // the remaining Unicode "Space_Separator" (Zs) characters
    || c == '\U{1680}' || ('\U{2000}' <= c <= '\U{200A}')
    || c == '\U{202F}' || c == '\U{205F}' || c == '\U{3000}'
  }

  /** Every character of `s` is whitespace (vacuously true of ""). */
  predicate Blank(s: string) {
    forall i :: 0 <= i < |s| ==> IsWhitespace(s[i])
  }

  /** Drops the leading whitespace: the result is a suffix of `s` that does
      not start with whitespace, and all that was dropped is whitespace. */
  function TrimStart(s: string): (r: string)
    ensures |r| <= |s| && r == s[|s| - |r|..]
    ensures |r| > 0 ==> !IsWhitespace(r[0])
    ensures forall i :: 0 <= i < |s| - |r| ==> IsWhitespace(s[i])
  {
    if |s| > 0 && IsWhitespace(s[0]) then TrimStart(s[1..]) else s
  }

  /** Drops the trailing whitespace: the result is a prefix of `s` that does
      not end with whitespace, and all that was dropped is whitespace. */
  function TrimEnd(s: string): (r: string)
    ensures |r| <= |s| && r == s[..|r|]
    ensures |r| > 0 ==> !IsWhitespace(r[|r| - 1])
    ensures forall i :: |r| <= i < |s| ==> IsWhitespace(s[i])
  {
    if |s| > 0 && IsWhitespace(s[|s| - 1]) then TrimEnd(s[..|s| - 1]) else s
  }

  /** `r` is the slice `s[i..j]` and everything of `s` outside it is
      whitespace. */
  ghost predicate IsSliceWithinWhitespace(s: string, r: string, i: int, j: int) {
    && 0 <= i <= j <= |s| && r == s[i..j]
    && (forall k :: 0 <= k < i ==> IsWhitespace(s[k]))
    && (forall k :: j <= k < |s| ==> IsWhitespace(s[k]))
  }

  /** `s.trim()`: a slice of `s` with only whitespace around it, which
      neither starts nor ends with whitespace itself. */
  function Trim(s: string): (r: string)
    ensures exists i, j :: IsSliceWithinWhitespace(s, r, i, j)
    ensures |r| > 0 ==> !IsWhitespace(r[0]) && !IsWhitespace(r[|r| - 1])
  {
    var t := TrimStart(s);
    var r := TrimEnd(t);
    PrefixOfSuffixIsSlice(s, t, r);
    r
  }

  /** A whitespace-framed prefix of a whitespace-framed suffix of `s` is a
      whitespace-framed slice of `s`. */
  lemma PrefixOfSuffixIsSlice(s: string, t: string, r: string)
    requires |t| <= |s| && t == s[|s| - |t|..]
    requires forall k :: 0 <= k < |s| - |t| ==> IsWhitespace(s[k])
    requires |r| <= |t| && r == t[..|r|]
    requires forall k :: |r| <= k < |t| ==> IsWhitespace(t[k])
    ensures IsSliceWithinWhitespace(s, r, |s| - |t|, |s| - |t| + |r|)
  {
    var i := |s| - |t|;
    assert r == s[i..i + |r|];
    forall k | i + |r| <= k < |s| ensures IsWhitespace(s[k]) {
      assert s[k] == t[k - i];
    }
  }

  /** `!s.trim()` holds exactly when `s` consists of whitespace only. */
  lemma TrimEmptyIffBlank(s: string)
    ensures Trim(s) == "" <==> Blank(s)
  {
    // A blank `s` leaves nothing after TrimStart, whose result may not
    // start with whitespace; conversely, TrimStart and TrimEnd only ever
    // drop whitespace.
  }

  /** An ASCII decimal digit: `\d` is [0-9] in ECMAScript regular
      expressions, whatever the flags. */
  predicate IsAsciiDigit(c: char) {
    '0' <= c <= '9'
  }

  /** The reference meaning of the mobile-number pattern. */
  predicate IsTenDigits(s: string) {
    |s| == 10 && forall i :: 0 <= i < |s| ==> IsAsciiDigit(s[i])
  }

  /** Matches `\d{n}$` against `s`: `n` digits, then the end of the input
      (`$` without the `m` flag matches only there). */
  predicate MatchDigitsThenEnd(s: string, n: nat)
    ensures MatchDigitsThenEnd(s, n) ==> |s| == n
  {
    if n == 0 then |s| == 0
    else |s| > 0 && IsAsciiDigit(s[0]) && MatchDigitsThenEnd(s[1..], n - 1)
  }

  lemma {:induction false} MatchDigitsThenEndIff(s: string, n: nat)
    ensures MatchDigitsThenEnd(s, n) <==>
              |s| == n && forall i :: 0 <= i < |s| ==> IsAsciiDigit(s[i])
    decreases n
  {
    if n > 0 && |s| > 0 {
      MatchDigitsThenEndIff(s[1..], n - 1);
      if forall i :: 0 <= i < |s[1..]| ==> IsAsciiDigit(s[1..][i]) {
        assert forall i :: 1 <= i < |s| ==> IsAsciiDigit(s[i]) by {
          forall i | 1 <= i < |s| ensures IsAsciiDigit(s[i]) {
            assert s[i] == s[1..][i - 1];
          }
        }
      }
    }
  }

  /** `/^\d{10}$/.test(s)`: `^` without the `m` flag only matches at
      position 0, so the search reduces to one attempt at the start. It
      succeeds exactly on the strings of ten ASCII digits. */
  predicate MobilePatternTest(s: string)
    ensures MobilePatternTest(s) <==> IsTenDigits(s)
  {
    MatchDigitsThenEndIff(s, 10);
    MatchDigitsThenEnd(s, 10)
  }
}
