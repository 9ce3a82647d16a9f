/**
 * Characters and strings as Python 3 sees them, limited to what the program
 * uses: the whitespace class (str.isspace, regex \s), the word class (regex \w),
 * decimal digits (regex \d), ASCII case mapping, strip, split, join and replace.
 */
module Strings {

  type String = seq<char>

  /** Python's whitespace: the characters for which str.isspace() holds, also regex \s. */
  predicate IsSpace(c: char) {
    c == ' ' || ('\t' <= c <= '\r') || ('\U{1C}' <= c <= '\U{1F}')
    || c == '\U{85}' || c == '\U{A0}' || c == '\U{1680}'
    || ('\U{2000}' <= c <= '\U{200A}') || c == '\U{2028}' || c == '\U{2029}'
    || c == '\U{202F}' || c == '\U{205F}' || c == '\U{3000}'
  }

  predicate IsAsciiDigit(c: char) { '0' <= c <= '9' }
  predicate IsAsciiUpper(c: char) { 'A' <= c <= 'Z' }
  predicate IsAsciiLower(c: char) { 'a' <= c <= 'z' }
  predicate IsAsciiLetter(c: char) { IsAsciiUpper(c) || IsAsciiLower(c) }

  /** Regex \d and str.isdigit: ASCII, Arabic-Indic and Extended Arabic-Indic digits. */
  predicate IsDigit(c: char) {
    IsAsciiDigit(c) || ('\U{660}' <= c <= '\U{669}') || ('\U{6F0}' <= c <= '\U{6F9}')
  }

  /** The three Arabic blocks the program treats as target script: U+0600-06FF, U+0750-077F, U+08A0-08FF. */
  predicate IsArabicBlock(c: char) {
    ('\U{600}' <= c <= '\U{6FF}') || ('\U{750}' <= c <= '\U{77F}') || ('\U{8A0}' <= c <= '\U{8FF}')
  }

  /** Characters of the Arabic blocks that are neither letters nor digits: signs, punctuation, combining marks. */
  predicate IsArabicNonWord(c: char) {
    ('\U{600}' <= c <= '\U{61F}') || ('\U{64B}' <= c <= '\U{65F}') || ('\U{66A}' <= c <= '\U{66D}')
    || c == '\U{670}' || c == '\U{6D4}' || ('\U{6D6}' <= c <= '\U{6E4}') || ('\U{6E7}' <= c <= '\U{6ED}')
    || c == '\U{6FD}' || c == '\U{6FE}' || ('\U{8CA}' <= c <= '\U{8FF}')
  }

  /** Other non-ASCII characters that are not word characters: Latin-1 signs, General Punctuation, whitespace. */
  predicate IsOtherNonWord(c: char) {
    ('\U{80}' <= c <= '\U{BF}' && c != '\U{AA}' && c != '\U{B2}' && c != '\U{B3}' && c != '\U{B5}'
      && c != '\U{B9}' && c != '\U{BA}' && !('\U{BC}' <= c <= '\U{BE}'))
    || c == '\U{D7}' || c == '\U{F7}' || ('\U{2000}' <= c <= '\U{206F}') || IsSpace(c)
  }

  /** Regex \w: letters, digits and the underscore. */
  predicate IsWordChar(c: char) {
    if c < '\U{80}' then IsAsciiLetter(c) || IsAsciiDigit(c) || c == '_'
    else !IsArabicNonWord(c) && !IsOtherNonWord(c)
  }

  /** str.lower() on one character (ASCII case mapping). */
  function LowerChar(c: char): char {
    if IsAsciiUpper(c) then (c as int + 32) as char else c
  }

  /** str.lower() */
  function Lower(s: String): (r: String)
    ensures |r| == |s|
    ensures forall i :: 0 <= i < |s| ==> r[i] == LowerChar(s[i])
  {
    seq(|s|, i requires 0 <= i < |s| => LowerChar(s[i]))
  }

  predicate StartsWith(s: String, prefix: String) {
    |prefix| <= |s| && s[..|prefix|] == prefix
  }

  predicate ContainsAt(s: String, sub: String, i: nat) {
    i + |sub| <= |s| && s[i..i + |sub|] == sub
  }

  /** Python's `sub in s`. */
  predicate Contains(s: String, sub: String) {
    exists i: nat | i <= |s| :: ContainsAt(s, sub, i)
  }

  /** A non-empty sequence is its prefix followed by its last element. */
  lemma SplitLast<T>(s: seq<T>)
    requires s != []
    ensures s == s[..|s| - 1] + [s[|s| - 1]]
  {
  }

  // ---------------------------------------------------------------- strip

  function LeadingSpaces(s: String): (n: nat)
    ensures n <= |s|
    ensures forall i :: 0 <= i < n ==> IsSpace(s[i])
    ensures n < |s| ==> !IsSpace(s[n])
  {
    if |s| > 0 && IsSpace(s[0]) then 1 + LeadingSpaces(s[1..]) else 0
  }

  function TrailingSpaces(s: String): (n: nat)
    ensures n <= |s|
    ensures forall i :: |s| - n <= i < |s| ==> IsSpace(s[i])
    ensures n < |s| ==> !IsSpace(s[|s| - 1 - n])
  {
    if |s| > 0 && IsSpace(s[|s| - 1]) then 1 + TrailingSpaces(s[..|s| - 1]) else 0
  }

  function LStrip(s: String): String { s[LeadingSpaces(s)..] }

  function RStrip(s: String): String { s[..|s| - TrailingSpaces(s)] }

  /** A string with no whitespace at either end. */
  predicate IsStripped(s: String) {
    s == [] || (!IsSpace(s[0]) && !IsSpace(s[|s| - 1]))
  }

  /** str.strip() */
  function Strip(s: String): (r: String)
    ensures |r| <= |s|
    ensures IsStripped(r)
  {
    RStrip(LStrip(s))
  }

  /** Strip cuts whitespace only: s is some whitespace, then Strip(s), then some whitespace. */
  lemma StripBounds(s: String) returns (a: nat, b: nat)
    ensures a <= b <= |s| && Strip(s) == s[a..b]
    ensures forall i :: 0 <= i < a ==> IsSpace(s[i])
    ensures forall i :: b <= i < |s| ==> IsSpace(s[i])
  {
    a := LeadingSpaces(s);
    var t := s[a..];
    var m := TrailingSpaces(t);
    b := a + |t| - m;
    assert LStrip(s) == t;
    assert Strip(s) == t[..|t| - m];
    assert t[..|t| - m] == s[a..b];
    forall i | b <= i < |s| ensures IsSpace(s[i]) {
      assert s[i] == t[i - a];
    }
  }

  lemma StrippedIsFixed(s: String)
    requires IsStripped(s)
    ensures Strip(s) == s
  {
    assert LeadingSpaces(s) == 0;
    assert TrailingSpaces(s) == 0;
  }

  lemma StripIdempotent(s: String)
    ensures Strip(Strip(s)) == Strip(s)
  {
    StrippedIsFixed(Strip(s));
  }

  /** The strip of a string is empty exactly when the string is all whitespace. */
  lemma StripEmpty(s: String)
    ensures Strip(s) == [] <==> forall i :: 0 <= i < |s| ==> IsSpace(s[i])
  {
    var a, b := StripBounds(s);
    if Strip(s) != [] {
      assert !IsSpace(s[a]);
    }
  }

  // ---------------------------------------------------------------- split and join

  function IndexOf(s: String, c: char): (k: nat)
    ensures k <= |s|
    ensures k < |s| ==> s[k] == c
    ensures forall i :: 0 <= i < k ==> s[i] != c
  {
    if |s| == 0 then 0 else if s[0] == c then 0 else 1 + IndexOf(s[1..], c)
  }

  /** str.split(sep) for a one-character separator. */
  function Split(s: String, sep: char): (parts: seq<String>)
    ensures |parts| >= 1
    ensures forall k :: 0 <= k < |parts| ==> sep !in parts[k]
    decreases |s|
  {
    var k := IndexOf(s, sep);
    if k == |s| then [s] else [s[..k]] + Split(s[k + 1..], sep)
  }

  /** sep.join(parts) */
  function Join(parts: seq<String>, sep: char): String {
    if |parts| == 0 then []
    else if |parts| == 1 then parts[0]
    else parts[0] + [sep] + Join(parts[1..], sep)
  }

  lemma {:induction false} JoinSplit(s: String, sep: char)
    ensures Join(Split(s, sep), sep) == s
    decreases |s|
  {
    var k := IndexOf(s, sep);
    if k < |s| {
      var rest := Split(s[k + 1..], sep);
      JoinSplit(s[k + 1..], sep);
      assert Split(s, sep) == [s[..k]] + rest;
      assert ([s[..k]] + rest)[1..] == rest;
      assert s == s[..k] + [sep] + s[k + 1..];
    }
  }

  lemma {:induction false} IndexOfJoined(a: String, b: String, c: char)
    requires c !in a
    ensures IndexOf(a + [c] + b, c) == |a|
    decreases |a|
  {
    if |a| > 0 {
      assert (a + [c] + b)[1..] == a[1..] + [c] + b;
      IndexOfJoined(a[1..], b, c);
    }
  }

  lemma {:induction false} SplitJoin(parts: seq<String>, sep: char)
    requires |parts| >= 1
    requires forall k :: 0 <= k < |parts| ==> sep !in parts[k]
    ensures Split(Join(parts, sep), sep) == parts
    decreases |parts|
  {
    if |parts| == 1 {
      assert IndexOf(parts[0], sep) == |parts[0]|;
    } else {
      var j, first, rest := Join(parts, sep), parts[0], parts[1..];
      var tail := Join(rest, sep);
      assert j == first + [sep] + tail;
      IndexOfJoined(first, tail, sep);
      assert j[..|first|] == first;
      assert j[|first| + 1..] == tail;
      assert Split(j, sep) == [first] + Split(tail, sep);
      assert forall k :: 0 <= k < |rest| ==> rest[k] == parts[k + 1];
      SplitJoin(rest, sep);
      assert parts == [first] + rest;
    }
  }

  /** str.split() with no argument: the maximal runs of non-whitespace. */
  function NonSpaceRun(s: String): (n: nat)
    ensures n <= |s|
    ensures forall i :: 0 <= i < n ==> !IsSpace(s[i])
    ensures n < |s| ==> IsSpace(s[n])
  {
    if |s| > 0 && !IsSpace(s[0]) then 1 + NonSpaceRun(s[1..]) else 0
  }

  function Words(s: String): (ws: seq<String>)
    ensures forall k :: 0 <= k < |ws| ==> ws[k] != []
    decreases |s|
  {
    var a := LeadingSpaces(s);
    if a == |s| then []
    else
      var b := NonSpaceRun(s[a..]);
      [s[a..a + b]] + Words(s[a + b..])
  }

  /** Length of the leading run of word characters. */
  function WordRun(s: String): (n: nat)
    ensures n <= |s|
    ensures forall i :: 0 <= i < n ==> IsWordChar(s[i])
    ensures n < |s| ==> !IsWordChar(s[n])
  {
    if |s| > 0 && IsWordChar(s[0]) then 1 + WordRun(s[1..]) else 0
  }

  /** Length of the leading run of decimal digits. */
  function DigitRun(s: String): (n: nat)
    ensures n <= |s|
    ensures forall i :: 0 <= i < n ==> IsDigit(s[i])
    ensures n < |s| ==> !IsDigit(s[n])
  {
    if |s| > 0 && IsDigit(s[0]) then 1 + DigitRun(s[1..]) else 0
  }

  /** Length of the leading run of characters other than c. */
  function RunWithout(s: String, c: char): (n: nat)
    ensures n <= |s|
    ensures forall i :: 0 <= i < n ==> s[i] != c
    ensures n < |s| ==> s[n] == c
  {
    IndexOf(s, c)
  }

  // ---------------------------------------------------------------- replace

  /** str.replace(pat, rep) for a non-empty pattern: left to right, non-overlapping. */
  function Replace(s: String, pat: String, rep: String): String
    requires |pat| > 0
    decreases |s|
  {
    if |s| < |pat| then s
    else if s[..|pat|] == pat then rep + Replace(s[|pat|..], pat, rep)
    else [s[0]] + Replace(s[1..], pat, rep)
  }

  lemma {:induction false} ReplaceAbsent(s: String, pat: String, rep: String)
    requires |pat| > 0
    requires !Contains(s, pat)
    ensures Replace(s, pat, rep) == s
    decreases |s|
  {
    if |s| >= |pat| {
      assert !ContainsAt(s, pat, 0);
      if !Contains(s[1..], pat) {
        ReplaceAbsent(s[1..], pat, rep);
        assert s == [s[0]] + s[1..];
      } else {
        var i: nat :| i <= |s[1..]| && ContainsAt(s[1..], pat, i);
        assert s[i + 1..i + 1 + |pat|] == s[1..][i..i + |pat|];
        assert ContainsAt(s, pat, i + 1);
      }
    }
  }

  /** Replacing never introduces a character that is in neither the text nor the replacement. */
  lemma {:induction false} ReplaceKeepsOut(s: String, pat: String, rep: String, c: char)
    requires |pat| > 0 && c !in s && c !in rep
    ensures c !in Replace(s, pat, rep)
    decreases |s|
  {
    if |s| >= |pat| {
      if s[..|pat|] == pat {
        ReplaceKeepsOut(s[|pat|..], pat, rep, c);
      } else {
        ReplaceKeepsOut(s[1..], pat, rep, c);
      }
    }
  }

  /** Replacing a pattern by something no longer never lengthens the text. */
  lemma {:induction false} ReplaceShrinks(s: String, pat: String, rep: String)
    requires 0 < |pat| && |rep| <= |pat|
    ensures |Replace(s, pat, rep)| <= |s|
    decreases |s|
  {
    if |s| >= |pat| {
      if s[..|pat|] == pat {
        ReplaceShrinks(s[|pat|..], pat, rep);
      } else {
        ReplaceShrinks(s[1..], pat, rep);
      }
    }
  }
}
