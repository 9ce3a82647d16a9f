/**
 * The text classifier: _needs_translation of file_handler.py, an ordered cascade
 * of cheap exclusions, and should_skip_translation of utils.py. Each regular
 * expression of the cascade is written out as a predicate on the stripped text.
 */
module Classifier {
  import opened Strings
  import opened ArabicScript

  predicate AllWordChars(s: String) { forall i :: 0 <= i < |s| ==> IsWordChar(s[i]) }

  predicate AllDigits(s: String) { forall i :: 0 <= i < |s| ==> IsDigit(s[i]) }

  predicate AllAsciiLetters(s: String) { forall i :: 0 <= i < |s| ==> IsAsciiLetter(s[i]) }

  /** [^\w\s] */
  predicate IsSymbol(c: char) { !IsWordChar(c) && !IsSpace(c) }

  /** str.isdigit() */
  predicate IsDigitString(t: String) { |t| > 0 && AllDigits(t) }

  /** ^\$\w+$ */
  predicate IsDollarVariable(t: String) { |t| >= 2 && t[0] == '$' && AllWordChars(t[1..]) }

  /** ^\{\{.*\}\}$ where '.' is any character except a newline */
  predicate IsTemplateToken(t: String) {
    |t| >= 4 && t[..2] == "{{" && t[|t| - 2..] == "}}" && '\n' !in t[2..|t| - 2]
  }

  /** ^\w+\(\)$ */
  predicate IsCallToken(t: String) {
    |t| >= 3 && t[|t| - 2..] == "()" && AllWordChars(t[..|t| - 2])
  }

  /** ^[^\w\s]+$ */
  predicate IsSymbolsOnly(t: String) { |t| >= 1 && forall i :: 0 <= i < |t| ==> IsSymbol(t[i]) }

  /** ^\w+\.\w+$ */
  predicate IsFileNameToken(t: String) {
    var k := WordRun(t);
    0 < k && k + 1 < |t| && t[k] == '.' && AllWordChars(t[k + 1..])
  }

  /** ^https?:// */
  predicate IsUrl(t: String) { StartsWith(t, "http://") || StartsWith(t, "https://") }

  /** ^mailto: */
  predicate IsMailTo(t: String) { StartsWith(t, "mailto:") }

  predicate IsNumberSeparator(c: char) { c == '.' || c == '-' || IsSpace(c) }

  function SeparatorRun(s: String): (n: nat)
    ensures n <= |s|
    ensures forall i :: 0 <= i < n ==> IsNumberSeparator(s[i])
  {
    if |s| > 0 && IsNumberSeparator(s[0]) then 1 + SeparatorRun(s[1..]) else 0
  }

  /** ^\d+[\.\-\s]*\d*$ (digits and separators are disjoint, so the greedy reading is the only one) */
  predicate IsSeparatedNumber(t: String) {
    var d := DigitRun(t);
    d > 0 && AllDigits(t[d + SeparatorRun(t[d..])..])
  }

  /** ^[A-Z_]+$ */
  predicate IsConstantName(t: String) {
    |t| >= 1 && forall i :: 0 <= i < |t| ==> IsAsciiUpper(t[i]) || t[i] == '_'
  }

  /** ^\w+\[\d+\]$ */
  predicate IsIndexedToken(t: String) {
    var k := WordRun(t);
    0 < k && k + 2 < |t| && t[k] == '[' && t[|t| - 1] == ']' && AllDigits(t[k + 1..|t| - 1])
  }

  /** The ten programming patterns, tried in the order the program lists them. */
  predicate IsProgrammingToken(t: String) {
    IsDollarVariable(t) || IsTemplateToken(t) || IsCallToken(t) || IsSymbolsOnly(t)
    || IsFileNameToken(t) || IsUrl(t) || IsMailTo(t) || IsSeparatedNumber(t)
    || IsConstantName(t) || IsIndexedToken(t)
  }

  /** ^<[^>]+>$ */
  predicate IsHtmlTag(t: String) {
    |t| >= 3 && t[0] == '<' && t[|t| - 1] == '>' && '>' !in t[1..|t| - 1]
  }

  /** Matches of \b[a-zA-Z]+\b: the maximal runs of word characters that are all ASCII letters. */
  function LatinWordCount(s: String): (n: nat)
    decreases |s|
  {
    if s == [] then 0
    else if !IsWordChar(s[0]) then LatinWordCount(s[1..])
    else
      var k := WordRun(s);
      (if AllAsciiLetters(s[..k]) then 1 else 0) + LatinWordCount(s[k..])
  }

  /** Matches of [^\w\s]. */
  function SymbolCount(s: String): (n: nat)
    ensures n <= |s|
  {
    if s == [] then 0 else (if IsSymbol(s[0]) then 1 else 0) + SymbolCount(s[1..])
  }

  /** re.search(r'[a-zA-Z]', t) */
  predicate HasAsciiLetter(t: String) { exists i :: 0 <= i < |t| && IsAsciiLetter(t[i]) }

  /** _needs_translation */
  predicate NeedsTranslation(text: String) {
    if text == [] then false
    else
      var t := Strip(text);
      if |t| < 2 then false
      else if IsDigitString(t) then false
      else if IsProgrammingToken(t) then false
      else if IsHtmlTag(t) then false
      else if HasArabicContent(t) then false
      else
        var words := LatinWordCount(t);
        var symbols := SymbolCount(t);
        if symbols > words && words < 3 then false
        else HasAsciiLetter(t) && words > 0
  }

  /** should_skip_translation */
  predicate ShouldSkipTranslation(text: String) {
    if text == [] then true
    else
      var t := Strip(text);
      |t| < 2 || IsDollarVariable(t) || IsTemplateToken(t) || IsCallToken(t)
      || IsDigitString(t) || IsSymbolsOnly(t) || HasArabicContent(t)
  }

  /** Each exclusion of the cascade, stated on the text as given. */
  lemma NeedsTranslationExclusions(text: String)
    ensures |Strip(text)| < 2 ==> !NeedsTranslation(text)
    ensures IsDigitString(Strip(text)) ==> !NeedsTranslation(text)
    ensures IsConstantName(Strip(text)) ==> !NeedsTranslation(text)
    ensures IsDollarVariable(Strip(text)) ==> !NeedsTranslation(text)
    ensures HasArabicContent(text) ==> !NeedsTranslation(text)
  {
    HasArabicIgnoresStrip(text);
  }

  /** The text needs translation only if it holds an ASCII letter and at least one Latin word, and is not Arabic. */
  lemma NeedsTranslationOnlyIf(text: String)
    requires NeedsTranslation(text)
    ensures HasAsciiLetter(Strip(text)) && LatinWordCount(Strip(text)) > 0
    ensures !HasArabicContent(text) && |Strip(text)| >= 2
  {
    HasArabicIgnoresStrip(text);
  }

  /** Whatever should_skip_translation skips, _needs_translation also rejects. */
  lemma SkippedNeverNeedsTranslation(text: String)
    requires ShouldSkipTranslation(text)
    ensures !NeedsTranslation(text)
  {
  }

  predicate IsPlainWordText(t: String) {
    forall i :: 0 <= i < |t| ==> IsAsciiLetter(t[i]) || t[i] == ' '
  }

  lemma {:induction false} PlainTextCounts(t: String)
    requires IsPlainWordText(t)
    ensures SymbolCount(t) == 0
    ensures HasAsciiLetter(t) ==> LatinWordCount(t) > 0
    decreases |t|
  {
    if t != [] {
      PlainTextCounts(t[1..]);
      if HasAsciiLetter(t) && IsWordChar(t[0]) {
        var k := WordRun(t);
        assert AllAsciiLetters(t[..k]);
      } else if HasAsciiLetter(t) {
        var i :| 0 <= i < |t| && IsAsciiLetter(t[i]);
        assert i > 0;
        assert IsAsciiLetter(t[1..][i - 1]);
      }
    }
  }

  /**
   * Ordinary prose is sent for translation: a stripped text of at least two
   * characters made of ASCII letters and spaces, with a lower-case letter.
   */
  lemma PlainTextNeedsTranslation(text: String)
    requires |Strip(text)| >= 2
    requires IsPlainWordText(Strip(text))
    requires exists i :: 0 <= i < |Strip(text)| && IsAsciiLower(Strip(text)[i])
    ensures NeedsTranslation(text)
  {
    var t := Strip(text);
    var i :| 0 <= i < |t| && IsAsciiLower(t[i]);
    assert IsAsciiLetter(t[i]);
    PlainTextCounts(t);
    NoArabicBlockNotArabic(t);
    PlainTextNotAddress(t, i);
    PlainTextNotCode(t, i);
  }

  /** Plain words are not a constant name, a URL, a mailto: link, a file name or an indexed token. */
  lemma PlainTextNotAddress(t: String, i: nat)
    requires |t| >= 2 && IsPlainWordText(t)
    requires i < |t| && IsAsciiLower(t[i])
    ensures !IsConstantName(t) && !IsUrl(t) && !IsMailTo(t) && !IsFileNameToken(t) && !IsIndexedToken(t)
  {
    assert !IsConstantName(t) by {
      assert !(IsAsciiUpper(t[i]) || t[i] == '_');
    }
    assert !IsUrl(t) by {
      assert |t| >= 7 ==> t[..7][4] == t[4] && t[4] != ':';
      assert |t| >= 8 ==> t[..8][5] == t[5] && t[5] != ':';
    }
    assert !IsMailTo(t) by {
      assert |t| >= 7 ==> t[..7][6] == t[6] && t[6] != ':';
    }
    assert !IsFileNameToken(t) by {
      var k := WordRun(t);
      if 0 < k && k + 1 < |t| { assert t[k] != '.'; }
    }
    assert !IsIndexedToken(t) by {
      var k := WordRun(t);
      if 0 < k && k + 2 < |t| { assert t[k] != '['; }
    }
  }

  /** Plain words are not a template, a call, a tag, symbols, a number or a digit string. */
  lemma PlainTextNotCode(t: String, i: nat)
    requires |t| >= 2 && IsPlainWordText(t)
    requires i < |t| && IsAsciiLower(t[i])
    ensures !IsDollarVariable(t) && !IsTemplateToken(t) && !IsCallToken(t) && !IsHtmlTag(t)
    ensures !IsSymbolsOnly(t) && !IsSeparatedNumber(t) && !IsDigitString(t)
  {
    var last := |t| - 1;
    PlainChar(t[0]);
    PlainChar(t[last]);
    PlainChar(t[i]);
    assert !IsDollarVariable(t);
    assert !IsTemplateToken(t) by {
      if |t| >= 4 { assert t[..2][0] == t[0]; }
    }
    assert !IsCallToken(t) by {
      if |t| >= 3 { assert t[|t| - 2..][1] == t[last]; }
    }
    assert !IsHtmlTag(t);
    assert !IsSymbolsOnly(t);
    assert DigitRun(t) == 0;
    assert !IsDigitString(t);
  }

  /** A letter or a space is none of the characters the code patterns start or end with. */
  lemma PlainChar(c: char)
    requires IsAsciiLetter(c) || c == ' '
    ensures c != '$' && c != '{' && c != ')' && c != '<' && !IsDigit(c)
    ensures IsAsciiLetter(c) ==> !IsSymbol(c)
  {
  }
}
