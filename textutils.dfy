/**
 * The small text helpers of utils.py: the clean-up applied before a text is
 * sent for translation, API key validation, file-name sanitising and word
 * counting.
 */
module TextUtils {
  import opened Strings

  // ---------------------------------------------------------------- clean_text_for_translation

  /** No two whitespace characters stand next to each other. */
  predicate NoDoubleSpace(s: String) {
    forall i :: 0 <= i < |s| - 1 ==> !(IsSpace(s[i]) && IsSpace(s[i + 1]))
  }

  predicate IsQuote(c: char) { c == '"' || c == '\'' }

  function LeadingQuotes(s: String): (n: nat)
    ensures n <= |s|
  {
    if |s| > 0 && IsQuote(s[0]) then 1 + LeadingQuotes(s[1..]) else 0
  }

  function TrailingQuotes(s: String): (n: nat)
    ensures n <= |s|
  {
    if |s| > 0 && IsQuote(s[|s| - 1]) then 1 + TrailingQuotes(s[..|s| - 1]) else 0
  }

  /** str.strip('"\'') : a slice of the text with the quote characters cut from both ends. */
  function StripQuotes(s: String): (r: String)
    ensures exists a: nat, b: nat | a <= b <= |s| :: r == s[a..b]
  {
    var t := s[LeadingQuotes(s)..];
    var r := t[..|t| - TrailingQuotes(t)];
    assert r == s[LeadingQuotes(s)..LeadingQuotes(s) + |r|];
    r
  }

  /** re.sub(r'\s*-\s*', ' ', s): every hyphen, with the whitespace around it, becomes one space. */
  function DashToSpace(s: String): (r: String)
    ensures forall i :: 0 <= i < |r| ==> r[i] == ' ' || r[i] in s
    decreases |s|
  {
    if s == [] then []
    else
      var w := LeadingSpaces(s);
      if w < |s| && s[w] == '-' then
        var rest := s[w + 1..];
        var tail := DashToSpace(rest[LeadingSpaces(rest)..]);
        assert forall c :: c in rest[LeadingSpaces(rest)..] ==> c in s;
        [' '] + tail
      else
        var tail := DashToSpace(s[1..]);
        assert forall c :: c in s[1..] ==> c in s;
        [s[0]] + tail
  }

  const ExampleLabel: String := "مثال: "

  /** re.sub(r'^ex\s*:?\s*', 'مثال: ', s, flags=re.IGNORECASE) */
  function ExamplePrefix(s: String): (r: String)
    ensures forall i :: 0 <= i < |r| ==> r[i] in ExampleLabel || r[i] in s
  {
    if |s| >= 2 && LowerChar(s[0]) == 'e' && LowerChar(s[1]) == 'x' then
      var rest := s[2..][LeadingSpaces(s[2..])..];
      var afterColon := if |rest| > 0 && rest[0] == ':' then rest[1..] else rest;
      var tail := afterColon[LeadingSpaces(afterColon)..];
      assert forall c :: c in tail ==> c in s;
      ExampleLabel + tail
    else s
  }

  /** re.sub(r'\s+', ' ', s): every maximal run of whitespace becomes one space. */
  function CollapseSpaces(s: String): (r: String)
    ensures NoDoubleSpace(r)
    ensures forall i :: 0 <= i < |r| ==> r[i] == ' ' || (r[i] in s && !IsSpace(r[i]))
    ensures |r| > 0 && IsSpace(r[0]) ==> |s| > 0 && IsSpace(s[0])
    decreases |s|
  {
    if s == [] then []
    else if IsSpace(s[0]) then
      var rest := s[LeadingSpaces(s)..];
      var tail := CollapseSpaces(rest);
      assert forall c :: c in rest ==> c in s;
      [' '] + tail
    else
      var tail := CollapseSpaces(s[1..]);
      assert forall c :: c in s[1..] ==> c in s;
      [s[0]] + tail
  }

  lemma {:induction false} CollapseShrinks(s: String)
    ensures |CollapseSpaces(s)| <= |s|
    decreases |s|
  {
    if s != [] {
      if IsSpace(s[0]) {
        CollapseShrinks(s[LeadingSpaces(s)..]);
      } else {
        CollapseShrinks(s[1..]);
      }
    }
  }

  /** A text ending in a non-space character still does after the collapse. */
  lemma {:induction false} CollapseKeepsLast(s: String)
    requires |s| > 0 && !IsSpace(s[|s| - 1])
    ensures |CollapseSpaces(s)| > 0 && !IsSpace(CollapseSpaces(s)[|CollapseSpaces(s)| - 1])
    decreases |s|
  {
    if IsSpace(s[0]) {
      var rest := s[LeadingSpaces(s)..];
      assert rest[|rest| - 1] == s[|s| - 1];
      CollapseKeepsLast(rest);
    } else if |s| > 1 {
      assert s[1..][|s| - 2] == s[|s| - 1];
      CollapseKeepsLast(s[1..]);
    }
  }

  /** A text whose only whitespace is single ' ' characters is left as it is. */
  lemma {:induction false} CollapseFixed(s: String)
    requires NoDoubleSpace(s)
    requires forall i :: 0 <= i < |s| && IsSpace(s[i]) ==> s[i] == ' '
    ensures CollapseSpaces(s) == s
    decreases |s|
  {
    if s != [] {
      if IsSpace(s[0]) {
        assert LeadingSpaces(s) == 1 by {
          if |s| > 1 { assert !IsSpace(s[1]); }
        }
      }
      CollapseFixed(s[1..]);
    }
  }

  /** The non-whitespace characters of s, in order: what whitespace rewriting must keep. */
  function NonSpace(s: String): (r: String)
    ensures |r| <= |s|
  {
    if s == [] then [] else (if IsSpace(s[0]) then [] else [s[0]]) + NonSpace(s[1..])
  }

  lemma {:induction false} NonSpaceConcat(a: String, b: String)
    ensures NonSpace(a + b) == NonSpace(a) + NonSpace(b)
    decreases |a|
  {
    if a != [] {
      assert (a + b)[1..] == a[1..] + b;
      NonSpaceConcat(a[1..], b);
    } else {
      assert a + b == b;
    }
  }

  lemma {:induction false} NonSpaceOfBlanks(s: String)
    requires forall i :: 0 <= i < |s| ==> IsSpace(s[i])
    ensures NonSpace(s) == []
    decreases |s|
  {
    if s != [] {
      NonSpaceOfBlanks(s[1..]);
    }
  }

  /** Collapsing whitespace runs keeps every other character, in order. */
  lemma {:induction false} CollapseKeepsNonSpace(s: String)
    ensures NonSpace(CollapseSpaces(s)) == NonSpace(s)
    decreases |s|
  {
    if s != [] {
      if IsSpace(s[0]) {
        var n := LeadingSpaces(s);
        var rest := s[n..];
        CollapseKeepsNonSpace(rest);
        assert s == s[..n] + rest;
        NonSpaceConcat(s[..n], rest);
        NonSpaceOfBlanks(s[..n]);
        assert ([' '] + CollapseSpaces(rest))[1..] == CollapseSpaces(rest);
      } else {
        CollapseKeepsNonSpace(s[1..]);
        assert ([s[0]] + CollapseSpaces(s[1..]))[1..] == CollapseSpaces(s[1..]);
      }
    }
  }

  /** Cutting a prefix of the non-whitespace characters keeps them in order. */
  lemma NonSpacePrefix(s: String, k: nat)
    requires k <= |s|
    ensures |NonSpace(s[..k])| <= |NonSpace(s)| && NonSpace(s[..k]) == NonSpace(s)[..|NonSpace(s[..k])|]
  {
    assert s == s[..k] + s[k..];
    NonSpaceConcat(s[..k], s[k..]);
  }

  lemma DropBlankPrefix(s: String, n: nat)
    requires n <= |s| && forall i :: 0 <= i < n ==> IsSpace(s[i])
    ensures NonSpace(s[n..]) == NonSpace(s)
  {
    assert s == s[..n] + s[n..];
    NonSpaceConcat(s[..n], s[n..]);
    NonSpaceOfBlanks(s[..n]);
  }

  lemma DropBlankSuffix(s: String, n: nat)
    requires n <= |s| && forall i :: n <= i < |s| ==> IsSpace(s[i])
    ensures NonSpace(s[..n]) == NonSpace(s)
  {
    var tail := s[n..];
    forall i | 0 <= i < |tail| ensures IsSpace(tail[i]) {
      assert tail[i] == s[n + i];
    }
    NonSpaceOfBlanks(tail);
    assert s == s[..n] + tail;
    NonSpaceConcat(s[..n], tail);
  }

  /** Stripping removes whitespace only. */
  lemma StripKeepsNonSpace(s: String)
    ensures NonSpace(Strip(s)) == NonSpace(s)
  {
    var t := LStrip(s);
    DropBlankPrefix(s, LeadingSpaces(s));
    DropBlankSuffix(t, |t| - TrailingSpaces(t));
  }

  /** clean_text_for_translation */
  function CleanTextForTranslation(text: String): (r: String)
    ensures IsStripped(r)
    ensures '_' !in r
    ensures NoDoubleSpace(r)
  {
    if text == [] then []
    else
      var t := StripQuotes(Strip(text));
      var noUnderscore := Replace(t, "_", " ");
      var noDash := DashToSpace(noUnderscore);
      var labelled := ExamplePrefix(noDash);
      var collapsed := CollapseSpaces(labelled);
      var cleaned := Strip(collapsed);
      UnderscoreGone(t);
      StripKeepsNoDoubleSpace(collapsed);
      if cleaned == [] || Lower(cleaned) == " " || Lower(cleaned) == "null" || Lower(cleaned) == "undefined" then []
      else cleaned
  }

  lemma {:induction false} ReplaceCharGone(s: String, c: char, rep: String)
    requires c !in rep
    ensures c !in Replace(s, [c], rep)
    decreases |s|
  {
    if |s| >= 1 {
      ReplaceCharGone(s[1..], c, rep);
    }
  }

  /** After the underscore replacement and the later rewrites, no underscore is left. */
  lemma UnderscoreGone(t: String)
    ensures '_' !in Strip(CollapseSpaces(ExamplePrefix(DashToSpace(Replace(t, "_", " ")))))
  {
    var a := Replace(t, "_", " ");
    ReplaceCharGone(t, '_', " ");
    var b := DashToSpace(a);
    DashKeepsAbsent(a, '_');
    var c := ExamplePrefix(b);
    ExampleKeepsAbsent(b, '_');
    var d := CollapseSpaces(c);
    CollapseKeepsAbsent(c, '_');
    StripKeepsAbsent(d, '_');
  }

  lemma DashKeepsAbsent(s: String, c: char)
    requires c != ' ' && c !in s
    ensures c !in DashToSpace(s)
  {
    var r := DashToSpace(s);
    assert forall i :: 0 <= i < |r| ==> r[i] != c;
  }

  lemma ExampleKeepsAbsent(s: String, c: char)
    requires c != ' ' && c != ':' && c !in s && c !in "مثال"
    ensures c !in ExamplePrefix(s)
  {
    var r := ExamplePrefix(s);
    assert c !in ExampleLabel;
    assert forall i :: 0 <= i < |r| ==> r[i] != c;
  }

  lemma CollapseKeepsAbsent(s: String, c: char)
    requires c != ' ' && c !in s
    ensures c !in CollapseSpaces(s)
  {
    var r := CollapseSpaces(s);
    assert forall i :: 0 <= i < |r| ==> r[i] != c;
  }

  lemma StripKeepsAbsent(s: String, c: char)
    requires c !in s
    ensures c !in Strip(s)
  {
    var lo, hi := StripBounds(s);
    assert forall i :: 0 <= i < hi - lo ==> Strip(s)[i] == s[lo + i];
  }

  lemma StripKeepsNoDoubleSpace(s: String)
    requires NoDoubleSpace(s)
    ensures NoDoubleSpace(Strip(s))
  {
    var a, b := StripBounds(s);
    assert forall i :: 0 <= i < b - a ==> Strip(s)[i] == s[a + i];
  }

  /** The placeholders the program treats as "no text" clean to the empty string, whatever their case. */
  lemma PlaceholdersCleanToEmpty(text: String)
    requires Lower(text) == "null" || Lower(text) == "undefined"
    ensures CleanTextForTranslation(text) == []
  {
    assert |text| >= 4;
    forall i | 0 <= i < |text| ensures IsAsciiLetter(text[i]) {
      assert IsAsciiLower(Lower(text)[i]);
    }
    assert LowerChar(text[0]) != 'e';
    LettersPassThrough(text);
  }

  /** A word of ASCII letters not starting with "e" goes through every rewriting step unchanged. */
  lemma LettersPassThrough(text: String)
    requires text != []
    requires forall i :: 0 <= i < |text| ==> IsAsciiLetter(text[i])
    requires LowerChar(text[0]) != 'e'
    ensures Strip(CollapseSpaces(ExamplePrefix(DashToSpace(Replace(StripQuotes(Strip(text)), "_", " "))))) == text
  {
    LettersUnquoted(text);
    LettersUnchangedByRewrites(text);
  }

  lemma LettersUnquoted(text: String)
    requires text != []
    requires forall i :: 0 <= i < |text| ==> IsAsciiLetter(text[i])
    ensures StripQuotes(Strip(text)) == text
  {
    StrippedIsFixed(text);
    assert LeadingQuotes(text) == 0;
    assert TrailingQuotes(text) == 0;
  }

  lemma LettersUnchangedByRewrites(text: String)
    requires text != []
    requires forall i :: 0 <= i < |text| ==> IsAsciiLetter(text[i])
    requires LowerChar(text[0]) != 'e'
    ensures Strip(CollapseSpaces(ExamplePrefix(DashToSpace(Replace(text, "_", " "))))) == text
  {
    forall i | 0 <= i < |text| ensures IsWordPart(text[i]) {
      LetterIsWordPart(text[i]);
    }
    WordUnchangedByRewrites(text);
  }

  lemma LetterIsWordPart(c: char)
    requires IsAsciiLetter(c)
    ensures IsWordPart(c)
  {
  }

  /** A character that is neither whitespace nor one of the separators the clean-up rewrites. */
  predicate IsWordPart(c: char) { !IsSpace(c) && c != '-' && c != '_' }

  lemma WordUnchangedByRewrites(text: String)
    requires text != []
    requires forall i :: 0 <= i < |text| ==> IsWordPart(text[i])
    requires LowerChar(text[0]) != 'e'
    ensures Strip(CollapseSpaces(ExamplePrefix(DashToSpace(Replace(text, "_", " "))))) == text
  {
    WordKeepsSeparatorSteps(text);
    WordKeepsSpacingSteps(text);
  }

  lemma WordKeepsSeparatorSteps(text: String)
    requires forall i :: 0 <= i < |text| ==> IsWordPart(text[i])
    ensures DashToSpace(Replace(text, "_", " ")) == text
  {
    assert '_' !in text;
    CharAbsentNotContained(text, '_');
    ReplaceAbsent(text, "_", " ");
    NoDashFixed(text);
  }

  lemma WordKeepsSpacingSteps(text: String)
    requires text != []
    requires forall i :: 0 <= i < |text| ==> IsWordPart(text[i])
    requires LowerChar(text[0]) != 'e'
    ensures Strip(CollapseSpaces(ExamplePrefix(text))) == text
  {
    assert ExamplePrefix(text) == text;
    NoSpaceFixed(text);
    StrippedIsFixed(text);
  }

  lemma CharAbsentNotContained(s: String, c: char)
    requires c !in s
    ensures !Contains(s, [c])
  {
    forall i: nat | i <= |s| ensures !ContainsAt(s, [c], i) {
      if i + 1 <= |s| {
        assert s[i..i + 1] == [s[i]];
      }
    }
  }

  lemma {:induction false} NoDashFixed(s: String)
    requires forall i :: 0 <= i < |s| ==> !IsSpace(s[i]) && s[i] != '-'
    ensures DashToSpace(s) == s
    decreases |s|
  {
    if s != [] {
      NoDashFixed(s[1..]);
    }
  }

  lemma {:induction false} NoSpaceFixed(s: String)
    requires forall i :: 0 <= i < |s| ==> !IsSpace(s[i])
    ensures CollapseSpaces(s) == s
    decreases |s|
  {
    if s != [] {
      NoSpaceFixed(s[1..]);
    }
  }

  // ---------------------------------------------------------------- validate_api_key

  /** validate_api_key: the checks are made on the key with surrounding whitespace removed. */
  function ValidateApiKey(key: String, provider: String): (ok: bool)
    ensures ok <==> (provider == "openai" && StartsWith(Strip(key), "sk-") && |Strip(key)| > 20)
                    || (provider == "google" && |Strip(key)| > 30)
  {
    if key == [] then false
    else
      var k := Strip(key);
      if provider == "openai" then StartsWith(k, "sk-") && |k| > 20
      else if provider == "google" then |k| > 30
      else false
  }

  /** Whitespace around a key never changes the verdict. */
  lemma ValidateApiKeyIgnoresPadding(key: String, provider: String)
    ensures ValidateApiKey(Strip(key), provider) == ValidateApiKey(key, provider)
  {
    StripIdempotent(key);
  }

  // ---------------------------------------------------------------- sanitize_filename

  /** The characters [<>:"/\|?*] that file names may not contain. */
  predicate IsForbiddenInFileName(c: char) {
    c == '<' || c == '>' || c == ':' || c == '"' || c == '/' || c == '\\' || c == '|' || c == '?' || c == '*'
  }

  /** sanitize_filename: each forbidden character becomes an underscore. */
  function SanitizeFilename(name: String): (r: String)
    ensures |r| == |name|
    ensures forall i :: 0 <= i < |r| ==> !IsForbiddenInFileName(r[i])
    ensures forall i :: 0 <= i < |r| && !IsForbiddenInFileName(name[i]) ==> r[i] == name[i]
  {
    seq(|name|, i requires 0 <= i < |name| => if IsForbiddenInFileName(name[i]) then '_' else name[i])
  }

  lemma SanitizeFilenameIdempotent(name: String)
    ensures SanitizeFilename(SanitizeFilename(name)) == SanitizeFilename(name)
  {
  }

  // ---------------------------------------------------------------- count_words

  /** count_words: the number of matches of \b\w+\b, that is of maximal runs of word characters. */
  function CountWords(text: String): (n: nat)
    ensures n <= |text|
    decreases |text|
  {
    if text == [] then 0
    else if !IsWordChar(text[0]) then CountWords(text[1..])
    else 1 + CountWords(text[WordRun(text)..])
  }

  lemma {:induction false} WordRunStops(a: String, t: String)
    requires t != [] && !IsWordChar(t[0])
    ensures WordRun(a + t) == WordRun(a)
    decreases |a|
  {
    if a != [] && IsWordChar(a[0]) {
      assert (a + t)[1..] == a[1..] + t;
      WordRunStops(a[1..], t);
    }
  }

  /** Two texts joined by a non-word character hold the words of both. */
  lemma {:induction false} CountWordsJoin(a: String, c: char, b: String)
    requires !IsWordChar(c)
    ensures CountWords(a + [c] + b) == CountWords(a) + CountWords(b)
    decreases |a|
  {
    var s := a + [c] + b;
    if a == [] {
      assert s[1..] == b;
    } else if !IsWordChar(a[0]) {
      assert s[1..] == a[1..] + [c] + b;
      CountWordsJoin(a[1..], c, b);
    } else {
      WordRunStops(a, [c] + b);
      assert s == a + ([c] + b);
      var k := WordRun(a);
      assert s[k..] == a[k..] + [c] + b;
      CountWordsJoin(a[k..], c, b);
    }
  }

  /** A text has no words exactly when it has no word character. */
  lemma {:induction false} CountWordsZero(text: String)
    ensures CountWords(text) == 0 <==> forall i :: 0 <= i < |text| ==> !IsWordChar(text[i])
    decreases |text|
  {
    if text != [] && !IsWordChar(text[0]) {
      CountWordsZero(text[1..]);
      assert forall i :: 1 <= i < |text| ==> text[i] == text[1..][i - 1];
    }
  }
}
