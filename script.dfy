/**
 * The majority-script test of utils.py (has_arabic_content) and the status
 * label derived from it (determine_translation_status).
 */
module ArabicScript {
  import opened Strings

  /**
   * A character has_arabic_content counts as Arabic: it survives the removal of
   * [^\w\s] and of \d+, and lies in one of the three Arabic blocks.
   */
  predicate IsArabicLetter(c: char) {
    IsArabicBlock(c) && IsWordChar(c) && !IsDigit(c)
  }

  function ArabicLetters(s: String): (n: nat)
    ensures n <= |s|
  {
    if s == [] then 0 else (if IsArabicLetter(s[0]) then 1 else 0) + ArabicLetters(s[1..])
  }

  function AsciiLetters(s: String): (n: nat)
    ensures n <= |s|
  {
    if s == [] then 0 else (if IsAsciiLetter(s[0]) then 1 else 0) + AsciiLetters(s[1..])
  }

  /**
   * has_arabic_content: more than half of the letters that count (ASCII letters
   * plus Arabic letters) are Arabic; the ratio test arabic / total > 0.5 is
   * written as 2 * arabic > total.
   */
  predicate HasArabicContent(text: String) {
    if text == [] then false
    else
      var arabic := ArabicLetters(text);
      var total := AsciiLetters(text) + arabic;
      if total == 0 then false else 2 * arabic > total
  }

  lemma {:induction false} ArabicLettersAppend(a: String, b: String)
    ensures ArabicLetters(a + b) == ArabicLetters(a) + ArabicLetters(b)
    decreases |a|
  {
    if a != [] {
      assert (a + b)[1..] == a[1..] + b;
      ArabicLettersAppend(a[1..], b);
    } else {
      assert a + b == b;
    }
  }

  lemma {:induction false} AsciiLettersAppend(a: String, b: String)
    ensures AsciiLetters(a + b) == AsciiLetters(a) + AsciiLetters(b)
    decreases |a|
  {
    if a != [] {
      assert (a + b)[1..] == a[1..] + b;
      AsciiLettersAppend(a[1..], b);
    } else {
      assert a + b == b;
    }
  }

  lemma {:induction false} NoLettersInSpaces(s: String)
    requires forall i :: 0 <= i < |s| ==> IsSpace(s[i])
    ensures ArabicLetters(s) == 0 && AsciiLetters(s) == 0
    decreases |s|
  {
    if s != [] {
      NoLettersInSpaces(s[1..]);
    }
  }

  /** The test is a strict Arabic majority over ASCII letters. */
  lemma ArabicMajority(text: String)
    ensures HasArabicContent(text) <==> ArabicLetters(text) > AsciiLetters(text)
  {
  }

  /** Surrounding whitespace never changes the verdict, so testing text or text.strip() agree. */
  lemma HasArabicIgnoresStrip(text: String)
    ensures HasArabicContent(Strip(text)) == HasArabicContent(text)
  {
    var a, b := StripBounds(text);
    assert text == text[..a] + text[a..b] + text[b..];
    NoLettersInSpaces(text[..a]);
    NoLettersInSpaces(text[b..]);
    ArabicLettersAppend(text[..a] + text[a..b], text[b..]);
    ArabicLettersAppend(text[..a], text[a..b]);
    AsciiLettersAppend(text[..a] + text[a..b], text[b..]);
    AsciiLettersAppend(text[..a], text[a..b]);
  }

  /** Text that is only whitespace (or empty) is never Arabic-majority. */
  lemma BlankIsNotArabic(text: String)
    requires Strip(text) == []
    ensures !HasArabicContent(text)
  {
    HasArabicIgnoresStrip(text);
  }

  /** Joining two Arabic-majority texts gives an Arabic-majority text. */
  lemma MajorityConcat(a: String, b: String)
    requires HasArabicContent(a) && HasArabicContent(b)
    ensures HasArabicContent(a + b)
  {
    ArabicLettersAppend(a, b);
    AsciiLettersAppend(a, b);
  }

  lemma {:induction false} NoArabicBlockCountsZero(s: String)
    requires forall i :: 0 <= i < |s| ==> !IsArabicBlock(s[i])
    ensures ArabicLetters(s) == 0
    decreases |s|
  {
    if s != [] {
      NoArabicBlockCountsZero(s[1..]);
    }
  }

  /** Text without any character of the Arabic blocks is not Arabic-majority. */
  lemma NoArabicBlockNotArabic(text: String)
    requires forall i :: 0 <= i < |text| ==> !IsArabicBlock(text[i])
    ensures !HasArabicContent(text)
  {
    NoArabicBlockCountsZero(text);
  }

  lemma {:induction false} AllArabicCounts(s: String)
    requires forall i :: 0 <= i < |s| ==> IsArabicLetter(s[i])
    ensures ArabicLetters(s) == |s| && AsciiLetters(s) == 0
    decreases |s|
  {
    if s != [] {
      AllArabicCounts(s[1..]);
    }
  }

  /** Non-empty text made only of Arabic letters is Arabic-majority. */
  lemma AllArabicIsArabic(text: String)
    requires text != []
    requires forall i :: 0 <= i < |text| ==> IsArabicLetter(text[i])
    ensures HasArabicContent(text)
  {
    AllArabicCounts(text);
  }

  // ---------------------------------------------------------------- status

  datatype Status = Translated | NotTranslated | NoTranslationNeeded

  /** The labels the program shows and exports for each status. */
  function StatusLabel(st: Status): String {
    match st
    case Translated => "مترجم"
    case NotTranslated => "غير مترجم"
    case NoTranslationNeeded => "لا يحتاج ترجمة"
  }

  /** determine_translation_status */
  function DetermineTranslationStatus(original: String, translated: String): Status {
    if translated == [] || Strip(translated) == [] then NotTranslated
    else if Strip(original) == Strip(translated) then
      (if HasArabicContent(original) then NoTranslationNeeded else NotTranslated)
    else if HasArabicContent(translated) then Translated
    else NotTranslated
  }

  /**
   * The status is decided by the translation's script alone, and the original
   * only separates "translated" from "already Arabic, left as is".
   */
  lemma StatusCharacterisation(original: String, translated: String)
    ensures DetermineTranslationStatus(original, translated) == NotTranslated <==> !HasArabicContent(translated)
    ensures DetermineTranslationStatus(original, translated) == Translated
            <==> HasArabicContent(translated) && Strip(original) != Strip(translated)
    ensures DetermineTranslationStatus(original, translated) == NoTranslationNeeded
            <==> HasArabicContent(translated) && Strip(original) == Strip(translated)
  {
    if Strip(translated) == [] {
      BlankIsNotArabic(translated);
    } else if Strip(original) == Strip(translated) {
      HasArabicIgnoresStrip(original);
      HasArabicIgnoresStrip(translated);
    }
  }
}
