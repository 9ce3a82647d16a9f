/**
 * Pair extraction of file_handler.py: the content is split into lines, blank
 * and comment lines are skipped, and on every other line the four quoted-pair
 * patterns 'k' => 'v', "k" => "v", 'k' => "v" and "k" => 'v' are scanned
 * left to right. Each match is cleaned, validated and becomes a record. Large
 * contents use tighter bounds, chunks of 10000 lines and a final dedup.
 */
module Extraction {
  import opened Strings
  import opened Wrappers
  import opened ArabicScript
  import opened Classifier
  import opened Records

  // ---------------------------------------------------------------- the quoted-pair patterns

  /** Standard: key [^q]+ and value [^q]*. Large: key [^q]{2,100} and value [^q]{0,200}. */
  datatype Mode = Standard | Large

  /** The quote around the key in pattern k: ' for 0 and 2, " for 1 and 3. */
  function KeyQuote(k: nat): char {
    if k == 0 || k == 2 then '\'' else '"'
  }

  /** The quote around the value in pattern k: ' for 0 and 3, " for 1 and 2. */
  function ValueQuote(k: nat): char {
    if k == 0 || k == 3 then '\'' else '"'
  }

  predicate KeyLengthFits(n: nat, mode: Mode) {
    if mode == Standard then 1 <= n else 2 <= n <= 100
  }

  predicate ValueLengthFits(n: nat, mode: Mode) {
    mode == Standard || n <= 200
  }

  /** A match: the two groups and the position just after it. */
  datatype Match = Match(key: String, value: String, end: nat)

  /**
   * One attempt of pattern k at position p. Each group is the run up to the next
   * quote of its kind and each \s* is the whitespace run, because no shorter
   * choice can be followed by what the pattern needs next; so the attempt has
   * at most one outcome.
   */
  function MatchAt(line: String, p: nat, k: nat, mode: Mode): (r: Option<Match>)
    requires p <= |line|
    ensures r.Some? ==> p < r.value.end <= |line|
  {
    if p >= |line| || line[p] != KeyQuote(k) then None
    else
      var ks := p + 1;
      var ke := ks + RunWithout(line[ks..], KeyQuote(k));
      if ke >= |line| || !KeyLengthFits(ke - ks, mode) then None
      else
        var arrow := ke + 1 + LeadingSpaces(line[ke + 1..]);
        if arrow + 2 > |line| || line[arrow] != '=' || line[arrow + 1] != '>' then None
        else
          var vq := arrow + 2 + LeadingSpaces(line[arrow + 2..]);
          if vq >= |line| || line[vq] != ValueQuote(k) then None
          else
            var vs := vq + 1;
            var ve := vs + RunWithout(line[vs..], ValueQuote(k));
            if ve >= |line| || !ValueLengthFits(ve - vs, mode) then None
            else Some(Match(line[ks..ke], line[vs..ve], ve + 1))
  }

  /** re.finditer: the non-overlapping matches of pattern k from position p on, left to right. */
  function FindAll(line: String, k: nat, mode: Mode, p: nat): (ms: seq<Match>)
    requires p <= |line|
    decreases |line| - p
  {
    if p >= |line| then []
    else
      match MatchAt(line, p, k, mode)
      case Some(m) => [m] + FindAll(line, k, mode, m.end)
      case None => FindAll(line, k, mode, p + 1)
  }

  // ---------------------------------------------------------------- _clean_extracted_text

  /** re.sub(r'\\[a-zA-Z]', '', s): every backslash followed by an ASCII letter is dropped together with the letter. */
  function DropLetterEscapes(s: String): (r: String)
    ensures |r| <= |s|
    decreases |s|
  {
    if s == [] then []
    else if s[0] == '\\' && |s| >= 2 && IsAsciiLetter(s[1]) then DropLetterEscapes(s[2..])
    else [s[0]] + DropLetterEscapes(s[1..])
  }

  /** _clean_extracted_text: strip, turn the escapes \n \t \" \' into their characters, drop \letter codes. */
  function CleanExtractedText(text: String): (r: String)
    ensures |r| <= |text|
  {
    if text == [] then []
    else
      var s0 := Strip(text);
      var s1 := Replace(s0, "\\n", "\n");
      var s2 := Replace(s1, "\\t", "\t");
      var s3 := Replace(s2, "\\\"", "\"");
      var s4 := Replace(s3, "\\'", "'");
      ReplaceShrinks(s0, "\\n", "\n");
      ReplaceShrinks(s1, "\\t", "\t");
      ReplaceShrinks(s2, "\\\"", "\"");
      ReplaceShrinks(s3, "\\'", "'");
      DropLetterEscapes(s4)
  }

  lemma {:induction false} NoBackslashNoEscapes(s: String)
    requires '\\' !in s
    ensures DropLetterEscapes(s) == s
    decreases |s|
  {
    if s != [] {
      NoBackslashNoEscapes(s[1..]);
    }
  }

  lemma BackslashPatternAbsent(s: String, pat: String)
    requires '\\' !in s && |pat| > 0 && pat[0] == '\\'
    ensures !Contains(s, pat)
  {
    forall i: nat | i <= |s| ensures !ContainsAt(s, pat, i) {
      if i + |pat| <= |s| {
        assert s[i..i + |pat|][0] == s[i];
      }
    }
  }

  /** Text without backslashes is only stripped. */
  lemma CleanPlainText(text: String)
    requires '\\' !in text
    ensures CleanExtractedText(text) == Strip(text)
  {
    if text != [] {
      var s0 := Strip(text);
      var a, b := StripBounds(text);
      assert forall i :: 0 <= i < |s0| ==> s0[i] == text[a + i];
      assert '\\' !in s0;
      BackslashPatternAbsent(s0, "\\n");
      ReplaceAbsent(s0, "\\n", "\n");
      BackslashPatternAbsent(s0, "\\t");
      ReplaceAbsent(s0, "\\t", "\t");
      BackslashPatternAbsent(s0, "\\\"");
      ReplaceAbsent(s0, "\\\"", "\"");
      BackslashPatternAbsent(s0, "\\'");
      ReplaceAbsent(s0, "\\'", "'");
      NoBackslashNoEscapes(s0);
    }
  }

  // ---------------------------------------------------------------- _is_valid_translation_pair

  /** The characters of the class [\{\}\[\]<>/\\$#@%^&*()+=|~`]. */
  predicate IsProgrammingSymbol(c: char) {
    c in "{}[]<>/\\$#@%^&*()+=|~`"
  }

  function SymbolRun(s: String): (n: nat)
    ensures n <= |s|
    ensures forall i :: 0 <= i < n ==> IsProgrammingSymbol(s[i])
    ensures n < |s| ==> !IsProgrammingSymbol(s[n])
  {
    if s != [] && IsProgrammingSymbol(s[0]) then 1 + SymbolRun(s[1..]) else 0
  }

  /**
   * re.match(r'^[...]+$', value): one or more programming symbols, and nothing
   * after them but possibly one final newline (where $ also matches).
   */
  predicate IsSymbolsOnlyValue(value: String) {
    var n := SymbolRun(value);
    n >= 1 && (n == |value| || (n + 1 == |value| && value[n] == '\n'))
  }

  /** _is_valid_translation_pair */
  predicate IsValidTranslationPair(key: String, value: String) {
    key != [] && value != [] && |key| <= 100 && |value| <= 500 && !IsSymbolsOnlyValue(value)
  }

  // ---------------------------------------------------------------- records of a line

  // Lines that are blank or, once stripped, start with a comment marker: "//", "/*", "*" or "#".
  predicate IsSkippedLine(line: String) {
    var t := Strip(line);
    t == [] || StartsWith(t, "//") || StartsWith(t, "/*") || StartsWith(t, "*") || StartsWith(t, "#")
  }

  /** Large mode also skips lines longer than 1000 characters. */
  predicate IsIgnoredLine(line: String, mode: Mode) {
    IsSkippedLine(line) || (mode == Large && |line| > 1000)
  }

  function Truncate(s: String, n: nat): (r: String)
    ensures |r| <= n && |r| <= |s|
  {
    if |s| <= n then s else s[..n]
  }

  /** original_line: the stripped line, cut to 500 characters in large mode. */
  function OriginalLineOf(line: String, mode: Mode): String {
    if mode == Standard then Strip(line) else Truncate(Strip(line), 500)
  }

  function MakeItem(lineNumber: nat, key: String, value: String, line: String, k: nat, mode: Mode): TranslationItem {
    TranslationItem(lineNumber, key, value, value, HasArabicContent(value), OriginalLineOf(line, mode),
                    NeedsTranslation(value), k, "none")
  }

  /** The record one match of pattern k makes: its cleaned pair, if valid. */
  function PairRecord(m: Match, line: String, lineNumber: nat, k: nat, mode: Mode): seq<TranslationItem> {
    var key := CleanExtractedText(m.key);
    var value := CleanExtractedText(m.value);
    if IsValidTranslationPair(key, value) then [MakeItem(lineNumber, key, value, line, k, mode)] else []
  }

  // ---------------------------------------------------------------- lists built by appending per element

  /** The lists f makes of the elements of xs, concatenated in order. */
  function FlatMap<A, B>(xs: seq<A>, f: A -> seq<B>): seq<B> {
    if xs == [] then [] else f(xs[0]) + FlatMap(xs[1..], f)
  }

  lemma {:induction false} FlatMapAppend<A, B>(xs: seq<A>, ys: seq<A>, f: A -> seq<B>)
    ensures FlatMap(xs + ys, f) == FlatMap(xs, f) + FlatMap(ys, f)
    decreases |xs|
  {
    if xs == [] {
      assert xs + ys == ys;
    } else {
      assert (xs + ys)[0] == xs[0];
      assert (xs + ys)[1..] == xs[1..] + ys;
      FlatMapAppend(xs[1..], ys, f);
    }
  }

  /** One more element appends its list: the step of every appending loop. */
  lemma FlatMapSnoc<A, B>(xs: seq<A>, i: nat, f: A -> seq<B>)
    requires i < |xs|
    ensures FlatMap(xs[..i + 1], f) == FlatMap(xs[..i], f) + f(xs[i])
  {
    assert xs[..i + 1] == xs[..i] + [xs[i]];
    FlatMapAppend(xs[..i], [xs[i]], f);
    assert FlatMap([xs[i]], f) == f(xs[i]) + FlatMap([], f);
  }

  lemma {:induction false} FlatMapMembers<A, B>(xs: seq<A>, f: A -> seq<B>, y: B)
    ensures y in FlatMap(xs, f) <==> exists i :: 0 <= i < |xs| && y in f(xs[i])
    decreases |xs|
  {
    if xs != [] {
      FlatMapMembers(xs[1..], f, y);
      if y in FlatMap(xs[1..], f) {
        var i :| 0 <= i < |xs[1..]| && y in f(xs[1..][i]);
        assert y in f(xs[i + 1]);
      }
      if exists i :: 0 <= i < |xs| && y in f(xs[i]) {
        var i :| 0 <= i < |xs| && y in f(xs[i]);
        if i > 0 { assert xs[1..][i - 1] == xs[i]; }
      }
    }
  }

  // ---------------------------------------------------------------- records of a line and of the content

  /** A line with its 1-based number. */
  datatype NumberedLine = NumberedLine(text: String, number: nat)

  /** enumerate(lines, start + 1) */
  function Numbered(lines: seq<String>, start: nat): (xs: seq<NumberedLine>)
    ensures |xs| == |lines|
    ensures forall j :: 0 <= j < |xs| ==> xs[j] == NumberedLine(lines[j], start + j + 1)
  {
    seq(|lines|, j requires 0 <= j < |lines| => NumberedLine(lines[j], start + j + 1))
  }

  /** A chunk numbered from its offset is the same slice of the numbered lines: chunking changes no line number. */
  lemma ChunkNumbering(lines: seq<String>, a: nat, b: nat)
    requires a <= b <= |lines|
    ensures Numbered(lines[a..b], a) == Numbered(lines, 0)[a..b]
  {
  }

  const Patterns: seq<nat> := [0, 1, 2, 3]

  function MatchFn(line: String, lineNumber: nat, k: nat, mode: Mode): Match -> seq<TranslationItem> {
    m => PairRecord(m, line, lineNumber, k, mode)
  }

  /** The records of pattern k: one per valid match, in match order. */
  function PatternFn(line: String, lineNumber: nat, mode: Mode): nat -> seq<TranslationItem> {
    (k: nat) => FlatMap(FindAll(line, k, mode, 0), MatchFn(line, lineNumber, k, mode))
  }

  /** The records of one line: nothing for an ignored line, else pattern 0's, then 1's, 2's and 3's. */
  function LineItems(line: String, lineNumber: nat, mode: Mode): seq<TranslationItem> {
    if IsIgnoredLine(line, mode) then [] else FlatMap(Patterns, PatternFn(line, lineNumber, mode))
  }

  function LineFn(mode: Mode): NumberedLine -> seq<TranslationItem> {
    (x: NumberedLine) => LineItems(x.text, x.number, mode)
  }

  /** The records of all lines, numbered from 1. */
  function ItemsOf(lines: seq<String>, mode: Mode): seq<TranslationItem> {
    FlatMap(Numbered(lines, 0), LineFn(mode))
  }

  // ---------------------------------------------------------------- the extraction loops

  /** The inner loop: the records of pattern k's matches on one line, in match order. */
  method PatternRecords(line: String, lineNumber: nat, k: nat, mode: Mode) returns (items: seq<TranslationItem>)
    ensures items == FlatMap(FindAll(line, k, mode, 0), MatchFn(line, lineNumber, k, mode))
  {
    var ms := FindAll(line, k, mode, 0);
    ghost var mf := MatchFn(line, lineNumber, k, mode);
    items := [];
    var j := 0;
    while j < |ms|
      invariant j <= |ms|
      invariant items == FlatMap(ms[..j], mf)
    {
      var made := MatchRecord(ms[j], line, lineNumber, k, mode);
      MatchStep(ms, j, line, lineNumber, k, mode);
      items := items + made;
      j := j + 1;
    }
    assert ms[..j] == ms;
  }

  /** The body of the inner loop: clean both sides of the match and keep the pair if it is valid. */
  method MatchRecord(m: Match, line: String, lineNumber: nat, k: nat, mode: Mode) returns (made: seq<TranslationItem>)
    ensures made == PairRecord(m, line, lineNumber, k, mode)
  {
    var key := CleanExtractedText(m.key);
    var value := CleanExtractedText(m.value);
    made := [];
    if IsValidTranslationPair(key, value) {
      made := [MakeItem(lineNumber, key, value, line, k, mode)];
    }
  }

  /** The loops over the four patterns and their matches for one line. */
  method LineRecords(line: String, lineNumber: nat, mode: Mode) returns (items: seq<TranslationItem>)
    ensures items == LineItems(line, lineNumber, mode)
  {
    items := [];
    if IsIgnoredLine(line, mode) {
      return;
    }
    ghost var pf := PatternFn(line, lineNumber, mode);
    var pi := 0;
    while pi < |Patterns|
      invariant pi <= |Patterns|
      invariant items == FlatMap(Patterns[..pi], pf)
    {
      var found := PatternRecords(line, lineNumber, Patterns[pi], mode);
      PatternStep(pi, line, lineNumber, mode);
      items := items + found;
      pi := pi + 1;
    }
    assert Patterns[..pi] == Patterns;
  }

  lemma LineStep(xs: seq<NumberedLine>, i: nat, line: String, lineNumber: nat, mode: Mode, found: seq<TranslationItem>)
    requires i < |xs| && xs[i] == NumberedLine(line, lineNumber)
    requires found == LineItems(line, lineNumber, mode)
    ensures FlatMap(xs[..i + 1], LineFn(mode)) == FlatMap(xs[..i], LineFn(mode)) + found
  {
    FlatMapSnoc(xs, i, LineFn(mode));
  }

  lemma MatchStep(ms: seq<Match>, j: nat, line: String, lineNumber: nat, k: nat, mode: Mode)
    requires j < |ms|
    ensures FlatMap(ms[..j + 1], MatchFn(line, lineNumber, k, mode)) == FlatMap(ms[..j], MatchFn(line, lineNumber, k, mode))
      + PairRecord(ms[j], line, lineNumber, k, mode)
  {
    FlatMapSnoc(ms, j, MatchFn(line, lineNumber, k, mode));
  }

  lemma PatternStep(pi: nat, line: String, lineNumber: nat, mode: Mode)
    requires pi < |Patterns|
    ensures FlatMap(Patterns[..pi + 1], PatternFn(line, lineNumber, mode)) == FlatMap(Patterns[..pi], PatternFn(line, lineNumber, mode))
      + FlatMap(FindAll(line, Patterns[pi], mode, 0), MatchFn(line, lineNumber, Patterns[pi], mode))
  {
    FlatMapSnoc(Patterns, pi, PatternFn(line, lineNumber, mode));
  }

  /** The loop over enumerate(lines, start + 1) shared by both modes. */
  method NumberedRecords(lines: seq<String>, start: nat, mode: Mode) returns (items: seq<TranslationItem>)
    ensures items == FlatMap(Numbered(lines, start), LineFn(mode))
  {
    ghost var xs := Numbered(lines, start);
    items := [];
    var i := 0;
    while i < |lines|
      invariant i <= |lines| == |xs|
      invariant items == FlatMap(xs[..i], LineFn(mode))
    {
      var line, lineNumber := lines[i], start + i + 1;
      assert xs[i] == NumberedLine(line, lineNumber);
      var found := LineRecords(line, lineNumber, mode);
      LineStep(xs, i, line, lineNumber, mode, found);
      items := items + found;
      i := i + 1;
    }
    assert xs[..i] == xs;
  }

  /** _extract_translations_standard */
  method ExtractStandard(content: String) returns (items: seq<TranslationItem>)
    ensures items == ItemsOf(Split(content, '\n'), Standard)
  {
    var lines := Split(content, '\n');
    items := NumberedRecords(lines, 0, Standard);
  }

  /** _process_lines_chunk: the chunk's lines are numbered from start + 1. */
  method ProcessLinesChunk(chunk: seq<String>, start: nat) returns (items: seq<TranslationItem>)
    ensures items == FlatMap(Numbered(chunk, start), LineFn(Large))
  {
    items := NumberedRecords(chunk, start, Large);
  }

  const ChunkSize: nat := 10000

  /** _extract_translations_optimized */
  method ExtractOptimized(content: String) returns (items: seq<TranslationItem>)
    ensures items == DedupOf(ItemsOf(Split(content, '\n'), Large))
  {
    var lines := Split(content, '\n');
    var all: seq<TranslationItem> := [];
    var chunkStart := 0;
    while chunkStart < |lines|
      invariant chunkStart <= |lines|
      invariant all == FlatMap(Numbered(lines, 0)[..chunkStart], LineFn(Large))
      decreases |lines| - chunkStart
    {
      var chunkEnd := if chunkStart + ChunkSize < |lines| then chunkStart + ChunkSize else |lines|;
      var found := ProcessLinesChunk(lines[chunkStart..chunkEnd], chunkStart);
      ChunkStep(lines, chunkStart, chunkEnd, Large);
      all := all + found;
      chunkStart := chunkEnd;
    }
    assert Numbered(lines, 0)[..chunkStart] == Numbered(lines, 0);
    items := DeduplicateTranslations(all);
  }

  /** The records of the lines before b are those before a followed by the chunk a..b numbered from a. */
  lemma ChunkStep(lines: seq<String>, a: nat, b: nat, mode: Mode)
    requires a <= b <= |lines|
    ensures FlatMap(Numbered(lines, 0)[..b], LineFn(mode))
            == FlatMap(Numbered(lines, 0)[..a], LineFn(mode)) + FlatMap(Numbered(lines[a..b], a), LineFn(mode))
  {
    var xs := Numbered(lines, 0);
    ChunkNumbering(lines, a, b);
    assert xs[..b] == xs[..a] + xs[a..b];
    FlatMapAppend(xs[..a], xs[a..b], LineFn(mode));
  }

  const LargeContentSize: nat := 100000

  function ExtractedFrom(content: String): seq<TranslationItem> {
    var lines := Split(content, '\n');
    if |content| > LargeContentSize then DedupOf(ItemsOf(lines, Large)) else ItemsOf(lines, Standard)
  }

  /** _extract_translations: the chunked path is taken for contents over 100000 characters. */
  method ExtractTranslations(content: String) returns (items: seq<TranslationItem>)
    ensures items == ExtractedFrom(content)
  {
    if |content| > LargeContentSize {
      items := ExtractOptimized(content);
    } else {
      items := ExtractStandard(content);
    }
  }

  // ---------------------------------------------------------------- what every record satisfies

  /** A record as extraction creates it: untouched translation, valid pair, derived flags. */
  predicate IsFreshRecord(item: TranslationItem) {
    item.translatedValue == item.originalValue
    && item.translationType == "none"
    && item.patternUsed < |Patterns|
    && IsValidTranslationPair(item.key, item.originalValue)
    && item.isTranslated == HasArabicContent(item.originalValue)
    && item.needsTranslation == NeedsTranslation(item.originalValue)
  }

  /** The record came from line lineNumber of lines, a line extraction does not skip. */
  predicate FromLine(item: TranslationItem, lines: seq<String>, mode: Mode) {
    1 <= item.lineNumber <= |lines|
    && !IsIgnoredLine(lines[item.lineNumber - 1], mode)
    && item.originalLine == OriginalLineOf(lines[item.lineNumber - 1], mode)
  }

  /** A record extraction makes from lines. */
  predicate Extracted(item: TranslationItem, lines: seq<String>, mode: Mode) {
    IsFreshRecord(item) && FromLine(item, lines, mode)
  }

  /** A record line lineNumber makes: fresh, with that number and the line's stripped text. */
  predicate LineRecord(item: TranslationItem, line: String, lineNumber: nat, mode: Mode) {
    IsFreshRecord(item) && item.lineNumber == lineNumber && item.originalLine == OriginalLineOf(line, mode)
  }

  /** A property every list f makes holds of everything FlatMap makes. */
  lemma FlatMapAll<A, B>(xs: seq<A>, f: A -> seq<B>, p: B -> bool)
    requires forall i, y :: 0 <= i < |xs| && y in f(xs[i]) ==> p(y)
    ensures forall y :: y in FlatMap(xs, f) ==> p(y)
  {
    forall y | y in FlatMap(xs, f) ensures p(y) {
      FlatMapMembers(xs, f, y);
    }
  }

  lemma PairRecordShape(m: Match, line: String, lineNumber: nat, k: nat, mode: Mode)
    requires k < |Patterns|
    ensures forall x :: x in PairRecord(m, line, lineNumber, k, mode) ==> LineRecord(x, line, lineNumber, mode)
  {
  }

  lemma PatternShape(line: String, lineNumber: nat, k: nat, mode: Mode)
    requires k < |Patterns|
    ensures forall x :: x in PatternFn(line, lineNumber, mode)(k) ==> LineRecord(x, line, lineNumber, mode)
  {
    var ms := FindAll(line, k, mode, 0);
    var mf := MatchFn(line, lineNumber, k, mode);
    forall j | 0 <= j < |ms| ensures forall x :: x in mf(ms[j]) ==> LineRecord(x, line, lineNumber, mode) {
      PairRecordShape(ms[j], line, lineNumber, k, mode);
    }
    FlatMapAll(ms, mf, (x: TranslationItem) => LineRecord(x, line, lineNumber, mode));
  }

  /** Every record of a line is fresh, carries that line's number and its stripped text, and the line is not ignored. */
  lemma LineItemsShape(line: String, lineNumber: nat, mode: Mode)
    ensures forall x :: x in LineItems(line, lineNumber, mode) ==> LineRecord(x, line, lineNumber, mode)
    ensures forall x :: x in LineItems(line, lineNumber, mode) ==> x.lineNumber == lineNumber && !IsIgnoredLine(line, mode)
  {
    if !IsIgnoredLine(line, mode) {
      var pf := PatternFn(line, lineNumber, mode);
      forall i | 0 <= i < |Patterns| ensures forall x :: x in pf(Patterns[i]) ==> LineRecord(x, line, lineNumber, mode) {
        PatternShape(line, lineNumber, Patterns[i], mode);
      }
      FlatMapAll(Patterns, pf, (x: TranslationItem) => LineRecord(x, line, lineNumber, mode));
    }
  }

  lemma NumberedLineShape(lines: seq<String>, i: nat, mode: Mode)
    requires i < |lines|
    ensures forall x :: x in LineFn(mode)(Numbered(lines, 0)[i]) ==> Extracted(x, lines, mode)
  {
    NumberedAt(lines, i, mode);
    LineItemsExtracted(lines, i, mode);
  }

  lemma NumberedAt(lines: seq<String>, i: nat, mode: Mode)
    requires i < |lines|
    ensures LineFn(mode)(Numbered(lines, 0)[i]) == LineItems(lines[i], i + 1, mode)
  {
    var x := Numbered(lines, 0)[i];
    assert x.text == lines[i] && x.number == i + 1;
    assert LineFn(mode)(x) == LineItems(x.text, x.number, mode);
  }

  lemma LineItemsExtracted(lines: seq<String>, i: nat, mode: Mode)
    requires i < |lines|
    ensures forall x :: x in LineItems(lines[i], i + 1, mode) ==> Extracted(x, lines, mode)
  {
    var n, line := i + 1, lines[i];
    LineItemsShape(line, n, mode);
    forall x | x in LineItems(line, n, mode) ensures Extracted(x, lines, mode) {
      LineRecordFromLine(x, lines, i, mode);
    }
  }

  lemma LineRecordFromLine(x: TranslationItem, lines: seq<String>, i: nat, mode: Mode)
    requires i < |lines| && LineRecord(x, lines[i], i + 1, mode) && !IsIgnoredLine(lines[i], mode)
    ensures Extracted(x, lines, mode)
  {
  }

  /** Every extracted record is fresh and comes from a line that is not ignored, numbered from 1. */
  lemma ItemsShape(lines: seq<String>, mode: Mode)
    ensures forall x :: x in ItemsOf(lines, mode) ==> IsFreshRecord(x) && FromLine(x, lines, mode)
  {
    var xs := Numbered(lines, 0);
    var f := LineFn(mode);
    forall i | 0 <= i < |xs| ensures forall x :: x in f(xs[i]) ==> Extracted(x, lines, mode) {
      NumberedLineShape(lines, i, mode);
    }
    FlatMapAll(xs, f, (x: TranslationItem) => Extracted(x, lines, mode));
  }

  predicate InLineOrder(items: seq<TranslationItem>) {
    forall a, b :: 0 <= a < b < |items| ==> items[a].lineNumber <= items[b].lineNumber
  }

  /** The records of one line followed by later, ordered records stay ordered. */
  lemma OrderedConcat(here: seq<TranslationItem>, rest: seq<TranslationItem>, n: nat)
    requires forall y :: y in here ==> y.lineNumber == n
    requires forall y :: y in rest ==> y.lineNumber > n
    requires InLineOrder(rest)
    ensures InLineOrder(here + rest)
  {
    var all := here + rest;
    forall a, b | 0 <= a < b < |all|
      ensures all[a].lineNumber <= all[b].lineNumber
    {
      if b < |here| {
        assert all[a] in here && all[b] in here;
      } else if a < |here| {
        assert all[a] in here && all[b] in rest;
      } else {
        assert all[a] == rest[a - |here|] && all[b] == rest[b - |here|];
      }
    }
  }

  /** Records come out in line order: line numbers never decrease along the list. */
  lemma {:induction false} LineOrder(xs: seq<NumberedLine>, mode: Mode)
    requires forall a, b :: 0 <= a < b < |xs| ==> xs[a].number < xs[b].number
    ensures xs != [] ==> forall y :: y in FlatMap(xs, LineFn(mode)) ==> xs[0].number <= y.lineNumber
    ensures InLineOrder(FlatMap(xs, LineFn(mode)))
    decreases |xs|
  {
    if xs != [] {
      var f := LineFn(mode);
      var here := f(xs[0]);
      var rest := FlatMap(xs[1..], f);
      var n := xs[0].number;
      LineOrder(xs[1..], mode);
      LineItemsShape(xs[0].text, n, mode);
      assert forall y :: y in here ==> y.lineNumber == n;
      assert FlatMap(xs, f) == here + rest;
      if |xs| > 1 {
        assert xs[1..][0] == xs[1] && n < xs[1].number;
      }
      OrderedConcat(here, rest, n);
    }
  }

  /** The records of the whole content come in line order. */
  lemma ItemsInLineOrder(lines: seq<String>, mode: Mode)
    ensures InLineOrder(ItemsOf(lines, mode))
  {
    LineOrder(Numbered(lines, 0), mode);
  }

  /** Large mode never reports a line longer than 1000 characters, and keeps at most 500 of it. */
  lemma LargeModeBounds(item: TranslationItem, lines: seq<String>)
    requires FromLine(item, lines, Large)
    ensures |lines[item.lineNumber - 1]| <= 1000 && |item.originalLine| <= 500
  {
  }

  // ---------------------------------------------------------------- _deduplicate_translations

  /** The comparison key: (key.lower(), original_value.lower()). */
  function DedupKey(item: TranslationItem): (String, String) {
    (Lower(item.key), Lower(item.originalValue))
  }

  function KeysOf(items: seq<TranslationItem>): set<(String, String)> {
    set i | 0 <= i < |items| :: DedupKey(items[i])
  }

  /** The first occurrence of every key, in input order. */
  function DedupOf(items: seq<TranslationItem>): seq<TranslationItem> {
    if items == [] then []
    else
      var p := DedupOf(items[..|items| - 1]);
      var x := items[|items| - 1];
      if DedupKey(x) in KeysOf(p) then p else p + [x]
  }

  lemma KeysOfAppend(p: seq<TranslationItem>, x: TranslationItem)
    ensures KeysOf(p + [x]) == KeysOf(p) + {DedupKey(x)}
  {
    var q := p + [x];
    assert forall i :: 0 <= i < |p| ==> q[i] == p[i];
    assert q[|p|] == x;
    forall kk | kk in KeysOf(q) ensures kk in KeysOf(p) + {DedupKey(x)} {
      var i :| 0 <= i < |q| && DedupKey(q[i]) == kk;
      if i < |p| { assert DedupKey(p[i]) == kk; }
    }
  }

  /** _deduplicate_translations: the loop with the seen set. */
  method DeduplicateTranslations(items: seq<TranslationItem>) returns (unique: seq<TranslationItem>)
    ensures unique == DedupOf(items)
  {
    var seen: set<(String, String)> := {};
    unique := [];
    var i := 0;
    while i < |items|
      invariant i <= |items|
      invariant unique == DedupOf(items[..i])
      invariant seen == KeysOf(unique)
    {
      var key := DedupKey(items[i]);
      assert items[..i + 1][..i] == items[..i];
      assert items[..i + 1][i] == items[i];
      if key !in seen {
        KeysOfAppend(unique, items[i]);
        seen := seen + {key};
        unique := unique + [items[i]];
      }
      i := i + 1;
    }
    assert items[..i] == items;
  }

  /** The positions of the kept records in the input. */
  function DedupPositions(items: seq<TranslationItem>): seq<nat> {
    if items == [] then []
    else
      var p := DedupOf(items[..|items| - 1]);
      var ps := DedupPositions(items[..|items| - 1]);
      if DedupKey(items[|items| - 1]) in KeysOf(p) then ps else ps + [|items| - 1]
  }

  /**
   * The dedup keeps a subsequence of its input: the record at each kept
   * position, positions increasing, each the first occurrence of its key; no
   * two kept records share a key, and every key of the input is kept.
   */
  lemma DedupKeepsFirstOccurrences(items: seq<TranslationItem>)
    ensures |DedupPositions(items)| == |DedupOf(items)|
    ensures forall k :: 0 <= k < |DedupOf(items)| ==>
      DedupPositions(items)[k] < |items| && DedupOf(items)[k] == items[DedupPositions(items)[k]]
    ensures forall a, b :: 0 <= a < b < |DedupPositions(items)| ==> DedupPositions(items)[a] < DedupPositions(items)[b]
    ensures forall k, j :: 0 <= k < |DedupPositions(items)| && 0 <= j < DedupPositions(items)[k] ==>
      DedupKey(items[j]) != DedupKey(items[DedupPositions(items)[k]])
    ensures KeysOf(DedupOf(items)) == KeysOf(items)
  {
    DedupKeepsKeys(items);
    DedupPositionsMatch(items);
    DedupPositionsFirst(items);
  }

  /** Every key of the input is kept. */
  lemma {:induction false} DedupKeepsKeys(items: seq<TranslationItem>)
    ensures KeysOf(DedupOf(items)) == KeysOf(items)
    decreases |items|
  {
    if items != [] {
      var prefix, x := items[..|items| - 1], items[|items| - 1];
      DedupKeepsKeys(prefix);
      SplitLast(items);
      KeysOfAppend(prefix, x);
      var p := DedupOf(prefix);
      if DedupKey(x) !in KeysOf(p) {
        KeysOfAppend(p, x);
      }
    }
  }

  /** The kept records are the input's records at increasing positions. */
  lemma {:induction false} DedupPositionsMatch(items: seq<TranslationItem>)
    ensures |DedupPositions(items)| == |DedupOf(items)|
    ensures forall k :: 0 <= k < |DedupOf(items)| ==>
      DedupPositions(items)[k] < |items| && DedupOf(items)[k] == items[DedupPositions(items)[k]]
    ensures forall a, b :: 0 <= a < b < |DedupPositions(items)| ==> DedupPositions(items)[a] < DedupPositions(items)[b]
    decreases |items|
  {
    if items != [] {
      var prefix := items[..|items| - 1];
      DedupPositionsMatch(prefix);
      assert forall j :: 0 <= j < |prefix| ==> prefix[j] == items[j];
    }
  }

  /** Each kept position holds the first record with its key. */
  lemma {:induction false} DedupPositionsFirst(items: seq<TranslationItem>)
    requires forall k :: 0 <= k < |DedupPositions(items)| ==> DedupPositions(items)[k] < |items|
    ensures forall k, j :: 0 <= k < |DedupPositions(items)| && 0 <= j < DedupPositions(items)[k] ==>
      DedupKey(items[j]) != DedupKey(items[DedupPositions(items)[k]])
    decreases |items|
  {
    if items != [] {
      var prefix, x := items[..|items| - 1], items[|items| - 1];
      DedupPositionsMatch(prefix);
      DedupPositionsFirst(prefix);
      assert forall j :: 0 <= j < |prefix| ==> prefix[j] == items[j];
      var p := DedupOf(prefix);
      if DedupKey(x) !in KeysOf(p) {
        DedupKeepsKeys(prefix);
        forall j | 0 <= j < |prefix| ensures DedupKey(items[j]) != DedupKey(x) {
          assert DedupKey(prefix[j]) in KeysOf(prefix);
        }
      }
    }
  }

  /** No two records of the dedup share a key. */
  lemma {:induction false} DedupIsDuplicateFree(items: seq<TranslationItem>)
    ensures forall a, b :: 0 <= a < b < |DedupOf(items)| ==> DedupKey(DedupOf(items)[a]) != DedupKey(DedupOf(items)[b])
    decreases |items|
  {
    if items != [] {
      var prefix := items[..|items| - 1];
      var x := items[|items| - 1];
      DedupIsDuplicateFree(prefix);
      var p := DedupOf(prefix);
      if DedupKey(x) !in KeysOf(p) {
        var q := p + [x];
        forall a, b | 0 <= a < b < |q| ensures DedupKey(q[a]) != DedupKey(q[b]) {
          if b == |p| {
            assert DedupKey(p[a]) in KeysOf(p);
          }
        }
      }
    }
  }
}
