/**
 * The engine-independent logic of translators.py: word-set similarity and the
 * grouping built on it, parsing and padding of a batch reply, the retry and
 * cache control flow of BaseTranslator.translate, the TranslatorManager
 * registry and create_translator. The HTTP request of each engine is a
 * parameter: a function from the attempt number to the reply or the error
 * message it raised.
 */
module Translators {
  import opened Strings
  import opened Wrappers
  import opened Classifier
  import opened TextUtils
  import opened Cache
  import Grouping

  // ---------------------------------------------------------------- _calculate_similarity

  /** re.sub(r'[^\w\s]', '', s): drop every character that is neither a word character nor whitespace. */
  function RemoveSymbols(s: String): (r: String)
    ensures |r| <= |s|
    ensures forall i :: 0 <= i < |r| ==> !IsSymbol(r[i])
  {
    if s == [] then []
    else if IsSymbol(s[0]) then RemoveSymbols(s[1..])
    else [s[0]] + RemoveSymbols(s[1..])
  }

  function SimilarityWords(text: String): set<String> {
    set w | w in Words(RemoveSymbols(Lower(text)))
  }

  /** A similarity as the fraction shared / total of two word sets. */
  datatype Ratio = Ratio(shared: nat, total: nat)

  /** _calculate_similarity: |intersection| / |union| of the word sets, 0 when either is empty. */
  function Similarity(a: String, b: String): (r: Ratio)
    ensures r.total > 0 && r.shared <= r.total
    ensures SimilarityWords(a) == {} || SimilarityWords(b) == {} ==> r.shared == 0
  {
    var w1, w2 := SimilarityWords(a), SimilarityWords(b);
    if w1 == {} || w2 == {} then Ratio(0, 1)
    else
      SubsetCardinality(w1 * w2, w1 + w2);
      Ratio(|w1 * w2|, |w1 + w2|)
  }

  lemma {:induction false} SubsetCardinality<T>(a: set<T>, b: set<T>)
    requires a <= b
    ensures |a| <= |b|
    decreases |a|
  {
    if a != {} {
      var x :| x in a;
      SubsetCardinality(a - {x}, b - {x});
    }
  }

  lemma SimilaritySymmetric(a: String, b: String)
    ensures Similarity(a, b) == Similarity(b, a)
  {
    var w1, w2 := SimilarityWords(a), SimilarityWords(b);
    assert w1 * w2 == w2 * w1;
    assert w1 + w2 == w2 + w1;
  }

  /** Texts with the same non-empty word set are fully similar. */
  lemma SimilarityOfSameWords(a: String, b: String)
    requires SimilarityWords(a) == SimilarityWords(b) != {}
    ensures Similarity(a, b).shared == Similarity(a, b).total
  {
    var w := SimilarityWords(a);
    assert w * w == w && w + w == w;
  }

  /** similarity > 0.8, written as 5 * shared > 4 * total. */
  predicate HighlySimilar(a: String, b: String) {
    var r := Similarity(a, b);
    5 * r.shared > 4 * r.total
  }

  /** A text with no words is never highly similar to anything. */
  lemma NoWordsNotSimilar(a: String, b: String)
    requires SimilarityWords(a) == {}
    ensures !HighlySimilar(a, b) && !HighlySimilar(b, a)
  {
  }

  /**
   * _group_similar_texts: the greedy groups of at most 5 texts, every member after
   * the head highly similar to the head. The positions the groups came from are
   * returned beside them.
   */
  method GroupSimilarTexts(texts: seq<String>) returns (groups: seq<seq<String>>, indices: seq<seq<nat>>)
    ensures indices == Grouping.GroupIndices(texts, HighlySimilar, 5)
    ensures Grouping.Holds(texts, indices, groups)
    ensures Grouping.Distinct(Grouping.Flatten(indices))
    ensures forall x: nat :: x in Grouping.Flatten(indices) <==> x < |texts|
    ensures Grouping.WellGrouped(texts, HighlySimilar, 5, indices)
    ensures Grouping.Maximal(texts, HighlySimilar, 5, indices)
    ensures forall m, k :: 0 <= m < |groups| && 1 <= k < |groups[m]| ==> HighlySimilar(groups[m][0], groups[m][k])
  {
    groups, indices := Grouping.GroupGreedy(texts, HighlySimilar, 5);
    Grouping.GroupIndicesPartition(texts, HighlySimilar, 5);
    Grouping.GroupIndicesMaximal(texts, HighlySimilar, 5);
  }

  // ---------------------------------------------------------------- _parse_batch_response

  /** re.sub(r'^\d+\.\s*', '', line) */
  function RemoveNumberPrefix(line: String): (r: String)
    ensures |r| <= |line|
  {
    var d := DigitRun(line);
    if 0 < d < |line| && line[d] == '.' then LStrip(line[d + 1..]) else line
  }

  lemma RemoveNumberPrefixStripped(line: String)
    requires IsStripped(line)
    ensures IsStripped(RemoveNumberPrefix(line))
  {
    var d := DigitRun(line);
    if 0 < d < |line| && line[d] == '.' {
      var rest := line[d + 1..];
      var r := LStrip(rest);
      if r != [] {
        assert r[|r| - 1] == line[|line| - 1];
      }
    }
  }

  /** One numbering prefix "N." and the blanks after it are removed, and nothing more. */
  lemma NumberPrefixRemoved(digits: String, blanks: String, text: String)
    requires |digits| > 0 && forall i :: 0 <= i < |digits| ==> IsDigit(digits[i])
    requires forall i :: 0 <= i < |blanks| ==> IsSpace(blanks[i])
    requires text == [] || !IsSpace(text[0])
    ensures RemoveNumberPrefix(digits + "." + blanks + text) == text
  {
    var line := digits + "." + blanks + text;
    assert line == digits + ("." + blanks + text);
    DigitRunOf(digits, "." + blanks + text);
    assert DigitRun(line) == |digits| && line[|digits|] == '.';
    assert line[|digits| + 1..] == blanks + text;
    LeadingSpacesOf(blanks, text);
    assert LStrip(blanks + text) == text;
  }

  lemma {:induction false} DigitRunOf(digits: String, rest: String)
    requires forall i :: 0 <= i < |digits| ==> IsDigit(digits[i])
    requires rest != [] && !IsDigit(rest[0])
    ensures DigitRun(digits + rest) == |digits|
    decreases |digits|
  {
    if digits != [] {
      assert (digits + rest)[1..] == digits[1..] + rest;
      DigitRunOf(digits[1..], rest);
    } else {
      assert digits + rest == rest;
    }
  }

  lemma {:induction false} LeadingSpacesOf(blanks: String, text: String)
    requires forall i :: 0 <= i < |blanks| ==> IsSpace(blanks[i])
    requires text == [] || !IsSpace(text[0])
    ensures LeadingSpaces(blanks + text) == |blanks|
    decreases |blanks|
  {
    if blanks != [] {
      assert (blanks + text)[1..] == blanks[1..] + text;
      LeadingSpacesOf(blanks[1..], text);
    } else {
      assert blanks + text == text;
    }
  }

  /** One line of the reply: stripped, dropped when blank, its numbering removed, kept when something is left. */
  function ParseLine(line: String): (r: Option<String>)
    ensures r.Some? ==> r.value != [] && IsStripped(r.value)
  {
    var stripped := Strip(line);
    if stripped == [] then None
    else
      RemoveNumberPrefixStripped(stripped);
      var entry := RemoveNumberPrefix(stripped);
      if entry == [] then None else Some(entry)
  }

  /** The entries of the reply's lines, in order: what ParseLine keeps of each line. */
  function ParsedLines(lines: seq<String>): (entries: seq<String>)
    ensures |entries| <= |lines|
    ensures forall k :: 0 <= k < |entries| ==> entries[k] != [] && IsStripped(entries[k])
  {
    if lines == [] then []
    else
      var before := ParsedLines(lines[..|lines| - 1]);
      match ParseLine(lines[|lines| - 1])
      case None => before
      case Some(entry) => before + [entry]
  }

  /** The translations a batch reply holds: the parsed lines of the stripped reply. */
  function BatchEntries(response: String): seq<String> {
    ParsedLines(Split(Strip(response), '\n'))
  }

  /** _parse_batch_response: the loop over the lines of the stripped reply. */
  method ParseBatchResponse(response: String) returns (translations: seq<String>)
    ensures translations == BatchEntries(response)
  {
    var lines := Split(Strip(response), '\n');
    translations := [];
    var i := 0;
    while i < |lines|
      invariant i <= |lines|
      invariant translations == ParsedLines(lines[..i])
    {
      ParsedLinesNext(lines, i);
      var line := Strip(lines[i]);
      if line != [] {
        var cleanLine := RemoveNumberPrefix(line);
        if cleanLine != [] {
          translations := translations + [cleanLine];
        }
      }
      i := i + 1;
    }
    assert lines[..|lines|] == lines;
  }

  /** One more line adds what ParseLine keeps of it. */
  lemma ParsedLinesNext(lines: seq<String>, i: nat)
    requires i < |lines|
    ensures ParsedLines(lines[..i + 1])
            == ParsedLines(lines[..i]) + (if ParseLine(lines[i]).Some? then [ParseLine(lines[i]).value] else [])
  {
    assert lines[..i + 1][..i] == lines[..i];
  }

  /** str(n): the decimal digits of n. */
  function Decimal(n: nat): (r: String)
    ensures r != [] && forall i :: 0 <= i < |r| ==> IsAsciiDigit(r[i])
  {
    if n < 10 then [('0' as int + n) as char] else Decimal(n / 10) + [('0' as int + n % 10) as char]
  }

  /** A reply in the numbered format of the batch prompt: line k is "k. " and the k-th translation. */
  function NumberedReply(ts: seq<String>): String {
    Join(NumberedLines(ts), '\n')
  }

  /** The k-th line (from 0) of a numbered reply: f"{k + 1}. {t}". */
  function ReplyLine(k: nat, t: String): String {
    Decimal(k + 1) + ". " + t
  }

  function NumberedLines(ts: seq<String>): (lines: seq<String>)
    ensures |lines| == |ts|
  {
    seq(|ts|, k requires 0 <= k < |ts| => ReplyLine(k, ts[k]))
  }

  /** One numbered line "N. t" of a stripped, non-empty t parses back to t. */
  lemma ParseNumberedLine(digits: String, t: String)
    requires digits != [] && forall i :: 0 <= i < |digits| ==> IsAsciiDigit(digits[i])
    requires t != [] && IsStripped(t)
    ensures ParseLine(digits + ". " + t) == Some(t)
  {
    var line := digits + ". " + t;
    assert line == digits + "." + " " + t;
    assert line[|line| - 1] == t[|t| - 1];
    assert IsStripped(line);
    StrippedIsFixed(line);
    NumberPrefixRemoved(digits, " ", t);
  }

  /** Parsing the numbered lines of stripped, non-empty translations gives the translations back. */
  lemma {:induction false} ParseNumberedLines(ts: seq<String>)
    requires forall k :: 0 <= k < |ts| ==> ts[k] != [] && IsStripped(ts[k])
    ensures ParsedLines(NumberedLines(ts)) == ts
    decreases |ts|
  {
    if ts != [] {
      var n := |ts| - 1;
      var lines := NumberedLines(ts);
      NumberedLinesPrefix(ts);
      ParseNumberedLines(ts[..n]);
      ParseNumberedLine(Decimal(n + 1), ts[n]);
      ParsedLinesSnoc(lines, ts[n]);
      SplitLast(ts);
    }
  }

  lemma NumberedLinesPrefix(ts: seq<String>)
    requires ts != []
    ensures NumberedLines(ts)[..|ts| - 1] == NumberedLines(ts[..|ts| - 1])
    ensures NumberedLines(ts)[|ts| - 1] == ReplyLine(|ts| - 1, ts[|ts| - 1])
  {
    var n := |ts| - 1;
    assert forall k :: 0 <= k < n ==> NumberedLines(ts)[..n][k] == NumberedLines(ts[..n])[k];
  }

  lemma ParsedLinesSnoc(lines: seq<String>, entry: String)
    requires lines != [] && ParseLine(lines[|lines| - 1]) == Some(entry)
    ensures ParsedLines(lines) == ParsedLines(lines[..|lines| - 1]) + [entry]
  {
  }

  /** The last character of a join is the last character of its last part. */
  lemma {:induction false} JoinLast(parts: seq<String>, sep: char)
    requires |parts| >= 1 && parts[|parts| - 1] != []
    ensures var j := Join(parts, sep); |j| > 0 && j[|j| - 1] == parts[|parts| - 1][|parts[|parts| - 1]| - 1]
    decreases |parts|
  {
    if |parts| > 1 {
      assert parts[1..][|parts| - 2] == parts[|parts| - 1];
      JoinLast(parts[1..], sep);
    }
  }

  /**
   * The batch format round-trips: a reply that numbers stripped, non-empty,
   * single-line translations as the prompt does parses back to those translations.
   */
  lemma BatchRoundTrip(ts: seq<String>)
    requires forall k :: 0 <= k < |ts| ==> ts[k] != [] && IsStripped(ts[k]) && '\n' !in ts[k]
    ensures BatchEntries(NumberedReply(ts)) == ts
  {
    var lines := NumberedLines(ts);
    var reply := NumberedReply(ts);
    if ts == [] {
      assert Strip(reply) == [];
      assert Split(Strip(reply), '\n') == [[]];
    } else {
      forall k | 0 <= k < |lines| ensures '\n' !in lines[k] {
        var d := Decimal(k + 1);
        assert lines[k] == ReplyLine(k, ts[k]) == d + ". " + ts[k];
        assert forall i :: 0 <= i < |d| ==> d[i] != '\n';
      }
      JoinLast(lines, '\n');
      var last := lines[|lines| - 1];
      assert last[|last| - 1] == ts[|ts| - 1][|ts[|ts| - 1]| - 1];
      assert reply[0] == Decimal(1)[0];
      StrippedIsFixed(reply);
      SplitJoin(lines, '\n');
      ParseNumberedLines(ts);
    }
  }

  // ---------------------------------------------------------------- _translate_similar_batch

  /** The while loop that pads the parsed translations with the source texts, then the cut to len(texts). */
  method PadTranslations(translations: seq<String>, texts: seq<String>) returns (r: seq<String>)
    ensures |r| == |texts|
    ensures forall k :: 0 <= k < |texts| && k < |translations| ==> r[k] == translations[k]
    ensures forall k :: |translations| <= k < |texts| ==> r[k] == texts[k]
  {
    var padded := translations;
    while |padded| < |texts|
      invariant |translations| <= |padded|
      invariant padded[..|translations|] == translations
      invariant forall k :: |translations| <= k < |padded| ==> k < |texts| && padded[k] == texts[k]
      decreases |texts| - |padded|
    {
      padded := padded + [texts[|padded|]];
    }
    r := padded[..|texts|];
  }

  /**
   * _translate_similar_batch for a group of two or more texts: the reply to the
   * combined prompt (or the error it raised) is a parameter, and so is the
   * one-by-one translation used when the combined request fails.
   */
  method TranslateSimilarBatch(texts: seq<String>, reply: Result<String, String>, single: String -> String)
    returns (r: seq<String>)
    ensures |r| == |texts|
    ensures reply.Err? || |texts| == 1 ==> forall k :: 0 <= k < |texts| ==> r[k] == single(texts[k])
    ensures reply.Ok? && |texts| != 1 ==>
      var parsed := BatchEntries(reply.value);
      (forall k :: 0 <= k < |texts| && k < |parsed| ==> r[k] == parsed[k])
      && (forall k :: |parsed| <= k < |texts| ==> r[k] == texts[k])
  {
    if |texts| == 1 {
      r := [single(texts[0])];
    } else if reply.Ok? {
      var parsed := ParseBatchResponse(reply.value);
      r := PadTranslations(parsed, texts);
    } else {
      r := seq(|texts|, k requires 0 <= k < |texts| => single(texts[k]));
    }
  }

  // ---------------------------------------------------------------- BaseTranslator.translate

  /**
   * format_translation_result: an empty reply falls back to the original; otherwise
   * the reply is stripped, the terminology is applied (a parameter: the dictionary
   * lives in a configuration module), and one pair of surrounding double quotes,
   * then one pair of single quotes, is removed.
   */
  function FormatTranslationResult(original: String, translated: String, applyTerminology: String -> String): (r: String)
    ensures translated == [] ==> r == original
    ensures translated != [] ==> r == UnquoteOnce(UnquoteOnce(applyTerminology(Strip(translated)), '"'), '\'')
    ensures translated != [] ==> |r| <= |applyTerminology(Strip(translated))|
  {
    if translated == [] then original
    else
      var t := applyTerminology(Strip(translated));
      var t1 := UnquoteOnce(t, '"');
      UnquoteOnce(t1, '\'')
  }

  /** s[1:-1] when s starts and ends with q. */
  function UnquoteOnce(s: String, q: char): (r: String)
    ensures |r| <= |s|
    ensures (|s| >= 2 && s[0] == q && s[|s| - 1] == q) ==> r == s[1..|s| - 1]
    ensures |s| == 1 && s[0] == q ==> r == []
    ensures (s == [] || s[0] != q || s[|s| - 1] != q) ==> r == s
  {
    if |s| >= 1 && s[0] == q && s[|s| - 1] == q then
      (if |s| >= 2 then s[1..|s| - 1] else [])
    else s
  }

  /** A reply wrapped in double quotes, in single quotes, or in single quotes inside double ones comes back without them. */
  lemma FormatRemovesQuotes(original: String, translated: String, applyTerminology: String -> String, content: String)
    requires translated != []
    requires var t := applyTerminology(Strip(translated));
      t == "\"" + content + "\"" || t == "'" + content + "'" || t == "\"'" + content + "'\""
    requires content == [] || (!IsQuote(content[0]) && !IsQuote(content[|content| - 1]))
    ensures FormatTranslationResult(original, translated, applyTerminology) == content
  {
    var t := applyTerminology(Strip(translated));
    if t == "\"'" + content + "'\"" {
      assert t[1..|t| - 1] == "'" + content + "'";
    }
  }

  /** A reply not wrapped in a pair of equal quotes is only stripped and put through the terminology. */
  lemma FormatKeepsUnquoted(original: String, translated: String, applyTerminology: String -> String)
    requires translated != []
    requires var t := applyTerminology(Strip(translated));
      t == [] || !IsQuote(t[0]) || t[0] != t[|t| - 1]
    ensures FormatTranslationResult(original, translated, applyTerminology) == applyTerminology(Strip(translated))
  {
  }

  /** An error message that means the key is wrong, so retrying is pointless. */
  predicate IsAuthError(message: String) {
    var m := Lower(message);
    Contains(m, "invalid") || Contains(m, "expired") || Contains(m, "unauthorized")
    || Contains(m, "401") || Contains(m, "403")
  }

  const MaxRetries: nat := 3

  /** The outcome of the retry loop from attempt k on: the text returned and the number of requests made. */
  datatype Outcome = Outcome(text: String, requests: nat, stored: bool)

  function AttemptsFrom(text: String, k: nat, request: nat -> Result<String, String>,
                        applyTerminology: String -> String): (o: Outcome)
    requires k < MaxRetries
    ensures 1 <= o.requests <= MaxRetries - k
    decreases MaxRetries - k
  {
    match request(k)
    case Ok(reply) => Outcome(FormatTranslationResult(text, reply, applyTerminology), 1, true)
    case Err(message) =>
      if IsAuthError(message) then Outcome(text, 1, false)
      else if k < MaxRetries - 1 then
        var o := AttemptsFrom(text, k + 1, request, applyTerminology);
        Outcome(o.text, o.requests + 1, o.stored)
      else Outcome(text, 1, false)
  }

  /**
   * The whole of translate, with the cache lookup's result as a parameter: an empty
   * cleaned text returns the input without a request; a cache hit with a non-empty
   * translation returns it without a request; otherwise the retry loop runs.
   */
  function TranslateOutcome(text: String, useCache: bool, cached: Option<String>,
                            request: nat -> Result<String, String>, applyTerminology: String -> String): (o: Outcome)
    ensures o.requests <= MaxRetries
    ensures CleanTextForTranslation(text) == [] ==> o == Outcome(text, 0, false)
    ensures CleanTextForTranslation(text) != [] && useCache && cached.Some? && cached.value != [] ==>
              o == Outcome(cached.value, 0, false)
    ensures o.stored ==> useCache && 1 <= o.requests
  {
    if CleanTextForTranslation(text) == [] then Outcome(text, 0, false)
    else if useCache && cached.Some? && cached.value != [] then Outcome(cached.value, 0, false)
    else
      var o := AttemptsFrom(text, 0, request, applyTerminology);
      Outcome(o.text, o.requests, useCache && o.stored)
  }

  /** A failed run of attempts (no reply at all) gives back the original text. */
  lemma {:induction false} FailuresReturnOriginal(text: String, k: nat, request: nat -> Result<String, String>,
                                                   applyTerminology: String -> String)
    requires k < MaxRetries
    requires forall a :: k <= a < MaxRetries ==> request(a).Err?
    ensures AttemptsFrom(text, k, request, applyTerminology).text == text
    ensures !AttemptsFrom(text, k, request, applyTerminology).stored
    decreases MaxRetries - k
  {
    if k < MaxRetries - 1 && !IsAuthError(request(k).error) {
      FailuresReturnOriginal(text, k + 1, request, applyTerminology);
    }
  }

  /** An authentication error stops the loop at once. */
  lemma AuthErrorStops(text: String, k: nat, request: nat -> Result<String, String>, applyTerminology: String -> String)
    requires k < MaxRetries && request(k).Err? && IsAuthError(request(k).error)
    ensures AttemptsFrom(text, k, request, applyTerminology) == Outcome(text, 1, false)
  {
  }

  /** The first reply ends the loop, and the formatted reply is what translate returns. */
  lemma {:induction false} FirstReplyWins(text: String, k: nat, request: nat -> Result<String, String>,
                                         applyTerminology: String -> String, success: nat)
    requires k <= success < MaxRetries && request(success).Ok?
    requires forall a :: k <= a < success ==> request(a).Err? && !IsAuthError(request(a).error)
    ensures AttemptsFrom(text, k, request, applyTerminology)
            == Outcome(FormatTranslationResult(text, request(success).value, applyTerminology), success - k + 1, true)
    decreases success - k
  {
    if k < success {
      FirstReplyWins(text, k + 1, request, applyTerminology, success);
    }
  }

  /**
   * BaseTranslator.translate against the shared cache: the method performs the
   * lookup and the store, and its result is the one TranslateOutcome describes.
   */
  method Translate(text: String, useCache: bool, cache: TranslationCache,
                   request: nat -> Result<String, String>, applyTerminology: String -> String)
    returns (r: String, requests: nat)
    modifies cache
    ensures var o := TranslateOutcome(text, useCache, old(cache.Get(CleanTextForTranslation(text))), request, applyTerminology);
      r == o.text && requests == o.requests
      && (if o.stored then
            cache.entries == Store(old(cache.entries), CleanTextForTranslation(text), r)
            && cache.saves == old(cache.saves) + (if |cache.entries| % 10 == 0 then 1 else 0)
          else cache.entries == old(cache.entries) && cache.saves == old(cache.saves))
  {
    var clean := CleanTextForTranslation(text);
    if clean == [] {
      return text, 0;
    }
    var cached := cache.Get(clean);
    if useCache && cached.Some? && cached.value != [] {
      return cached.value, 0;
    }
    var stored;
    r, requests, stored := Retry(text, request, applyTerminology);
    if useCache && stored {
      cache.Set(clean, r);
    }
  }

  /** One failed, retryable attempt hands over to the next. */
  lemma RetryStep(text: String, k: nat, request: nat -> Result<String, String>, applyTerminology: String -> String)
    requires k < MaxRetries - 1 && request(k).Err? && !IsAuthError(request(k).error)
    ensures var next := AttemptsFrom(text, k + 1, request, applyTerminology);
      AttemptsFrom(text, k, request, applyTerminology) == Outcome(next.text, next.requests + 1, next.stored)
  {
  }

  /** The retry loop of translate: at most MaxRetries requests, stopping at the first reply or key error. */
  method Retry(text: String, request: nat -> Result<String, String>, applyTerminology: String -> String)
    returns (r: String, requests: nat, stored: bool)
    ensures Outcome(r, requests, stored) == AttemptsFrom(text, 0, request, applyTerminology)
  {
    var attempt := 0;
    while true
      invariant attempt < MaxRetries
      invariant var o := AttemptsFrom(text, attempt, request, applyTerminology);
        AttemptsFrom(text, 0, request, applyTerminology) == Outcome(o.text, attempt + o.requests, o.stored)
      decreases MaxRetries - attempt
    {
      var reply := request(attempt);
      if reply.Ok? {
        return FormatTranslationResult(text, reply.value, applyTerminology), attempt + 1, true;
      }
      if IsAuthError(reply.error) || attempt == MaxRetries - 1 {
        return text, attempt + 1, false;
      }
      RetryStep(text, attempt, request, applyTerminology);
      attempt := attempt + 1;
    }
  }

  // ---------------------------------------------------------------- TranslatorManager and create_translator

  datatype Engine = Gpt | Gemini

  /** A translator object as the registry sees it: its engine, key and model name. */
  datatype Translator = Translator(engine: Engine, apiKey: String, model: String)

  const DefaultGptModel: String := "gpt-3.5-turbo"
  const DefaultGeminiModel: String := "gemini-2.5-flash"

  /** create_translator: an empty or missing model name takes the engine's default. */
  function CreateTranslator(provider: String, apiKey: String, modelName: String): (r: Result<Translator, String>)
    ensures r.Ok? <==> provider == "openai" || provider == "google"
    ensures r.Ok? ==> r.value.apiKey == apiKey
    ensures r.Ok? ==> (r.value.engine == Gpt <==> provider == "openai")
    ensures r.Ok? && modelName != [] ==> r.value.model == modelName
    ensures r.Ok? && modelName == [] ==> r.value.model == (if provider == "openai" then DefaultGptModel else DefaultGeminiModel)
  {
    if provider == "openai" then Ok(Translator(Gpt, apiKey, if modelName != [] then modelName else DefaultGptModel))
    else if provider == "google" then Ok(Translator(Gemini, apiKey, if modelName != [] then modelName else DefaultGeminiModel))
    else Err("unsupported provider: " + provider)
  }

  /** The translated text, or the text itself when its translation raised. */
  function OrOriginal(r: Result<String, String>, text: String): String {
    match r
    case Ok(v) => v
    case Err(_) => text
  }

  class TranslatorManager {
    /** The registered names in the order the dictionary keeps them (first insertion). */
    var names: seq<String>
    var translators: map<String, Translator>
    var current: Option<Translator>

    ghost predicate Valid()
      reads this
    {
      (forall a, b :: 0 <= a < b < |names| ==> names[a] != names[b])
      && (forall n :: n in translators <==> n in names)
    }

    constructor()
      ensures Valid() && names == [] && translators == map[] && current == None
    {
      names, translators, current := [], map[], None;
    }

    /** add_translator: a new name goes to the end; a known name keeps its place and gets the new translator. */
    method AddTranslator(name: String, t: Translator)
      requires Valid()
      modifies this
      ensures Valid()
      ensures translators == old(translators)[name := t]
      ensures names == if name in old(translators) then old(names) else old(names) + [name]
      ensures current == old(current)
    {
      if name !in translators {
        names := names + [name];
      }
      translators := translators[name := t];
    }

    /** set_current_translator */
    method SetCurrentTranslator(name: String) returns (ok: bool)
      modifies this
      ensures names == old(names) && translators == old(translators)
      ensures ok <==> name in old(translators)
      ensures current == if ok then Some(translators[name]) else old(current)
    {
      if name in translators {
        current := Some(translators[name]);
        return true;
      }
      return false;
    }

    /** get_available_translators: exactly the registered names, each once. */
    function AvailableTranslators(): (r: seq<String>)
      reads this
      requires Valid()
      ensures forall n :: n in r <==> n in translators
      ensures forall a, b :: 0 <= a < b < |r| ==> r[a] != r[b]
    {
      names
    }

    /** The translator translate uses: the named one when it is given and registered, else the current one. */
    function Resolve(name: Option<String>): (r: Option<Translator>)
      reads this
      ensures name.Some? && name.value != [] && name.value in translators ==> r == Some(translators[name.value])
      ensures !(name.Some? && name.value != [] && name.value in translators) ==> r == current
    {
      if name.Some? && name.value != [] && name.value in translators then Some(translators[name.value]) else current
    }

    /**
     * translate: the result of the chosen translator (run gives its reply, or the
     * message of what it raised); an error when no translator can be chosen.
     */
    function TranslateText(text: String, name: Option<String>, run: (Translator, String) -> Result<String, String>): (r: Result<String, String>)
      reads this
      ensures Resolve(name).None? ==> r.Err?
      ensures Resolve(name).Some? ==> r == run(Resolve(name).value, text)
    {
      match Resolve(name)
      case None => Err("no translator set")
      case Some(t) => run(t, text)
    }

    /**
     * translate_batch: one result per text, in order; a text whose translation
     * raised is kept as it was. progress lists the (done, total) pairs passed to
     * the progress callback, one per successful text.
     */
    method TranslateBatch(texts: seq<String>, name: Option<String>, run: (Translator, String) -> Result<String, String>)
      returns (results: seq<String>, progress: seq<(nat, nat)>)
      ensures |results| == |texts|
      ensures forall k :: 0 <= k < |texts| ==> results[k] == OrOriginal(TranslateText(texts[k], name, run), texts[k])
      ensures progress == SuccessProgress(texts, name, run, |texts|)
    {
      results, progress := [], [];
      var i := 0;
      while i < |texts|
        invariant i <= |texts| && |results| == i
        invariant forall k :: 0 <= k < i ==> results[k] == OrOriginal(TranslateText(texts[k], name, run), texts[k])
        invariant progress == SuccessProgress(texts, name, run, i)
      {
        var outcome := TranslateText(texts[i], name, run);
        if outcome.Ok? {
          results := results + [outcome.value];
          progress := progress + [(i + 1, |texts|)];
        } else {
          results := results + [texts[i]];
        }
        i := i + 1;
      }
    }

    /** The callback calls for the first i texts: (k + 1, total) for each text k whose translation succeeded. */
    function SuccessProgress(texts: seq<String>, name: Option<String>, run: (Translator, String) -> Result<String, String>, i: nat): (calls: seq<(nat, nat)>)
      reads this
      requires i <= |texts|
      ensures |calls| <= i
      ensures forall c :: c in calls ==> 1 <= c.0 <= i && c.1 == |texts|
    {
      if i == 0 then []
      else
        var before := SuccessProgress(texts, name, run, i - 1);
        if TranslateText(texts[i - 1], name, run).Ok? then before + [(i, |texts|)] else before
    }
  }
}
