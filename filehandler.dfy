/**
 * PHPFileHandler: the loaded file, its extracted records and the views the
 * window shows over them (progress, statistics, duplicates, validation issues).
 */
module FileHandler {
  import opened Strings
  import opened Wrappers
  import opened ArabicScript
  import opened Records
  import Classifier
  import Extraction
  import Rewriter

  // ---------------------------------------------------------------- load_file

  /** The reasons load_file raises, in the order it checks them. */
  datatype LoadError = FileNotFound | NotPhpFile | Undecodable

  /** The encodings load_file tries, in order. */
  const Encodings: seq<String> := ["utf-8", "utf-8-sig", "windows-1256", "iso-8859-1", "cp1252"]

  function LastIndexOf(s: String, c: char): (r: Option<nat>)
    ensures r.Some? ==> r.value < |s| && s[r.value] == c && forall i :: r.value < i < |s| ==> s[i] != c
    ensures r.None? ==> c !in s
  {
    if s == [] then None
    else if s[|s| - 1] == c then Some(|s| - 1)
    else LastIndexOf(s[..|s| - 1], c)
  }

  /** Path(p).name: what follows the last '/'. */
  function FileName(path: String): (r: String)
    ensures '/' !in r
  {
    match LastIndexOf(path, '/')
    case Some(i) => path[i + 1..]
    case None => path
  }

  /** Path(p).suffix: from the last '.' of the name on, unless that dot opens or ends the name. */
  function Suffix(path: String): (r: String)
    ensures r != [] ==> r[0] == '.' && |r| >= 2
  {
    var name := FileName(path);
    match LastIndexOf(name, '.')
    case Some(i) => if 0 < i < |name| - 1 then name[i..] else []
    case None => []
  }

  class PHPFileHandler {
    var filePath: Option<String>
    var originalContent: String
    var translations: seq<TranslationItem>
    var modified: bool
    var encoding: String

    /** Every record's original text is non-empty, which the rewrite relies on. */
    predicate Valid()
      reads this
    {
      Rewriter.HasOriginals(translations)
    }

    constructor ()
      ensures Valid()
      ensures filePath == None && originalContent == [] && translations == [] && !modified && encoding == "utf-8"
    {
      filePath := None;
      originalContent := [];
      translations := [];
      modified := false;
      encoding := "utf-8";
    }

    /**
     * load_file. The file system is abstracted: fileExists says whether the path
     * names a file, decode gives the file's text for an encoding when it
     * decodes. The path is recorded before the checks, as in the program.
     */
    method LoadFile(path: String, fileExists: bool, decode: String -> Option<String>) returns (r: Result<bool, LoadError>)
      modifies this
      ensures filePath == Some(path)
      ensures !fileExists ==> r == Err(FileNotFound)
      ensures fileExists && Lower(Suffix(path)) != ".php" ==> r == Err(NotPhpFile)
      ensures r.Err? ==> (translations == old(translations) && modified == old(modified)
        && originalContent == old(originalContent) && encoding == old(encoding))
      ensures r.Ok? <==> fileExists && Lower(Suffix(path)) == ".php" && exists e :: e in Encodings && decode(e).Some?
      ensures r.Ok? ==> (r.value && encoding in Encodings && decode(encoding) == Some(originalContent)
        && (forall i :: 0 <= i < |Encodings| && Encodings[i] == encoding ==>
              forall j :: 0 <= j < i ==> decode(Encodings[j]).None?)
        && translations == Extraction.ExtractedFrom(originalContent) && !modified)
      ensures old(Valid()) ==> Valid()
      ensures r.Ok? ==> Valid()
    {
      filePath := Some(path);
      if !fileExists {
        return Err(FileNotFound);
      }
      if Lower(Suffix(path)) != ".php" {
        return Err(NotPhpFile);
      }
      var found := FirstDecoding(decode);
      if found.None? {
        return Err(Undecodable);
      }
      var i := found.value;
      originalContent := decode(Encodings[i]).value;
      encoding := Encodings[i];
      EncodingsDistinct(i);
      var items := Extraction.ExtractTranslations(originalContent);
      ExtractedHaveOriginals(originalContent);
      translations := items;
      modified := false;
      return Ok(true);
    }

    /**
     * update_translation: a valid index rewrites that record's translation,
     * its Arabic flag and its type and marks the file modified; any other
     * index changes nothing.
     */
    method UpdateTranslation(index: int, translatedText: String, translationType: String) returns (ok: bool)
      requires Valid()
      modifies this
      ensures Valid()
      ensures ok <==> 0 <= index < |old(translations)|
      ensures ok ==> (translations == old(translations)[index := Retranslated(old(translations)[index], translatedText, translationType)]
        && modified)
      ensures !ok ==> translations == old(translations) && modified == old(modified)
      ensures |translations| == |old(translations)|
      ensures filePath == old(filePath) && originalContent == old(originalContent) && encoding == old(encoding)
    {
      if 0 <= index < |translations| {
        translations := translations[index := Retranslated(translations[index], translatedText, translationType)];
        modified := true;
        return true;
      }
      return false;
    }

    /** _build_new_content over the handler's own content and records. */
    method BuildNewContent() returns (content: String)
      requires Valid()
      ensures content == Join(Rewriter.RewrittenLines(Split(originalContent, '\n'), translations), '\n')
    {
      content := Rewriter.BuildNewContent(originalContent, translations);
    }
  }

  /** The encoding loop of load_file: the first encoding, in list order, under which the file decodes. */
  method FirstDecoding(decode: String -> Option<String>) returns (found: Option<nat>)
    ensures found.Some? ==> (found.value < |Encodings| && decode(Encodings[found.value]).Some?
      && forall j :: 0 <= j < found.value ==> decode(Encodings[j]).None?)
    ensures found.None? <==> forall e :: e in Encodings ==> decode(e).None?
  {
    var i := 0;
    while i < |Encodings|
      invariant i <= |Encodings|
      invariant forall j :: 0 <= j < i ==> decode(Encodings[j]).None?
    {
      if decode(Encodings[i]).Some? {
        assert Encodings[i] in Encodings;
        return Some(i);
      }
      i := i + 1;
    }
    forall e | e in Encodings ensures decode(e).None? {
      var j :| 0 <= j < |Encodings| && Encodings[j] == e;
    }
    return None;
  }

  lemma EncodingsDistinct(i: nat)
    requires i < |Encodings|
    ensures forall k :: 0 <= k < |Encodings| && Encodings[k] == Encodings[i] ==> k == i
  {
  }

  lemma ExtractedHaveOriginals(content: String)
    ensures Rewriter.HasOriginals(Extraction.ExtractedFrom(content))
  {
    var lines := Split(content, '\n');
    if |content| > Extraction.LargeContentSize {
      var all := Extraction.ItemsOf(lines, Extraction.Large);
      Extraction.ItemsShape(lines, Extraction.Large);
      var unique := Extraction.DedupOf(all);
      Extraction.DedupKeepsFirstOccurrences(all);
      forall t | t in unique ensures t.originalValue != [] {
        var k :| 0 <= k < |unique| && unique[k] == t;
        assert all[Extraction.DedupPositions(all)[k]] in all;
      }
    } else {
      Extraction.ItemsShape(lines, Extraction.Standard);
    }
  }

  /** The three fields update_translation writes; the others stay. */
  function Retranslated(t: TranslationItem, text: String, translationType: String): (r: TranslationItem)
    ensures r.translatedValue == text && r.isTranslated == HasArabicContent(text) && r.translationType == translationType
    ensures r.lineNumber == t.lineNumber && r.key == t.key && r.originalValue == t.originalValue
      && r.originalLine == t.originalLine && r.needsTranslation == t.needsTranslation && r.patternUsed == t.patternUsed
  {
    t.(translatedValue := text, isTranslated := HasArabicContent(text), translationType := translationType)
  }

  // ---------------------------------------------------------------- the derived views

  function Filter(items: seq<TranslationItem>, p: TranslationItem -> bool): (r: seq<TranslationItem>)
    ensures |r| <= |items|
    ensures forall t :: t in r <==> t in items && p(t)
  {
    if items == [] then []
    else (if p(items[0]) then [items[0]] else []) + Filter(items[1..], p)
  }

  /** A weaker test keeps at least as many records. */
  lemma {:induction false} FilterMonotone(items: seq<TranslationItem>, p: TranslationItem -> bool, q: TranslationItem -> bool)
    requires forall t :: q(t) ==> p(t)
    ensures |Filter(items, q)| <= |Filter(items, p)|
  {
    if items != [] {
      FilterMonotone(items[1..], p, q);
    }
  }

  /** The records passing p split into those passing both p and q (pq) and those passing p but not q (pn). */
  lemma {:induction false} FilterSplit(items: seq<TranslationItem>, p: TranslationItem -> bool, pq: TranslationItem -> bool, pn: TranslationItem -> bool)
    requires forall t :: p(t) <==> pq(t) || pn(t)
    requires forall t :: !(pq(t) && pn(t))
    ensures |Filter(items, pq)| + |Filter(items, pn)| == |Filter(items, p)|
  {
    if items != [] {
      FilterSplit(items[1..], p, pq, pn);
    }
  }

  /** Two tests no record passes together keep at most all records between them. */
  lemma {:induction false} FilterDisjoint(items: seq<TranslationItem>, p: TranslationItem -> bool, q: TranslationItem -> bool)
    requires forall t :: !(p(t) && q(t))
    ensures |Filter(items, p)| + |Filter(items, q)| <= |items|
  {
    if items != [] {
      FilterDisjoint(items[1..], p, q);
    }
  }

  predicate Needing(t: TranslationItem) { t.needsTranslation }

  predicate IsDone(t: TranslationItem) { t.needsTranslation && HasArabicContent(t.translatedValue) }

  predicate IsPending(t: TranslationItem) { t.needsTranslation && !HasArabicContent(t.translatedValue) }

  /** get_untranslated_items */
  function UntranslatedItems(items: seq<TranslationItem>): (r: seq<TranslationItem>)
    ensures forall t :: t in r <==> t in items && t.needsTranslation && !HasArabicContent(t.translatedValue)
  {
    Filter(items, IsPending)
  }

  function NeedCount(items: seq<TranslationItem>): nat { |Filter(items, Needing)| }

  function DoneCount(items: seq<TranslationItem>): nat { |Filter(items, IsDone)| }

  /** Records needing translation are either done or still pending. */
  lemma DoneAndPending(items: seq<TranslationItem>)
    ensures DoneCount(items) + |UntranslatedItems(items)| == NeedCount(items)
    ensures DoneCount(items) <= NeedCount(items) <= |items|
  {
    FilterSplit(items, Needing, IsDone, IsPending);
  }

  /** get_translation_progress, in whole percent. */
  function TranslationProgress(items: seq<TranslationItem>): (r: nat)
    ensures NeedCount(items) == 0 ==> r == 100
  {
    if NeedCount(items) == 0 then 100 else (100 * DoneCount(items)) / NeedCount(items)
  }

  /** Progress is a percentage, and it is 100 exactly when every record needing translation is done. */
  lemma ProgressBounds(items: seq<TranslationItem>)
    ensures TranslationProgress(items) <= 100
    ensures TranslationProgress(items) == 100 <==> DoneCount(items) == NeedCount(items)
    ensures TranslationProgress(items) == 100 <==> UntranslatedItems(items) == []
  {
    DoneAndPending(items);
    if NeedCount(items) > 0 {
      Percent(DoneCount(items), NeedCount(items));
    }
  }

  /** (100 * d) / n for 0 <= d <= n is at most 100, and 100 only for d == n. */
  lemma Percent(d: nat, n: nat)
    requires 0 < n && d <= n
    ensures (100 * d) / n <= 100
    ensures (100 * d) / n == 100 <==> d == n
  {
    DivBelow(100 * d, n, 101);
    if d < n {
      DivBelow(100 * d, n, 100);
    } else {
      DivExact(100, n);
    }
  }

  lemma DivExact(q: nat, n: nat)
    requires n > 0
    ensures (q * n) / n == q
  {
    var r := (q * n) / n;
    assert r * n + (q * n) % n == q * n;
    MulBelow(r, q, n);
    MulBelow(q, r + 1, n);
  }

  lemma DivBelow(a: nat, n: nat, k: nat)
    requires n > 0 && a < n * k
    ensures a / n < k
  {
    var r := a / n;
    assert r * n <= a;
    MulBelow(r, k, n);
  }

  /** x * n < y * n forces x < y. */
  lemma MulBelow(x: int, y: int, n: nat)
    requires n > 0
    ensures x * n < y * n ==> x < y
  {
    if x >= y {
      MulMono(y, x, n);
    }
  }

  lemma MulMono(x: int, y: int, n: nat)
    requires x <= y
    ensures x * n <= y * n
  {
    assert y * n == x * n + (y - x) * n;
  }

  datatype Statistics = Statistics(
    totalItems: nat,
    needsTranslation: nat,
    translated: nat,
    remaining: int,
    progressPercentage: nat,
    autoTranslated: nat,
    manualTranslated: nat,
    hasArabicOriginally: nat
  )

  predicate AutoDone(t: TranslationItem) { t.translationType == "auto" && HasArabicContent(t.translatedValue) }

  predicate ManualDone(t: TranslationItem) { t.translationType == "manual" && HasArabicContent(t.translatedValue) }

  predicate ArabicOriginal(t: TranslationItem) { HasArabicContent(t.originalValue) }

  /** get_statistics */
  function GetStatistics(items: seq<TranslationItem>): (s: Statistics)
    ensures s.totalItems == |items| && s.remaining == s.needsTranslation - s.translated
    ensures s.progressPercentage == TranslationProgress(items)
  {
    Statistics(
      |items|,
      NeedCount(items),
      DoneCount(items),
      NeedCount(items) - DoneCount(items),
      TranslationProgress(items),
      |Filter(items, AutoDone)|,
      |Filter(items, ManualDone)|,
      |Filter(items, ArabicOriginal)|)
  }

  /** The counts of get_statistics nest as the window assumes. */
  lemma StatisticsBounds(items: seq<TranslationItem>)
    ensures var s := GetStatistics(items);
      s.translated <= s.needsTranslation <= s.totalItems
      && s.remaining >= 0 && s.remaining == |UntranslatedItems(items)|
      && s.autoTranslated + s.manualTranslated <= s.totalItems
      && s.hasArabicOriginally <= s.totalItems
      && s.progressPercentage <= 100
  {
    DoneAndPending(items);
    ProgressBounds(items);
    FilterDisjoint(items, AutoDone, ManualDone);
  }

  // ---------------------------------------------------------------- find_duplicates

  /** The text find_duplicates compares: original_value.lower().strip(). */
  function DuplicateKey(t: TranslationItem): String {
    Strip(Lower(t.originalValue))
  }

  datatype Duplicate = Duplicate(text: String, lines: (nat, nat), keys: (String, String))

  // The reference reading and its lemmas take the compared text as a parameter
  // key; find_duplicates uses DuplicateKey.

  /** The distinct compared texts of items. */
  function KeysSeen(items: seq<TranslationItem>, key: TranslationItem -> String): set<String> {
    set t | t in items :: key(t)
  }

  /** The seen dictionary after a pass over items: a record is stored only under a text not stored before. */
  function SeenOf(items: seq<TranslationItem>, key: TranslationItem -> String): map<String, TranslationItem> {
    if items == [] then map[]
    else
      var m, t := SeenOf(items[..|items| - 1], key), items[|items| - 1];
      if key(t) in m then m else m[key(t) := t]
  }

  /** Reference reading: every record whose text was seen before is reported with the stored record. */
  function DuplicatesOf(items: seq<TranslationItem>, key: TranslationItem -> String): (r: seq<Duplicate>)
    ensures |r| <= |items|
  {
    if items == [] then []
    else
      var prefix, t := items[..|items| - 1], items[|items| - 1];
      var seen := SeenOf(prefix, key);
      DuplicatesOf(prefix, key)
        + if key(t) in seen then [Duplicate(key(t), (seen[key(t)].lineNumber, t.lineNumber), (seen[key(t)].key, t.key))] else []
  }

  /** find_duplicates */
  method FindDuplicates(items: seq<TranslationItem>) returns (duplicates: seq<Duplicate>)
    ensures duplicates == DuplicatesOf(items, DuplicateKey)
  {
    var seen: map<String, TranslationItem> := map[];
    duplicates := [];
    var j := 0;
    while j < |items|
      invariant j <= |items|
      invariant seen == SeenOf(items[..j], DuplicateKey)
      invariant duplicates == DuplicatesOf(items[..j], DuplicateKey)
    {
      var item := items[j];
      DuplicatesStep(items, j, DuplicateKey);
      var original := Strip(Lower(item.originalValue));
      assert original == DuplicateKey(item);
      if original in seen {
        duplicates := duplicates + [Duplicate(original, (seen[original].lineNumber, item.lineNumber), (seen[original].key, item.key))];
      } else {
        seen := seen[original := item];
      }
      j := j + 1;
    }
    assert items[..j] == items;
  }

  lemma DuplicatesStep(items: seq<TranslationItem>, j: nat, key: TranslationItem -> String)
    requires j < |items|
    ensures var seen, t := SeenOf(items[..j], key), items[j];
      SeenOf(items[..j + 1], key) == (if key(t) in seen then seen else seen[key(t) := t])
      && DuplicatesOf(items[..j + 1], key) == DuplicatesOf(items[..j], key)
        + if key(t) in seen then [Duplicate(key(t), (seen[key(t)].lineNumber, t.lineNumber), (seen[key(t)].key, t.key))] else []
  {
    PrefixStep(items, j);
  }

  lemma PrefixStep<T>(items: seq<T>, j: nat)
    requires j < |items|
    ensures |items[..j + 1]| == j + 1 && items[..j + 1][..j] == items[..j] && items[..j + 1][j] == items[j]
  {
  }

  /** Record i is the first of items whose compared text is text. */
  predicate FirstAt(items: seq<TranslationItem>, i: int, text: String, key: TranslationItem -> String) {
    0 <= i < |items| && key(items[i]) == text && forall k :: 0 <= k < i ==> key(items[k]) != text
  }

  /** The seen dictionary holds exactly the texts met so far, each with the first record that had it. */
  lemma {:induction false} SeenIsFirst(items: seq<TranslationItem>, key: TranslationItem -> String)
    ensures forall text :: text in SeenOf(items, key) ==>
      exists i :: FirstAt(items, i, text, key) && items[i] == SeenOf(items, key)[text]
    ensures forall text :: text !in SeenOf(items, key) ==> forall k :: 0 <= k < |items| ==> key(items[k]) != text
  {
    if items != [] {
      var prefix, t := items[..|items| - 1], items[|items| - 1];
      SeenIsFirst(prefix, key);
      var m := SeenOf(prefix, key);
      assert forall k :: 0 <= k < |prefix| ==> items[k] == prefix[k];
      forall text | text in SeenOf(items, key)
        ensures exists i :: FirstAt(items, i, text, key) && items[i] == SeenOf(items, key)[text]
      {
        if text in m {
          var i :| FirstAt(prefix, i, text, key) && prefix[i] == m[text];
          assert FirstAt(items, i, text, key);
        } else {
          assert FirstAt(items, |prefix|, text, key);
        }
      }
    }
  }

  lemma KeysSeenAreSeen(items: seq<TranslationItem>, key: TranslationItem -> String)
    ensures SeenOf(items, key).Keys == KeysSeen(items, key)
  {
    SeenIsFirst(items, key);
    forall text | text in KeysSeen(items, key) ensures text in SeenOf(items, key) {
      var t :| t in items && key(t) == text;
      var k :| 0 <= k < |items| && items[k] == t;
    }
  }

  /** Every record is either the first with its text or reported as a duplicate: |duplicates| + distinct texts == records. */
  lemma {:induction false} DuplicateCount(items: seq<TranslationItem>, key: TranslationItem -> String)
    ensures |DuplicatesOf(items, key)| + |KeysSeen(items, key)| == |items|
  {
    KeysSeenAreSeen(items, key);
    if items != [] {
      var prefix := items[..|items| - 1];
      DuplicateCount(prefix, key);
      KeysSeenAreSeen(prefix, key);
    }
  }

  /** d pairs the first record with its text (i) and a later record with the same text (j). */
  predicate ReportsPair(items: seq<TranslationItem>, d: Duplicate, i: int, j: int, key: TranslationItem -> String) {
    i < j < |items| && FirstAt(items, i, d.text, key) && key(items[j]) == d.text
    && d.lines == (items[i].lineNumber, items[j].lineNumber) && d.keys == (items[i].key, items[j].key)
  }

  /** A reported pair names the first record with the compared text and a later record with the same text. */
  lemma {:induction false} DuplicatesAreReal(items: seq<TranslationItem>, key: TranslationItem -> String)
    ensures forall d :: d in DuplicatesOf(items, key) ==> exists i, j :: ReportsPair(items, d, i, j, key)
  {
    if items != [] {
      var prefix, t := items[..|items| - 1], items[|items| - 1];
      DuplicatesAreReal(prefix, key);
      SeenIsFirst(prefix, key);
      SplitLast(items);
      forall d | d in DuplicatesOf(items, key) ensures exists i, j :: ReportsPair(items, d, i, j, key) {
        if d in DuplicatesOf(prefix, key) {
          var i, j :| ReportsPair(prefix, d, i, j, key);
          PairInLonger(prefix, t, d, i, j, key);
        } else {
          var seen := SeenOf(prefix, key);
          assert key(t) in seen && d == Duplicate(key(t), (seen[key(t)].lineNumber, t.lineNumber), (seen[key(t)].key, t.key));
          var i :| FirstAt(prefix, i, d.text, key) && prefix[i] == SeenOf(prefix, key)[d.text];
          FirstInLonger(prefix, t, i, d.text, key);
          assert ReportsPair(items, d, i, |prefix|, key);
        }
      }
    }
  }

  lemma FirstInLonger(prefix: seq<TranslationItem>, t: TranslationItem, i: int, text: String, key: TranslationItem -> String)
    requires FirstAt(prefix, i, text, key)
    ensures FirstAt(prefix + [t], i, text, key) && (prefix + [t])[i] == prefix[i]
  {
    assert forall k :: 0 <= k < |prefix| ==> (prefix + [t])[k] == prefix[k];
  }

  lemma PairInLonger(prefix: seq<TranslationItem>, t: TranslationItem, d: Duplicate, i: int, j: int, key: TranslationItem -> String)
    requires ReportsPair(prefix, d, i, j, key)
    ensures ReportsPair(prefix + [t], d, i, j, key)
  {
    FirstInLonger(prefix, t, i, d.text, key);
  }

  // ---------------------------------------------------------------- validate_translations

  /** What <[^>]+> matches: '<', at least one character other than '>', then '>'. */
  predicate IsTag(tag: String) {
    |tag| >= 3 && tag[0] == '<' && tag[|tag| - 1] == '>' && forall i :: 1 <= i < |tag| - 1 ==> tag[i] != '>'
  }

  /**
   * re.findall(r'<[^>]+>', s) from p on: at a '<', the longest run without
   * '>' must be non-empty and be followed by '>'; otherwise the scan moves on
   * one character.
   */
  function HtmlTags(s: String, p: nat): (r: seq<String>)
    requires p <= |s|
    ensures forall tag :: tag in r ==> IsTag(tag)
    decreases |s| - p
  {
    if p == |s| then []
    else
      var n := RunWithout(s[p + 1..], '>');
      if s[p] == '<' && n >= 1 && p + 1 + n < |s| then
        var tag := s[p..p + n + 2];
        assert forall i :: 1 <= i < |tag| - 1 ==> tag[i] == s[p + 1..][i - 1];
        assert tag[|tag| - 1] == s[p + 1..][n];
        [tag] + HtmlTags(s, p + n + 2)
      else HtmlTags(s, p + 1)
  }

  /** A text without '<' holds no tag. */
  lemma {:induction false} NoAngleNoTags(s: String, p: nat)
    requires p <= |s| && '<' !in s
    ensures HtmlTags(s, p) == []
    decreases |s| - p
  {
    if p < |s| {
      NoAngleNoTags(s, p + 1);
    }
  }

  datatype IssueKind = EmptyTranslation | UnchangedTranslation | HtmlMismatch

  function IssueType(k: IssueKind): String {
    match k
    case EmptyTranslation => "empty_translation"
    case UnchangedTranslation => "unchanged_translation"
    case HtmlMismatch => "html_mismatch"
  }

  datatype Issue = Issue(kind: IssueKind, line: nat)

  predicate IsEmptyTranslation(t: TranslationItem) {
    t.needsTranslation && Strip(t.translatedValue) == []
  }

  predicate IsUnchangedTranslation(t: TranslationItem) {
    t.needsTranslation && Lower(Strip(t.originalValue)) == Lower(Strip(t.translatedValue)) && !HasArabicContent(t.translatedValue)
  }

  predicate HasHtmlMismatch(t: TranslationItem) {
    HtmlTags(t.originalValue, 0) != HtmlTags(t.translatedValue, 0)
  }

  /** The issues of a record on line n that fails the checks flagged, in the order the checks run. */
  function IssueList(n: nat, empty: bool, same: bool, html: bool): (r: seq<Issue>)
    ensures |r| <= 3
  {
    (if empty then [Issue(EmptyTranslation, n)] else [])
    + (if same then [Issue(UnchangedTranslation, n)] else [])
    + (if html then [Issue(HtmlMismatch, n)] else [])
  }

  /** Each check reports its issue exactly when the record fails it, always with the record's line. */
  lemma IssueListNamed(n: nat, empty: bool, same: bool, html: bool)
    ensures forall i :: i in IssueList(n, empty, same, html) ==> i.line == n
    ensures Issue(EmptyTranslation, n) in IssueList(n, empty, same, html) <==> empty
    ensures Issue(UnchangedTranslation, n) in IssueList(n, empty, same, html) <==> same
    ensures Issue(HtmlMismatch, n) in IssueList(n, empty, same, html) <==> html
  {
  }

  function ItemIssues(t: TranslationItem): (r: seq<Issue>)
    ensures |r| <= 3
  {
    IssueList(t.lineNumber, IsEmptyTranslation(t), IsUnchangedTranslation(t), HasHtmlMismatch(t))
  }

  function IssuesOf(items: seq<TranslationItem>): (r: seq<Issue>)
    ensures |r| <= 3 * |items|
  {
    if items == [] then [] else IssuesOf(items[..|items| - 1]) + ItemIssues(items[|items| - 1])
  }

  lemma IssueListSplit(before: seq<Issue>, a: seq<Issue>, b: seq<Issue>, c: seq<Issue>, n: nat, empty: bool, same: bool, html: bool)
    requires a == before + (if empty then [Issue(EmptyTranslation, n)] else [])
    requires b == a + (if same then [Issue(UnchangedTranslation, n)] else [])
    requires c == b + (if html then [Issue(HtmlMismatch, n)] else [])
    ensures c == before + IssueList(n, empty, same, html)
  {
  }

  lemma IssuesStep(items: seq<TranslationItem>, i: nat)
    requires i < |items|
    ensures IssuesOf(items[..i + 1]) == IssuesOf(items[..i]) + ItemIssues(items[i])
  {
    PrefixStep(items, i);
  }

  /** validate_translations */
  method ValidateTranslations(items: seq<TranslationItem>) returns (issues: seq<Issue>)
    ensures issues == IssuesOf(items)
  {
    issues := [];
    var i := 0;
    while i < |items|
      invariant i <= |items|
      invariant issues == IssuesOf(items[..i])
    {
      IssuesStep(items, i);
      issues := CheckItem(issues, items[i]);
      i := i + 1;
    }
    assert items[..i] == items;
  }

  /** The three checks validate_translations runs on one record, appending what they find. */
  method CheckItem(before: seq<Issue>, item: TranslationItem) returns (issues: seq<Issue>)
    ensures issues == before + ItemIssues(item)
  {
    issues := before;
    var empty := IsEmptyTranslation(item);
    var same := IsUnchangedTranslation(item);
    var originalHtml := HtmlTags(item.originalValue, 0);
    var translatedHtml := HtmlTags(item.translatedValue, 0);
    var html := originalHtml != translatedHtml;
    if empty {
      issues := issues + [Issue(EmptyTranslation, item.lineNumber)];
    }
    ghost var a := issues;
    if same {
      issues := issues + [Issue(UnchangedTranslation, item.lineNumber)];
    }
    ghost var b := issues;
    if html {
      issues := issues + [Issue(HtmlMismatch, item.lineNumber)];
    }
    IssueListSplit(before, a, b, issues, item.lineNumber, empty, same, html);
  }

  /**
   * A record as extraction leaves it (translation still equal to the original)
   * is reported same exactly when it needs translation, and never as empty
   * or as an HTML mismatch.
   */
  lemma FreshRecordIssues(t: TranslationItem)
    requires Extraction.IsFreshRecord(t)
    ensures ItemIssues(t) == if t.needsTranslation then [Issue(UnchangedTranslation, t.lineNumber)] else []
  {
    if t.needsTranslation {
      Classifier.NeedsTranslationOnlyIf(t.originalValue);
    }
    assert !IsEmptyTranslation(t) by {
      if t.needsTranslation {
        Classifier.NeedsTranslationOnlyIf(t.originalValue);
      }
    }
    assert IsUnchangedTranslation(t) == t.needsTranslation;
    assert !HasHtmlMismatch(t);
  }

  /** Every issue reported belongs to a record on that line that fails the check it names. */
  lemma {:induction false} IssuesBelongToItems(items: seq<TranslationItem>)
    ensures forall i :: i in IssuesOf(items) ==> exists t :: t in items && i in ItemIssues(t)
  {
    if items != [] {
      var prefix, last := items[..|items| - 1], items[|items| - 1];
      IssuesBelongToItems(prefix);
      assert forall t :: t in prefix ==> t in items;
      assert last in items;
    }
  }
}
