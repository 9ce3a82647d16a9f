/**
 * The line rewriter of file_handler.py. _build_new_content splits the original
 * content into lines, visits the records by descending line number and, for each
 * record that is marked translated, holds Arabic-majority text and differs from
 * its original, rewrites the record's line with _update_line_translation; the
 * lines are joined back with '\n'.
 */
module Rewriter {
  import opened Strings
  import opened Wrappers
  import opened ArabicScript
  import opened Records
  import Extraction

  // ---------------------------------------------------------------- quote escaping

  /** One quote character escaped with a backslash, everything else kept. */
  function EscapeQuote(s: String, q: char): String
    decreases |s|
  {
    if s == [] then [] else (if s[0] == q then ['\\', q] else [s[0]]) + EscapeQuote(s[1..], q)
  }

  /** new_value.replace("'", "\\'").replace('"', '\\"') */
  function EscapeQuotes(s: String): String {
    Replace(Replace(s, "'", "\\'"), "\"", "\\\"")
  }

  /** Both quote kinds escaped in one left-to-right pass. */
  function EscapeAll(s: String): (r: String)
    ensures r == [] <==> s == []
    ensures r != [] ==> r[0] != '\'' && r[0] != '"'
    decreases |s|
  {
    if s == [] then [] else (if s[0] == '\'' || s[0] == '"' then ['\\', s[0]] else [s[0]]) + EscapeAll(s[1..])
  }

  /** Reading an escaped text back: a backslash in front of a quote is dropped. */
  function Unescape(s: String): String
    decreases |s|
  {
    if s == [] then []
    else if s[0] == '\\' && |s| >= 2 && (s[1] == '\'' || s[1] == '"') then [s[1]] + Unescape(s[2..])
    else [s[0]] + Unescape(s[1..])
  }

  lemma {:induction false} ReplaceOneChar(s: String, q: char)
    ensures Replace(s, [q], ['\\', q]) == EscapeQuote(s, q)
    decreases |s|
  {
    if s != [] {
      ReplaceOneChar(s[1..], q);
      assert s[..1] == [s[0]];
    }
  }

  lemma {:induction false} EscapeQuoteAppend(a: String, b: String, q: char)
    ensures EscapeQuote(a + b, q) == EscapeQuote(a, q) + EscapeQuote(b, q)
    decreases |a|
  {
    if a == [] {
      assert a + b == b;
    } else {
      assert (a + b)[0] == a[0];
      assert (a + b)[1..] == a[1..] + b;
      EscapeQuoteAppend(a[1..], b, q);
    }
  }

  lemma {:induction false} EscapeTwice(s: String)
    ensures EscapeQuote(EscapeQuote(s, '\''), '"') == EscapeAll(s)
    decreases |s|
  {
    if s != [] {
      var h := if s[0] == '\'' then ['\\', '\''] else [s[0]];
      EscapeQuoteAppend(h, EscapeQuote(s[1..], '\''), '"');
      EscapeTwice(s[1..]);
      if s[0] == '\'' {
        assert h[1..] == ['\''];
        assert EscapeQuote(h, '"') == h;
      }
    }
  }

  /** The two chained replaces escape every quote in one pass: the order of the two calls does not matter. */
  lemma EscapeQuotesInOnePass(s: String)
    ensures EscapeQuotes(s) == EscapeAll(s)
  {
    ReplaceOneChar(s, '\'');
    ReplaceOneChar(EscapeQuote(s, '\''), '"');
    EscapeTwice(s);
  }

  /** The escaped translation reads back as the translation: escaping loses nothing. */
  lemma {:induction false} UnescapeEscape(s: String)
    ensures Unescape(EscapeQuotes(s)) == s
    decreases |s|
  {
    EscapeQuotesInOnePass(s);
    UnescapeEscapeAll(s);
  }

  lemma {:induction false} UnescapeEscapeAll(s: String)
    ensures Unescape(EscapeAll(s)) == s
    decreases |s|
  {
    if s != [] {
      var e := EscapeAll(s);
      var rest := EscapeAll(s[1..]);
      UnescapeEscapeAll(s[1..]);
      if s[0] == '\'' || s[0] == '"' {
        assert e == ['\\', s[0]] + rest;
        assert e[2..] == rest;
      } else {
        assert e == [s[0]] + rest;
        assert e[1..] == rest;
      }
    }
  }

  /** Every quote of the escaped text has a backslash in front of it. */
  lemma {:induction false} EscapedQuotesArePrefixed(s: String)
    ensures forall i :: 0 <= i < |EscapeAll(s)| && (EscapeAll(s)[i] == '\'' || EscapeAll(s)[i] == '"') ==>
      i > 0 && EscapeAll(s)[i - 1] == '\\'
    decreases |s|
  {
    if s != [] {
      var h := if s[0] == '\'' || s[0] == '"' then ['\\', s[0]] else [s[0]];
      var rest := EscapeAll(s[1..]);
      EscapedQuotesArePrefixed(s[1..]);
      assert EscapeAll(s) == h + rest;
      forall i | 0 <= i < |h + rest| && ((h + rest)[i] == '\'' || (h + rest)[i] == '"')
        ensures i > 0 && (h + rest)[i - 1] == '\\'
      {
        if i >= |h| {
          assert (h + rest)[i] == rest[i - |h|];
          if i > |h| {
            assert (h + rest)[i - 1] == rest[i - 1 - |h|];
          }
        }
      }
    }
  }

  // ---------------------------------------------------------------- the substitutions of _update_line_translation

  /**
   * Pattern k (0 to 3) of the rewrite tried at p: the key quote, the original
   * text, the key quote, \s*, =>, \s*, the value quote, a run without that quote
   * and the closing quote. The original sits where the KEY is. Gives where the
   * value starts (group 1 ends) and where the match ends.
   */
  function PairAt(line: String, orig: String, k: nat, p: nat): (r: Option<(nat, nat)>)
    requires p <= |line|
    ensures r.Some? ==> p < r.value.0 < r.value.1 <= |line| && ContainsAt(line, orig, p + 1)
  {
    var kq := Extraction.KeyQuote(k);
    var vq := Extraction.ValueQuote(k);
    var ke := p + 1 + |orig|;
    if ke >= |line| || line[p] != kq || line[p + 1..ke] != orig || line[ke] != kq then None
    else
      var arrow := ke + 1 + LeadingSpaces(line[ke + 1..]);
      if arrow + 2 > |line| || line[arrow] != '=' || line[arrow + 1] != '>' then None
      else
        var open := arrow + 2 + LeadingSpaces(line[arrow + 2..]);
        if open >= |line| || line[open] != vq then None
        else
          var vs := open + 1;
          var ve := vs + RunWithout(line[vs..], vq);
          if ve >= |line| then None else Some((vs, ve + 1))
  }

  /** re.sub with pattern k from p on: each match keeps group 1, then the escaped translation and the closing quote. */
  function SubPair(line: String, orig: String, k: nat, safe: String, p: nat): String
    requires p <= |line|
    decreases |line| - p
  {
    if p == |line| then []
    else
      match PairAt(line, orig, k, p)
      case Some(m) => line[p..m.0] + safe + [Extraction.ValueQuote(k)] + SubPair(line, orig, k, safe, m.1)
      case None => [line[p]] + SubPair(line, orig, k, safe, p + 1)
  }

  /** Regex \b at p: a word character on exactly one side. */
  predicate IsBoundary(s: String, p: nat)
    requires p <= |s|
  {
    (p > 0 && IsWordChar(s[p - 1])) != (p < |s| && IsWordChar(s[p]))
  }

  /** \bORIG\b matches at p. */
  predicate WordAt(line: String, orig: String, p: nat)
    requires p <= |line|
  {
    ContainsAt(line, orig, p) && IsBoundary(line, p) && IsBoundary(line, p + |orig|)
  }

  /** re.sub(r'\bORIG\b', safe, line) from p on. */
  function SubWord(line: String, orig: String, safe: String, p: nat): String
    requires orig != [] && p <= |line|
    decreases |line| - p
  {
    if p == |line| then []
    else if WordAt(line, orig, p) then safe + SubWord(line, orig, safe, p + |orig|)
    else [line[p]] + SubWord(line, orig, safe, p + 1)
  }

  const SubstitutionCount: nat := 5

  /** Substitution i of the list: the four pair patterns, then the whole-word pattern. */
  function Substitution(line: String, orig: String, safe: String, i: nat): String
    requires orig != [] && i < SubstitutionCount
  {
    if i < 4 then SubPair(line, orig, i, safe, 0) else SubWord(line, orig, safe, 0)
  }

  /**
   * The cascade from substitution i on: the first substitution that changes the
   * line gives the result; after the last, str.replace when the original occurs
   * in the line, else the line itself. (A substitution without a match returns
   * the line unchanged, so the re.search guard in front of each re.sub decides
   * nothing of its own.)
   */
  function UpdateFrom(line: String, orig: String, safe: String, i: nat): String
    requires orig != [] && i <= SubstitutionCount
    decreases SubstitutionCount - i
  {
    if i == SubstitutionCount then (if Contains(line, orig) then Replace(line, orig, safe) else line)
    else
      var u := Substitution(line, orig, safe, i);
      if u != line then u else UpdateFrom(line, orig, safe, i + 1)
  }

  /** _update_line_translation(line, original_value, new_value, pattern_used) */
  function UpdatedLine(line: String, orig: String, newValue: String): String
    requires orig != []
  {
    UpdateFrom(line, orig, EscapeQuotes(newValue), 0)
  }

  /** _update_line_translation: the loop over the substitution list, with its early return. pattern_used is not read. */
  method UpdateLineTranslation(line: String, orig: String, newValue: String, patternUsed: nat) returns (updated: String)
    requires orig != []
    ensures updated == UpdatedLine(line, orig, newValue)
    ensures !Contains(line, orig) ==> updated == line
  {
    NoOccurrenceKeepsLine(line, orig, newValue);
    var safe := EscapeQuotes(newValue);
    var i := 0;
    while i < SubstitutionCount
      invariant i <= SubstitutionCount
      invariant UpdateFrom(line, orig, safe, 0) == UpdateFrom(line, orig, safe, i)
    {
      var u := Substitution(line, orig, safe, i);
      if u != line {
        return u;
      }
      i := i + 1;
    }
    if Contains(line, orig) {
      return Replace(line, orig, safe);
    }
    return line;
  }

  // ---------------------------------------------------------------- what the substitutions leave alone

  lemma {:induction false} SubPairWithoutMatch(line: String, orig: String, k: nat, safe: String, p: nat)
    requires p <= |line|
    requires forall q :: p < q <= |line| ==> !ContainsAt(line, orig, q)
    ensures SubPair(line, orig, k, safe, p) == line[p..]
    decreases |line| - p
  {
    if p < |line| {
      assert PairAt(line, orig, k, p).None?;
      SubPairWithoutMatch(line, orig, k, safe, p + 1);
      assert line[p..] == [line[p]] + line[p + 1..];
    }
  }

  lemma {:induction false} SubWordWithoutMatch(line: String, orig: String, safe: String, p: nat)
    requires orig != [] && p <= |line|
    requires !Contains(line, orig)
    ensures SubWord(line, orig, safe, p) == line[p..]
    decreases |line| - p
  {
    if p < |line| {
      assert !WordAt(line, orig, p);
      SubWordWithoutMatch(line, orig, safe, p + 1);
      assert line[p..] == [line[p]] + line[p + 1..];
    }
  }

  lemma {:induction false} UpdateFromWithoutMatch(line: String, orig: String, safe: String, i: nat)
    requires orig != [] && i <= SubstitutionCount && !Contains(line, orig)
    ensures UpdateFrom(line, orig, safe, i) == line
    decreases SubstitutionCount - i
  {
    if i < SubstitutionCount {
      if i < 4 {
        SubPairWithoutMatch(line, orig, i, safe, 0);
      } else {
        SubWordWithoutMatch(line, orig, safe, 0);
      }
      assert line[0..] == line;
      UpdateFromWithoutMatch(line, orig, safe, i + 1);
    }
  }

  /** A line in which the original text does not occur comes back unchanged. */
  lemma NoOccurrenceKeepsLine(line: String, orig: String, newValue: String)
    requires orig != []
    ensures !Contains(line, orig) ==> UpdatedLine(line, orig, newValue) == line
  {
    if !Contains(line, orig) {
      UpdateFromWithoutMatch(line, orig, EscapeQuotes(newValue), 0);
    }
  }

  /** The pair line the next lemma is about: 'orig' => 'v' followed by rest. */
  function KeyedPairLine(orig: String, v: String, rest: String): String {
    "'" + orig + "' => '" + v + "'" + rest
  }

  /** Where the parts of the pair line sit. */
  lemma KeyedPairLayout(orig: String, v: String, rest: String)
    ensures var line, n := KeyedPairLine(orig, v, rest), |orig|;
      |line| == n + 8 + |v| + |rest|
      && line[..n + 7] == "'" + orig + "' => '"
      && line[0] == '\'' && line[1..n + 1] == orig && line[n + 1] == '\''
      && line[n + 2] == ' ' && line[n + 3] == '=' && line[n + 4] == '>' && line[n + 5] == ' ' && line[n + 6] == '\''
      && line[n + 7..n + 7 + |v|] == v && line[n + 7 + |v|] == '\'' && line[n + 8 + |v|..] == rest
  {
  }

  lemma KeyedPairMatch(orig: String, v: String, rest: String)
    requires '\'' !in v
    ensures PairAt(KeyedPairLine(orig, v, rest), orig, 0, 0) == Some((|orig| + 7, |orig| + 8 + |v|))
  {
    var line := KeyedPairLine(orig, v, rest);
    var n := |orig|;
    var vs := n + 7;
    KeyedPairLayout(orig, v, rest);
    assert LeadingSpaces(line[n + 2..]) == 1 by {
      assert line[n + 2..][0] == ' ' && line[n + 2..][1] == '=';
    }
    assert LeadingSpaces(line[n + 5..]) == 1 by {
      assert line[n + 5..][0] == ' ' && line[n + 5..][1] == '\'';
    }
    assert RunWithout(line[vs..], '\'') == |v| by {
      assert line[vs..][..|v|] == v && line[vs..][|v|] == '\'';
    }
  }

  lemma SubPairAtMatch(line: String, orig: String, k: nat, safe: String, p: nat, g: nat, e: nat)
    requires p <= |line| && PairAt(line, orig, k, p) == Some((g, e))
    ensures p <= g <= e <= |line|
    ensures SubPair(line, orig, k, safe, p) == line[p..g] + safe + [Extraction.ValueQuote(k)] + SubPair(line, orig, k, safe, e)
  {
  }

  /** An occurrence at or after `e` is an occurrence in the tail from `e`. */
  lemma ContainsAtTail(s: String, sub: String, e: nat, q: nat)
    requires e <= q && e <= |s|
    ensures ContainsAt(s, sub, q) == ContainsAt(s[e..], sub, q - e)
  {
    if q + |sub| <= |s| {
      assert s[e..][q - e..q - e + |sub|] == s[q..q + |sub|];
    }
  }

  lemma KeyedPairRest(orig: String, v: String, safe: String, rest: String)
    requires orig != [] && !Contains(rest, orig)
    ensures SubPair(KeyedPairLine(orig, v, rest), orig, 0, safe, |orig| + 8 + |v|) == rest
  {
    var line := KeyedPairLine(orig, v, rest);
    var e := |orig| + 8 + |v|;
    assert line[e..] == rest;
    forall q | e < q <= |line| ensures !ContainsAt(line, orig, q) {
      ContainsAtTail(line, orig, e, q);
      assert !ContainsAt(rest, orig, q - e);
    }
    SubPairWithoutMatch(line, orig, 0, safe, e);
  }

  /**
   * A single-quoted pair whose key is the original text: pattern 0 replaces the
   * pair's value with the escaped translation and leaves the rest of the line.
   */
  lemma KeyedPairValueReplaced(orig: String, v: String, newValue: String, rest: String)
    requires orig != [] && '\'' !in v && v != EscapeQuotes(newValue) && !Contains(rest, orig)
    ensures UpdatedLine(KeyedPairLine(orig, v, rest), orig, newValue) == KeyedPairLine(orig, EscapeQuotes(newValue), rest)
  {
    var safe := EscapeQuotes(newValue);
    var line := KeyedPairLine(orig, v, rest);
    KeyedPairSubstituted(orig, v, safe, rest);
    KeyedPairChanged(orig, v, safe, rest);
    assert Substitution(line, orig, safe, 0) == KeyedPairLine(orig, safe, rest);
  }

  lemma KeyedPairSubstituted(orig: String, v: String, safe: String, rest: String)
    requires orig != [] && '\'' !in v && !Contains(rest, orig)
    ensures SubPair(KeyedPairLine(orig, v, rest), orig, 0, safe, 0) == KeyedPairLine(orig, safe, rest)
  {
    var line := KeyedPairLine(orig, v, rest);
    var vs, e := |orig| + 7, |orig| + 8 + |v|;
    KeyedPairMatch(orig, v, rest);
    KeyedPairRest(orig, v, safe, rest);
    KeyedPairHead(orig, v, rest);
    KeyedPairSpliced(line, orig, safe, vs, e, rest);
  }

  /** The pair line starts with the quoted key and the opening quote of its value. */
  lemma KeyedPairHead(orig: String, v: String, rest: String)
    ensures KeyedPairLine(orig, v, rest)[..|orig| + 7] == "'" + orig + "' => '"
  {
  }

  lemma KeyedPairSpliced(line: String, orig: String, safe: String, vs: nat, e: nat, rest: String)
    requires PairAt(line, orig, 0, 0) == Some((vs, e))
    requires |orig| + 7 == vs <= |line| && line[..vs] == "'" + orig + "' => '"
    requires SubPair(line, orig, 0, safe, e) == rest
    ensures SubPair(line, orig, 0, safe, 0) == KeyedPairLine(orig, safe, rest)
  {
    SubPairAtMatch(line, orig, 0, safe, 0, vs, e);
    assert line[0..vs] == line[..vs];
  }

  lemma KeyedPairChanged(orig: String, v: String, safe: String, rest: String)
    requires v != safe
    ensures KeyedPairLine(orig, safe, rest) != KeyedPairLine(orig, v, rest)
  {
    var u, line := KeyedPairLine(orig, safe, rest), KeyedPairLine(orig, v, rest);
    var vs := |orig| + 7;
    if |safe| == |v| {
      assert u[vs..vs + |v|] == safe;
      assert line[vs..vs + |v|] == v;
    } else {
      assert |u| != |line|;
    }
  }


  // ---------------------------------------------------------------- a rewrite never adds a line break

  lemma EscapeQuotesKeepsNewlines(s: String)
    requires '\n' !in s
    ensures '\n' !in EscapeQuotes(s)
  {
    ReplaceKeepsOut(s, "'", "\\'", '\n');
    ReplaceKeepsOut(Replace(s, "'", "\\'"), "\"", "\\\"", '\n');
  }

  lemma NoNewlineInConcat(a: String, b: String, c: String, d: String)
    requires '\n' !in a && '\n' !in b && '\n' !in c && '\n' !in d
    ensures '\n' !in a + b + c + d
  {
  }

  lemma {:induction false} SubPairKeepsNewlines(line: String, orig: String, k: nat, safe: String, p: nat)
    requires p <= |line| && '\n' !in line && '\n' !in safe
    ensures '\n' !in SubPair(line, orig, k, safe, p)
    decreases |line| - p
  {
    if p < |line| {
      var r := PairAt(line, orig, k, p);
      if r.Some? {
        SubPairKeepsNewlines(line, orig, k, safe, r.value.1);
        MatchKeepsNewlines(line, orig, k, safe, p, r.value.0, r.value.1);
      } else {
        SubPairKeepsNewlines(line, orig, k, safe, p + 1);
        SkipKeepsNewlines(line, orig, k, safe, p);
      }
    }
  }

  lemma MatchKeepsNewlines(line: String, orig: String, k: nat, safe: String, p: nat, g: nat, e: nat)
    requires p <= |line| && PairAt(line, orig, k, p) == Some((g, e))
    requires '\n' !in line && '\n' !in safe && '\n' !in SubPair(line, orig, k, safe, e)
    ensures '\n' !in SubPair(line, orig, k, safe, p)
  {
    SubPairAtMatch(line, orig, k, safe, p, g, e);
    var piece := line[p..g];
    assert forall c :: c in piece ==> c in line;
    NoNewlineInConcat(piece, safe, [Extraction.ValueQuote(k)], SubPair(line, orig, k, safe, e));
  }

  lemma SkipKeepsNewlines(line: String, orig: String, k: nat, safe: String, p: nat)
    requires p < |line| && PairAt(line, orig, k, p).None?
    requires '\n' !in line && '\n' !in SubPair(line, orig, k, safe, p + 1)
    ensures '\n' !in SubPair(line, orig, k, safe, p)
  {
    assert SubPair(line, orig, k, safe, p) == [line[p]] + SubPair(line, orig, k, safe, p + 1);
  }

  lemma {:induction false} SubWordKeepsNewlines(line: String, orig: String, safe: String, p: nat)
    requires orig != [] && p <= |line| && '\n' !in line && '\n' !in safe
    ensures '\n' !in SubWord(line, orig, safe, p)
    decreases |line| - p
  {
    if p < |line| {
      if WordAt(line, orig, p) {
        SubWordKeepsNewlines(line, orig, safe, p + |orig|);
      } else {
        SubWordKeepsNewlines(line, orig, safe, p + 1);
      }
    }
  }

  lemma {:induction false} UpdateFromKeepsNewlines(line: String, orig: String, safe: String, i: nat)
    requires orig != [] && i <= SubstitutionCount && '\n' !in line && '\n' !in safe
    ensures '\n' !in UpdateFrom(line, orig, safe, i)
    decreases SubstitutionCount - i
  {
    if i == SubstitutionCount {
      if Contains(line, orig) {
        ReplaceKeepsOut(line, orig, safe, '\n');
      }
    } else {
      if i < 4 {
        SubPairKeepsNewlines(line, orig, i, safe, 0);
      } else {
        SubWordKeepsNewlines(line, orig, safe, 0);
      }
      UpdateFromKeepsNewlines(line, orig, safe, i + 1);
    }
  }

  /** A translation without a line break cannot split the line it is written into. */
  lemma UpdatedLineKeepsNewlines(line: String, orig: String, newValue: String)
    requires orig != [] && '\n' !in line && '\n' !in newValue
    ensures '\n' !in UpdatedLine(line, orig, newValue)
  {
    EscapeQuotesKeepsNewlines(newValue);
    UpdateFromKeepsNewlines(line, orig, EscapeQuotes(newValue), 0);
  }

  // ---------------------------------------------------------------- sorted(translations, key=line_number, reverse=True)

  predicate Descending(s: seq<TranslationItem>) {
    forall a, b :: 0 <= a < b < |s| ==> s[a].lineNumber >= s[b].lineNumber
  }

  /** Inserts x after every record whose line number is not smaller, so records on one line keep their order. */
  function InsertByLine(sorted: seq<TranslationItem>, x: TranslationItem): (r: seq<TranslationItem>)
    ensures |r| == |sorted| + 1
  {
    if sorted == [] then [x]
    else if sorted[0].lineNumber < x.lineNumber then [x] + sorted
    else [sorted[0]] + InsertByLine(sorted[1..], x)
  }

  lemma {:induction false} InsertIsPermutation(sorted: seq<TranslationItem>, x: TranslationItem)
    ensures multiset(InsertByLine(sorted, x)) == multiset(sorted) + multiset{x}
    decreases |sorted|
  {
    if sorted != [] && sorted[0].lineNumber >= x.lineNumber {
      InsertIsPermutation(sorted[1..], x);
      assert sorted == [sorted[0]] + sorted[1..];
    }
  }

  /** Python's sort on line_number with reverse=True, which is stable. */
  function SortByLineDesc(items: seq<TranslationItem>): seq<TranslationItem> {
    if items == [] then [] else InsertByLine(SortByLineDesc(items[..|items| - 1]), items[|items| - 1])
  }

  lemma {:induction false} InsertKeepsDescending(s: seq<TranslationItem>, x: TranslationItem)
    requires Descending(s)
    ensures Descending(InsertByLine(s, x))
    decreases |s|
  {
    if s != [] && s[0].lineNumber >= x.lineNumber {
      InsertKeepsDescending(s[1..], x);
      InsertIsPermutation(s[1..], x);
      var t := InsertByLine(s[1..], x);
      forall b | 0 <= b < |t| ensures s[0].lineNumber >= t[b].lineNumber {
        assert t[b] in multiset(t);
        assert t[b] in multiset(s[1..]) || t[b] == x;
        if t[b] != x {
          var j :| 0 <= j < |s[1..]| && s[1..][j] == t[b];
          assert s[j + 1] == t[b];
        }
      }
    }
  }

  /** The sort is a permutation of its input. */
  lemma {:induction false} SortIsPermutation(items: seq<TranslationItem>)
    ensures multiset(SortByLineDesc(items)) == multiset(items)
    decreases |items|
  {
    if items != [] {
      var prefix := items[..|items| - 1];
      SortIsPermutation(prefix);
      InsertIsPermutation(SortByLineDesc(prefix), items[|items| - 1]);
      SplitLast(items);
    }
  }

  /** The sort orders the records by descending line number. */
  lemma {:induction false} SortIsDescending(items: seq<TranslationItem>)
    ensures Descending(SortByLineDesc(items))
    decreases |items|
  {
    if items != [] {
      SortIsDescending(items[..|items| - 1]);
      InsertKeepsDescending(SortByLineDesc(items[..|items| - 1]), items[|items| - 1]);
    }
  }

  /** The records of line number n, in list order. */
  function OnLine(s: seq<TranslationItem>, n: nat): (r: seq<TranslationItem>)
  {
    if s == [] then [] else (if s[0].lineNumber == n then [s[0]] else []) + OnLine(s[1..], n)
  }

  lemma OnLineOriginals(s: seq<TranslationItem>, n: nat)
    requires HasOriginals(s)
    ensures HasOriginals(OnLine(s, n))
  {
    OnLineMembers(s, n);
  }

  lemma {:induction false} OnLineMembers(s: seq<TranslationItem>, n: nat)
    ensures forall t :: t in OnLine(s, n) ==> t in s && t.lineNumber == n
  {
    if s != [] {
      OnLineMembers(s[1..], n);
    }
  }

  lemma {:induction false} OnLineNone(s: seq<TranslationItem>, n: nat)
    requires forall t :: t in s ==> t.lineNumber != n
    ensures OnLine(s, n) == []
  {
    if s != [] {
      assert s[0] in s;
      assert forall t :: t in s[1..] ==> t in s;
      OnLineNone(s[1..], n);
    }
  }

  lemma {:induction false} OnLineAppend(a: seq<TranslationItem>, b: seq<TranslationItem>, n: nat)
    ensures OnLine(a + b, n) == OnLine(a, n) + OnLine(b, n)
    decreases |a|
  {
    if a == [] {
      assert a + b == b;
    } else {
      var h := if a[0].lineNumber == n then [a[0]] else [];
      var x, y := OnLine(a[1..], n), OnLine(b, n);
      assert (a + b)[0] == a[0];
      assert (a + b)[1..] == a[1..] + b;
      assert OnLine(a + b, n) == h + OnLine(a[1..] + b, n);
      OnLineAppend(a[1..], b, n);
      assert h + (x + y) == (h + x) + y;
    }
  }

  lemma {:induction false} OnLineBelow(s: seq<TranslationItem>, n: nat)
    requires Descending(s) && (s == [] || s[0].lineNumber < n)
    ensures OnLine(s, n) == []
    decreases |s|
  {
    if s != [] {
      OnLineBelow(s[1..], n);
    }
  }

  lemma {:induction false} InsertOnLine(s: seq<TranslationItem>, x: TranslationItem, n: nat)
    requires Descending(s)
    ensures OnLine(InsertByLine(s, x), n) == OnLine(s, n) + (if x.lineNumber == n then [x] else [])
    decreases |s|
  {
    var mine := if x.lineNumber == n then [x] else [];
    if s == [] {
      OnLineSingle(x, n);
    } else if s[0].lineNumber < x.lineNumber {
      var r := [x] + s;
      assert InsertByLine(s, x) == r;
      assert r[0] == x && r[1..] == s;
      assert OnLine(r, n) == mine + OnLine(s, n);
      if x.lineNumber == n {
        OnLineBelow(s, n);
      }
    } else {
      var tail := InsertByLine(s[1..], x);
      InsertOnLine(s[1..], x, n);
      var r := [s[0]] + tail;
      assert InsertByLine(s, x) == r;
      assert r[0] == s[0] && r[1..] == tail;
      var head := if s[0].lineNumber == n then [s[0]] else [];
      assert OnLine(r, n) == head + OnLine(tail, n);
      assert OnLine(s, n) == head + OnLine(s[1..], n);
    }
  }

  /** Inserting into the sorted prefix adds x to its own line's records, at the end. */
  lemma SortedInsertOnLine(prefix: seq<TranslationItem>, x: TranslationItem, n: nat)
    ensures OnLine(InsertByLine(SortByLineDesc(prefix), x), n)
            == OnLine(SortByLineDesc(prefix), n) + (if x.lineNumber == n then [x] else [])
  {
    SortIsDescending(prefix);
    InsertOnLine(SortByLineDesc(prefix), x, n);
  }

  lemma OnLineSingle(x: TranslationItem, n: nat)
    ensures OnLine([x], n) == if x.lineNumber == n then [x] else []
  {
    assert OnLine([x], n) == (if x.lineNumber == n then [x] else []) + OnLine([], n);
  }

  /** The sort is stable: the records of any one line come out in their list order. */
  lemma {:induction false} SortIsStable(items: seq<TranslationItem>, n: nat)
    ensures OnLine(SortByLineDesc(items), n) == OnLine(items, n)
    decreases |items|
  {
    if items != [] {
      var prefix := items[..|items| - 1];
      var x := items[|items| - 1];
      SplitLast(items);
      SortIsStable(prefix, n);
      SortedInsertOnLine(prefix, x, n);
      OnLineAppend(prefix, [x], n);
      OnLineSingle(x, n);
    }
  }

  // ---------------------------------------------------------------- _build_new_content

  /** The guard of _build_new_content: marked translated, Arabic-majority, and not the original text. */
  predicate PassesGuard(t: TranslationItem) {
    t.isTranslated && HasArabicContent(t.translatedValue) && t.translatedValue != t.originalValue
  }

  /** Every record's original text is non-empty, as extraction guarantees. */
  predicate HasOriginals(items: seq<TranslationItem>) {
    forall t :: t in items ==> t.originalValue != []
  }

  /** One visit of the loop: the record's line is rewritten when it passes the guard and its number is in range. */
  function ApplyRecord(lines: seq<String>, t: TranslationItem): (r: seq<String>)
    requires t.originalValue != []
    ensures |r| == |lines|
  {
    if PassesGuard(t) && 1 <= t.lineNumber <= |lines| then
      lines[t.lineNumber - 1 := UpdatedLine(lines[t.lineNumber - 1], t.originalValue, t.translatedValue)]
    else lines
  }

  /** The lines after visiting recs in order. */
  function RewriteLines(lines: seq<String>, recs: seq<TranslationItem>): (r: seq<String>)
    requires HasOriginals(recs)
    ensures |r| == |lines|
  {
    if recs == [] then lines
    else
      assert recs[|recs| - 1] in recs;
      ApplyRecord(RewriteLines(lines, recs[..|recs| - 1]), recs[|recs| - 1])
  }

  /** One line after the records of that line, applied in order. */
  function ApplyToLine(line: String, recs: seq<TranslationItem>): String
    requires HasOriginals(recs)
  {
    if recs == [] then line
    else
      var prev := ApplyToLine(line, recs[..|recs| - 1]);
      var t := recs[|recs| - 1];
      assert t in recs;
      if PassesGuard(t) then UpdatedLine(prev, t.originalValue, t.translatedValue) else prev
  }

  /** Reference reading of _build_new_content: every line rewritten by its own records, in list order. */
  function RewrittenLines(lines: seq<String>, items: seq<TranslationItem>): (r: seq<String>)
    requires HasOriginals(items)
    ensures |r| == |lines|
  {
    seq(|lines|, i requires 0 <= i < |lines| => OnLineOriginals(items, i + 1); ApplyToLine(lines[i], OnLine(items, i + 1)))
  }

  lemma ApplyToLineSnoc(line: String, recs: seq<TranslationItem>, t: TranslationItem)
    requires HasOriginals(recs) && t.originalValue != []
    ensures HasOriginals(recs + [t])
    ensures ApplyToLine(line, recs + [t])
      == if PassesGuard(t) then UpdatedLine(ApplyToLine(line, recs), t.originalValue, t.translatedValue) else ApplyToLine(line, recs)
  {
    assert (recs + [t])[..|recs|] == recs;
  }

  /** Visiting the records one by one touches each line only with its own records, in visiting order. */
  lemma {:induction false} RewriteLinesPerLine(lines: seq<String>, recs: seq<TranslationItem>)
    requires HasOriginals(recs)
    ensures RewriteLines(lines, recs) == RewrittenLines(lines, recs)
    decreases |recs|
  {
    if recs != [] {
      var prefix := recs[..|recs| - 1];
      var t := recs[|recs| - 1];
      SplitLast(recs);
      RewriteLinesPerLine(lines, prefix);
      var before := RewriteLines(lines, prefix);
      assert t in recs;
      assert RewriteLines(lines, recs) == ApplyRecord(before, t);
      assert HasOriginals(prefix);
      forall i | 0 <= i < |lines|
        ensures RewriteLines(lines, recs)[i] == RewrittenLines(lines, recs)[i]
      {
        PerLineStep(lines, prefix, t, before, i);
      }
    }
  }

  lemma PerLineStep(lines: seq<String>, prefix: seq<TranslationItem>, t: TranslationItem, before: seq<String>, i: nat)
    requires HasOriginals(prefix) && t.originalValue != []
    requires |before| == |lines| && i < |lines|
    requires before[i] == RewrittenLines(lines, prefix)[i]
    ensures HasOriginals(prefix + [t])
    ensures ApplyRecord(before, t)[i] == RewrittenLines(lines, prefix + [t])[i]
  {
    OnLineAppend(prefix, [t], i + 1);
    OnLineSingle(t, i + 1);
    var mine := OnLine(prefix, i + 1);
    OnLineOriginals(prefix, i + 1);
    if t.lineNumber == i + 1 {
      assert OnLine(prefix + [t], i + 1) == mine + [t];
      ApplyToLineSnoc(lines[i], mine, t);
    } else {
      assert OnLine(prefix + [t], i + 1) == mine;
      assert ApplyRecord(before, t)[i] == before[i];
    }
  }

  lemma RewriteLinesStep(lines: seq<String>, recs: seq<TranslationItem>, j: nat)
    requires HasOriginals(recs) && j < |recs|
    ensures recs[j].originalValue != [] && HasOriginals(recs[..j]) && HasOriginals(recs[..j + 1])
    ensures RewriteLines(lines, recs[..j + 1]) == ApplyRecord(RewriteLines(lines, recs[..j]), recs[j])
  {
    assert recs[j] in recs;
    assert recs[..j + 1][..j] == recs[..j];
    assert forall t :: t in recs[..j + 1] ==> t in recs;
  }

  /** Visiting the sorted records one by one gives every line its own records, in list order. */
  lemma SortedRewriteAgrees(lines: seq<String>, translations: seq<TranslationItem>)
    requires HasOriginals(translations)
    ensures HasOriginals(SortByLineDesc(translations))
    ensures RewriteLines(lines, SortByLineDesc(translations)) == RewrittenLines(lines, translations)
  {
    var sorted := SortByLineDesc(translations);
    SortedHasOriginals(translations);
    RewriteLinesPerLine(lines, sorted);
    forall i | 0 <= i < |lines| ensures RewrittenLines(lines, sorted)[i] == RewrittenLines(lines, translations)[i] {
      SortedLineAgrees(lines, translations, i);
    }
  }

  lemma SortedHasOriginals(translations: seq<TranslationItem>)
    requires HasOriginals(translations)
    ensures HasOriginals(SortByLineDesc(translations))
  {
    var sorted := SortByLineDesc(translations);
    SortIsPermutation(translations);
    forall t | t in sorted ensures t.originalValue != [] {
      assert t in multiset(sorted);
    }
  }

  lemma SortedLineAgrees(lines: seq<String>, translations: seq<TranslationItem>, i: nat)
    requires HasOriginals(translations) && HasOriginals(SortByLineDesc(translations)) && i < |lines|
    ensures RewrittenLines(lines, SortByLineDesc(translations))[i] == RewrittenLines(lines, translations)[i]
  {
    SortIsStable(translations, i + 1);
  }

  /** One round of the loop of _build_new_content: the guard, the range check and the rewrite of the record's line. */
  method VisitRecord(lines: seq<String>, t: TranslationItem) returns (r: seq<String>)
    requires t.originalValue != []
    ensures r == ApplyRecord(lines, t)
  {
    r := lines;
    if t.isTranslated && HasArabicContent(t.translatedValue) && t.translatedValue != t.originalValue {
      var lineIndex := t.lineNumber - 1;
      if 0 <= lineIndex < |r| {
        var originalLine := r[lineIndex];
        var updatedLine := UpdateLineTranslation(originalLine, t.originalValue, t.translatedValue, t.patternUsed);
        if updatedLine != originalLine {
          r := r[lineIndex := updatedLine];
        } else {
          assert r == r[lineIndex := updatedLine];
        }
        assert r == lines[lineIndex := updatedLine];
      }
    }
  }

  /** _build_new_content */
  method BuildNewContent(originalContent: String, translations: seq<TranslationItem>) returns (content: String)
    requires HasOriginals(translations)
    ensures content == Join(RewrittenLines(Split(originalContent, '\n'), translations), '\n')
  {
    var sorted := SortByLineDesc(translations);
    var lines := Split(originalContent, '\n');
    ghost var original := lines;
    SortedRewriteAgrees(original, translations);
    var j := 0;
    while j < |sorted|
      invariant j <= |sorted|
      invariant lines == RewriteLines(original, sorted[..j])
    {
      RewriteLinesStep(original, sorted, j);
      lines := VisitRecord(lines, sorted[j]);
      j := j + 1;
    }
    assert sorted[..j] == sorted;
    content := Join(lines, '\n');
  }

  // ---------------------------------------------------------------- what the rewrite keeps

  /** Records passing the guard, applied to one line, write no line break into it. */
  predicate SingleLineTranslations(items: seq<TranslationItem>) {
    forall t :: t in items && PassesGuard(t) ==> '\n' !in t.translatedValue
  }

  lemma {:induction false} ApplyToLineUnguarded(line: String, recs: seq<TranslationItem>)
    requires HasOriginals(recs) && forall t :: t in recs ==> !PassesGuard(t)
    ensures ApplyToLine(line, recs) == line
    decreases |recs|
  {
    if recs != [] {
      assert recs[|recs| - 1] in recs;
      assert forall t :: t in recs[..|recs| - 1] ==> t in recs;
      ApplyToLineUnguarded(line, recs[..|recs| - 1]);
    }
  }

  lemma {:induction false} ApplyToLineKeepsNewlines(line: String, recs: seq<TranslationItem>)
    requires HasOriginals(recs) && SingleLineTranslations(recs) && '\n' !in line
    ensures '\n' !in ApplyToLine(line, recs)
    decreases |recs|
  {
    if recs != [] {
      var t := recs[|recs| - 1];
      assert t in recs;
      assert forall u :: u in recs[..|recs| - 1] ==> u in recs;
      ApplyToLineKeepsNewlines(line, recs[..|recs| - 1]);
      if PassesGuard(t) {
        UpdatedLineKeepsNewlines(ApplyToLine(line, recs[..|recs| - 1]), t.originalValue, t.translatedValue);
      }
    }
  }

  /** When no record passes the guard (nothing translated, or every translation equal to its original), the content comes back as it was. */
  lemma NoGuardedRecordKeepsContent(content: String, items: seq<TranslationItem>)
    requires HasOriginals(items) && forall t :: t in items ==> !PassesGuard(t)
    ensures Join(RewrittenLines(Split(content, '\n'), items), '\n') == content
  {
    var lines := Split(content, '\n');
    forall i | 0 <= i < |lines| ensures RewrittenLines(lines, items)[i] == lines[i] {
      OnLineMembers(items, i + 1);
      ApplyToLineUnguarded(lines[i], OnLine(items, i + 1));
    }
    assert RewrittenLines(lines, items) == lines;
    JoinSplit(content, '\n');
  }

  /** A line no record points at comes back as it was. */
  lemma UntargetedLineUnchanged(lines: seq<String>, items: seq<TranslationItem>, i: nat)
    requires HasOriginals(items) && i < |lines|
    requires forall t :: t in items ==> t.lineNumber != i + 1
    ensures RewrittenLines(lines, items)[i] == lines[i]
  {
    OnLineNone(items, i + 1);
  }

  /**
   * The rewritten content has as many lines as the original and line i of it
   * is line i rewritten, so long as no translation written holds a line break.
   */
  lemma LineStructureKept(content: String, items: seq<TranslationItem>)
    requires HasOriginals(items) && SingleLineTranslations(items)
    ensures var lines := Split(content, '\n');
      Split(Join(RewrittenLines(lines, items), '\n'), '\n') == RewrittenLines(lines, items)
      && |Split(Join(RewrittenLines(lines, items), '\n'), '\n')| == |lines|
  {
    var lines := Split(content, '\n');
    var out := RewrittenLines(lines, items);
    forall i | 0 <= i < |out| ensures '\n' !in out[i] {
      var mine := OnLine(items, i + 1);
      OnLineMembers(items, i + 1);
      ApplyToLineKeepsNewlines(lines[i], mine);
    }
    SplitJoin(out, '\n');
  }
}
