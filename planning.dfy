/**
 * The selection and bucketing helpers of main.py: which records "translate
 * all" sends, the three length buckets of the economy strategies, the queue a
 * strategy builds, the per-model groups of that queue, the cheapest available
 * model, the per-model delay and the text optimisation before a request.
 */
module Planning {
  import opened Strings
  import opened Wrappers
  import opened ArabicScript
  import opened Classifier
  import opened TextUtils
  import opened Records

  // ---------------------------------------------------------------- translate_all selection

  /** One entry of the untranslated list: (position in the records, original text, word count). */
  datatype Candidate = Candidate(index: nat, text: String, words: nat)

  predicate IsUntranslated(item: TranslationItem) {
    item.needsTranslation && !HasArabicContent(item.translatedValue)
  }

  function CandidateAt(items: seq<TranslationItem>, i: nat): Candidate
    requires i < |items|
  {
    Candidate(i, items[i].originalValue, CountWords(items[i].originalValue))
  }

  /** The candidates among items[start..], in order. */
  function SelectFrom(items: seq<TranslationItem>, start: nat): seq<Candidate>
    decreases |items| - start
  {
    if start >= |items| then []
    else (if IsUntranslated(items[start]) then [CandidateAt(items, start)] else []) + SelectFrom(items, start + 1)
  }

  function TotalWords(cs: seq<Candidate>): nat {
    if cs == [] then 0 else cs[0].words + TotalWords(cs[1..])
  }

  lemma {:induction false} TotalWordsAppend(a: seq<Candidate>, b: seq<Candidate>)
    ensures TotalWords(a + b) == TotalWords(a) + TotalWords(b)
    decreases |a|
  {
    if a == [] {
      assert a + b == b;
    } else {
      assert (a + b)[0] == a[0];
      assert (a + b)[1..] == a[1..] + b;
      TotalWordsAppend(a[1..], b);
    }
  }

  /** The loop of translate_all that builds the untranslated list and the word total. */
  method SelectUntranslated(items: seq<TranslationItem>) returns (untranslated: seq<Candidate>, totalWords: nat)
    ensures untranslated == SelectFrom(items, 0)
    ensures totalWords == TotalWords(untranslated)
  {
    untranslated, totalWords := [], 0;
    var i := 0;
    while i < |items|
      invariant i <= |items|
      invariant untranslated + SelectFrom(items, i) == SelectFrom(items, 0)
      invariant totalWords == TotalWords(untranslated)
    {
      SelectStep(untranslated, items, i);
      if IsUntranslated(items[i]) {
        var c := CandidateAt(items, i);
        TotalWordsAppend(untranslated, [c]);
        untranslated, totalWords := untranslated + [c], totalWords + c.words;
      }
      i := i + 1;
    }
  }

  lemma SelectStep(acc: seq<Candidate>, items: seq<TranslationItem>, i: nat)
    requires i < |items|
    ensures IsUntranslated(items[i]) ==> (acc + [CandidateAt(items, i)]) + SelectFrom(items, i + 1) == acc + SelectFrom(items, i)
    ensures !IsUntranslated(items[i]) ==> SelectFrom(items, i) == SelectFrom(items, i + 1)
  {
    var rest := SelectFrom(items, i + 1);
    if IsUntranslated(items[i]) {
      var c := CandidateAt(items, i);
      assert SelectFrom(items, i) == [c] + rest;
      assert (acc + [c]) + rest == acc + ([c] + rest);
    } else {
      assert SelectFrom(items, i) == [] + rest;
    }
  }

  /**
   * Exactly the untranslated records are selected, in list order, each with
   * its original text and its word count.
   */
  lemma {:induction false} SelectionIsExact(items: seq<TranslationItem>, start: nat)
    ensures forall k :: 0 <= k < |SelectFrom(items, start)| ==>
      var c := SelectFrom(items, start)[k];
      start <= c.index < |items| && IsUntranslated(items[c.index]) && c == CandidateAt(items, c.index)
    ensures forall a, b :: 0 <= a < b < |SelectFrom(items, start)| ==>
      SelectFrom(items, start)[a].index < SelectFrom(items, start)[b].index
    ensures forall i :: start <= i < |items| && IsUntranslated(items[i]) ==> CandidateAt(items, i) in SelectFrom(items, start)
    decreases |items| - start
  {
    if start < |items| {
      SelectionIsExact(items, start + 1);
      var r := SelectFrom(items, start);
      var rest := SelectFrom(items, start + 1);
      if IsUntranslated(items[start]) {
        assert r == [CandidateAt(items, start)] + rest;
        assert r[0].index == start;
        assert forall k :: 1 <= k < |r| ==> r[k] == rest[k - 1];
      } else {
        assert r == [] + rest;
      }
    }
  }

  // ---------------------------------------------------------------- suggest_economy_strategy buckets

  datatype Bucket = Short | Medium | Long

  /** short: at most 5 words; medium: 6 to 15; long: more than 15. */
  function BucketOf(words: nat): Bucket {
    if words <= 5 then Short else if words <= 15 then Medium else Long
  }

  /** The candidates of one bucket, in their original order (the list comprehensions). */
  function InBucket(cs: seq<Candidate>, b: Bucket): (r: seq<Candidate>)
    ensures |r| <= |cs|
    ensures forall k :: 0 <= k < |r| ==> BucketOf(r[k].words) == b
  {
    if cs == [] then []
    else (if BucketOf(cs[0].words) == b then [cs[0]] else []) + InBucket(cs[1..], b)
  }

  /** Bucketing commutes with concatenation: each bucket keeps the input order. */
  lemma {:induction false} InBucketAppend(a: seq<Candidate>, c: seq<Candidate>, b: Bucket)
    ensures InBucket(a + c, b) == InBucket(a, b) + InBucket(c, b)
    decreases |a|
  {
    if a == [] {
      assert a + c == c;
    } else {
      var h := if BucketOf(a[0].words) == b then [a[0]] else [];
      assert (a + c)[0] == a[0];
      assert (a + c)[1..] == a[1..] + c;
      InBucketAppend(a[1..], c, b);
      assert InBucket(a + c, b) == h + (InBucket(a[1..], b) + InBucket(c, b));
      assert InBucket(a, b) == h + InBucket(a[1..], b);
    }
  }

  /** The three buckets partition the candidates: every candidate lands in exactly its own bucket. */
  lemma BucketsPartition(cs: seq<Candidate>)
    ensures |InBucket(cs, Short)| + |InBucket(cs, Medium)| + |InBucket(cs, Long)| == |cs|
    ensures multiset(InBucket(cs, Short) + InBucket(cs, Medium) + InBucket(cs, Long)) == multiset(cs)
    ensures forall b: Bucket, c :: c in InBucket(cs, b) <==> c in cs && BucketOf(c.words) == b
  {
    BucketsMultiset(cs);
    forall b: Bucket {
      BucketMembers(cs, b);
    }
  }

  lemma BucketsMultiset(cs: seq<Candidate>)
    ensures multiset(InBucket(cs, Short)) + multiset(InBucket(cs, Medium)) + multiset(InBucket(cs, Long)) == multiset(cs)
  {
    var s, m, l := multiset(InBucket(cs, Short)), multiset(InBucket(cs, Medium)), multiset(InBucket(cs, Long));
    BucketCount(cs, Short);
    BucketCount(cs, Medium);
    BucketCount(cs, Long);
    forall c
      ensures (s + m + l)[c] == multiset(cs)[c]
    {
    }
    assert s + m + l == multiset(cs);
  }

  /** A bucket holds each candidate of its length as often as the input does, and no other. */
  lemma {:induction false} BucketCount(cs: seq<Candidate>, b: Bucket)
    ensures forall c :: multiset(InBucket(cs, b))[c] == if BucketOf(c.words) == b then multiset(cs)[c] else 0
    decreases |cs|
  {
    if cs != [] {
      var x, rest := cs[0], cs[1..];
      BucketCount(rest, b);
      assert multiset(cs) == multiset{x} + multiset(rest) by {
        assert cs == [x] + rest;
      }
      if BucketOf(x.words) == b {
        assert InBucket(cs, b) == [x] + InBucket(rest, b);
      } else {
        assert InBucket(cs, b) == [] + InBucket(rest, b);
      }
    }
  }

  lemma {:induction false} BucketMembers(cs: seq<Candidate>, b: Bucket)
    ensures forall c :: c in InBucket(cs, b) <==> c in cs && BucketOf(c.words) == b
    decreases |cs|
  {
    if cs != [] {
      BucketMembers(cs[1..], b);
      assert cs == [cs[0]] + cs[1..];
    }
  }

  // ---------------------------------------------------------------- strategies and the translation queue

  const EconomyModel: String := "gpt-3.5-turbo"
  const FlashModel: String := "gemini-2.5-flash"
  const MixedStrategyName: String := "مختلط اقتصادي"
  const FullEconomyName: String := "اقتصادي كامل"
  const MixedPrefix: String := "مختلط"

  function CurrentStrategyName(model: String): String {
    "الحالي (" + model + ")"
  }

  /** The items of a strategy: the whole list, or the three buckets. */
  datatype StrategyItems = AllItems(items: seq<Candidate>) | ByLength(short: seq<Candidate>, medium: seq<Candidate>, long: seq<Candidate>)

  datatype Strategy = Strategy(name: String, items: StrategyItems)

  /** The three strategies suggest_economy_strategy offers (their costs are not modelled). */
  datatype Strategies = Strategies(current: Strategy, mixed: Strategy, fullEconomy: Strategy)

  function SuggestEconomyStrategy(untranslated: seq<Candidate>, currentModel: String): (s: Strategies)
    ensures s.current.items == AllItems(untranslated) && s.fullEconomy.items == AllItems(untranslated)
    ensures s.mixed.items.ByLength?
    ensures multiset(s.mixed.items.short + s.mixed.items.medium + s.mixed.items.long) == multiset(untranslated)
  {
    BucketsPartition(untranslated);
    Strategies(
      Strategy(CurrentStrategyName(currentModel), AllItems(untranslated)),
      Strategy(MixedStrategyName, ByLength(InBucket(untranslated, Short), InBucket(untranslated, Medium), InBucket(untranslated, Long))),
      Strategy(FullEconomyName, AllItems(untranslated)))
  }

  datatype QueueEntry = QueueEntry(index: nat, text: String, model: String)

  function WithModel(cs: seq<Candidate>, model: String): (q: seq<QueueEntry>)
    ensures |q| == |cs|
    ensures forall k :: 0 <= k < |q| ==> q[k] == QueueEntry(cs[k].index, cs[k].text, model)
  {
    if cs == [] then [] else [QueueEntry(cs[0].index, cs[0].text, model)] + WithModel(cs[1..], model)
  }

  /**
   * The queue start_smart_translation builds, or None when it returns early (no
   * current model) or fails (a mixed strategy without buckets, whose
   * subscripting raises).
   */
  function SmartQueue(items: seq<Candidate>, strategy: Strategy, current: Option<String>): Option<seq<QueueEntry>> {
    if current.None? then None
    else if StartsWith(strategy.name, MixedPrefix) then
      match strategy.items
      case ByLength(short, medium, long) =>
        Some(WithModel(short, EconomyModel) + WithModel(medium, FlashModel) + WithModel(long, current.value))
      case AllItems(_) => None
    else if StartsWith(strategy.name, FullEconomyName) then Some(WithModel(items, EconomyModel))
    else Some(WithModel(items, current.value))
  }

  /** One appending loop of start_smart_translation. */
  method AppendWithModel(queue: seq<QueueEntry>, cs: seq<Candidate>, model: String) returns (q: seq<QueueEntry>)
    ensures q == queue + WithModel(cs, model)
  {
    q := queue;
    var i := 0;
    while i < |cs|
      invariant i <= |cs|
      invariant q + WithModel(cs[i..], model) == queue + WithModel(cs, model)
    {
      WithModelStep(q, cs, i, model);
      q := q + [QueueEntry(cs[i].index, cs[i].text, model)];
      i := i + 1;
    }
    assert cs[i..] == [];
  }

  /** Appending the entry of cs[i] moves it from what is left to what is queued. */
  lemma WithModelStep(q: seq<QueueEntry>, cs: seq<Candidate>, i: nat, model: String)
    requires i < |cs|
    ensures q + WithModel(cs[i..], model) == (q + [QueueEntry(cs[i].index, cs[i].text, model)]) + WithModel(cs[i + 1..], model)
  {
    var left, e := cs[i..], QueueEntry(cs[i].index, cs[i].text, model);
    assert left[0] == cs[i] && left[1..] == cs[i + 1..];
    assert WithModel(left, model) == [e] + WithModel(cs[i + 1..], model);
  }

  lemma {:induction false} WithModelAppend(a: seq<Candidate>, b: seq<Candidate>, model: String)
    ensures WithModel(a + b, model) == WithModel(a, model) + WithModel(b, model)
    decreases |a|
  {
    if a != [] {
      assert (a + b)[1..] == a[1..] + b;
      WithModelAppend(a[1..], b, model);
    }
  }

  /** start_smart_translation up to the start of the worker thread. */
  method StartSmartTranslation(items: seq<Candidate>, strategy: Strategy, current: Option<String>)
    returns (queue: Option<seq<QueueEntry>>)
    ensures queue == SmartQueue(items, strategy, current)
  {
    if current.None? {
      return None;
    }
    if StartsWith(strategy.name, MixedPrefix) {
      if strategy.items.AllItems? {
        return None;
      }
      var q := AppendWithModel([], strategy.items.short, EconomyModel);
      assert q == WithModel(strategy.items.short, EconomyModel);
      q := AppendWithModel(q, strategy.items.medium, FlashModel);
      q := AppendWithModel(q, strategy.items.long, current.value);
      queue := Some(q);
    } else if StartsWith(strategy.name, FullEconomyName) {
      queue := Some(WithModel(items, EconomyModel));
    } else {
      queue := Some(WithModel(items, current.value));
    }
  }

  /** Each suggested strategy's name selects its own branch of start_smart_translation. */
  lemma StrategyNamesDispatch(model: String)
    ensures StartsWith(MixedStrategyName, MixedPrefix)
    ensures !StartsWith(FullEconomyName, MixedPrefix) && StartsWith(FullEconomyName, FullEconomyName)
    ensures !StartsWith(CurrentStrategyName(model), MixedPrefix) && !StartsWith(CurrentStrategyName(model), FullEconomyName)
  {
    assert FullEconomyName[..|MixedPrefix|][1] != MixedPrefix[1];
    var c := CurrentStrategyName(model);
    assert c[1] == 'ل';
    assert |c| >= |MixedPrefix| ==> c[..|MixedPrefix|][0] != MixedPrefix[0];
    assert |c| >= |FullEconomyName| ==> c[..|FullEconomyName|][1] != FullEconomyName[1];
  }

  /** The model the mixed strategy gives a text of that many words. */
  function MixedModel(words: nat, current: String): String {
    match BucketOf(words)
    case Short => EconomyModel
    case Medium => FlashModel
    case Long => current
  }

  /**
   * The mixed strategy queues every untranslated text exactly once: short texts
   * with gpt-3.5-turbo, medium ones with gemini-2.5-flash, long ones with the
   * current model.
   */
  lemma MixedQueueByLength(untranslated: seq<Candidate>, current: String)
    ensures var q := SmartQueue(untranslated, SuggestEconomyStrategy(untranslated, current).mixed, Some(current));
      q.Some? && |q.value| == |untranslated|
      && (forall e :: e in q.value ==> exists c :: c in untranslated && e == QueueEntry(c.index, c.text, MixedModel(c.words, current)))
      && (forall c :: c in untranslated ==> QueueEntry(c.index, c.text, MixedModel(c.words, current)) in q.value)
  {
    MixedQueueShape(untranslated, current);
    BucketsPartition(untranslated);
    MixedEntries(untranslated, current);
    MixedCoverage(untranslated, current);
  }

  /** The queue made of the three buckets, as start_smart_translation appends them. */
  function BucketQueue(untranslated: seq<Candidate>, current: String): seq<QueueEntry> {
    WithModel(InBucket(untranslated, Short), EconomyModel) + WithModel(InBucket(untranslated, Medium), FlashModel)
      + WithModel(InBucket(untranslated, Long), current)
  }

  lemma MixedEntries(untranslated: seq<Candidate>, current: String)
    ensures forall e :: e in BucketQueue(untranslated, current) ==>
      exists c :: c in untranslated && e == QueueEntry(c.index, c.text, MixedModel(c.words, current))
  {
    BucketsPartition(untranslated);
    var s, m, l := InBucket(untranslated, Short), InBucket(untranslated, Medium), InBucket(untranslated, Long);
    BucketQueued(s, Short, EconomyModel, current);
    BucketQueued(m, Medium, FlashModel, current);
    BucketQueued(l, Long, current, current);
    var qs, qm, ql := WithModel(s, EconomyModel), WithModel(m, FlashModel), WithModel(l, current);
    forall e | e in qs + qm + ql
      ensures exists c :: c in untranslated && e == QueueEntry(c.index, c.text, MixedModel(c.words, current))
    {
      if e in qs {
        var c :| c in s && e == QueueEntry(c.index, c.text, MixedModel(c.words, current));
      } else if e in qm {
        var c :| c in m && e == QueueEntry(c.index, c.text, MixedModel(c.words, current));
      } else {
        var c :| c in l && e == QueueEntry(c.index, c.text, MixedModel(c.words, current));
      }
    }
  }

  lemma MixedCoverage(untranslated: seq<Candidate>, current: String)
    ensures forall c :: c in untranslated ==> QueueEntry(c.index, c.text, MixedModel(c.words, current)) in BucketQueue(untranslated, current)
  {
    BucketsPartition(untranslated);
    var s, m, l := InBucket(untranslated, Short), InBucket(untranslated, Medium), InBucket(untranslated, Long);
    BucketQueued(s, Short, EconomyModel, current);
    BucketQueued(m, Medium, FlashModel, current);
    BucketQueued(l, Long, current, current);
  }

  /** The mixed strategy's queue: the short bucket, then the medium one, then the long one. */
  lemma MixedQueueShape(untranslated: seq<Candidate>, current: String)
    ensures SmartQueue(untranslated, SuggestEconomyStrategy(untranslated, current).mixed, Some(current))
      == Some(BucketQueue(untranslated, current))
  {
    StrategyNamesDispatch(current);
  }

  /** The entries made from one bucket are its candidates, each with the model of its length. */
  lemma BucketQueued(cs: seq<Candidate>, b: Bucket, model: String, current: String)
    requires forall c :: c in cs ==> BucketOf(c.words) == b && MixedModel(c.words, current) == model
    ensures forall e :: e in WithModel(cs, model) ==>
      exists c :: c in cs && e == QueueEntry(c.index, c.text, MixedModel(c.words, current))
    ensures forall c :: c in cs ==> QueueEntry(c.index, c.text, MixedModel(c.words, current)) in WithModel(cs, model)
  {
    var q := WithModel(cs, model);
    forall e | e in q
      ensures exists c :: c in cs && e == QueueEntry(c.index, c.text, MixedModel(c.words, current))
    {
      var k :| 0 <= k < |q| && q[k] == e;
      assert cs[k] in cs;
    }
    forall c | c in cs
      ensures QueueEntry(c.index, c.text, MixedModel(c.words, current)) in q
    {
      var k :| 0 <= k < |cs| && cs[k] == c;
      assert q[k] == QueueEntry(c.index, c.text, model);
    }
  }

  /** The full-economy strategy sends every text, in order, to gpt-3.5-turbo. */
  lemma FullEconomyQueue(untranslated: seq<Candidate>, current: String)
    ensures var q := SmartQueue(untranslated, SuggestEconomyStrategy(untranslated, current).fullEconomy, Some(current));
      q.Some? && |q.value| == |untranslated|
      && forall k :: 0 <= k < |untranslated| ==>
           q.value[k] == QueueEntry(untranslated[k].index, untranslated[k].text, EconomyModel)
  {
    StrategyNamesDispatch(current);
  }

  // ---------------------------------------------------------------- model_groups of SmartTranslationThread.run

  /** The models of the queue in order of first appearance (the dict's insertion order). */
  function ModelsOf(q: seq<QueueEntry>): seq<String> {
    if q == [] then []
    else
      var p := ModelsOf(q[..|q| - 1]);
      if q[|q| - 1].model in p then p else p + [q[|q| - 1].model]
  }

  /** The (index, text) pairs queued for one model, in queue order. */
  function EntriesFor(q: seq<QueueEntry>, model: String): seq<(nat, String)> {
    if q == [] then []
    else
      var e := q[|q| - 1];
      EntriesFor(q[..|q| - 1], model) + (if e.model == model then [(e.index, e.text)] else [])
  }

  function GroupsOf(q: seq<QueueEntry>): map<String, seq<(nat, String)>> {
    map m | m in ModelsOf(q) :: EntriesFor(q, m)
  }

  /** The grouping loop of SmartTranslationThread.run. */
  method ModelGroups(queue: seq<QueueEntry>) returns (models: seq<String>, groups: map<String, seq<(nat, String)>>)
    ensures models == ModelsOf(queue)
    ensures groups == GroupsOf(queue)
  {
    models, groups := [], map[];
    ghost var done: seq<QueueEntry> := [];
    var i := 0;
    while i < |queue|
      invariant i <= |queue| && done == queue[..i]
      invariant models == ModelsOf(done)
      invariant groups == GroupsOf(done)
    {
      models, groups := AddToGroup(models, groups, done, queue[i]);
      assert queue[..i + 1] == done + [queue[i]];
      done := done + [queue[i]];
      i := i + 1;
    }
    assert done == queue;
  }

  /** One round of the grouping loop: a new model gets an empty group, then the entry joins its model's group. */
  method AddToGroup(models: seq<String>, groups: map<String, seq<(nat, String)>>, ghost done: seq<QueueEntry>, e: QueueEntry)
    returns (models': seq<String>, groups': map<String, seq<(nat, String)>>)
    requires models == ModelsOf(done) && groups == GroupsOf(done)
    ensures models' == ModelsOf(done + [e]) && groups' == GroupsOf(done + [e])
  {
    GroupsStep(done, e);
    models', groups' := models, groups;
    if e.model !in groups' {
      models' := models' + [e.model];
      groups' := groups'[e.model := []];
    }
    groups' := groups'[e.model := groups'[e.model] + [(e.index, e.text)]];
  }

  lemma GroupsStep(p: seq<QueueEntry>, e: QueueEntry)
    ensures ModelsOf(p + [e]) == if e.model in ModelsOf(p) then ModelsOf(p) else ModelsOf(p) + [e.model]
    ensures GroupsOf(p + [e]) == GroupsOf(p)[e.model := (if e.model in ModelsOf(p) then EntriesFor(p, e.model) else []) + [(e.index, e.text)]]
  {
    ModelsStep(p, e);
    var q := p + [e];
    var g0, g1 := GroupsOf(p), GroupsOf(q);
    var upd := g0[e.model := (if e.model in ModelsOf(p) then EntriesFor(p, e.model) else []) + [(e.index, e.text)]];
    forall m | m in ModelsOf(q)
      ensures m in upd && g1[m] == upd[m]
    {
      EntriesStep(p, e, m);
      if m != e.model {
        assert m in ModelsOf(p);
      } else if m !in ModelsOf(p) {
        ModelsOfMembers(p);
        assert EntriesFor(p, m) == [];
      }
    }
    forall m | m in upd
      ensures m in ModelsOf(q)
    {
    }
    assert g1.Keys == upd.Keys;
  }

  lemma ModelsStep(p: seq<QueueEntry>, e: QueueEntry)
    ensures ModelsOf(p + [e]) == if e.model in ModelsOf(p) then ModelsOf(p) else ModelsOf(p) + [e.model]
  {
    var q := p + [e];
    assert q[..|q| - 1] == p;
    assert q[|q| - 1] == e;
  }

  lemma EntriesStep(p: seq<QueueEntry>, e: QueueEntry, m: String)
    ensures EntriesFor(p + [e], m) == EntriesFor(p, m) + (if e.model == m then [(e.index, e.text)] else [])
  {
    var q := p + [e];
    assert q[..|q| - 1] == p;
    assert q[|q| - 1] == e;
  }

  /** A model is listed exactly when some entry uses it, and never twice. */
  lemma {:induction false} ModelsOfMembers(q: seq<QueueEntry>)
    ensures forall m :: m in ModelsOf(q) <==> exists k :: 0 <= k < |q| && q[k].model == m
    ensures forall a, b :: 0 <= a < b < |ModelsOf(q)| ==> ModelsOf(q)[a] != ModelsOf(q)[b]
    ensures forall m :: m !in ModelsOf(q) ==> EntriesFor(q, m) == []
    decreases |q|
  {
    if q != [] {
      var p := q[..|q| - 1];
      ModelsOfMembers(p);
      forall m | exists k :: 0 <= k < |q| && q[k].model == m
        ensures m in ModelsOf(q)
      {
        var k :| 0 <= k < |q| && q[k].model == m;
        if k < |q| - 1 { assert p[k].model == m; }
      }
    }
  }

  function SumSizes(q: seq<QueueEntry>, models: seq<String>): nat {
    if models == [] then 0 else |EntriesFor(q, models[0])| + SumSizes(q, models[1..])
  }

  lemma {:induction false} SumSizesAppend(q: seq<QueueEntry>, a: seq<String>, b: seq<String>)
    ensures SumSizes(q, a + b) == SumSizes(q, a) + SumSizes(q, b)
    decreases |a|
  {
    if a == [] {
      assert a + b == b;
    } else {
      assert (a + b)[0] == a[0];
      assert (a + b)[1..] == a[1..] + b;
      SumSizesAppend(q, a[1..], b);
    }
  }

  /** Adding one entry grows the sizes, summed over distinct models, by one if its model is among them. */
  lemma {:induction false} SumSizesStep(p: seq<QueueEntry>, e: QueueEntry, models: seq<String>)
    requires forall a, b :: 0 <= a < b < |models| ==> models[a] != models[b]
    ensures SumSizes(p + [e], models) == SumSizes(p, models) + (if e.model in models then 1 else 0)
    decreases |models|
  {
    assert (p + [e])[..|p + [e]| - 1] == p;
    if models != [] {
      SumSizesStep(p, e, models[1..]);
      assert models[0] == e.model ==> e.model !in models[1..];
    }
  }

  /** The groups hold the whole queue: their sizes add up to the queue length. */
  lemma {:induction false} GroupsCoverQueue(q: seq<QueueEntry>)
    ensures SumSizes(q, ModelsOf(q)) == |q|
    decreases |q|
  {
    if q != [] {
      var p, e := q[..|q| - 1], q[|q| - 1];
      assert q == p + [e];
      GroupsCoverQueue(p);
      ModelsOfMembers(p);
      SumSizesStep(p, e, ModelsOf(p));
      if e.model !in ModelsOf(p) {
        SumSizesAppend(q, ModelsOf(p), [e.model]);
        assert EntriesFor(q, e.model) == [(e.index, e.text)];
      }
    }
  }

  /** Each group keeps the queue order: grouping a concatenation concatenates the groups. */
  lemma {:induction false} EntriesForAppend(a: seq<QueueEntry>, b: seq<QueueEntry>, model: String)
    ensures EntriesFor(a + b, model) == EntriesFor(a, model) + EntriesFor(b, model)
    decreases |b|
  {
    if b == [] {
      assert a + b == a;
    } else {
      var b0, e := b[..|b| - 1], b[|b| - 1];
      var t := if e.model == model then [(e.index, e.text)] else [];
      assert (a + b)[..|a + b| - 1] == a + b0;
      assert (a + b)[|a + b| - 1] == e;
      EntriesForAppend(a, b0, model);
      assert EntriesFor(a + b, model) == (EntriesFor(a, model) + EntriesFor(b0, model)) + t;
      assert EntriesFor(b, model) == EntriesFor(b0, model) + t;
    }
  }

  // ---------------------------------------------------------------- translate_economy_mode

  /** The models, cheapest first. */
  const EconomyModels: seq<String> := ["gpt-3.5-turbo", "gemini-2.5-flash", "gemini-2.5-pro", "gpt-4-turbo", "gpt-4o"]

  /** The model translate_economy_mode picks; None is the "no models available" warning. */
  method PickEconomyModel(available: seq<String>) returns (selected: Option<String>)
    ensures selected.Some? ==>
      selected.value in available
      && exists k :: 0 <= k < |EconomyModels| && EconomyModels[k] == selected.value
                     && forall j :: 0 <= j < k ==> EconomyModels[j] !in available
    ensures selected.None? <==> forall k :: 0 <= k < |EconomyModels| ==> EconomyModels[k] !in available
  {
    var i := 0;
    while i < |EconomyModels|
      invariant i <= |EconomyModels|
      invariant forall j :: 0 <= j < i ==> EconomyModels[j] !in available
    {
      if EconomyModels[i] in available {
        return Some(EconomyModels[i]);
      }
      i := i + 1;
    }
    return None;
  }

  // ---------------------------------------------------------------- get_model_delay

  const ModelDelays: map<String, nat> := map[
    "gpt-3.5-turbo" := 300, "gemini-2.5-flash" := 200, "gemini-2.5-pro" := 500,
    "gpt-4-turbo" := 800, "gpt-4o" := 1000]

  /** The pause in milliseconds between two requests to a model; 500 for a model not in the table. */
  function GetModelDelay(model: String): (ms: nat)
    ensures model !in ModelDelays ==> ms == 500
    ensures 200 <= ms <= 1000
  {
    if model in ModelDelays then ModelDelays[model] else 500
  }

  /** Every economy model has its own entry, and the cheapest is not the fastest. */
  lemma EconomyModelsHaveDelays()
    ensures forall k :: 0 <= k < |EconomyModels| ==> EconomyModels[k] in ModelDelays
    ensures GetModelDelay("gemini-2.5-flash") < GetModelDelay("gpt-3.5-turbo") < GetModelDelay("gpt-4o")
  {
  }

  // ---------------------------------------------------------------- optimize_text_for_translation

  function Min(a: nat, b: nat): nat { if a <= b then a else b }

  /** Symbols ([^\w\s]) make up more than half of the text. */
  predicate SymbolHeavy(t: String) {
    t != [] && 2 * SymbolCount(t) > |t|
  }

  lemma StripKeepsChars(s: String)
    ensures forall c :: c in Strip(s) ==> c in s
  {
    var a, b := StripBounds(s);
    assert forall i :: 0 <= i < b - a ==> Strip(s)[i] == s[a + i];
  }

  /**
   * optimize_text_for_translation: strip, collapse whitespace, cut symbol-heavy texts
   * to 50 characters. The text's non-whitespace characters all survive, in order,
   * unless the text is symbol-heavy, when the result is the first 50 characters of
   * the collapsed text.
   */
  function OptimizeTextForTranslation(text: String): (r: String)
    ensures NoDoubleSpace(r)
    ensures |r| > 0 ==> !IsSpace(r[0])
    ensures forall i :: 0 <= i < |r| ==> r[i] == ' ' || (r[i] in text && !IsSpace(r[i]))
    ensures |r| <= |text|
    ensures var c := CollapseSpaces(Strip(text));
      !SymbolHeavy(c) ==> IsStripped(r) && NonSpace(r) == NonSpace(text)
    ensures var c := CollapseSpaces(Strip(text));
      SymbolHeavy(c) ==>
        |r| == Min(50, |c|) && r == c[..|r|]
        && |NonSpace(r)| <= |NonSpace(text)| && NonSpace(r) == NonSpace(text)[..|NonSpace(r)|]
  {
    var optimized := CollapseSpaces(Strip(text));
    if SymbolHeavy(optimized) then
      CollapsedPrefix(text, Min(50, |optimized|));
      optimized[..Min(50, |optimized|)]
    else
      CollapsedPrefix(text, |optimized|);
      CollapsedWhole(text);
      assert optimized[..|optimized|] == optimized;
      optimized
  }

  /** Every prefix of the stripped, collapsed text: single spaces, characters of the text, its non-spaces in order. */
  lemma CollapsedPrefix(text: String, k: nat)
    requires k <= |CollapseSpaces(Strip(text))|
    ensures var r := CollapseSpaces(Strip(text))[..k];
      NoDoubleSpace(r) && (|r| > 0 ==> !IsSpace(r[0]))
      && (forall i :: 0 <= i < |r| ==> r[i] == ' ' || (r[i] in text && !IsSpace(r[i])))
      && |r| <= |text|
      && |NonSpace(r)| <= |NonSpace(text)| && NonSpace(r) == NonSpace(text)[..|NonSpace(r)|]
  {
    var stripped := Strip(text);
    var c := CollapseSpaces(stripped);
    CollapseShrinks(stripped);
    StripKeepsChars(text);
    StripKeepsNonSpace(text);
    CollapseKeepsNonSpace(stripped);
    NonSpacePrefix(c, k);
  }

  /** The whole stripped, collapsed text is stripped and keeps all of the text's non-spaces. */
  lemma CollapsedWhole(text: String)
    ensures IsStripped(CollapseSpaces(Strip(text)))
    ensures NonSpace(CollapseSpaces(Strip(text))) == NonSpace(text)
  {
    StripKeepsNonSpace(text);
    CollapseKeepsNonSpace(Strip(text));
    CollapseOfStripped(Strip(text));
  }

  /** Collapsing the whitespace of a stripped text leaves it stripped. */
  lemma CollapseOfStripped(s: String)
    requires IsStripped(s)
    ensures IsStripped(CollapseSpaces(s))
  {
    if s != [] {
      CollapseKeepsLast(s);
    }
  }

  /** Optimising a text that is not symbol-heavy a second time changes nothing. */
  lemma OptimizeIsIdempotent(text: String)
    requires !SymbolHeavy(CollapseSpaces(Strip(text)))
    ensures OptimizeTextForTranslation(OptimizeTextForTranslation(text)) == OptimizeTextForTranslation(text)
  {
    var o := OptimizeTextForTranslation(text);
    var stripped := Strip(text);
    assert o == CollapseSpaces(stripped);
    if stripped != [] {
      CollapseKeepsLast(stripped);
    }
    assert IsStripped(o);
    StrippedIsFixed(o);
    CollapseFixed(o);
  }
}
