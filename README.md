# PHP language-file translator: extraction, classification and rewrite engine

This project models the core of a desktop tool that translates PHP language files
(`'key' => 'value'` arrays) into Arabic:

- **Extraction.** The file content is split into lines. Comment and blank lines
  are skipped. Four quoted-pair patterns are scanned on every line, and each match
  is cleaned, validated and turned into a translation record. Contents over
  100000 characters go through a chunked variant with tighter bounds, followed by
  a first-occurrence de-duplication.
- **Classification.** The cascade that decides whether a value needs translation.
  The majority-script test `has_arabic_content`.
- **The record store** of `PHPFileHandler`: loading, bounds-checked in-place
  updates, progress, statistics, duplicates and validation issues.
- **The line rewriter** that writes translations back into the file text.
- **Helpers around the translators:**
  - the translation cache;
  - the two greedy Jaccard groupers;
  - batch-response parsing and padding;
  - the retry control flow of `BaseTranslator.translate`;
  - the `TranslatorManager` registry and `create_translator`.
- **Batching.** The batch loop of `BatchProcessor.process_in_batches`.
- **Planning helpers** of the main window: untranslated selection, the economy
  buckets, the smart-translation queue and its per-model grouping, the economy
  model pick, model delays and text optimisation.

Strings are `seq<char>`. Every regular expression of the source is a hand-written
scanner or character predicate. Every ratio is an integer cross-multiplication:
`has_arabic_content` is `2 * arabic > arabic + ascii`, and a Jaccard threshold
`t = num/den` is `den * |A ∩ B| >= num * |A ∪ B|`.

Modules follow the source:

- `Strings`: Python `str` helpers.
- `ArabicScript`: the script ratio and `determine_translation_status`.
- `Classifier`: `_needs_translation` and `should_skip_translation`.
- `Records`: the translation record.
- `Cache`: `TranslationCache`.
- `TextUtils`: the pure helpers of `utils.py`.
- `Grouping`: the greedy grouper that both groupers instantiate.
- `Translators`.
- `Batches`: `BatchProcessor`.
- `Planning`: the `main.py` helpers.
- `Extraction`, `Rewriter` and `FileHandler`: `PHPFileHandler`.

State the source changes in place is a class:

- `PHPFileHandler`;
- `TranslationCache`;
- `TranslatorManager`;
- `BatchProcessor`.

Each loop of the source that accumulates a result or updates state is a method
with loop invariants: the record loops of `PHPFileHandler`, and the batching,
grouping, retry, reply-parsing, padding, queue and model-group loops. Each method
is proved against a specification function, and the properties are proved about
that function. Loops that only test a fixed list and return at the first hit are
expressions: the skip patterns of `_needs_translation` (file_handler.py:638-640)
are a disjunction, and the error-term `any` of `translate` (translators.py:62)
is a disjunction of `Contains` tests.

## Model

| member | source | states |
|---|---|---|
| ArabicScript.ArabicMajority | attached_assets/utils.py:92-109 | has_arabic_content holds exactly when the Arabic-block letters outnumber the ASCII letters (more than half of all counted letters); empty or letterless text is not Arabic |
| ArabicScript.HasArabicIgnoresStrip | attached_assets/utils.py:92-109 | stripping surrounding whitespace never changes the verdict |
| ArabicScript.BlankIsNotArabic | attached_assets/utils.py:92-109 | a text that is empty after strip is not Arabic |
| ArabicScript.NoArabicBlockNotArabic | attached_assets/utils.py:98-109 | a text with no character of the three Arabic blocks is not Arabic |
| ArabicScript.AllArabicIsArabic | attached_assets/utils.py:98-109 | a non-empty text made only of Arabic letters is Arabic |
| ArabicScript.MajorityConcat | attached_assets/utils.py:98-109 | two Arabic-majority texts concatenate to an Arabic-majority text |
| ArabicScript.StatusCharacterisation | attached_assets/utils.py:146-162 | "not translated" iff the translation is not Arabic-majority; "translated" iff it is Arabic and differs from the original after strip; "needs no translation" iff it equals the original after strip and that is Arabic |
| Classifier.NeedsTranslationExclusions | attached_assets/file_handler.py:609-658 | _needs_translation is false for text shorter than 2 after strip, all-digit text, `^[A-Z_]+$`, `^\$\w+$` and Arabic-majority text |
| Classifier.NeedsTranslationOnlyIf | attached_assets/file_handler.py:609-658 | when _needs_translation holds, the stripped text has an ASCII letter and a Latin word, is at least 2 long and is not Arabic |
| Classifier.PlainTextNeedsTranslation | attached_assets/file_handler.py:609-658 | a stripped text of ASCII letters and single spaces, at least 2 long and containing a lower-case letter, needs translation: no exclusion of the cascade fires |
| Classifier.SkippedNeverNeedsTranslation | attached_assets/utils.py:111-144 | a text should_skip_translation skips is never reported as needing translation |
| Cache.CacheKey | attached_assets/utils.py:79-83 | the normalised key is stripped, has no upper-case ASCII letter and is no longer than the text |
| Cache.CacheKeyIdempotent | attached_assets/utils.py:79-83 | normalising twice is normalising once |
| Cache.Lookup | attached_assets/utils.py:40-43 | a hit exactly when the normalised key is stored, returning that entry; a miss is None |
| Cache.Store | attached_assets/utils.py:45-51 | the normalised key maps to the new translation, every other entry is kept and no other key appears |
| Cache.LookupAfterStore | attached_assets/utils.py:40-51 | get of a text with the same normalised key after set returns the stored translation |
| Cache.LookupOtherAfterStore | attached_assets/utils.py:40-51 | get of a text with another normalised key is unaffected by set |
| Cache.StoreSize | attached_assets/utils.py:45-51 | set grows the dictionary by one exactly when the key is new |
| Cache.TranslationCache.constructor | attached_assets/utils.py:18-20 | the cache starts with the loaded entries and no save |
| Cache.TranslationCache.Set | attached_assets/utils.py:45-51 | set stores under the normalised key, leaves every other lookup unchanged, and saves exactly when the new size is a multiple of 10 |
| TextUtils.CleanTextForTranslation | attached_assets/utils.py:53-77 | the cleaned text has no surrounding whitespace, no '_' and no two consecutive whitespace characters |
| TextUtils.PlaceholdersCleanToEmpty | attached_assets/utils.py:73-75 | "null" and "undefined", in any letter case, clean to "" |
| TextUtils.LettersPassThrough | attached_assets/utils.py:59-71 | a word of ASCII letters not starting with 'e' (which the `ex:` rewrite could touch) passes through the rewriting steps unchanged; the placeholder check that follows them can still map "null" or "undefined" to "" |
| TextUtils.CollapseKeepsNonSpace | attached_assets/utils.py:71 | collapsing whitespace runs keeps every non-whitespace character, in order |
| TextUtils.StripKeepsNonSpace | attached_assets/utils.py:59 | strip removes whitespace only: the non-whitespace characters are kept, in order |
| TextUtils.WordUnchangedByRewrites | attached_assets/utils.py:61-71 | a single word without whitespace, '-' or '_', not starting with 'e', is unchanged by the separator, example-prefix and spacing rewrites |
| TextUtils.CollapseFixed | attached_assets/utils.py:71 | collapsing whitespace runs leaves a text with single spaces between non-space characters unchanged |
| TextUtils.ValidateApiKey | attached_assets/utils.py:196-208 | 'openai' is valid iff the stripped key starts with 'sk-' and is longer than 20; 'google' iff the stripped key is longer than 30; any other provider or empty key is invalid |
| TextUtils.ValidateApiKeyIgnoresPadding | attached_assets/utils.py:196-208 | surrounding whitespace never changes the verdict |
| TextUtils.SanitizeFilename | attached_assets/utils.py:235-239 | the length is kept, no character of `<>:"/\|?*` is left, and every other character is kept in place |
| TextUtils.SanitizeFilenameIdempotent | attached_assets/utils.py:235-239 | sanitising twice is sanitising once |
| TextUtils.CountWordsJoin | attached_assets/utils.py:229-233 | words on either side of a non-word separator add up |
| TextUtils.CountWordsZero | attached_assets/utils.py:229-233 | the count is 0 iff the text has no word character |
| Grouping.GroupIndicesPartition | attached_assets/utils.py:403-443 | the greedy groups partition the indices: every index occurs exactly once, each group is increasing and headed by the lowest unclaimed index, within the cap, and every non-head member is similar to the head |
| Grouping.GroupFromCovers | attached_assets/utils.py:420-441 | the groups built from index i on cover exactly the unclaimed indices from i, each once |
| Grouping.GroupFromShape | attached_assets/utils.py:420-441 | every group built from index i on is well formed: increasing, headed by its first member, within the cap, and similar to the head |
| Grouping.ScanFacts | attached_assets/utils.py:427-438 | the inner scan only appends unclaimed indices after the head that are similar to it, stops at the cap, and claims exactly what it appends |
| Grouping.GroupGreedy | attached_assets/utils.py:420-443 | the loop with its processed set builds exactly the reference grouping, and each group holds the texts at its indices |
| Grouping.SmartTextGrouping | attached_assets/utils.py:403-443 | smart_text_grouping returns exactly the greedy grouping GroupIndices with cap 10: a partition of the indices into increasing groups, each non-head text having Jaccard similarity at least the threshold with the head, and no group left short of a later free similar text unless it holds 10 |
| Grouping.ScanMaximal | attached_assets/utils.py:427-438 | the inner scan keeps the texts already in the group and passes over a later unclaimed similar text only once the group is full |
| Grouping.GroupFromMaximal | attached_assets/utils.py:420-441 | a group built from index i on misses a later text that is unclaimed before it and similar to its head only when the group is full |
| Grouping.GroupIndicesMaximal | attached_assets/utils.py:420-441 | the greedy groups are maximal: each head took every later text not taken by an earlier group and similar to it, until the cap was reached |
| Translators.Similarity | attached_assets/translators.py:131-147 | the similarity ratio lies in [0, 1] (shared <= total, total > 0) and is 0 when either word set is empty |
| Translators.SimilaritySymmetric | attached_assets/translators.py:131-147 | the similarity is symmetric |
| Translators.SimilarityOfSameWords | attached_assets/translators.py:131-147 | texts with the same non-empty word set have similarity 1 |
| Translators.NoWordsNotSimilar | attached_assets/translators.py:131-147 | a text with no words is never grouped with another |
| Translators.GroupSimilarTexts | attached_assets/translators.py:98-129 | _group_similar_texts returns exactly the greedy grouping GroupIndices with cap 5: a partition of the input in order, each non-head text having similarity above 0.8 with the head, and no group left short of a later free similar text unless it holds 5 |
| Translators.ParseBatchResponse | attached_assets/translators.py:180-195 | the loop over the lines of the stripped reply returns exactly BatchEntries: the kept lines' entries, in line order |
| Translators.ParseLine | attached_assets/translators.py:186-193 | a blank line or a line that is only a number prefix gives nothing; a kept entry is non-empty and stripped |
| Translators.ParsedLines | attached_assets/translators.py:185-193 | at most one entry per line, each non-empty and stripped |
| Translators.ParseNumberedLine | attached_assets/translators.py:186-193 | the line `N. t` of a stripped, non-empty t parses to t |
| Translators.ParseNumberedLines | attached_assets/translators.py:185-193 | parsing the numbered lines of stripped, non-empty translations gives the translations back, in order |
| Translators.BatchRoundTrip | attached_assets/translators.py:155-195 | a reply in the prompt's numbered format `1. t1`, `2. t2`, ... joined by newlines parses back to exactly t1, t2, ... when each is stripped, non-empty and on one line |
| Translators.NumberPrefixRemoved | attached_assets/translators.py:191 | one leading `N.` prefix and the whitespace after it are removed |
| Translators.RemoveNumberPrefixStripped | attached_assets/translators.py:187-192 | removing the prefix from a stripped line leaves it stripped |
| Translators.PadTranslations | attached_assets/translators.py:170-173 | the result has one entry per text: the parsed translations first, then the original text at each remaining position |
| Translators.TranslateSimilarBatch | attached_assets/translators.py:149-178 | one result per text; a single text or a failed request translates each text on its own; otherwise the parsed entries padded with the originals |
| Translators.FormatTranslationResult | attached_assets/utils.py:177-194 | an empty translation gives back the original; otherwise the stripped, terminology-applied translation with one pair of surrounding double quotes, then one pair of single quotes, removed |
| Translators.FormatRemovesQuotes | attached_assets/utils.py:177-194 | a reply wrapped in double quotes, single quotes, or single inside double quotes comes back as its content |
| Translators.FormatKeepsUnquoted | attached_assets/utils.py:177-194 | a reply not wrapped in a pair of equal quotes comes back stripped and through the terminology, nothing else |
| Translators.UnquoteOnce | attached_assets/utils.py:189-192 | a text starting and ending with the quote loses both ends (a lone quote character becomes "", as `'"'[1:-1]` does); any other text is kept |
| Translators.AttemptsFrom | attached_assets/translators.py:43-74 | the retry loop makes between 1 and 3 requests |
| Translators.TranslateOutcome | attached_assets/translators.py:26-74 | translate makes at most 3 requests; an empty cleaned text returns the input with no request; a non-empty cache hit with the cache on returns the cached text with no request; only a run with the cache on can store |
| Translators.FailuresReturnOriginal | attached_assets/translators.py:58-74 | when every remaining attempt fails, the original text is returned and nothing is cached |
| Translators.AuthErrorStops | attached_assets/translators.py:62-64 | a key error stops after that request and returns the original text |
| Translators.FirstReplyWins | attached_assets/translators.py:44-56 | after retryable failures, the first reply is formatted, stored and returned after exactly that many requests |
| Translators.Retry | attached_assets/translators.py:43-74 | the loop over attempts computes the outcome AttemptsFrom describes |
| Translators.Translate | attached_assets/translators.py:26-74 | translate returns TranslateOutcome's text and stores it in the cache under the cleaned text exactly when a reply was obtained with the cache on, saving when the new size is a multiple of 10; otherwise the entries and the save count are unchanged |
| Translators.CreateTranslator | attached_assets/translators.py:446-455 | 'openai' gives a GPT translator (default 'gpt-3.5-turbo'), 'google' a Gemini one (default 'gemini-2.5-flash'), any other provider an error |
| Translators.TranslatorManager.constructor | attached_assets/translators.py:371-373 | the registry starts empty with no current translator |
| Translators.TranslatorManager.AddTranslator | attached_assets/translators.py:375-377 | the name maps to the new translator, replacing an earlier one; the current translator is unchanged |
| Translators.TranslatorManager.SetCurrentTranslator | attached_assets/translators.py:379-384 | succeeds iff the name is registered; on failure the current translator is unchanged |
| Translators.TranslatorManager.AvailableTranslators | attached_assets/translators.py:386-388 | exactly the registered names, each once |
| Translators.TranslatorManager.Resolve | attached_assets/translators.py:390-397 | the named translator when given and registered, else the current one |
| Translators.TranslatorManager.TranslateText | attached_assets/translators.py:390-397 | an error when no translator resolves, else the resolved translator's result |
| Translators.TranslatorManager.TranslateBatch | attached_assets/translators.py:408-426 | one result per input in order, the original text where a call fails; progress is reported once per success with the running count and the total |
| Batches.SlicesFrom | attached_assets/performance_manager.py:201-202 | the slices are non-empty, at most batch_size long, and all but the last exactly batch_size |
| Batches.SlicesCoverItems | attached_assets/performance_manager.py:201-202 | the slices concatenate back to the items, so each item is visited once and in order |
| Batches.SameLengthResults | attached_assets/performance_manager.py:196-231 | when process_func returns a list as long as each batch, there is exactly one result per item |
| Batches.ProgressCalls | attached_assets/performance_manager.py:213-217 | one progress call per successful batch, with the cumulative processed count and the total |
| Batches.BatchProcessor.constructor | attached_assets/performance_manager.py:192-194 | the batch size is kept and the processed count starts at 0 |
| Batches.BatchProcessor.ProcessInBatches | attached_assets/performance_manager.py:196-231 | results are the batches' contributions in order (a list extended element-wise, a single value appended, a failed batch's own items); the processed count grows by the succeeded batches' sizes and is not reset; progress is as ProgressOf describes |
| Batches.BatchProcessor.RunBatch | attached_assets/performance_manager.py:203-229 | one batch: its contribution is appended and, on success, the count grows by its size and one progress call is made |
| Planning.SelectUntranslated | attached_assets/main.py:1234-1242 | the loop selects exactly SelectFrom and sums their word counts |
| Planning.SelectionIsExact | attached_assets/main.py:1237-1242 | the selection is the records needing translation whose translated value is not Arabic, in list order, each with its word count |
| Planning.BucketsPartition | attached_assets/main.py:1269-1271 | the short, medium and long buckets partition the input: sizes add up, the union is a permutation, and each holds exactly the items of its length range |
| Planning.BucketsMultiset | attached_assets/main.py:1269-1271 | the three buckets' multisets add up to the input's |
| Planning.InBucketAppend | attached_assets/main.py:1269-1271 | bucketing preserves order: it distributes over concatenation |
| Planning.SuggestEconomyStrategy | attached_assets/main.py:1266-1300 | the current and full-economy strategies carry all items; the mixed strategy carries the three buckets, a permutation of the items |
| Planning.StartSmartTranslation | attached_assets/main.py:1315-1336 | the queue is the one SmartQueue describes: per bucket for the mixed strategy, all 'gpt-3.5-turbo' for full economy, otherwise the current model |
| Planning.AppendWithModel | attached_assets/main.py:1320-1329 | the loop appends one entry per item with the given model, in order |
| Planning.MixedQueueShape | attached_assets/main.py:1315-1329 | the mixed queue is the short, medium and long buckets in turn |
| Planning.MixedEntries | attached_assets/main.py:1315-1329 | every mixed-queue entry comes from an item and carries the model of its length: short gpt-3.5-turbo, medium gemini-2.5-flash, long the current model |
| Planning.MixedCoverage | attached_assets/main.py:1315-1329 | every item is queued with the model of its length |
| Planning.MixedQueueByLength | attached_assets/main.py:1315-1329 | the mixed queue has one entry per item |
| Planning.FullEconomyQueue | attached_assets/main.py:1331-1333 | the full-economy queue holds every item in order with 'gpt-3.5-turbo' |
| Planning.StrategyNamesDispatch | attached_assets/main.py:1317-1336 | the three strategy names select the three branches |
| Planning.ModelGroups | attached_assets/main.py:256-260 | the grouping loop builds the models in first-seen order and, per model, its entries in queue order |
| Planning.AddToGroup | attached_assets/main.py:257-260 | one queue entry: its model is added if new and the entry appended to its group |
| Planning.ModelsOfMembers | attached_assets/main.py:256-260 | the grouped models are exactly the queue's models, each once; an absent model has no entries |
| Planning.GroupsCoverQueue | attached_assets/main.py:256-260 | the group sizes add up to the queue length |
| Planning.EntriesForAppend | attached_assets/main.py:256-260 | per-model grouping preserves queue order |
| Planning.PickEconomyModel | attached_assets/main.py:1162-1173 | the first available model of the cheapest-first list, or none exactly when no listed model is available |
| Planning.GetModelDelay | attached_assets/main.py:347-356 | the tabled delay, 500 for an unknown model, always within 200..1000 |
| Planning.EconomyModelsHaveDelays | attached_assets/main.py:347-356 | every economy model has a tabled delay, and flash < gpt-3.5 < gpt-4o |
| Planning.OptimizeTextForTranslation | attached_assets/main.py:335-345 | whitespace runs collapsed to one space and no leading whitespace; a text whose collapsed form is not symbol-heavy comes back stripped with exactly the non-whitespace characters of the input, in order; a symbol-heavy one comes back as the first min(50, length) characters of the stripped, collapsed text, whose non-whitespace characters are a prefix of the input's |
| Planning.OptimizeIsIdempotent | attached_assets/main.py:335-345 | optimising a text that is not symbol-heavy is idempotent |
| Extraction.CleanExtractedText | attached_assets/file_handler.py:593-607 | the cleaned text is no longer than the input |
| Extraction.CleanPlainText | attached_assets/file_handler.py:593-607 | a text without backslashes is only stripped |
| Extraction.ChunkNumbering | attached_assets/file_handler.py:156-162 | a chunk numbered from its start gives the same numbers as the whole file, so large mode agrees with standard mode |
| Extraction.ExtractStandard | attached_assets/file_handler.py:112-154 | the loop produces exactly ItemsOf over the '\n'-separated lines |
| Extraction.LineRecords | attached_assets/file_handler.py:126-152 | one line: the records of the four patterns in turn |
| Extraction.PatternRecords | attached_assets/file_handler.py:133-152 | one pattern: a record per valid match, in match order |
| Extraction.NumberedRecords | attached_assets/file_handler.py:156-199 | the per-line loop produces the records of the numbered lines in order |
| Extraction.ProcessLinesChunk | attached_assets/file_handler.py:156-199 | a chunk yields the records of its lines numbered `start + index + 1` |
| Extraction.ExtractOptimized | attached_assets/file_handler.py:75-110 | chunked extraction equals large-mode extraction of the whole file, de-duplicated |
| Extraction.ExtractTranslations | attached_assets/file_handler.py:60-73 | the chunked path is taken exactly for contents over 100000 characters |
| Extraction.ItemsShape | attached_assets/file_handler.py:112-212 | every record has translated == original, type 'none', a pattern in 0..3, a valid pair (non-empty key <= 100, value <= 500, not symbols only), and comes from a non-blank, non-comment line at its 1-based number |
| Extraction.ItemsInLineOrder | attached_assets/file_handler.py:112-154 | records come out in non-decreasing line order |
| Extraction.LargeModeBounds | attached_assets/file_handler.py:168-187 | large mode never reports a line over 1000 characters and keeps at most 500 of it |
| Extraction.DeduplicateTranslations | attached_assets/file_handler.py:574-591 | the loop with its seen set computes DedupOf |
| Extraction.DedupKeepsFirstOccurrences | attached_assets/file_handler.py:574-591 | the output is the input at increasing positions, each the first with its key, and every input key survives |
| Extraction.DedupIsDuplicateFree | attached_assets/file_handler.py:574-591 | no two outputs share (key.lower(), original_value.lower()) |
| Rewriter.EscapeQuotesInOnePass | attached_assets/file_handler.py:764 | escaping ' then " equals one left-to-right pass escaping both |
| Rewriter.UnescapeEscape | attached_assets/file_handler.py:764 | the escaping is undone by removing one backslash before each quote, so no text is lost |
| Rewriter.EscapedQuotesArePrefixed | attached_assets/file_handler.py:764 | every quote in the escaped text is preceded by a backslash |
| Rewriter.UpdateLineTranslation | attached_assets/file_handler.py:760-791 | the cascade returns the first substitution that changes the line, then a plain replace, else the line; a line not containing the original is returned unchanged |
| Rewriter.NoOccurrenceKeepsLine | attached_assets/file_handler.py:760-791 | a line not containing the original value is unchanged |
| Rewriter.KeyedPairValueReplaced | attached_assets/file_handler.py:769-775 | on a line `'orig' => 'v'` the pair pattern replaces the value by the escaped new value |
| Rewriter.UpdatedLineKeepsNewlines | attached_assets/file_handler.py:760-791 | a translation without '\n' never adds one to the line |
| Rewriter.SortIsPermutation | attached_assets/file_handler.py:734 | the bottom-up order is a permutation of the records |
| Rewriter.SortIsDescending | attached_assets/file_handler.py:734 | the bottom-up order is by non-increasing line number |
| Rewriter.SortIsStable | attached_assets/file_handler.py:734 | the records of each line keep their relative order |
| Rewriter.SortedRewriteAgrees | attached_assets/file_handler.py:729-758 | visiting the records bottom-up rewrites each line as the records of that line do in list order |
| Rewriter.VisitRecord | attached_assets/file_handler.py:739-756 | one record rewrites only its own line, and only when it passes the guard |
| Rewriter.BuildNewContent | attached_assets/file_handler.py:729-758 | the content is the lines rewritten per line and joined with '\n' |
| Rewriter.UntargetedLineUnchanged | attached_assets/file_handler.py:729-758 | a line no record points at is unchanged |
| Rewriter.NoGuardedRecordKeepsContent | attached_assets/file_handler.py:729-758 | when no record passes the guard (e.g. every translation equals its original) the content is returned unchanged |
| Rewriter.LineStructureKept | attached_assets/file_handler.py:729-758 | the number of '\n'-separated lines is preserved when the translations have no '\n' |
| Strings.JoinSplit | attached_assets/file_handler.py:732-758 | splitting on '\n' and joining back gives the text |
| Strings.StripIdempotent | attached_assets/utils.py:79-83 | stripping twice is stripping once |
| FileHandler.PHPFileHandler.constructor | attached_assets/file_handler.py:14-19 | a handler starts without file, content or records, unmodified, with utf-8 |
| FileHandler.PHPFileHandler.LoadFile | attached_assets/file_handler.py:21-58 | a missing file, then a non-.php suffix, then no working encoding are errors that leave the records untouched; on success the first working encoding is kept and the records are extracted afresh |
| FileHandler.FirstDecoding | attached_assets/file_handler.py:35-46 | the first encoding of the list that decodes, or none exactly when none does |
| FileHandler.PHPFileHandler.UpdateTranslation | attached_assets/file_handler.py:660-668 | succeeds iff the index is in range; then only that record's translation, flag and type change and the handler is modified; otherwise nothing changes; the list length is kept |
| FileHandler.Retranslated | attached_assets/file_handler.py:662-666 | the new record keeps every field but translated_value, is_translated and translation_type |
| FileHandler.PHPFileHandler.BuildNewContent | attached_assets/file_handler.py:729-758 | the new content of the handler's records, as Rewriter.BuildNewContent describes |
| FileHandler.UntranslatedItems | attached_assets/file_handler.py:670-673 | exactly the records needing translation whose translation is not Arabic |
| FileHandler.DoneAndPending | attached_assets/file_handler.py:675-684 | the records needing translation are either done or pending, so done <= needing <= total |
| FileHandler.ProgressBounds | attached_assets/file_handler.py:675-684 | progress lies in 0..100 and is 100 iff nothing is pending (in particular when nothing needs translation) |
| FileHandler.StatisticsBounds | attached_assets/file_handler.py:828-853 | translated <= needs_translation <= total, remaining >= 0 is the pending count, auto + manual <= total, progress <= 100 |
| FileHandler.GetStatistics | attached_assets/file_handler.py:828-853 | total is the record count, remaining is needing minus translated, progress as get_translation_progress |
| FileHandler.FindDuplicates | attached_assets/file_handler.py:867-883 | the loop with its seen dictionary reports exactly DuplicatesOf |
| FileHandler.DuplicateCount | attached_assets/file_handler.py:867-883 | the reports plus the distinct texts add up to the record count |
| FileHandler.DuplicatesAreReal | attached_assets/file_handler.py:867-883 | every report pairs the first record with that text and a later one with the same text |
| FileHandler.SeenIsFirst | attached_assets/file_handler.py:872-881 | the seen dictionary holds the first record of each text and no other texts |
| FileHandler.ValidateTranslations | attached_assets/file_handler.py:885-922 | the loop reports exactly IssuesOf |
| FileHandler.CheckItem | attached_assets/file_handler.py:890-920 | one record's issues are appended in the source's order |
| FileHandler.IssueListNamed | attached_assets/file_handler.py:890-920 | a record gets an empty, unchanged or html-mismatch issue exactly when that check fails, at its own line |
| FileHandler.FreshRecordIssues | attached_assets/file_handler.py:885-922 | a freshly extracted record is reported only as unchanged, and only when it needs translation |
| FileHandler.IssuesBelongToItems | attached_assets/file_handler.py:885-922 | every issue comes from one of the records |
| FileHandler.ExtractedHaveOriginals | attached_assets/file_handler.py:201-212 | extracted records have non-empty originals, the invariant the rewrite relies on |

## Left out

- File and disk I/O. `load_file` receives whether the file exists and a `decode`
  function standing for the encoding trials. `save_file`, `create_backup`,
  `export_translations_csv`, `export_project_data`, `import_project_data` and
  the cache's JSON load/save are not modelled. The cache constructor takes the
  loaded dictionary, and a save is counted, not written.
- Network, rate limiting and sleeps. A translator's request is a parameter
  `nat -> Result`, one reply per attempt, and `_apply_rate_limit` and `time.sleep`
  are left out.
- Qt UI, threads and timers. `PerformanceManager`, `LoadingManager`,
  `ResourceMonitor`, the translation threads' signal loops and
  `batch_process_with_threading` are not modelled.
- Cost estimates, `adaptive_delay_calculator`, memory monitoring and the other
  floating-point or OS metrics are not modelled.
- `get_translation_by_status` (file_handler.py:855-865) is a filter of
  `determine_translation_status`. `ArabicScript.StatusCharacterisation` states that
  classifier; the filter itself is not modelled.
- Translators.FormatTranslationResult: `apply_terminology` reads a terminology
  dictionary from a configuration module that is not part of this model, so it
  is a parameter.
- FileHandler.ProgressBounds: `int(translated / needs * 100)` is a float
  computation truncated to int. The model uses the integer `(100 * translated) / needs`,
  which can differ from it by float rounding.
- `ArabicScript` and `Strings`: Python's `\w`, `\d` and `lower()` are exact on
  ASCII and the Arabic blocks. Beyond those ranges they are approximated: other
  non-ASCII characters count as word characters, except whitespace and General
  Punctuation.
- Rewriter.UpdateLineTranslation: `re.sub` interprets backslash escapes in the
  replacement template. The model inserts the escaped value literally.
- Rewriter.UpdateLineTranslation: `pattern_used` is ignored. The source ignores it
  too.
- Rewriter.UpdateLineTranslation: each `re.search` guard in front of an `re.sub`
  decides nothing of its own, because a substitution without a match returns the
  line unchanged. The model folds the guard into "the substitution changed the line".
- Rewriter.KeyedPairValueReplaced: patterns 0–3 (file_handler.py:769-775) put the
  original value in the key position, as the source does. On ordinary lines only
  the `\b…\b` pattern (777) or the plain `replace` (788-789) fires, and both replace
  every occurrence on the line.
- file_handler.py: line 212 opens a raw single-quoted regular-expression literal
  and ends without closing it. A single-quoted literal cannot span lines, so as
  written the module does not parse (an unterminated string literal). Lines
  213–568 are a second copy of the class methods, and line 569 carries the rest
  of the symbol-only test. The model follows the definitions at 593–946. It reads
  the symbol-only test as applying to the value, not the key.
- translators.py never imports `re`, so `_parse_batch_response` and
  `_calculate_similarity` would raise `NameError` as written. The model follows the
  evident intent, the regular expressions those lines name.
- Batches.BatchProcessor.ProcessInBatches: requires `batch_size > 0`. With 0,
  `range(0, n, 0)` raises in the source.
- FileHandler.PHPFileHandler: the class invariant that every record has a non-empty
  original value holds for extracted records (ExtractedHaveOriginals). Records that
  `import_project_data` could bring in are outside the model.
- FileHandler.PHPFileHandler.LoadFile: any exception other than the decoding
  failures (permissions, I/O errors) is not modelled.
- FileHandler.FileName and FileHandler.Suffix: pathlib drops a trailing `/` before
  taking the name or suffix. The model does not.
- Batches.BatchProcessor.RunBatch and Translators.TranslatorManager.TranslateBatch:
  the progress callback is recorded as a list of calls. A callback that raises
  is not modelled.
- `_parse_batch_response`: the `expected_count` argument is unused by the source
  and is not a parameter of the model.
