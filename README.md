# BeeClear content analyzer — a Dafny model of its analysis core

BeeClear is a WordPress plugin that scores how well a post covers a focus
phrase. It has two reports:

- a **word-relevance report**. Every frequent word of the post gets:
  - a direct-match flag (the word is one of the phrase's terms);
  - a context score (how close the words around its occurrences are to the
    phrase);
  - a relevance score in 0–100.

  The report adds high/medium/low band counts, an average and an overall
  similarity.
- a **chunk report**. Every paragraph longer than 15 characters is scored by
  its cosine similarity to the phrase. The report sorts the paragraphs by
  that score and gives the count, the average, the best and the worst
  percentages.

Both reports run in one of two modes, chosen in the plugin settings:

- **Server mode.** PHP computes each report from term-frequency vectors:
  - tokens are lower-cased letter/digit/hyphen runs, trimmed of hyphens,
    at least three characters long and not stop words;
  - the phrase vector gains weight 0.35 for each bigram of the phrase;
  - each word gets a ±5-token context vector.
- **Browser mode.** The AJAX handler only returns the phrase and the text,
  or the paragraphs. The page's JavaScript computes the same report shapes
  from 1024-slot hashed feature vectors:
  - FNV-1a hashes of word, word-pair and 4-gram features;
  - its own tokenizer, stop set and context search.

The model follows the source module by module:

- `Chars`, `Tokenizer`, `TermVectors`, `Context`, `Topic` and `Entities`:
  the PHP text helpers;
- `Chunks`: paragraph extraction;
- `WordReport`, `ChunkReport` and `Bands`: the two server-mode reports;
- `Settings` and `Handlers`: the settings sanitiser and the two AJAX handlers;
- `JsText`, `JsHash` and `HashVectors`: the page's tokenizer, hash and
  vectoriser;
- `BrowserWords` and `BrowserChunks`: the two browser-mode reports;
- `Numeric` and `Collections`: the shared arithmetic and sequence tools.

Loops in the source are methods with loop invariants. Each method is proved
equal to a specification function, or to a predicate that states what the
report promises. Lemmas about those functions state the properties:

- the counts and weights;
- the ranking cut-offs;
- permutation and sortedness;
- ranges of the scores;
- the error paths of the handlers.

Several design quirks are modelled as the code behaves, and a lemma pins
each one down:

- the PHP context search never finds an integer-like word (a canonical
  decimal integer within PHP's int range, such as `2024`), because PHP
  turns it into an integer array key;
- PHP's empty() treats the phrase `"0"` as missing;
- the browser chunk report prints a minimum of 0 when every paragraph
  scores 100%;
- the inherited `constructor` key in the page's frequency object.

## Model

| member | source | states |
|---|---|---|
| Chars.LowerCode | beeclear-content-analyzer.php:191 | lower-casing a code point leaves it in the Latin block or unchanged, and only moves it by the fixed case offsets |
| Chars.LowerCodeIdempotent | beeclear-content-analyzer.php:191 | lower-casing twice is lower-casing once |
| Tokenizer.Lower | beeclear-content-analyzer.php:191 | mb_strtolower keeps the length and lower-cases each character |
| Tokenizer.TrimHyphens | beeclear-content-analyzer.php:194 | trim($w,'-') neither starts nor ends with a hyphen and adds no character |
| Tokenizer.TrimHyphensSlice | beeclear-content-analyzer.php:194 | trim($w,'-') is a slice of the word with only hyphens cut off on either side |
| Tokenizer.KeptTokensMembers | beeclear-content-analyzer.php:192-194 | a string is a token exactly when it is a hyphen-trimmed piece of at least 3 characters that is not a stop word |
| Tokenizer.TokenShape | beeclear-content-analyzer.php:192-194 | every token passes the length and stop-word filter and neither starts nor ends with a hyphen |
| Tokenizer.TokenAlphabet | beeclear-content-analyzer.php:192 | tokens are made of letters, digits and hyphens only |
| Tokenizer.CountTokens | beeclear-content-analyzer.php:193-194 | the counting loop yields the multiplicity of every token and the number of tokens |
| TermVectors.Normalize | beeclear-content-analyzer.php:195 | the vector has the counted words as keys, each weighted count/total |
| TermVectors.Rescale | beeclear-content-analyzer.php:195 | the rescaling loop computes the normalised vector |
| TermVectors.BuildTfVector | beeclear-content-analyzer.php:190-197 | ca_build_tf_vector computes the term-frequency vector of the text |
| TermVectors.TfVector | beeclear-content-analyzer.php:190-197 | the term-frequency vector of a text (its properties are TermVectors.TfVectorSpec, TermVectors.TfWeightRange and TermVectors.TfVectorSumsToOne) |
| TermVectors.TfVectorSpec | beeclear-content-analyzer.php:190-197 | the vector is empty exactly when the text has no token; its keys are the tokens and each weight is the token's count over the token total |
| TermVectors.TfWeightRange | beeclear-content-analyzer.php:195 | every weight lies in (0, 1] |
| TermVectors.TfVectorSumsToOne | beeclear-content-analyzer.php:195 | a non-empty vector's weights sum to 1 |
| TermVectors.NormalizeNonNegative | beeclear-content-analyzer.php:195 | normalised weights are never negative |
| TermVectors.SumOfShares | beeclear-content-analyzer.php:195 | the shares of all counted tokens add up to their number over the total |
| TermVectors.CosineSimilarity | beeclear-content-analyzer.php:198-204 | the loop over the union of keys computes the cosine (0 when either norm is 0) |
| TermVectors.Cosine | beeclear-content-analyzer.php:198-204 | the cosine over the union of keys, 0 when a norm is 0 (its properties are the TermVectors.Cosine* lemmas) |
| TermVectors.SumProducts | beeclear-content-analyzer.php:199-201 | the loop accumulates the dot product and both squared norms over the key union |
| TermVectors.AccumulateStep | beeclear-content-analyzer.php:201 | one more key adds its product and squares to the running sums |
| TermVectors.CosineOfSums | beeclear-content-analyzer.php:202-203 | the cosine is the rounded ratio of the accumulated sums |
| TermVectors.CosineSymmetric | beeclear-content-analyzer.php:198-204 | cosine(a, b) = cosine(b, a) |
| TermVectors.CosineZeroVector | beeclear-content-analyzer.php:203 | an all-zero vector has cosine 0 with anything, on either side |
| TermVectors.CosineAbsentIsZero | beeclear-content-analyzer.php:201 | a missing key reads as weight 0.0 |
| TermVectors.CosineNonNegative | beeclear-content-analyzer.php:198-204 | vectors without negative weights have a non-negative cosine |
| TermVectors.CosineSelf | beeclear-content-analyzer.php:198-204 | a vector with a non-zero weight has cosine 1 with itself |
| Context.Positions | beeclear-content-analyzer.php:234 | every recorded position indexes the word list |
| Context.FindPositions | beeclear-content-analyzer.php:234 | the position loop records the occurrences of the target |
| Context.PositionsSpec | beeclear-content-analyzer.php:234 | i is recorded exactly when the trimmed word at i equals the target under PHP's array-key comparison |
| Context.KeptAt | beeclear-content-analyzer.php:235-236 | a window slot contributes its trimmed word exactly when it is not the occurrence itself and passes the token filter |
| Context.CountWindow | beeclear-content-analyzer.php:235-237 | the inner loop adds one occurrence's ±5 window to the counts and the total |
| Context.CountSlot | beeclear-content-analyzer.php:235-237 | one window position adds its kept token, if any, to the counts and the total |
| Context.BuildContextVector | beeclear-content-analyzer.php:232-240 | ca_build_context_vector computes the normalised context vector |
| Context.ContextVector | beeclear-content-analyzer.php:232-240 | the normalised counts of the kept tokens around the target (its properties are Context.ContextVectorKeys, Context.ContextTotalBound and Context.ContextVectorNonNegative) |
| Context.IsIntegerKey | beeclear-content-analyzer.php:234 | the strings PHP turns into integer array keys: "0" and canonical decimals up to PHP_INT_MAX (used by Context.IntegerKeyHasNoContext) |
| Context.ContextEmptyWithoutTarget | beeclear-content-analyzer.php:232-240 | with no occurrence of the target the context vector is empty |
| Context.IntegerKeyHasNoContext | beeclear-content-analyzer.php:234 | an integer-like target (a canonical decimal integer within PHP's int range, which PHP turns into an integer array key; "0123" and "-0" are not), never matches a word and gets an empty context |
| Context.ContextTotalBound | beeclear-content-analyzer.php:235-237 | the context holds at most 10 tokens per occurrence |
| Context.ContextVectorKeys | beeclear-content-analyzer.php:232-240 | a word is in the context vector exactly when it is a kept token within 5 places of an occurrence and is not that occurrence |
| Context.ContextVectorNonNegative | beeclear-content-analyzer.php:238 | context weights are never negative |
| Topic.Pair | beeclear-content-analyzer.php:455 | a bigram key contains a space |
| Topic.Bigrams | beeclear-content-analyzer.php:453-459 | every kept bigram contains a space and is at least 5 characters long (the full characterisation is Topic.BigramsSpec) |
| Topic.AdjacentPairs | beeclear-content-analyzer.php:453-457 | pair i joins piece i and piece i+1 with a space, one pair per adjacent pieces |
| Topic.BigramsSpec | beeclear-content-analyzer.php:453-459 | the bigrams are the adjacent pairs of at least 5 characters, in order; each such pair occurs as often as among all adjacent pairs, and a string is a bigram exactly when it is such a pair |
| Topic.BuildTopicVector | beeclear-content-analyzer.php:448-460 | the handler's phrase vector is the TF vector plus the bigram boosts |
| Topic.TopicVector | beeclear-content-analyzer.php:448-459 | the phrase's TF vector boosted by its bigrams (its properties are Topic.TopicVectorSpec and Topic.TopicNonNegative) |
| Topic.AddBigrams | beeclear-content-analyzer.php:453-459 | the bigram loop adds 0.35 per bigram occurrence |
| Topic.BoostKeys | beeclear-content-analyzer.php:457 | boosting adds exactly the bigrams as keys |
| Topic.BoostUnlisted | beeclear-content-analyzer.php:457 | a key that is not a bigram keeps its weight |
| Topic.BoostListed | beeclear-content-analyzer.php:457 | a bigram's weight is its TF weight plus 0.35 times its number of occurrences |
| Topic.TopicVectorSpec | beeclear-content-analyzer.php:448-460 | the topic vector's keys are the phrase tokens and its bigrams, with those weights |
| Topic.ShortPhrase | beeclear-content-analyzer.php:453 | a phrase of fewer than two pieces gets no bigram |
| Topic.TopicNonNegative | beeclear-content-analyzer.php:448-460 | topic weights are never negative |
| Topic.TopicKeysSpec | beeclear-content-analyzer.php:461 | the topic terms are exactly the topic vector's keys |
| Topic.SingleWordKeys | beeclear-content-analyzer.php:567-569 | the topic keys without a space are exactly the phrase tokens |
| Bands.BandsPartition | beeclear-content-analyzer.php:505-507 | the high (≥40), medium (15–40) and low (<15) counts add up to the number of scores |
| Bands.BandsSnoc | beeclear-content-analyzer.php:945-949 | one more score raises exactly its own band's count and adds itself to the sum |
| WordReport.AnalyzeWords | beeclear-content-analyzer.php:447-520 | the server word report summarises, with the overall TF cosine, a ranking of the most frequent tokens by relevance |
| WordReport.Analyze | beeclear-content-analyzer.php:447-520 | the same report for any stop list |
| WordReport.RankWords | beeclear-content-analyzer.php:463-499 | the frequency map, the top-600 cut, the scoring loop and the sort produce a ranking |
| WordReport.ScoreWords | beeclear-content-analyzer.php:481-497 | each selected word gets the entry its direct match and context cosine determine |
| WordReport.RankedFromTop | beeclear-content-analyzer.php:475-499 | scoring and sorting the selected top entries yields a ranking |
| WordReport.RankedDistinct | beeclear-content-analyzer.php:482-497 | no word appears twice in the ranking |
| WordReport.RankedEntries | beeclear-content-analyzer.php:482-497 | every ranked entry carries its word's frequency and its own score |
| WordReport.RankedCutOff | beeclear-content-analyzer.php:475-479 | no word left out of the ranking occurs more often than a word kept |
| WordReport.ReportShape | beeclear-content-analyzer.php:478-519 | at most 600 words are scored and at most 200 returned, sorted by relevance, and the band counts add up to the scored total |
| WordReport.ReportRanges | beeclear-content-analyzer.php:488-508 | every relevance lies in [0, 100], a direct match scores at least 55, and the average lies in [0, 100] |
| WordReport.ScoredEntry | beeclear-content-analyzer.php:483-495 | a scored entry has relevance in [0, 100], and relevance ≥ 55 when it is a direct match |
| WordReport.ScoreRange | beeclear-content-analyzer.php:488-495 | the min(1, 0.55·dm + 0.45·cs) score rounded to a percentage lies in [0, 100], is at least 55 with a direct match, and does not go down when the word becomes a direct match or its context score goes up |
| WordReport.ScoreMonotone | beeclear-content-analyzer.php:488-495 | the relevance percentage is non-decreasing in the direct match and in the context score |
| WordReport.RoundingFacts | beeclear-content-analyzer.php:488 | round() keeps the score's boundary values 0, 0.55, 1, 55 and 100 |
| WordReport.Score | beeclear-content-analyzer.php:488 | round(min(1, 0.55·dm + 0.45·cs), 4) (its properties are WordReport.ScoreRange and WordReport.ScoreMonotone) |
| WordReport.AverageRange | beeclear-content-analyzer.php:508 | the rounded average of scores in [0, 100] lies in [0, 100] |
| Chunks.ExtractChunks | beeclear-content-analyzer.php:225-230 | chunk i is the i-th paragraph that is non-empty and longer than 15 characters, with its length and whitespace word count |
| Chunks.KeepsByLength | beeclear-content-analyzer.php:228 | a paragraph is kept exactly when it is longer than 15 characters |
| Chunks.Keeps | beeclear-content-analyzer.php:228 | a paragraph is kept when PHP's empty() is false and it is longer than 15 characters (see Chunks.KeepsByLength) |
| Chunks.WordCount | beeclear-content-analyzer.php:228 | count(preg_split('/\s+/', $t, -1, PREG_SPLIT_NO_EMPTY)): the number of whitespace-separated runs (see Chunks.WordCountBounds) |
| Chunks.WordCountBounds | beeclear-content-analyzer.php:228 | the word count is at most the length, and at least 1 when there is a non-space character |
| Chunks.ChunkFacts | beeclear-content-analyzer.php:225-230 | every chunk's index is its position, its text is a paragraph longer than 15 characters, and its word count is at most its character count |
| ChunkReport.SubstrCountPositive | beeclear-content-analyzer.php:570 | the substring count is positive exactly when the term occurs |
| ChunkReport.FindTerms | beeclear-content-analyzer.php:566-572 | the highlighting loop lists the single-word topic terms found in the paragraph, with their counts |
| ChunkReport.TermsFoundSpec | beeclear-content-analyzer.php:567-571 | every listed term is a single-word topic key with a positive count, and every such key that occurs is listed |
| ChunkReport.TopicKeysNonEmpty | beeclear-content-analyzer.php:567 | no topic key is empty, so the substring count is defined |
| ChunkReport.EvaluateChunk | beeclear-content-analyzer.php:562-580 | one paragraph's result carries its index, text, word count, TF cosine, percentage and terms found |
| ChunkReport.ScoreChunks | beeclear-content-analyzer.php:560-581 | the chunk loop evaluates every chunk in order |
| ChunkReport.AnalyzeChunks | beeclear-content-analyzer.php:544-597 | the server chunk report sorts the evaluated chunks by similarity and summarises them |
| ChunkReport.Analyze | beeclear-content-analyzer.php:544-597 | the same report for any stop list |
| ChunkReport.ReportPermutes | beeclear-content-analyzer.php:583-592 | the report lists every chunk exactly once, counts them, and keeps the set of indices |
| ChunkReport.EvaluatedIndices | beeclear-content-analyzer.php:574 | the i-th result carries the i-th chunk's index |
| ChunkReport.SimilarityNonNegative | beeclear-content-analyzer.php:563-578 | similarities and percentages are non-negative |
| ChunkReport.EmptyReport | beeclear-content-analyzer.php:584-586 | without chunks the count, the averages and the extremes are all 0 |
| ChunkReport.ExtremesBound | beeclear-content-analyzer.php:585-586 | the max and min percentages are reached by some chunk and bound every chunk |
| ChunkReport.Summary | beeclear-content-analyzer.php:583-597 | the count, average similarity and percentage, max and min of the sorted chunks (its properties are ChunkReport.EmptyReport and ChunkReport.ExtremesBound) |
| Entities.WordEnd | beeclear-content-analyzer.php:206 | the scan stops at the first non-word character |
| Entities.DropDigitRuns | beeclear-content-analyzer.php:206 | preg_replace('/\b\d+\b/','',$text): without the /u flag, \b and \d are the ASCII byte classes (its properties are the Entities.Drop* lemmas) |
| Entities.DropKeepsNonDigits | beeclear-content-analyzer.php:206 | removing \b\d+\b deletes only digits |
| Entities.DropFromNoDigits | beeclear-content-analyzer.php:206 | a text without digits is unchanged |
| Entities.DropYear | beeclear-content-analyzer.php:206 | a free-standing number is removed |
| Entities.DropKeepsWordNumber | beeclear-content-analyzer.php:206 | digits attached to letters are kept |
| Entities.DropKeepsUnderscored | beeclear-content-analyzer.php:206 | digits between underscores are kept, since _ is a word character |
| Entities.ExtractEntities | beeclear-content-analyzer.php:205-213 | the entities are the at most 150 most frequent tokens, by falling count, each with its count and its percentage of all tokens |
| Entities.Extract | beeclear-content-analyzer.php:205-213 | the same list for any stop list |
| Entities.ListedFromTop | beeclear-content-analyzer.php:210-212 | the top entries turned into entities satisfy that listing |
| Entities.FrequencyRange | beeclear-content-analyzer.php:211 | every entity has a positive count and a frequency in [0, 100] |
| Entities.ShareBound | beeclear-content-analyzer.php:211 | a count's rounded share of the total lies in [0, 100] |
| Settings.Sanitize | beeclear-content-analyzer.php:51-58 | the mode is "server" unless the string "browser" or "server" is given exactly; the flag is 0 or 1, and 1 exactly when a value that PHP's empty() does not treat as empty (strings, integers, floats, booleans, null, arrays) is given |
| Settings.SanitizeIdempotent | beeclear-content-analyzer.php:51-58 | sanitising sanitised settings changes nothing |
| Settings.IsEmpty | beeclear-content-analyzer.php:55 | PHP's empty() on strings, integers, floats, booleans, null and arrays (see Settings.FlagExamples) |
| Settings.FlagExamples | beeclear-content-analyzer.php:54-55 | "0", 0.0 and the empty array clear the flag; "1", "no" and an array holding 0 set it; a capitalised or non-string mode falls back to "server" |
| Handlers.HandleWords | beeclear-content-analyzer.php:427-521 | "Missing data" without a post id or with an empty phrase, "Not found" without a post, the text payload in browser mode, otherwise the word report |
| Handlers.HandleChunks | beeclear-content-analyzer.php:525-598 | the same guards, the extracted chunks in browser mode, otherwise the chunk report |
| Handlers.GuardExamples | beeclear-content-analyzer.php:432 | the phrase "0" counts as empty, "00" does not, and post id 0 is missing |
| Handlers.ReadingTime | beeclear-content-analyzer.php:422 | the reading time is at least one minute |
| Handlers.ReadingTimeMonotone | beeclear-content-analyzer.php:422 | more words never give a shorter reading time |
| Handlers.ReadingTimeValues | beeclear-content-analyzer.php:422 | below 300 words it is 1, from 300 on it is words/200 rounded half up |
| JsText.LowerUnits | beeclear-content-analyzer.php:834 | toLowerCase keeps the length and lower-cases each code unit |
| JsText.LowerUnitsLower | beeclear-content-analyzer.php:834 | lower-cased units are already lower case |
| JsText.TokenShape | beeclear-content-analyzer.php:833-837 | every caTok token has at least three units from the letter/digit/hyphen class, in lower case, with no hyphen at either end |
| JsText.JsTok | beeclear-content-analyzer.php:833-837 | caTok: the lower-cased text split at non-word units, each piece trimmed of hyphens and kept when at least 3 units long (its properties are JsText.TokenShape and JsText.TokenMembers) |
| JsText.TokenMembers | beeclear-content-analyzer.php:833-837 | a string is a caTok token exactly when it is a hyphen-trimmed word piece of the lower-cased text with at least three units |
| JsText.LongPiecesShape | beeclear-content-analyzer.php:836 | every kept piece has at least three units and no hyphen at either end |
| JsText.NoWordNoToken | beeclear-content-analyzer.php:833-837 | a text without word units has no token |
| JsText.EscapeRoundTrip | beeclear-content-analyzer.php:825 | unescaping the HTML-escaped text gives the text back |
| JsText.EscapeNoMarkup | beeclear-content-analyzer.php:825 | escaped text contains no <, >, " or ' |
| JsText.EscapePlain | beeclear-content-analyzer.php:825 | text without markup characters is unchanged |
| JsText.Escape | beeclear-content-analyzer.php:825 | E's replacement chain on a string (its properties are JsText.EscapeRoundTrip, JsText.EscapeNoMarkup and JsText.EscapePlain) |
| JsText.EscapeValue | beeclear-content-analyzer.php:825 | E on any JavaScript value: falsy values (0, "", null, undefined, false) render as the empty string, and otherwise unescaping gives back the value's text |
| JsText.ZeroRendersBlank | beeclear-content-analyzer.php:825 | E(0), E(null) and E(undefined) are empty while E("0") is "0" |
| JsHash.Fnv1a | beeclear-content-analyzer.php:838-846 | the reference FNV-1a recurrence is a 32-bit unsigned value |
| JsHash.Hash32 | beeclear-content-analyzer.php:838-846 | caHash32's shift-and-add loop on JavaScript numbers computes FNV-1a |
| JsHash.HashStep | beeclear-content-analyzer.php:842-843 | one loop pass is one FNV-1a step |
| JsHash.XorStep | beeclear-content-analyzer.php:842 | the signed ^ read back with >>> 0 is the unsigned XOR |
| JsHash.ShiftAddStep | beeclear-content-analyzer.php:843 | h + (h<<1)+(h<<4)+(h<<7)+(h<<8)+(h<<24), then >>> 0, is h times 16777619 modulo 2^32 |
| JsHash.KnownValues | beeclear-content-analyzer.php:838-846 | the hash of "" is 0x811c9dc5 and of "a" is 0xe40c292c |
| HashVectors.Dim | beeclear-content-analyzer.php:848 | dim \|\| 1024 is positive |
| HashVectors.Collapse | beeclear-content-analyzer.php:867 | after collapsing, the only whitespace left is a plain space (the full characterisation is HashVectors.CollapseSpec) |
| HashVectors.CollapseSpec | beeclear-content-analyzer.php:867 | replace(/\s+/g,' ') keeps the non-whitespace runs in order, turns every whitespace run into exactly one space (no two spaces in a row), and keeps whitespace at the start and the end exactly where the input has it |
| HashVectors.Slot | beeclear-content-analyzer.php:857 | a feature's slot, hash % dim, lies inside the vector |
| HashVectors.HashVector | beeclear-content-analyzer.php:847-875 | the hashed vector has dim slots |
| HashVectors.Features | beeclear-content-analyzer.php:847-875 | the weighted features of a text: words, adjacent word pairs and 4-grams of the collapsed text (their weights are HashVectors.TokenWeights and HashVectors.GramWeights) |
| HashVectors.Vectorize | beeclear-content-analyzer.php:847-875 | caVectorize's loops fill a fresh array with the hashed vector of the text |
| HashVectors.AddTokenFeatures | beeclear-content-analyzer.php:855-864 | one pass adds the word feature and, except for the last token, the pair feature |
| HashVectors.AddGramFeature | beeclear-content-analyzer.php:868-873 | one pass adds 0.08 for a 4-gram with no whitespace at either end, and nothing otherwise |
| HashVectors.Place | beeclear-content-analyzer.php:858 | a feature adds its weight to its slot and leaves the other slots alone |
| HashVectors.AccumulateSum | beeclear-content-analyzer.php:855-873 | the slot total grows by the total weight of the features added |
| HashVectors.TokenWeights | beeclear-content-analyzer.php:855-864 | word features weigh 1 each and pair features 0.35 each |
| HashVectors.GramWeights | beeclear-content-analyzer.php:868-873 | gram features weigh 0.08 per kept 4-gram |
| HashVectors.VectorMass | beeclear-content-analyzer.php:847-875 | the slots sum to tokens + 0.35·pairs + 0.08·kept 4-grams, and none is negative |
| HashVectors.VectorZero | beeclear-content-analyzer.php:847-875 | the vector is all zero exactly when the text has no token and no kept 4-gram |
| HashVectors.EmptyVector | beeclear-content-analyzer.php:847-875 | the empty text gives the zero vector |
| HashVectors.CaCosine | beeclear-content-analyzer.php:876-886 | caCos's loop computes the cosine over the common length (0 when a norm is 0) |
| HashVectors.CaCos | beeclear-content-analyzer.php:876-886 | the cosine over the common length, 0 when a norm is 0 (its properties are the HashVectors.CaCos* lemmas) |
| HashVectors.CaCosSymmetric | beeclear-content-analyzer.php:876-886 | caCos(a, b) = caCos(b, a) |
| HashVectors.CaCosZero | beeclear-content-analyzer.php:876-886 | a vector that is zero over the common length has cosine 0 |
| HashVectors.CaCosNonNegative | beeclear-content-analyzer.php:876-886 | non-negative vectors have a non-negative cosine |
| HashVectors.CaCosSelf | beeclear-content-analyzer.php:876-886 | a vector with a non-zero slot has cosine 1 with itself |
| BrowserWords.CountWords | beeclear-content-analyzer.php:898-903 | the frequency loop counts every word that is not in the stop set |
| BrowserWords.FrequencySpec | beeclear-content-analyzer.php:898-903 | a word is counted exactly when it occurs and is not a stop word, with its number of occurrences |
| BrowserWords.ConstructorNeverCounted | beeclear-content-analyzer.php:900-901 | the word "constructor" is never counted, because the stop object inherits it |
| BrowserWords.Neighbours | beeclear-content-analyzer.php:923-926 | an occurrence contributes at most 10 neighbours |
| BrowserWords.PushNeighbours | beeclear-content-analyzer.php:923-926 | the inner loop appends the words within 5 places, skipping the occurrence itself |
| BrowserWords.ContextWords | beeclear-content-analyzer.php:920-928 | the context loop builds the specified context, stopping once it exceeds 200 words |
| BrowserWords.ContextSettled | beeclear-content-analyzer.php:927 | once the context exceeds 200 words, later occurrences add nothing |
| BrowserWords.ContextBound | beeclear-content-analyzer.php:927 | the context never exceeds 210 words |
| BrowserWords.ContextGrows | beeclear-content-analyzer.php:920-928 | scanning further only extends the context |
| BrowserWords.ContextNear | beeclear-content-analyzer.php:920-928 | every context word lies within 5 places of an occurrence; without an occurrence the context is empty |
| BrowserWords.ContextComplete | beeclear-content-analyzer.php:920-928 | until the limit is hit, every neighbour of every occurrence is in the context |
| BrowserWords.NeighbourIn | beeclear-content-analyzer.php:923-926 | every word within 5 places, other than the occurrence, is a neighbour |
| BrowserWords.Context | beeclear-content-analyzer.php:920-928 | the context words of a term over the first n words (its properties are the BrowserWords.Context* lemmas) |
| BrowserWords.Join | beeclear-content-analyzer.php:929 | ctx.join(' '): the words separated by single spaces |
| BrowserWords.ScoreWord | beeclear-content-analyzer.php:914-940 | one entry scores its word's direct match and the hashed cosine of its context |
| BrowserWords.ScoreWords | beeclear-content-analyzer.php:912-941 | the scoring loop scores each top entry in order |
| BrowserWords.Tally | beeclear-content-analyzer.php:944-949 | the tally loop computes the band counts and the sum of the relevances |
| BrowserWords.TallyOne | beeclear-content-analyzer.php:946-948 | one score raises exactly its own band's count by one and is added to the sum |
| BrowserWords.AnalyzeWords | beeclear-content-analyzer.php:887-963 | the browser word report summarises, with the hashed overall cosine, a ranking of the most frequent words by relevance |
| BrowserWords.Summarise | beeclear-content-analyzer.php:944-962 | the response carries the phrase, overall percentage, total, bands, average and the first 200 words |
| BrowserWords.RankWords | beeclear-content-analyzer.php:897-942 | counting, the top-600 selection, scoring and sorting produce a ranking |
| BrowserWords.RankFrequencies | beeclear-content-analyzer.php:904-942 | selecting, scoring and sorting the frequency entries produces a ranking |
| BrowserWords.ScoredEntries | beeclear-content-analyzer.php:914-940 | each scored entry keeps its word and count |
| BrowserWords.RankedFromTop | beeclear-content-analyzer.php:904-942 | sorting the scored top entries yields a ranking: distinct words, their counts, their scores, and no left-out word more frequent than a kept one |
| BrowserWords.ReportShape | beeclear-content-analyzer.php:904-961 | at most 600 words are scored and at most 200 returned, sorted by relevance, and the band counts add up to the total |
| BrowserWords.RankedWords | beeclear-content-analyzer.php:898-903 | every ranked word occurs in the text, is not a stop word, and carries its number of occurrences |
| BrowserWords.SimilarityNonNegative | beeclear-content-analyzer.php:876-886 | the hashed cosine of two texts and its percentage are non-negative |
| BrowserWords.PercentRange | beeclear-content-analyzer.php:938-939 | Math.round(x·1000)/10 of x in [0, 1] lies in [0, 100] |
| BrowserWords.ScoreRange | beeclear-content-analyzer.php:933-939 | the relevance lies in [0, 100], is at least 55 with a direct match, and does not go down when the word becomes a direct match or its context score goes up |
| BrowserWords.ScoreMonotone | beeclear-content-analyzer.php:933-939 | the relevance percentage is non-decreasing in the direct match and in the context score |
| BrowserWords.Relevance | beeclear-content-analyzer.php:933 | min(1, 0.55·dm + 0.45·cs) (its properties are BrowserWords.ScoreRange and BrowserWords.ScoreMonotone) |
| BrowserWords.ScoredEntry | beeclear-content-analyzer.php:914-940 | a scored entry has relevance in [0, 100], a non-negative context score, and relevance ≥ 55 when it is a direct match |
| BrowserWords.ReportRanges | beeclear-content-analyzer.php:933-960 | every returned relevance lies in [0, 100], direct matches score at least 55, and the average lies in [0, 100] |
| BrowserWords.AverageRange | beeclear-content-analyzer.php:950 | the rounded average of scores in [0, 100] lies in [0, 100] |
| BrowserChunks.EvaluateChunk | beeclear-content-analyzer.php:970-980 | one paragraph's entry copies its index, text and word count, and holds the hashed cosine, its percentage and no terms |
| BrowserChunks.ScoreChunks | beeclear-content-analyzer.php:968-981 | the loop evaluates every chunk in order |
| BrowserChunks.Stats | beeclear-content-analyzer.php:983-988 | the stats loop computes the sum of similarities, the max percentage from 0 and the min percentage from 100 |
| BrowserChunks.HighestSpec | beeclear-content-analyzer.php:986 | the running maximum bounds every percentage, is at least 0, and is 0 or one of them |
| BrowserChunks.LowestSpec | beeclear-content-analyzer.php:987 | the running minimum bounds every percentage, is at most 100, and is 100 or one of them |
| BrowserChunks.Summarise | beeclear-content-analyzer.php:983-1000 | the response gives the count, the 4-place average, the average percentage, the max and the min (0 when it stayed 100) |
| BrowserChunks.AnalyzeChunks | beeclear-content-analyzer.php:964-1001 | the browser chunk report sorts the evaluated chunks by similarity and summarises them |
| BrowserChunks.EvaluateNonNegative | beeclear-content-analyzer.php:971-978 | a chunk's similarity and percentage are non-negative |
| BrowserChunks.EvaluatedCopies | beeclear-content-analyzer.php:973-979 | each entry copies its chunk's index, text and word count |
| BrowserChunks.EvaluatedNonNegative | beeclear-content-analyzer.php:968-981 | every evaluated entry is non-negative |
| BrowserChunks.ReportPermutes | beeclear-content-analyzer.php:982-995 | the report lists every entry exactly once, counts them, copies only input chunks and keeps the set of indices |
| BrowserChunks.EmptyReport | beeclear-content-analyzer.php:983-999 | without chunks every figure is 0 |
| BrowserChunks.ReportExtremes | beeclear-content-analyzer.php:983-999 | the max percentage is the largest percentage; the min is the smallest unless that is 100, in which case it is printed as 0 |
| BrowserChunks.FullMatchQuirk | beeclear-content-analyzer.php:999 | a single paragraph scoring 100% is reported with max 100 and min 0 |
| BrowserChunks.Summary | beeclear-content-analyzer.php:983-1000 | the count, the 4-place average, the average percentage, the max and the min of the sorted chunks (its properties are BrowserChunks.ReportExtremes and BrowserChunks.EmptyReport) |
| Collections.SortDesc | beeclear-content-analyzer.php:499 | sorting gives a permutation in descending key order |
| Collections.Entries | beeclear-content-analyzer.php:904 | the entries are exactly the map's pairs, each once |
| Collections.SelectTop | beeclear-content-analyzer.php:475-479 | the selection holds min(n, limit) distinct map entries by falling count, and no entry left out has a higher count |
| Collections.PrefixOfRanking | beeclear-content-analyzer.php:479 | a prefix of a count-sorted entry list is a top selection |
| Collections.Distinct | beeclear-content-analyzer.php:461 | the distinct list holds every element once |
| Collections.DistinctOrder | beeclear-content-analyzer.php:461 | the topic vector's keys, each once, in first-insertion order: the distinct elements appear in the order of their first occurrence in the input |
| Collections.CountsSpec | beeclear-content-analyzer.php:194 | the count map has the elements as keys, each with its multiplicity |
| Collections.Trim | beeclear-content-analyzer.php:194 | the result neither starts nor ends with the trimmed character, holds only elements of the input, and is the input itself when neither end is that character |
| Collections.TrimSlice | beeclear-content-analyzer.php:194 | the result is a slice s[a..b] with only the trimmed character before a and after b |
| Collections.TrimUnique | beeclear-content-analyzer.php:194 | any cut s[a..b] that removes only the character and neither starts nor ends with it is the trimmed result, so Trim's end clause and TrimSlice determine it |
| Collections.IndexOf | beeclear-content-analyzer.php:461 | the first position at which an element occurs |
| Numeric.HalfUp | beeclear-content-analyzer.php:488 | rounding half up moves a value by at most one half |
| Numeric.JsRound | beeclear-content-analyzer.php:938 | Math.round moves a value by at most one half |
| Numeric.PhpRoundMonotone | beeclear-content-analyzer.php:488 | PHP round to a fixed number of places is monotone |
| Numeric.PhpRound | beeclear-content-analyzer.php:488 | PHP round(x, places), half away from zero (its properties are Numeric.HalfUp and Numeric.PhpRoundMonotone) |
| Numeric.JsRoundMonotone | beeclear-content-analyzer.php:938 | Math.round is monotone |

## Left out

- The WordPress plumbing is not modelled: hooks, nonces, capability checks, option storage (get_option, update_option, wp_parse_args), JSON transport, admin pages and the page's DOM rendering. The handlers take the post, the saved settings and the phrase as parameters.
- HTML processing is not modelled. wpautop, wp_strip_all_tags, html_entity_decode and sanitize_text_field are outside the model, so paragraphs and plain text are inputs.
- The post-detail handler is modelled only for its reading time. Its headings, paragraph count, sentence count, character counts and categories are left out, because they are WordPress and regular-expression bookkeeping rather than analysis.
- Square roots are a parameter `sqrt`; the lemmas that need it assume only that it returns the non-negative root. PHP and JavaScript doubles are modelled as exact reals, so floating-point rounding error and NaN are not modelled.
- Unicode is modelled only for the Latin blocks. Case mapping covers code points below U+0180, except U+0130 (dotted capital I), which is left unchanged because its full lowercase mapping has two characters. The PHP letter and number classes cover ASCII, the Latin-1 letters and numbers, Latin Extended-A and -B, and IPA (U+00C0 to U+02AF), and the page's class covers ASCII plus the Polish letters. Everything else counts as a non-letter, although PHP's \p{L} accepts it: other scripts, the spacing modifier letters from U+02B0, Latin Extended Additional (U+1E00 to U+1EFF, such as Vietnamese ạ) and Latin Extended-C, -D and -E.
- The order among equal keys after a sort is left open. The plugin header (beeclear-content-analyzer.php:11) declares "Requires PHP: 7.4", and PHP 7.4's usort and arsort are not stable, so on 7.4 ties come out in an unspecified order. PHP 8's usort and arsort and Array.prototype.sort (since ES2019) are stable, so there ties keep the input order, but that input order (the key order of PHP arrays and of Object.keys) is not modelled. The contracts state the multiset and the descending order only, so which of several tied words survive the cut at 600 (or 150 for entities) is not determined by the model.
- TermVectors.CosineSimilarity: the upper bound cosine ≤ 1 (Cauchy–Schwarz) is not proved.
- HashVectors.CaCosine: the upper bound cosine ≤ 1 (Cauchy–Schwarz) is not proved.
- JsText.EscapeValue: the text of a number, String(n), is the parameter `numText`, and NaN (also falsy) is not a value of the model.
- The `mode` field of the responses is not modelled, because it is a constant label.
- Of the page's inherited Object.prototype names, only `constructor` is modelled, because it is the only one a token can spell.
- caVectorize is modelled only for string input; calls with a non-string, a negative or a fractional dimension are left out.
- The page's AJAX calls and rendering (lines 1003–1185, which post requests and draw tables) are left out, because they are UI.
- PHP stores an integer-like string key such as "2024" as an integer, so the `word` of a server word report and the `term` of a found term go out as JSON numbers for such words. The model keeps every word and term a string.
