# Tweet search: a verified model of the query, feedback and fusion logic

This project models the core of a TREC-style tweet search program (`Assignment1/src`). It covers the parts of the program that are its own logic rather than Lucene's:

- **Query file.** The topics file is read line by line (`retrieveQueriesFromTextFile`). `<top>`/`</top>` lines toggle a block. `<num>` and `<title>` lines, with their markers removed, fill the current `QueryXml`.
- **Document building.** A tweets file line `id TAB text` is split into a primary-index document (`parseTweets`) and a hashtag-index document (`parseHashtags`). The hashtag document keeps only the words containing `#`, with every `#` removed.
- **Pseudo-relevance feedback.** `evaluateQueryWithRelevanceFeedback` does Rocchio-style expansion:
  - a term-to-weight table is seeded with the query terms;
  - for each hit `i` of the first `min(20, n)` hits, the term frequencies of hit `i` are added and those of hit `n-1-i` subtracted, each scaled by a coefficient and divided by 20;
  - each term is repeated `(int) max(0, weight)` times in a new query string;
  - the new query is searched, falling back to the original collector when it finds nothing.
- **Fusion and output.** This is the per-query block of `getResults`:
  - the rank is reset;
  - primary and hashtag scores are fused in an id-to-score map;
  - the map is listed, sorted in place by descending score (the reversed `IDandScore` comparator), cut to 1000 entries and written;
  - with hashtag scoring off, the hits are written in order.
- **Output format.** `OutputBuilder` is mutable: a rank counter and trec-format lines `q TAB Q0 TAB id TAB rank TAB score TAB testRun`. The query number is produced by `stripPrefix`.

Lucene's side is made of parameters:
- Hit lists are sequences of `ScoreDoc(doc, score)`.
- `idOf`/`hashtagIdOf` give the stored id of a document.
- `tf` gives a document's term vector; `None` stands for an IOException.
- `search` runs the rebuilt query; `None` stands for a ParseException.
- `secondTopDocs` is what the original collector's second `topDocs()` call returns.

Files, one module each:
- `Wrappers.dfy`: `Option` and `Result`.
- `JavaStrings.dfy`: `String.split` on one character, `replace`, `startsWith`, `Integer.parseInt`, `String.valueOf(int)`.
- `Hits.dfy`: hits and collectors.
- `IDandScore.dfy`: the ranked entry and its comparator.
- `OutputBuilder.dfy`: `stripPrefix`, `buildOutputString` and the `OutputBuilder` class.
- `Tweets.dfy`: `parseTweets`, `parseHashtags`.
- `QueryFile.dfy`: `retrieveQueriesFromTextFile`.
- `Feedback.dfy`: `evaluateQueryWithRelevanceFeedback`.
- `Fusion.dfy`: the per-query part of `getResults`.

Three behaviours of the code that a reader might not expect, modelled as the code has them:
- On fallback, the code returns the result of a *second* `topDocs()` call on the original collector, not the original hits. The model takes that result as the input `secondTopDocs`.
- Ties in the fused ranking are left in HashMap order by a stable sort, not broken by id.
- A ParseException of the rebuilt query leaves `newCollector` null. The following `getTotalHits()` then throws a NullPointerException out of `getResults`. The query is not simply skipped. The model returns `Failure(NullCollector)` (and `Failure(FeedbackFailed(...))` from `ResultsForQuery`).

Scores and weights are `real`. The `IDandScore` constructor is the datatype constructor `IDandScore(id, score)`, which stores both arguments unchanged. Keys of the weight table are opaque strings. In the source, the seeded keys come from `Term.toString()` (`field:text`), while term-vector keys are bare terms, so the two sets generally do not meet. The model states every property for arbitrary keys and therefore covers this case too.

## Model

| member | source | states |
|---|---|---|
| JavaStrings.Split | Assignment1/src/QueryProcessor.java:402 | `split` on one character: a string without the delimiter gives itself; otherwise the pieces up to the last non-empty one, so exactly the trailing empty pieces are dropped, none containing the delimiter |
| JavaStrings.SplitHasSecond | Assignment1/src/QueryProcessor.java:402-403 | `split` has a second element exactly when some piece after the first is non-empty |
| JavaStrings.JoinSplitAll | Assignment1/src/QueryProcessor.java:402 | joining the pieces with the delimiter gives the string back |
| JavaStrings.SplitAllJoin | Assignment1/src/QueryProcessor.java:457 | splitting joined delimiter-free pieces gives the pieces back |
| JavaStrings.ReplaceAll | Assignment1/src/QueryProcessor.java:462 | `String.replace`, scanned left to right without overlaps: replacing by "" never lengthens the string, a same-length replacement keeps its length |
| JavaStrings.ReplaceAllAbsent | Assignment1/src/QueryProcessor.java:515-516 | `replace` leaves a string without the target unchanged |
| JavaStrings.ReplaceAllSkipPrefix | Assignment1/src/QueryProcessor.java:515-516 | a prefix where no occurrence of the target starts is copied unchanged by `replace` |
| JavaStrings.Without | Assignment1/src/QueryProcessor.java:462 | the result has no occurrence of the character and otherwise the same characters, in multiset terms |
| JavaStrings.ReplaceCharIsWithout | Assignment1/src/QueryProcessor.java:462 | `replace("#", "")` removes every `#`, not only the first |
| JavaStrings.ParseInt | Assignment1/src/OutputBuilder.java:53 | `Integer.parseInt` succeeds only on values in the 32-bit range |
| JavaStrings.ParseIntToString | Assignment1/src/OutputBuilder.java:53 | `parseInt(String.valueOf(n)) == n` for every int |
| JavaStrings.DigitsValueLeadingZero | Assignment1/src/OutputBuilder.java:53 | a leading zero does not change the parsed value |
| IDandScores.CompareScores | Assignment1/src/IDandScore.java:14 | `Float.compareTo` is -1, 0 or 1, negative/zero/positive exactly for less/equal/greater |
| IDandScores.CompareTo | Assignment1/src/IDandScore.java:12-15 | negative exactly when this score is higher, zero exactly on equal scores, positive exactly when lower |
| IDandScores.CompareToAntisymmetric | Assignment1/src/IDandScore.java:14 | `compareTo(a,b) == -compareTo(b,a)` |
| IDandScores.CompareToIgnoresId | Assignment1/src/IDandScore.java:14 | changing the ids never changes the comparison |
| IDandScores.CompareToTransitive | Assignment1/src/IDandScore.java:12-15 | "sorts no later than" is transitive |
| IDandScores.SortedByCompareTo | Assignment1/src/QueryProcessor.java:345-350 | non-increasing scores is the same as no pair out of comparator order |
| Output.StripPrefix | Assignment1/src/OutputBuilder.java:51-54 | fails with StringIndexOutOfBounds below 2 characters and with NumberFormat exactly when the rest does not parse |
| Output.StripPrefixReparses | Assignment1/src/OutputBuilder.java:52-53 | the result is `String.valueOf` of the int the rest denotes and parses back to it |
| Output.StripPrefixIdempotent | Assignment1/src/OutputBuilder.java:51-54 | re-prefixing a stripped number and stripping again gives the same number |
| Output.StripPrefixLeadingZero | Assignment1/src/OutputBuilder.java:51-54 | for any two-character prefix, a `0` in front of the digits never changes the stripped result |
| Output.StripPrefixDropsLeadingZeros | Assignment1/src/OutputBuilder.java:51-54 | `"MB001"` becomes `"1"` |
| Output.BuildOutputString | Assignment1/src/OutputBuilder.java:46-49 | succeeds exactly when `stripPrefix` does, with its error otherwise; the line is the six tab-separated fields |
| Output.LineTextConcat | Assignment1/src/OutputBuilder.java:47-48 | the line (six fields joined by tabs) is `q + "\tQ0\t" + id + "\t" + rank + "\t" + score + "\ttestRun\n"` |
| Output.LineTextFields | Assignment1/src/OutputBuilder.java:47-48 | a result line split on tabs is `[q, "Q0", id, rank, score, "testRun\n"]` |
| Output.OutputBuilder.constructor | Assignment1/src/OutputBuilder.java:13-22 | rank is 1 and nothing is written |
| Output.OutputBuilder.ResetRank | Assignment1/src/OutputBuilder.java:34-36 | rank becomes 1, the written lines unchanged |
| Output.OutputBuilder.Add | Assignment1/src/OutputBuilder.java:24-32 | a stripPrefix exception escapes with rank and output unchanged; otherwise the rank grows by exactly 1 even when the write fails, and a successful write appends the line carrying the old rank |
| Tweets.MalformedLine | Assignment1/src/QueryProcessor.java:402-404 | a line is rejected exactly when it has no tab or only tabs after its first tab |
| Tweets.IdAndMessageShape | Assignment1/src/QueryProcessor.java:402-404 | the id is the tab-free text before the first tab, the message the tab-free text after it up to the end or a second tab |
| Tweets.IdAndMessage | Assignment1/src/QueryProcessor.java:402-404 | `None` is the ArrayIndexOutOfBoundsException of a line without a second element; otherwise the line has a tab and id and message hold none |
| Tweets.ParseTweets | Assignment1/src/QueryProcessor.java:397-427 | one document per well-formed line in file order, every other line printed, none fatal |
| Tweets.EveryLineAccounted | Assignment1/src/QueryProcessor.java:424-426 | documents plus printed lines number exactly the lines read |
| Tweets.CollectHashtags | Assignment1/src/QueryProcessor.java:455-465 | the hashtag loop builds exactly HashtagText of the words |
| Tweets.HashtagTextSplitsIntoKeptWords | Assignment1/src/QueryProcessor.java:459-465 | split on spaces, the hashtag text is the `#`-bearing words in order, `#`s removed, each followed by one space |
| Tweets.HashtagTextHasNoHash | Assignment1/src/QueryProcessor.java:462 | no `#` remains in the hashtag text |
| Tweets.NoHashtagsGiveEmptyText | Assignment1/src/QueryProcessor.java:455-465 | words without `#` contribute nothing |
| Tweets.ParseHashtags | Assignment1/src/QueryProcessor.java:448-476 | one hashtag document per well-formed line in file order, every other line printed |
| Tweets.SameDocumentIds | Assignment1/src/QueryProcessor.java:404 | the k-th hashtag document carries the id of the k-th tweet document |
| Tweets.TweetWithoutHashtags | Assignment1/src/QueryProcessor.java:453-470 | a well-formed tweet without `#` still yields a document with its id and empty hashtag text |
| QueryFile.Step | Assignment1/src/QueryProcessor.java:500-525 | one iteration keeps "an open block has a query" |
| QueryFile.Parse | Assignment1/src/QueryProcessor.java:499-527 | the state after any prefix of the file keeps that invariant |
| QueryFile.RetrieveQueries | Assignment1/src/QueryProcessor.java:486-532 | returns the queries Parse accumulates, or its failure |
| QueryFile.FailureSticks | Assignment1/src/QueryProcessor.java:517 | once a field line hits a null query, later lines are never read |
| QueryFile.ParseCounts | Assignment1/src/QueryProcessor.java:499-511 | queries = toggles / 2, open exactly after an odd number of toggles, query null exactly after a closing toggle |
| QueryFile.ParseFailure | Assignment1/src/QueryProcessor.java:514-525 | reading fails exactly when a field line follows a closing toggle without a new opening one, and at the first such line |
| QueryFile.PlainStep | Assignment1/src/QueryProcessor.java:499-526 | a line matching no prefix leaves the state unchanged |
| QueryFile.PlainLineChangesNothing | Assignment1/src/QueryProcessor.java:499-527 | inserting such a line anywhere does not change the result |
| QueryFile.BlockBody | Assignment1/src/QueryProcessor.java:514-525 | inside a block each field ends with the value of its last line |
| QueryFile.Block | Assignment1/src/QueryProcessor.java:499-525 | a `<top>`, body, `</top>` block appends one query with the last num and last title of the body (null when absent) |
| QueryFile.MarkersRemoved | Assignment1/src/QueryProcessor.java:515-516 | two successive `replace` calls strip an opening and a closing marker around `<`-free text |
| QueryFile.NumValue | Assignment1/src/QueryProcessor.java:515-516 | the two `replace` calls only remove text, never add it |
| QueryFile.TitleValue | Assignment1/src/QueryProcessor.java:522-523 | the two `replace` calls only remove text, never add it |
| QueryFile.NumOfTaggedLine | Assignment1/src/QueryProcessor.java:515-517 | `<num> Number: x </num>` gives num `x` |
| QueryFile.TitleOfTaggedLine | Assignment1/src/QueryProcessor.java:522-524 | `<title> x </title>` gives title `x` |
| RelevanceFeedback.AddFrequencies | Assignment1/src/QueryProcessor.java:629-640 | one inner loop moves every term of the vector by ±coefficient × freq / 20, a new term starting at 0.0 |
| RelevanceFeedback.Seed | Assignment1/src/QueryProcessor.java:607-609 | the seeded table holds exactly the query terms, each at originalQueryCoefficient |
| RelevanceFeedback.Shifted | Assignment1/src/QueryProcessor.java:629-640 | a pass over a term vector leaves every term outside the vector at its old weight |
| RelevanceFeedback.ShiftedKeys | Assignment1/src/QueryProcessor.java:630-632 | the table keeps its terms and gains the vector's terms |
| RelevanceFeedback.ShiftedGrows | Assignment1/src/QueryProcessor.java:629-634 | a non-negative scale never lowers a weight; new terms start from 0.0 |
| RelevanceFeedback.ZeroIrrelevantOnlyInserts | Assignment1/src/QueryProcessor.java:635-640 | with irrelevant coefficient 0.00 a non-relevant vector only inserts its new terms at 0.0 |
| RelevanceFeedback.FeedbackLimit | Assignment1/src/QueryProcessor.java:612 | the loop count is min(20, n) |
| RelevanceFeedback.RoundSkipsOnIOException | Assignment1/src/QueryProcessor.java:616-627 | an IOException reading either term vector skips the whole iteration: the table is unchanged |
| RelevanceFeedback.RoundGrows | Assignment1/src/QueryProcessor.java:616-640 | with relevant ≥ 0 and irrelevant ≤ 0 one iteration keeps every term and lowers no weight |
| RelevanceFeedback.Round | Assignment1/src/QueryProcessor.java:616-640 | one iteration, hit i relevant and hit n-1-i non-relevant, both vectors read before any update; its properties are RoundSkipsOnIOException and RoundGrows |
| RelevanceFeedback.Accumulate | Assignment1/src/QueryProcessor.java:612-648 | the table after the first n iterations; its keys are characterised by AccumulateKeys |
| RelevanceFeedback.AccumulateKeepsSeed | Assignment1/src/QueryProcessor.java:612-648 | no iteration removes a term, so every seeded term remains |
| RelevanceFeedback.FinalWeights | Assignment1/src/QueryProcessor.java:607-648 | the table the query is rebuilt from holds every query term |
| RelevanceFeedback.AccumulateKeys | Assignment1/src/QueryProcessor.java:612-648 | the table holds exactly the seeded terms and the terms of hits i and n-1-i of the iterations whose two lookups succeeded |
| RelevanceFeedback.AccumulateGrows | Assignment1/src/QueryProcessor.java:607-648 | with relevant ≥ 0 and irrelevant ≤ 0, a present term is never reset or lowered |
| RelevanceFeedback.DoubleToInt | Assignment1/src/QueryProcessor.java:652 | the `(int)` cast: floor for non-negative values, ceiling for negative ones (toward zero), IntMax at or above the top of the range and IntMin at or below the bottom |
| RelevanceFeedback.Repetitions | Assignment1/src/QueryProcessor.java:652 | zero repetitions exactly when the weight is below 1 (negative included), otherwise the integer part |
| RelevanceFeedback.QueryText | Assignment1/src/QueryProcessor.java:649-656 | the rebuilt string is empty exactly when every key in the order is repeated zero times |
| RelevanceFeedback.RebuildQuery | Assignment1/src/QueryProcessor.java:649-656 | the query string is QueryText for some order that lists every key of the table exactly once (one HashMap iteration order) |
| RelevanceFeedback.RebuiltQueryWords | Assignment1/src/QueryProcessor.java:649-656 | split on spaces the query is its words plus one trailing empty piece; each term occurs exactly `(int) max(0, w)` times and nothing else occurs |
| RelevanceFeedback.DefaultKeepsQueryTerms | Assignment1/src/QueryProcessor.java:81-83 | with coefficients 1.00/5.50/0.00 every query term survives into the rebuilt query |
| RelevanceFeedback.Fallback | Assignment1/src/QueryProcessor.java:657-674 | the only failure is the NullPointerException of a null collector; a success is the new hits or the second topDocs() |
| RelevanceFeedback.FallbackResult | Assignment1/src/QueryProcessor.java:657-674 | fails exactly on a null collector; more than 0 hits returns the new hits (at most 1000), otherwise the second topDocs() |
| RelevanceFeedback.EvaluateWithRelevanceFeedback | Assignment1/src/QueryProcessor.java:592-675 | for some ordering of the accumulated table's keys, the result is the fallback applied to the search of the query text rebuilt in that order |
| Fusion.ScoreMapping | Assignment1/src/QueryProcessor.java:298-338 | the two loops build FusedScores |
| Fusion.PrimaryScores | Assignment1/src/QueryProcessor.java:301-315 | the first loop's map has at most one entry per hit |
| Fusion.AddHashtagScores | Assignment1/src/QueryProcessor.java:317-338 | the second loop keeps every id already mapped and adds at most one per hashtag hit |
| Fusion.PrimaryScoresKeys | Assignment1/src/QueryProcessor.java:301-315 | the map holds exactly the ids of the primary hits |
| Fusion.PrimaryScoresLast | Assignment1/src/QueryProcessor.java:312 | an id's score is that of its last hit |
| Fusion.AddHashtagScoresSpec | Assignment1/src/QueryProcessor.java:317-338 | hashtag ids are added or inserted; the score is the earlier score (0 if absent) plus the id's hashtag scores |
| Fusion.FusedScore | Assignment1/src/QueryProcessor.java:298-338 | for lists without repeated ids: shared ids get primary + hashtag, an id in one list keeps that list's score |
| Fusion.BuildRanking | Assignment1/src/QueryProcessor.java:340-344 | the list holds each map entry exactly once and nothing else |
| Fusion.SortRanking | Assignment1/src/QueryProcessor.java:345-350 | in place: the result is sorted by descending score and a permutation of the input |
| Fusion.PermutationListsEntries | Assignment1/src/QueryProcessor.java:345-350 | sorting keeps "lists each entry once" |
| Fusion.ListedIdsDistinct | Assignment1/src/QueryProcessor.java:340-344 | the listed ids are distinct |
| Fusion.EmitCount | Assignment1/src/QueryProcessor.java:353 | min(size, 1000) |
| Fusion.Lines | Assignment1/src/QueryProcessor.java:353-358 | one line per entry written |
| Fusion.TopListed | Assignment1/src/QueryProcessor.java:353-356 | the emitted part is sorted and holds distinct entries of the map |
| Fusion.TopNothingBetter | Assignment1/src/QueryProcessor.java:345-356 | no id left out of the emitted part scores above a written one |
| Fusion.TopEntries | Assignment1/src/QueryProcessor.java:340-358 | the emitted part is sorted, distinct entries of the map, everything when ≤ 1000, and no omitted id scores above a written one |
| Fusion.LinesAt | Assignment1/src/QueryProcessor.java:353-358 | line i carries entry i and rank first + i: consecutive ranks, no gaps |
| Fusion.Emit | Assignment1/src/QueryProcessor.java:354-358 | nothing for no entries; a malformed query id fails at the first add with nothing written; otherwise as EmitAll |
| Fusion.EmitAll | Assignment1/src/QueryProcessor.java:354-358 | writes Lines for the entries from the current rank and advances the rank by their number |
| Fusion.HitEntries | Assignment1/src/QueryProcessor.java:362-374 | entry i is hit i's id and score, same length |
| Fusion.PassThroughLines | Assignment1/src/QueryProcessor.java:362-374 | without hashtag scoring, line i reads back as hit i's id, rank i+1 and score |
| Fusion.ResultsForQuery | Assignment1/src/QueryProcessor.java:286-375 | rank reset, optional feedback (its failure ends the query), then the sorted fused ranking cut to 1000 or the hits in order, written with ranks 1..n |

## Left out

- Lucene itself is not modelled. This covers index building, analyzers, TF-IDF scoring, query parsing, collectors, term vectors (`getTermFrequencies`) and the unused `createIndex`. These are calls into a library; they appear as the function parameters described above.
- `analyzeIndex` is not modelled: it writes the vocabulary file using `Math.random`.
- `buildIndex`, `buildHashtagIndex`, `processQueries`, `go` and the outer query loop of `getResults` are not modelled. They are Lucene wiring around the modelled bodies.
- All file I/O is outside the model. Files are sequences of lines; the result file is `OutputBuilder.written`. `close` and the null writer after a FileNotFoundException are left out.
- Floating point is not modelled. Scores and weights are `real`, so float/double rounding, NaN, -0.0 and `Float.toString` are not covered. The text of a score is the function `renderScore`.
- `Integer.parseInt` accepts Unicode digits other than ASCII; the model does not.
- Java strings are UTF-16, so `substring(2)` in `stripPrefix` drops two UTF-16 code units, while `Output.StripPrefix` drops two characters. The two differ only for characters outside the Basic Multilingual Plane.
- Looking up a hit's stored id is the total function `idOf`. The IOException and the NullPointerException of a failed document lookup are not modelled.
- Assignment1/src/Assignment1Runner.java, Assignment1/src/SAXQueryHandler.java and QueryXml.java are not part of this model. `QueryXml`'s fields are taken to start out null, which `None` stands for.
- An IOException during `searcher.search` of the rebuilt query is not separate. Whatever the collector then holds is the `Collected` that `search` returns.
- `hashtagScoreCoefficient` only sets a Lucene field boost, so it is outside the model.
- RelevanceFeedback.Shifted: a term-vector frequency is a `nat` and the cast `(double) freq` is exact. `totalTermFreq` beyond the int range is not modelled.
- Fusion.Emit: calls `Add` with successful writes only. A failed write changes only which lines reach `written`, and `Output.OutputBuilder.Add` states that per call.
- Output.OutputBuilder.Add: the rank is an unbounded integer, so the 32-bit wrap-around after 2^31 - 1 adds is not modelled.
- Fusion.SortRanking: proves sorted order and permutation only. Stability and the resulting tie order are not stated; ties follow HashMap iteration order, which is itself unspecified.
- Fusion.FusedScore: states the sums for lists that name each id at most once. That is an assumption about the input: the id is a stored field, so a tweets file that repeats an id yields two documents, and so two hits, with the same id. With repeated ids, Fusion.PrimaryScoresLast and Fusion.AddHashtagScoresSpec give the general result: the last primary hit, plus the sum of the hashtag scores.
- QueryFile.PlainLineChangesNothing: requires that the file without the line reads successfully. After a failure, the reported line index shifts by one.
