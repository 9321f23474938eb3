# Market news sentiment pipeline: a Dafny model

This project models the logic of a small market-data pipeline written in
Python, and proves properties of that model. It has three parts.

- **Ingestion** (`lambda_function_storing.py`). `get_latest_timestamp` reads
  the newest stored `timestamp` of a symbol from the `news_sentiment`
  collection. It sorts the strings in descending order and parses the first
  one with `datetime.strptime(..., "%Y-%m-%dT%H:%M:%SZ")`.
  `process_and_store_new_articles` then walks a batch of news articles. It
  parses each `publishedAt` and keeps an article when it is newer than that
  watermark and has a non-empty description. It classifies the description
  and inserts one document per kept article. An exception ends the batch, and
  the documents already inserted stay.
- **Daily aggregation** (`lambda_function_analysis.py`, lines 26-72). One pass
  over the day's sentiment documents fills four accumulators:
  - the label distribution;
  - per-day label buckets keyed by `timestamp[:10]`;
  - a `Counter` of sources;
  - the joined title/description text.

  From these it derives `trends`, `top_keywords` (`most_common(10)` of the
  non-stopword words) and `sentiment_vs_volume`.
- **Daily returns** (`analysis.py`). `process_data` walks the dates of a daily
  quote table in ascending order. It carries the previous close and emits
  (date, close, return) entries. `store_data` tags each entry with the
  symbol.

Modules:

| module | file | contents |
|---|---|---|
| `Wrappers` | `wrappers.dfy` | `Option` and `Result` |
| `Exceptions` | `exceptions.dfy` | the Python exceptions the code can raise (`KeyError`, `TypeError`, `ValueError`) |
| `Strings` | `strings.dfy` | Python's code-point order on `str`, which is also MongoDB's binary string sort; ASCII lower-casing |
| `Timestamps` | `timestamps.dfy` | `strptime` for the one format used, naive `datetime` order, `strftime` |
| `Ingestion` | `ingestion.dfy` | the collection as a class, the watermark, and the ingestion loop as a method with its specification function |
| `Counters` | `counters.dfy` | `collections.Counter` as a list in insertion order, and `most_common` |
| `KeywordAnalysis` | `keywords.dfy` | `re.findall(r'\b\w+\b', ...)`, stopwords and keyword counting |
| `Aggregation` | `aggregation.dfy` | the aggregation loop as a method with its specification function, and what the summary means |
| `DailyReturns` | `daily_returns.dfy` | `process_data` as a method with its specification function, and the documents of `store_data` |

Some consequences of the code that the model makes explicit:

- `sentiment_counts` has only the keys POSITIVE, NEUTRAL and NEGATIVE. Any
  other label, such as Comprehend's MIXED, raises `KeyError` and ends the
  run (`Aggregation.SummarizeFails`). The per-label counts sum to the number
  of records whenever every document carries one of the three labels
  (`Aggregation.DistributionCounts`).
- The watermark is read once per batch, so two articles in one batch with
  the same `publishedAt` are both inserted
  (`Ingestion.SameTimestampBothInserted`).
- An article is skipped when it is no newer than the watermark
  (`Ingestion.NotNewIsSkipped`). Of its fields, only a missing, `null` or
  empty description makes the loop skip it. A missing `title` or
  `source.name` key, or a `publishedAt` that does not parse, raises and ends
  the batch (`Ingestion.Enrich`,
  `Ingestion.MalformedTimestampStopsBatch`).
- The watermark is picked by a string sort but compared as a `datetime`. The
  two orders agree on timestamps of the fixed 20-character layout
  (`Timestamps.WellFormedOrder`). They disagree once `strptime`'s
  one-digit fields appear (`Timestamps.MixedWidthOrderDisagrees`).

## Model

| member | source | states |
|---|---|---|
| Strings.LessTransitive | lambda_function_storing.py:43 | the string order used by the descending sort is transitive |
| Strings.LessTotal | lambda_function_storing.py:43 | any two strings are ordered one way or the other, or are equal |
| Strings.SortedListingUnique | analysis.py:9 | a set of dates has exactly one strictly ascending listing, so `sorted(keys)` is determined by the keys |
| Timestamps.DaysInMonth | lambda_function_storing.py:46 | a month has 28 to 31 days, and 29 exactly for February of a leap year, as the `datetime` constructor checks |
| Timestamps.BeforeIsStrictTotalOrder | lambda_function_storing.py:59 | `>` on naive datetimes is irreflexive, total and transitive |
| Timestamps.ValuePad | lambda_function_storing.py:46 | reading a zero-padded numeral gives back its value |
| Timestamps.PadValue | lambda_function_storing.py:46 | a digit run is the zero-padded numeral of its value, at its own width |
| Timestamps.PadLess | lambda_function_storing.py:43-46 | zero-padded numerals of one width compare as strings exactly as their values compare |
| Timestamps.FieldConsumes | lambda_function_storing.py:46 | a numeric field consumes between its minimum and maximum number of characters from the front, all digits |
| Timestamps.LiteralMatches | lambda_function_storing.py:46 | under `IGNORECASE` the format's `T` and `Z` accept `T`/`t` and `Z`/`z`, while `-` and `:` accept only themselves; any match consumes one character |
| Timestamps.Parse | lambda_function_storing.py:46 | a parsed timestamp always passes the `datetime` range checks |
| Timestamps.MatchRender | lambda_function_storing.py:46 | matching values printed with any accepted field widths gives the values back |
| Timestamps.ParseFormat | lambda_function_storing.py:46 | `strptime` of `strftime(d)` is `d` for every valid datetime |
| Timestamps.MatchShaped | lambda_function_storing.py:46 | a string of digits and literals in the layout's shape is the rendering of what it matches to |
| Timestamps.FormatOfWellFormed | lambda_function_storing.py:46 | a well-formed 20-character timestamp is exactly what `strftime` prints for its parse |
| Timestamps.RenderOrder | lambda_function_storing.py:43-46 | timestamps rendered with the same widths compare as strings as their field tuples compare |
| Timestamps.WellFormedOrder | lambda_function_storing.py:43-46 | for well-formed timestamps, string order and datetime order agree, and so do equality of strings and of datetimes |
| Timestamps.MixedWidthOrderDisagrees | lambda_function_storing.py:43-46 | with a one-digit month, a string that `strptime` accepts sorts after a later timestamp, though its datetime is earlier |
| Ingestion.NewsSentimentCollection.InsertOne | lambda_function_storing.py:71 | `insert_one` appends the document and changes nothing else |
| Ingestion.LatestStamp | lambda_function_storing.py:41-45 | None exactly when the symbol has no document; otherwise the `timestamp` of one of the symbol's documents |
| Ingestion.LatestStampIsMaximum | lambda_function_storing.py:41-44 | no document of the symbol has a timestamp string that sorts after the one picked |
| Ingestion.WatermarkIsLatestInstant | lambda_function_storing.py:40-48 | with well-formed stored timestamps, the watermark parses, is None exactly when the symbol has no document, and no stored instant of the symbol is later |
| Ingestion.Published | lambda_function_storing.py:56 | parsing `publishedAt` succeeds exactly when it is a string that `strptime` accepts, and yields that datetime |
| Ingestion.Enrich | lambda_function_storing.py:61-70 | building the document succeeds exactly when the `title` and `source.name` keys are present |
| Ingestion.IngestAppend | lambda_function_storing.py:54-76 | a batch runs as its two parts one after the other, and the second part runs only if the first raised nothing |
| Ingestion.Selected | lambda_function_storing.py:59-60 | the selected articles are articles of the batch that are newer than the watermark and have a description |
| Ingestion.IngestInsertsSelected | lambda_function_storing.py:54-71 | a batch that raises nothing inserts one document per qualifying article, in input order, and nothing else |
| Ingestion.StepQualifies | lambda_function_storing.py:59-60 | a loop pass that raises nothing inserts exactly when the article is new and has a description |
| Ingestion.InsertedDocumentsQualify | lambda_function_storing.py:59-71 | every inserted document comes from a qualifying article of the batch and carries the symbol |
| Ingestion.InsertedFields | lambda_function_storing.py:62-70 | an inserted document carries the symbol, `publishedAt`, the title, the description, the classifier's label and scores, and the source name |
| Ingestion.NotNewIsSkipped | lambda_function_storing.py:59 | an article stamped at or before the watermark is skipped |
| Ingestion.UndescribedIsNeverInserted | lambda_function_storing.py:60-74 | an article without a non-empty description is never inserted, whatever its timestamp |
| Ingestion.NoFailureMeansEveryStepOk | lambda_function_storing.py:54-76 | when the batch raises nothing, no article's loop pass raised |
| Ingestion.EveryProducedDocInserted | lambda_function_storing.py:61-71 | when the batch raises nothing, every document a loop pass builds is inserted |
| Ingestion.NoWatermarkInsertsEveryDescribed | lambda_function_storing.py:59-71 | with no stored document for the symbol, every article with a description is inserted |
| Ingestion.MalformedTimestampStopsBatch | lambda_function_storing.py:56 | an article whose `publishedAt` does not parse ends the batch with that exception, after the earlier insertions |
| Ingestion.RefreshedWatermarkSkips | lambda_function_storing.py:40-59 | a watermark re-read after inserting a document would skip any article stamped no later than it |
| Ingestion.SameTimestampBothInserted | lambda_function_storing.py:52-71 | two qualifying articles with the same `publishedAt` in one batch are both inserted, although a re-read watermark would skip the second |
| Ingestion.IngestExtend | lambda_function_storing.py:54-76 | the loop after one more article: unchanged after an exception, else extended by that article's pass |
| Ingestion.IngestStops | lambda_function_storing.py:54-76 | once a prefix of the batch raises, the whole batch ends there |
| Ingestion.ProcessAndStoreNewArticles | lambda_function_storing.py:51-76 | the collection gains exactly the documents of the run, in order, after what it held, and the run's exception is returned |
| Counters.IndexOf | lambda_function_analysis.py:42 | the first position of a key, or None exactly when it is absent |
| Counters.BumpAt | lambda_function_analysis.py:42 | `c[k] += 1` appends a new key with count 1, or adds one to an existing key in its place |
| Counters.BumpTotal | lambda_function_analysis.py:42 | counting one more key adds one to the total |
| Counters.GetBump | lambda_function_analysis.py:42 | counting `k` raises `k`'s count by one and no other count |
| Counters.CountTotal | lambda_function_analysis.py:62 | the counts of `Counter(ks)` add up to the length of `ks` |
| Counters.CountGet | lambda_function_analysis.py:62 | each key's count in `Counter(ks)` is its number of occurrences in `ks` |
| Counters.CountShape | lambda_function_analysis.py:62 | `Counter(ks)` has distinct keys, exactly the elements of `ks`, each with a positive count |
| Counters.CountFirstOccurrence | lambda_function_analysis.py:62 | `Counter(ks)` lists its keys in the order of their first occurrence in `ks` |
| Counters.FirstMax | lambda_function_analysis.py:63 | the first entry with the largest count |
| Counters.MostCommon | lambda_function_analysis.py:63 | `most_common(n)` has `min(n, len(c))` entries, all taken from the counter |
| Counters.MostCommonDominates | lambda_function_analysis.py:63 | the selection is by non-increasing count, and no entry left out has a larger count than one kept |
| Counters.MostCommonTiesFirst | lambda_function_analysis.py:63 | among entries with equal counts, the kept ones come first in insertion order |
| Counters.MostCommonTiesInOrder | lambda_function_analysis.py:63 | kept entries with equal counts appear in their insertion order |
| Counters.MostCommonIsSelection | lambda_function_analysis.py:63 | `most_common(n)` of a counter meets all of the above: `min(n, len(c))` entries of the counter, descending, dominating, with ties first and in insertion order |
| Counters.CountSelection | lambda_function_analysis.py:62-63 | `Counter(ks).most_common(n)` is such a selection, and its entries are elements of `ks` with positive counts |
| KeywordAnalysis.Words | lambda_function_analysis.py:60 | every word found is a non-empty run of word characters |
| KeywordAnalysis.WordsAreRuns | lambda_function_analysis.py:60 | a string is a word found by `findall(r'\b\w+\b')` exactly when it is a non-empty run `s[i..j]` of word characters with a non-word character or the end of the text on each side |
| KeywordAnalysis.WordsCoverWordChars | lambda_function_analysis.py:60 | the words found, concatenated in order, are exactly the word characters of the text in order: none is lost, repeated or reordered |
| KeywordAnalysis.DropStopwordsCounts | lambda_function_analysis.py:61-62 | filtering keeps every occurrence of every non-stopword and drops every stopword |
| KeywordAnalysis.WordsSeparated | lambda_function_analysis.py:59-60 | no word spans the space the join inserts |
| KeywordAnalysis.KeywordsSeparated | lambda_function_analysis.py:59-62 | the keywords of two texts joined by a space are those of each text in turn |
| KeywordAnalysis.KeywordsOfJoin | lambda_function_analysis.py:59-62 | the keywords of `" ".join(texts)` are those of each text in turn |
| KeywordAnalysis.KeywordsAreClean | lambda_function_analysis.py:60-62 | every keyword is a non-empty lower-case word that is not a stopword, and a word is a keyword exactly when it occurs and is not a stopword |
| KeywordAnalysis.KeywordCountsMeaning | lambda_function_analysis.py:60-62 | each non-stopword's count is its number of occurrences, stopwords count 0, keys are listed in first-occurrence order, and the counts add up to the number of keywords |
| Aggregation.LabelOf | lambda_function_analysis.py:26-34 | a label is accepted exactly when it is one of the three keys of `sentiment_counts` |
| Aggregation.AddToNewDay | lambda_function_analysis.py:37-39 | a date not seen before gets a new bucket at the end |
| Aggregation.AddToKnownDay | lambda_function_analysis.py:37-39 | a date seen before has its bucket updated in place |
| Aggregation.Fault | lambda_function_analysis.py:34-45 | a document raises exactly when its label is not one of the three keys or its title is `null` |
| Aggregation.TallyFault | lambda_function_analysis.py:32-45 | the loop runs to the end exactly when no document raises; otherwise it stops with the exception of the first one that does |
| Aggregation.SummarizeFails | lambda_function_analysis.py:26-45 | the aggregation succeeds exactly when every label is POSITIVE, NEUTRAL or NEGATIVE and every title is a string; otherwise it fails with the first document's exception |
| Aggregation.TallyCounts | lambda_function_analysis.py:26-34 | each label's count is its number of documents, and the three counts add up to the number of documents |
| Aggregation.TallyDays | lambda_function_analysis.py:27-39 | the buckets list the dates of the documents' days counter, each with that day's document count, the sum of its label counts, and its per-label counts |
| Aggregation.TallySources | lambda_function_analysis.py:28-42 | `source_counts` is the counter of the documents' sources |
| Aggregation.TallyTexts | lambda_function_analysis.py:29-45 | `text_data` holds each document's title, a space and its description, in order |
| Aggregation.TallyMeaning | lambda_function_analysis.py:26-45 | all four accumulators at once |
| Aggregation.TrendEntries | lambda_function_analysis.py:48-56 | the loop builds one trend entry per bucket, in bucket order |
| Aggregation.VolumeEntries | lambda_function_analysis.py:66-72 | the loop builds one volume point per bucket, in bucket order |
| Aggregation.Analyze | lambda_function_analysis.py:26-72 | the step-by-step computation yields the summary of the documents, or the exception of the first failing document |
| Aggregation.DistributionCounts | lambda_function_analysis.py:26-34 | on success the distribution counts each label's documents, and the counts add up to the number of documents |
| Aggregation.TrendsPartition | lambda_function_analysis.py:37-56 | each document falls in exactly one trend entry, that of `timestamp[:10]`; each entry's labels count that day's documents; each total is the sum of its labels; the totals add up to the number of documents; the entries are listed in the order their dates are first seen |
| Aggregation.TopSources | lambda_function_analysis.py:28-81 | `source_counts` counts each source once per document and adds up to the number of documents, and `top_sources` equals its `most_common(10)`: ten entries of the counter, or all of them if it has fewer, by non-increasing count, no left-out entry outranking a kept one, ties kept and listed in first-seen order |
| Aggregation.TopKeywords | lambda_function_analysis.py:59-63 | `top_keywords` equals `most_common(10)` of the counter of every document's keywords in turn: ten of its entries with their counts, or all of them if it has fewer, chosen and ordered as above; every selected word occurs with a positive count |
| Aggregation.KeywordsPerDocument | lambda_function_analysis.py:45-60 | a document's title and description never merge into one keyword |
| Aggregation.TopKeywordsAreClean | lambda_function_analysis.py:60-63 | every word in `top_keywords` is a non-empty lower-case word that is not a stopword |
| Aggregation.ShareBounds | lambda_function_analysis.py:71 | positive / count lies between 0 and 1 |
| Aggregation.VolumeFollowsTrends | lambda_function_analysis.py:49-72 | `sentiment_vs_volume` has one entry per trend entry, with the same date, a volume equal to its total, which is positive, and an average positive score of positive / total, between 0 and 1 |
| Aggregation.EmptyDay | lambda_function_analysis.py:26-66 | no documents give zero counts and empty trends, sources, keywords and volume series |
| DailyReturns.ReturnGrowth | analysis.py:16-19 | the first day's return is 0, so is the return after a zero close, and otherwise the previous close grown by the return is the new close |
| DailyReturns.ReturnSign | analysis.py:17 | after a positive close, the return is positive, zero or negative as the price rises, holds or falls |
| DailyReturns.EntriesOkIff | analysis.py:12-13 | the walk fails exactly when some date lacks a close, and then with that `KeyError` |
| DailyReturns.EntriesMeaning | analysis.py:10-27 | one entry per date, in order, with that date's close; the first return is 0, and each later one is taken from the close of the date just before |
| DailyReturns.ReturnsCompound | analysis.py:16-27 | each close is the previous close grown by its return, except after a zero close, where the return is 0 |
| DailyReturns.InsertSorted | analysis.py:9 | inserting a new date keeps the listing strictly ascending and adds exactly that date |
| DailyReturns.SortedDates | analysis.py:9 | `sorted(daily_data.keys())` lists every key once, in strictly ascending order |
| DailyReturns.ProcessData | analysis.py:7-29 | fails with `KeyError("4. close")` exactly when some date lacks a close; otherwise lists every date once in ascending order, with the entries of the walk over that listing |
| DailyReturns.EntriesStep | analysis.py:12-27 | one more date with a close extends the walk by that date's entry |
| DailyReturns.Documents | analysis.py:33-41 | one document per entry, in order, each tagged with the symbol and carrying its entry unchanged |
| DailyReturns.StoredSeries | analysis.py:7-41 | the stored documents number one per date, ascend by date, carry each date's close, start with return 0, and take each later return from the document before |

## Left out

- Network and service calls are not modelled:
  - `fetch_news` and the News API request (lambda_function_storing.py:27-32);
  - the Comprehend client (lambda_function_storing.py:19-24);
  - the MongoDB and DynamoDB clients and `put_item` (lambda_function_analysis.py:7-14, 75-86);
  - `insert_many` and the `print` in `store_data` (analysis.py:43-44);
  - the module-level connection strings.
- The sentiment classifier (`analyze_sentiment`, lambda_function_storing.py:35-37) is a parameter of the ingestion operations: any function from text to label and scores.
- The classifier and `insert_one` are assumed not to raise. In the code, an exception from `analyze_sentiment` (lambda_function_storing.py:61) or from `insert_one` (lambda_function_storing.py:71) ends the batch and leaves the earlier insertions in place, which is what `Ingestion.IngestStops` shows for the exceptions the model does raise.
- The `news_sentiment` collection is an in-memory sequence. `find_one` with a descending sort is the maximum over the symbol's documents. Query planning, indexes and concurrent writers are not modelled.
- The time-window query built from `datetime.utcnow()` (lambda_function_analysis.py:17-23) is not modelled. The aggregation takes the already-filtered documents as its input. `now` appears only in fields of the stored item, which are not modelled.
- The `print` calls of the ingestion loop only log, and are not modelled.
- `lambda_function_query.py`, `alphavantage.py` and `main.py` are not part of this model. They are plumbing, a fetch wrapper and a top-level script.
- Floating point is not modelled. Close prices are exact reals that have already been parsed, and returns and average scores are exact real quotients. `float(...)`'s `ValueError` on a non-numeric close string is therefore not modelled.
- `DailyReturns.ProcessData` reads `daily_data[date]` only for keys of the table. An input of another shape (main.py passes a DataFrame) is not modelled.
- Regular expressions are ASCII only. `\w` and `\d` cover ASCII letters, digits and underscore, and `lower()` folds only `A`-`Z`. Unicode letters, Unicode digits and full case folding are not modelled.
- `Timestamps.Parse` accepts ASCII digits only, for the same reason.
- Python `datetime` values are the six naive fields. `strptime` with this format never produces microseconds or time zones.
- The result of `dict(...most_common(10))` is kept as the list of pairs. Converting to a dict does not change the order or the entries, since the keys are distinct.
- Document fields that are not strings are not modelled. An integer `sentiment`, for example, is not modelled; JSON `null` in `title` and `source.name` is.
- Ingestion.Enrich: a missing `source` or `name` key is one failure, `KeyError("source.name")`. Python raises `KeyError('source')` or `KeyError('name')` instead, and a `null` `source` raises `TypeError`. The model does not tell these apart; each ends the batch the same way.
- `source_counts` keys are the stored source name, `null` included. A document missing the `source` key entirely cannot be produced by the ingestion path and is not modelled.
