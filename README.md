# Search-engine core: text normalisation, inverted index, index variants

This project is a Dafny model of the core of a small search engine for
documents published on a government research portal, together with proofs of
what that core promises.

The source splits into four parts, each modelled in the same form:

- **`TextProcessor`** (`src/service/index.py`) is modelled as pure functions in module `Text`. It:
  - lower-cases, folds to ASCII, blanks out punctuation and digits, and collapses whitespace;
  - splits into tokens;
  - optionally drops stopwords, then optionally stems;
  - optionally builds n-grams or 1..`max_n` shingles.
- **`InvertedIndex`** is modelled as the class `Inverted.InvertedIndex`.
  - Its fields are the source's six attributes.
  - Its methods update them in place.
  - Each method is proved against a pure specification on the value type `Inverted.IndexState`.
  - The invariants that `add_document` keeps are lemmas about that specification. These are:
    - df is the postings length;
    - a document's tf values sum to its length;
    - the postings total is the sum of df.
  - AND search and TF-IDF ranking are loops proved against their set-level meaning.
- **`IndexAnalyzer.create_index`** is the class `Analyzer.IndexAnalyzer`.
  - It merges partial options over the default table.
  - It picks the term stream: shingles first, then n-grams, then tokens.
  - It builds a fresh index over the whole corpus and records its stats.
- **`Index.load_from_json` and `Index.start`** are modelled in module `Loader`.
  - The flattening of the nested `ipea → date → subdir → file` JSON into `path → content` is a pure function over a JSON value. The file read is a parameter.
  - `start` loads when needed and returns `None` for an empty corpus. Otherwise it builds the five named variants.
- **`__sanitize_filename` and `__convert_date`** (`src/service/extract.py`) are pure functions in module `Extract`.
  - Sanitised names contain only `[A-Za-z0-9_\-.=]`, have no `__`, and have no `_` at either end. Sanitising is idempotent.
  - The date converter reads the field after the first `-`. It strips blanks and trailing `T`s, and tries `dd/mm/YYYY`, then `YYYY.mm`, then a bare year. It raises `IndexError` exactly when there is no `-`.

Python's own behaviour is modelled in module `PyText`:
- ordered dicts, as sequences of pairs;
- `str.split` and `str.join`;
- `str.strip`, using the exact `str.isspace` set;
- `re.sub` over a one-character class followed by `+`;
- slicing with negative bounds.

The Unicode database (`str.lower`, NFKD), the tokenizer, the stemmer, the stopword list and `math.log10` are parameters. Where a proof needs more, it names the property it relies on, for example "NFKD leaves ASCII text alone".

Behaviour of the code that the model keeps as it is:
- `get_idf` raises when `total_docs` is 0, because `log10(0)` is a domain error, so `GetIdf` returns `Failure` there.
- Re-adding a document id is modelled as the code does it, with no precondition. The strong invariant `Consistent` is proved for fresh ids only.
- Shingles are the concatenation of the n-gram lists, duplicates included.
- A document whose content is not a string aborts the whole `start`.
- The corpus is an ordered dict, and documents are added in its order.

## Model

| member | source | states |
|---|---|---|
| PyText.AsciiOnly | src/service/index.py:31-35 | `encode("ascii", "ignore")` yields ASCII, is the identity on ASCII text and never lengthens |
| PyText.StripSlice | src/service/index.py:38 | `strip` returns the slice after the leading run, and the result neither starts nor ends in the stripped class |
| PyText.CollapseChars | src/service/index.py:37-38 | `re.sub(P+, rep)` introduces no character but `rep` and keeps none of the class |
| PyText.CollapseNoAdjacent | src/service/index.py:38 | after `re.sub(P+, rep)` with `rep` in the class, no two neighbours are in the class |
| PyText.CollapseIdentity | src/service/index.py:38 | a string whose runs are already single `rep`s is left unchanged by `re.sub(P+, rep)` |
| PyText.SplitJoin | src/service/extract.py:62 | `c.join(s.split(c)) == s` |
| PyText.SplitOfJoin | src/service/extract.py:62 | `c.join(parts).split(c) == parts` when no part contains `c` |
| PyText.SplitHasTwoPieces | src/service/extract.py:62 | `s.split(c)` has a second piece exactly when `c` occurs in `s` |
| PyText.SplitFirstTwo | src/service/extract.py:62 | the first two pieces of `a + c + b + rest` are `a` and `b` |
| PyText.WordsOfJoin | src/service/index.py:42-44 | splitting the blank-join of words gives the words back |
| PyText.JoinOfWords | src/service/index.py:42-44 | joining the tokens of single-spaced text with blanks gives the text back |
| PyText.Assign | src/service/index.py:376 | `d[k] = v` keeps the key order (a new key goes last) and makes `d[k]` be `v` |
| PyText.AssignOther | src/service/index.py:376 | `d[k] = v` leaves every other key's value alone |
| PyText.FromPairsLookup | src/service/index.py:370-381 | the dict built by successive assignments has exactly the assigned keys, each with the last value assigned |
| PyText.RunsAppend | src/service/index.py:36-38 | the maximal runs of a class in `x + y` are those of `x`, then those of `y`, when no run crosses the seam |
| PyText.RunsSameMask | src/service/index.py:36 | a character-wise substitution that keeps the characters of a class and maps every other character outside it keeps the runs of that class |
| PyText.CollapseKeepsRuns | src/service/index.py:37-38 | `re.sub(P+, rep)` keeps the runs of any class disjoint from `P` and not containing `rep` |
| PyText.StripKeepsRuns | src/service/index.py:38 | `strip` of characters outside a class keeps that class's runs |
| PyText.JoinOfRuns | src/service/index.py:38 | a text of runs separated by single separators, with none at either end, is `sep.join` of its runs |
| Text.BlankNonWord | src/service/index.py:36 | `re.sub(r"[^\w\s]", " ", .)` keeps the length, leaves only word characters and whitespace, keeps each word or whitespace character in place and puts a blank where any other character was |
| Text.NormalizeTextChars | src/service/index.py:28-40 | normalised text is single-spaced, and each non-blank character is a letter or `_` of the ASCII-folded input |
| Text.NormalizeTextRuns | src/service/index.py:28-40 | `normalize_text` is the maximal runs of letters and `_` of the lower-cased ASCII-folded text, in order, joined by single blanks: every digit run, other character and whitespace run between them becomes one blank, none at either end |
| Text.TokensAreRuns | src/service/index.py:28-44 | the tokens of a text are exactly the runs of letters and `_` of its folded form, in order |
| Text.NormalizeSeparatedWords | src/service/index.py:36-38 | one digit, punctuation mark or whitespace character between two lower-case words becomes one blank (`"a1b"` gives `"a b"`) |
| Text.NormalizeTextIsNormalized | src/service/index.py:28-40 | normalised text has only letters, `_` and single inner blanks, with no blank at either end |
| Text.NormalizeAsciiIsLowercase | src/service/index.py:30-40 | on ASCII input the result is over `[a-z_ ]` |
| Text.NormalizeFixesNormalized | src/service/index.py:28-40 | already-normalised lower-case text is left unchanged |
| Text.NormalizeTextIdempotent | src/service/index.py:28-40 | on ASCII input, normalising twice equals normalising once |
| Text.TokenizeRoundTrip | src/service/index.py:42-44 | tokenising normalised text loses nothing: the blank-join of the tokens is the text |
| Text.RemoveStopwordsFilters | src/service/index.py:46-48 | a token survives exactly when its lower-case form is not a stopword, and the list never grows |
| Text.RemoveStopwordsAppend | src/service/index.py:46-48 | the filter works token by token and keeps order: filtering `a + b` is filtering `a`, then `b` |
| Text.RemoveStopwordsIdempotent | src/service/index.py:46-48 | filtering twice equals filtering once |
| Text.ApplyStemming | src/service/index.py:50-52 | stemming keeps the number of tokens |
| Text.StemmingNeverGrowsVocabulary | src/service/index.py:50-52 | the set of stems is no larger than the set of tokens |
| Text.CreateNgrams | src/service/index.py:54-57 | `max(0, len(tokens) - n + 1)` n-grams |
| Text.NgramWindow | src/service/index.py:57 | n-gram `i` is `tokens[i:i+n]` joined by single blanks |
| Text.NgramTokens | src/service/index.py:57 | splitting n-gram `i` gives back `tokens[i:i+n]` |
| Text.UnigramsAreTokens | src/service/index.py:57 | the 1-grams are the tokens |
| Text.NgramsOfShortInput | src/service/index.py:57 | fewer tokens than `n` give no n-grams |
| Text.CreateShingles | src/service/index.py:59-64 | the loop builds the concatenation of the n-gram lists for n = 1..max_n, in order |
| Text.ShingleMembership | src/service/index.py:61-63 | a shingle is exactly an n-gram for some n in 1..max_n |
| Text.ShinglesBeginWithTokens | src/service/index.py:61-63 | for max_n at least 1 the shingles start with the tokens themselves |
| Text.ShinglesLength | src/service/index.py:61-63 | when max_n is at most len(tokens)+1 there are max_n·(2·len − max_n + 1)/2 shingles |
| Text.ProcessText | src/service/index.py:66-94 | `ngrams` and `shingles` are present exactly when their flags are set, and are built from the final tokens |
| Text.StopwordsTestedBeforeStemming | src/service/index.py:80-84 | with both flags set, each final token is the stem of a token kept by the stopword filter, and the lengths match |
| Text.ProcessedTokensAreCleanWords | src/service/index.py:77-81 | without stemming, each final token is a non-empty blank-free token of the normalised text, and not a stopword when removal is on |
| Text.ProcessedTokens | src/service/index.py:77-84 | for every combination of the two flags, the tokens are the base tokens, filtered of stopwords when `remove_stop` is set, then each replaced by its stem when `apply_stem` is set; the filter keeps only non-stopword tokens of the base stream |
| Inverted.Distinct | src/service/index.py:110-112 | `Counter(tokens)` iterates over each distinct token exactly once |
| Inverted.Counts | src/service/index.py:110 | `Counter(tokens)` maps exactly the tokens present to their positive counts |
| Inverted.CountsSum | src/service/index.py:110 | the counts of `Counter(tokens)` sum to `len(tokens)` |
| Inverted.InvertedIndex.constructor | src/service/index.py:97-104 | a new index is empty and valid |
| Inverted.InvertedIndex.PostTerm | src/service/index.py:113-116 | one pass of the loop: append the posting, set tf, bump df, extend the vocabulary |
| Inverted.InvertedIndex.PostTerms | src/service/index.py:110-116 | the loop over the distinct terms, with counts from `Counter(tokens)` |
| Inverted.InvertedIndex.AddDocument | src/service/index.py:106-116 | the new state is `add_document`'s specification applied to the old |
| Inverted.AddDocumentEffect | src/service/index.py:106-116 | `total_docs` rises by one and `documents[id]` is the length. Each distinct term gets exactly one posting `(id, count)`, its tf and a df bump. Other terms and rows keep their postings, df and tf |
| Inverted.AddDocumentTfSum | src/service/index.py:110-114 | for a new id, `tf[id]` is `Counter(tokens)`, whose values sum to `len(tokens)` |
| Inverted.AddDocumentValid | src/service/index.py:106-116 | every `add_document`, repeated ids included, keeps the vocabulary, postings keys and df keys equal, with df the postings length |
| Inverted.AddDocumentConsistent | src/service/index.py:106-116 | with a new id, `add_document` also keeps distinct documents per list, postings counts equal to tf, tf sums equal to lengths, and `total_docs` equal to the number of documents |
| Inverted.BuildConsistent | src/service/index.py:106-116 | any sequence of `add_document` calls with distinct ids gives a consistent index holding exactly those ids, with `total_docs` their number |
| Inverted.DfIsDocumentCount | src/service/index.py:113-115 | in a consistent index, df of a term is its postings length and the number of documents whose tf contains it |
| Inverted.PostingsSizeIsSumOfDf | src/service/index.py:201 | `postings_size` equals the sum of df |
| Inverted.UnseenTermLookups | src/service/index.py:118-128 | an unseen term has no postings, df 0 and tf 0 everywhere |
| Inverted.UnseenTermMatchesNothing | src/service/index.py:145-149 | a query holding an unseen term matches no document |
| Inverted.ScoreAppend | src/service/index.py:162 | a document's score is additive over the query, duplicates included |
| Inverted.ScoreOfUnrelatedDocument | src/service/index.py:134-138 | a document with tf 0 for every query term scores 0 |
| Inverted.IdfFallsWithDf | src/service/index.py:130-132 | with a monotone `log10`, a higher df never gives a higher idf |
| Inverted.InsertByScore | src/service/index.py:165 | inserting into a list sorted by non-increasing score keeps it sorted and adds exactly that entry |
| Inverted.InsertKeepsDistinct | src/service/index.py:165 | inserting a new document keeps the ranked documents distinct |
| Inverted.SortByScore | src/service/index.py:165 | `sorted(scores.items(), key=score, reverse=True)` is sorted by non-increasing score and lists each scored document once, with its score |
| Inverted.SetToSeq | src/service/index.py:149 | `list(result)` holds each element of the set once |
| Inverted.SumOf | src/service/index.py:199 | the loop computes the sum of the dict's values |
| Inverted.InvertedIndex.GetPostings | src/service/index.py:118-120 | `[]` for a term never indexed, and as long as the term's df |
| Inverted.InvertedIndex.GetTermFrequency | src/service/index.py:122-124 | 0 for an unseen term or document |
| Inverted.InvertedIndex.GetDocumentFrequency | src/service/index.py:126-128 | 0 for an unseen term, and the postings length |
| Inverted.InvertedIndex.GetIdf | src/service/index.py:130-132 | defined exactly when `total_docs >= 1`, and then `log10(total_docs / (1 + df))` |
| Inverted.InvertedIndex.GetTfIdf | src/service/index.py:134-138 | defined exactly when `total_docs >= 1`, is tf·idf, and is 0 when tf is 0 |
| Inverted.InvertedIndex.Search | src/service/index.py:140-149 | without repeats, exactly the documents in the postings of every query term (none for `[]`) |
| Inverted.InvertedIndex.TouchedDocs | src/service/index.py:156-158 | the union of the posting documents of the query terms |
| Inverted.InvertedIndex.ScoreDocs | src/service/index.py:160-163 | each document's score is the sum over the query of tf·idf |
| Inverted.InvertedIndex.RankSearch | src/service/index.py:151-166 | `[]` for `[]`. Otherwise exactly the documents touching some query term, each once with its TF-IDF sum, sorted by non-increasing score |
| Inverted.InvertedIndex.GetStats | src/service/index.py:194-202 | document count, vocabulary size, mean length over `max(1, total_docs)` and postings total |
| Analyzer.Merge | src/service/index.py:217-229 | with no params, the defaults. Otherwise each option is the given value, or the default when missing |
| Analyzer.MergeOfDefaults | src/service/index.py:226-229 | passing `{}` or the full default table is the same as passing nothing |
| Analyzer.IndexedStream | src/service/index.py:244-249 | shingles are indexed whenever `create_shing` is set. Otherwise n-grams are indexed when `create_grams` is set, and otherwise the final tokens |
| Analyzer.StreamIds | src/service/index.py:233 | the documents are added in dict order, each id once |
| Analyzer.CorpusIndex | src/service/index.py:231-249 | the index built over the corpus is consistent and holds exactly the corpus's documents |
| Analyzer.CorpusDocuments | src/service/index.py:231-249 | the built index's documents are the corpus keys, and `total_docs` is the corpus size |
| Analyzer.AddStream | src/service/index.py:233-249 | the loop adds the processed documents in order |
| Analyzer.IndexAnalyzer.constructor | src/service/index.py:206-212 | a new analyzer holds the processor and documents, with no indices and no stats |
| Analyzer.IndexAnalyzer.IndexCorpus | src/service/index.py:231-249 | a fresh index built from the merged options over every document, `total_docs == len(documents)` |
| Analyzer.IndexAnalyzer.CreateIndex | src/service/index.py:214-257 | returns a fresh index built over the corpus, stored under `name` with exactly the stats `get_stats` reports for it (document count, vocabulary size, mean length, postings total), and nothing else changes |
| Analyzer.IndexAnalyzer.Store | src/service/index.py:251-252 | `indices[name]` and `stats[name]` are set from the index, the stats being exactly what `get_stats` reports for it, other names untouched |
| Loader.FileRecord | src/service/index.py:373-381 | a dict with `content` records its content; a string records the placeholder; anything else records nothing; the key is `date/subdir/file` |
| Loader.FilePairsMembers | src/service/index.py:372-381 | a subdirectory's records are exactly its files' records |
| Loader.SubdirPairsFails | src/service/index.py:371 | the date level raises exactly when some subdirectory value is not a dict |
| Loader.SubdirPairsMembers | src/service/index.py:371-381 | a date's records are exactly its subdirectories' records |
| Loader.DatePairsFails | src/service/index.py:370-371 | the top level raises exactly when some date value is not a dict or one of its subdirectories raises |
| Loader.DatePairsMembers | src/service/index.py:370-381 | the records are exactly those of every date |
| Loader.FlattenLookup | src/service/index.py:370-381 | the flat dict has exactly the recorded paths, each with the last content recorded; no `ipea` key gives `{}` |
| Loader.Index.constructor | src/service/index.py:349-351 | keeps the path and takes the documents, or `{}` when none |
| Loader.Index.LoadFromJson | src/service/index.py:353-389 | the documents become the flattened dict, or stay as they were when no path is set or anything raises |
| Loader.VariantStreams | src/service/index.py:405-428 | each variant's indexed stream: stemmed tokens for `básico` and `com_stemming`, kept tokens for `sem_stopwords`, bigrams and 1..3-shingles of the stemmed tokens |
| Loader.BasicIsStemmed | src/service/index.py:407-413 | `básico` and `com_stemming` index the same stream |
| Loader.CreateVariant | src/service/index.py:407 | one `create_index` call stores a fresh index built from its options |
| Loader.CreateEach | src/service/index.py:405-428 | the five `create_index` calls store five fresh, pairwise distinct indices, each built from its own options |
| Loader.CreateVariants | src/service/index.py:405-428 | after the calls the analyzer holds exactly the five variants, each fresh, no two names sharing an index, and built from its options |
| Loader.Analyze | src/service/index.py:405-430 | a fresh analyzer over the documents holding the five variants |
| Loader.Index.Start | src/service/index.py:391-430 | loads only when a path is set and there are no documents. Returns `None` exactly for an empty corpus. Raises `AttributeError` exactly when some content is not a string. Otherwise returns a fresh analyzer with the five built variants |
| Extract.SanitizeIsClean | src/service/extract.py:37-42 | a sanitised name has only ASCII letters, digits, `_`, `-`, `.`, `=`, no `__`, and no `_` at either end |
| Extract.SanitizeRuns | src/service/extract.py:37-42 | the sanitised name is the maximal runs of kept characters other than `_` of the ASCII form, in order, joined by single `_`: every stretch of other characters and `_` becomes one `_`, none at either end |
| Extract.SanitizeSeparatedPieces | src/service/extract.py:40-42 | one ASCII character outside the kept class (or `_`) between two pieces becomes one `_` (`"a b"` gives `"a_b"`) |
| Extract.SanitizeKeepsClean | src/service/extract.py:38-42 | a clean name is its own sanitised form |
| Extract.SanitizeIdempotent | src/service/extract.py:37-42 | sanitising twice equals sanitising once |
| Extract.FormatIsIso | src/service/extract.py:75 | `strftime("%Y-%m-%d")` of a valid date is a `YYYY-mm-dd` text that reads back as that date |
| Extract.ParseDate | src/service/extract.py:64-73 | a success is a valid date. Every failure is `ValueError`, as is any field with no `/`, no `.` and a length other than 4 |
| Extract.ConvertField | src/service/extract.py:64-75 | the result is a valid `YYYY-mm-dd` date or `ValueError` |
| Extract.ConvertDate | src/service/extract.py:60-75 | `IndexError` exactly when there is no `-`, and every result is a valid `YYYY-mm-dd` date |
| Extract.StripFieldOf | src/service/extract.py:62-63 | surrounding whitespace and trailing `T`s are dropped from the field |
| Extract.DateFieldOf | src/service/extract.py:62-63 | the field is the text between the first `-` and the next, stripped of whitespace and trailing `T`s |
| Extract.ParseDayMonthYearOf | src/service/extract.py:64-65 | `dd/mm/YYYY` reads as that date, or raises `ValueError` when the day is past the month's end or the year is 0 |
| Extract.ParseYearMonthOf | src/service/extract.py:66-67 | `YYYY.mm` reads as the first of that month, or raises `ValueError` for year 0 |
| Extract.ParseYearOf | src/service/extract.py:68-70 | a bare `YYYY` reads as 31 December of that year, or raises `ValueError` for year 0 |
| Extract.SlashBeforeDot | src/service/extract.py:64-67 | `/` is tested first: a field with both `/` and `.` raises and is never read as `YYYY.mm` |
| Extract.ConvertDayMonthYear | src/service/extract.py:60-75 | `x-dd/mm/YYYY` converts to `YYYY-mm-dd` of that date, or `ValueError` when the date is invalid |
| Extract.ConvertYearMonth | src/service/extract.py:60-75 | `x-YYYY.mm` converts to `YYYY-mm-01`, or `ValueError` for year 0 |
| Extract.ConvertYear | src/service/extract.py:60-75 | `x-YYYY` converts to `YYYY-12-31`, or `ValueError` for year 0 |

## Left out

- File and network I/O:
  - `save_index` and `load_index` (pickle), and the JSON file open, which is a parameter `read` that may fail;
  - the Selenium, S3 and thread-pool parts of the scraper;
  - `transform.py`, `convert.py`, `drive.py` and `app.py`.
- Timing (`time.time`) and the pickle size estimate in `create_index`. The `times` and `memory_usage` dicts are not modelled.
- `compare_indices` (plotting and printing), and `test_search` and `search_top_5` (query printing and truncation). None holds indexing logic. Note that the source normalises every query with the default options whatever the variant.
- All printing, including `load_from_json`'s messages, and the unused `doc_id` counter in `load_from_json`.
- The language resources are parameters, and nothing is proved about their internals:
  - nltk `word_tokenize` is modelled as a split on single blanks of the normalised text;
  - the RSLP stemmer;
  - the Portuguese stopword set;
  - the Unicode tables behind `str.lower` and NFKD.
- Floating point: `math.log10` is a parameter, and scores are reals rather than IEEE doubles.
- Inverted.InvertedIndex.RankSearch: no tie order is promised among equal scores; the source leaves it at set iteration order.
- Inverted.InvertedIndex.Search: the order of the returned list is not promised; the source leaves it at set iteration order.
- Analyzer.IndexAnalyzer.CreateIndex: `indices` and `stats` are maps without insertion order. The source's dicts remember the order in which variants were created, but nothing in the core reads that order.
- Inverted.InvertedIndex.AddDocument: validity preservation is stated on the specification (`AddDocumentValid`, `AddDocumentConsistent`), not as a class invariant on the method.
- Loader.Index.Start: the model checks that every content is a string before building any variant. The source raises during the first `create_index`; the outcome is the same, an exception and no analyzer.
- Extract.ConvertDate: `int()` in the bare-year branch also accepts a sign, `_` between digits, non-ASCII digits, and whitespace around the digits. `rstrip("T")` can expose such whitespace at the end of the field: `"x-202 T"` gives the field `"202 "`, which `int()` reads as 202. `strptime`'s `\d` also matches non-ASCII digits. The model treats all such fields as `ValueError`.
- Extract.FormatIsIso: years below 1000 are printed zero-padded to four digits, as Python documents `%Y`; some C libraries print them unpadded.
- Extract.SanitizeFilename: `\w` is modelled on the ASCII text that reaches it, which is the only text it sees after the ASCII filter.
- NormalizeTextChars: states only the classes and the origin of the output's characters; which characters survive, in what order, and where the blanks go is stated by `NormalizeTextRuns`.
- SanitizeIsClean: states only the shape of a sanitised name; which characters survive, in what order, and where the `_`s go is stated by `SanitizeRuns`.
