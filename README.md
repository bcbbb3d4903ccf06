# RAG toolkit record-keeping, modelled in Dafny

This project models the deterministic layer of a small retrieval-augmented
generation (RAG) toolkit. The embedding model, FAISS, pandas and the chat
clients are foreign code. Around them the toolkit keeps records, and that
record-keeping is what is modelled here:

- **Index store** (`VectorStore`, module `VectorStoreModel`). A named artifact
  is a `.index` vector file, a `_texts.json` file and an optional
  `_metadata.json` file in one index directory. The store filters blank
  texts while keeping metadata aligned, upserts (loads the existing artifact,
  appends the new CSV records, rewrites, reloads), loads, lists, inspects and
  deletes artifacts.
- **Search engine** (`VectorSearch`, module `VectorSearchModel`). It turns
  raw nearest-neighbour output into result records. This covers the
  threshold and bounds guard, negative FAISS padding positions, metadata
  attachment, the exact-match metadata post-filter, batch search with
  per-query isolation, and positional lookups.
- **QA layer** (`QA_RAG`, module `QaRag`). It keeps question/answer/score
  pairs and the current index name. It validates CSV columns, rebuilds pairs
  from texts and metadata, guards the operations that need an index, and
  counts statistics.
- **CSV orchestration** (module `CsvRag`). It derives index names, builds
  one engine per configuration, and searches several engines with per-item
  isolation.
- **Tools** (modules `ToolBase`, `Ranking`, `MatchTool`, `RetrievalTool`,
  `ToolRegistry`):
  - required-parameter validation and `get_definition`;
  - the result count, with its default and zero handling;
  - the stable descending sort, cut and strip of candidates, done in place
    on an array;
  - the keyword branch of `Match`;
  - removal of `required` flags from advertised definitions.
- **Tool-call dispatcher** (module `ToolCalls`). It runs each requested
  call, appends one `tool` message per call to the caller's conversation,
  and answers an unknown name with `ToolNotFound`.
- **Line cleanup** (module `LineCleanup`). It covers `process_file`, whose
  three copies are identical, and `group_lines`.

Foreign parts become parameters:

- **File system.** An `IndexDir` object holds the directory's files. Each
  file's content is a vector file (dimension plus the texts it embeds), a
  texts list, a metadata list, or something that does not parse.
- **Encoder plus FAISS search.** A function `Nearest` takes the embedded
  texts, the query and `k`. It returns `(score, position)` hits, or `None`
  where it raises. Scores are `real`, because the code only compares them.
- **A CSV file.** It is its path together with the `DataFrame` pandas reads
  from it, or `None` where the read raises.
- **JSON argument decoding** is given as a function.

Python's negative list indexing and `s[:n]` slicing are written out in
`PyLists`. String operations (`strip`, `lower`, `split`, `join`, `replace`,
`os.path` stems) are in `Text`. `Wrappers` holds `Option` and `Result`.

The model follows the code as written, including these quirks:

- `search_with_metadata_filter` still returns one match when `top_k <= 0`,
  because it breaks only after appending.
- Both tools sort an L2 distance in descending order, so they keep the
  farthest of the candidates FAISS returned.
- `Retrieval` reads its count from `reference_entry`, not from the declared
  `reference_entries`.
- The search guard checks only `similarity >= threshold` and
  `idx < len(kb_data)`, so a negative position whose score clears the
  threshold reads from the end of `kb_data`. FAISS pads missing neighbours
  with position `-1`; an inner-product index gives them the score
  `-FLT_MAX`, which fails the default threshold `0.0`. The `Nearest`
  parameter leaves scores and positions unconstrained, so the model covers
  any negative position with a passing score.
- `process_csv_for_rag` without a name upserts `<stem>_<column>` but then
  loads `<stem>`.
- `search_qa` with no index name loads an index called `None`.
- The custom column names of `add_qa_dataset` are not used when pairs are
  rebuilt on reload, which reads the fixed keys `answer` and `score`.
- The first quotation regex of `process_file` can never change its input.

## Model

| member | source | states |
|---|---|---|
| Text.TrimStartShape | utils/vector_store.py:113-114 | `lstrip()` removes a whitespace prefix and nothing else: the result is a suffix that is empty or starts with a non-space, and everything removed is whitespace |
| Text.TrimEndShape | utils/vector_store.py:113-114 | `rstrip()` removes a whitespace suffix and nothing else |
| Text.StripShape | utils/pdf_process.py:26 | every character of `strip()` comes from the input, and the result has no surrounding whitespace |
| Text.StripFixedPoint | utils/vector_store.py:113-114 | `strip()` is the identity exactly on strings without surrounding whitespace |
| Text.StripIdempotent | utils/vector_store.py:113-114 | stripping twice is stripping once |
| Text.HasNonSpaceIffStripNonEmpty | utils/vector_store.py:113 | `text and text.strip()` is truthy exactly when `strip()` leaves something |
| Text.Lower | tools/match.py:62 | `lower()` keeps the length |
| Text.Split | utils/pdf_process.py:25 | `split(sep)` always gives at least one piece, no piece contains the separator, and every character comes from the input |
| Text.JoinChars | utils/pdf_process.py:22 | every character of a join comes from a part or from the separator |
| Text.SplitAfterPiece | utils/pdf_process.py:25 | a separator-free piece followed by the separator splits off as one piece |
| Text.SplitWhole | utils/pdf_process.py:25 | a string without the separator splits into itself |
| Text.SplitJoin | utils/pdf_process.py:22-25 | splitting a join of separator-free parts gives the parts back |
| Text.ReplaceAbsent | utils/pdf_process.py:26 | replacing a character that does not occur changes nothing |
| Text.ReplaceChars | utils/pdf_process.py:26 | the characters of `replace(c, t)` come from the input (other than `c`) or from `t` |
| Text.RemoveChar | utils/pdf_process.py:26 | `re.sub(c, '', s)` leaves no `c`, adds no character, and is the identity when `c` is absent |
| Text.EmptyIsSubstring | tools/match.py:93 | the empty string is `in` every string |
| Text.LastIndexOf | utils/vector_store.py:86 | `rfind`: -1 or a position holding the character, with no later occurrence |
| Text.BaseName | utils/vector_store.py:86 | `basename` has no `/` |
| Text.Stem | utils/vector_store.py:86 | the stem has no `/` and is a prefix of the base name |
| PyLists.At | utils/vector_search.py:134 | Python `s[i]` on an index it accepts: position `i`, or `len+i` when negative |
| PyLists.SliceStop | tools/retrieval.py:74 | where `s[:n]` stops, for non-negative and negative `n` |
| PyLists.TakePrefix | tools/retrieval.py:74 | `s[:n]` is the prefix up to that stop |
| Storage.IndexDir.constructor | utils/vector_store.py:16 | the directory object holds the given path, presence and files |
| Storage.FileNamesDistinct | utils/vector_store.py:152-154 | the three file names of an artifact never collide, and two artifacts share a file only when they share the name |
| Storage.LoadArtifact | utils/vector_store.py:150-180 | a load that does not read the index returns False and changes nothing, and a True return means the index was read |
| Storage.LoadFacts | utils/vector_store.py:156-173 | without the `.index` file the load returns False and touches nothing; whether it succeeds, and the fields a success leaves, do not depend on what was loaded before |
| Storage.LoadTwice | utils/vector_search.py:80-104 | loading an artifact again from what a load left gives the same outcome and the same fields |
| Storage.WriteThenLoad | utils/vector_store.py:134-145 | loading a freshly written artifact yields exactly the texts and metadata written, whatever was loaded before |
| Storage.WriteKeepsOthers | utils/vector_store.py:134-145 | writing one artifact leaves every other artifact's load unchanged |
| Storage.Column | utils/vector_store.py:72 | `df[col].astype(str).tolist()` has one entry per row, the row's value |
| VectorStoreModel.KeptPositions | utils/vector_store.py:112-113 | the positions surviving the blank filter are exactly the non-blank ones, in increasing order |
| VectorStoreModel.ValidAt | utils/vector_store.py:112-118 | kept texts and kept metadata have equal length; entry `j` is the stripped text at the `j`-th kept position, with `metadata[i]` when it exists and `{}` otherwise |
| VectorStoreModel.ValidTextsAppend | utils/vector_store.py:112-114 | the blank filter distributes over concatenation, existing records first |
| VectorStoreModel.ValidMetadataAppend | utils/vector_store.py:112-118 | the metadata filter distributes over concatenation when the first part is aligned |
| VectorStoreModel.CleanPassesUnchanged | utils/vector_store.py:112-118 | stripped non-blank texts pass unchanged and keep their metadata |
| VectorStoreModel.CleanTextsUnchanged | utils/vector_store.py:112-114 | stripped non-blank texts pass the blank filter unchanged |
| VectorStoreModel.CleanMetadataUnchanged | utils/vector_store.py:112-118 | when every text survives, each keeps the metadata of its own position |
| VectorStoreModel.ValidTextsIdempotent | utils/vector_store.py:112-114 | filtering twice is filtering once |
| VectorStoreModel.FilterValid | utils/vector_store.py:109-118 | the filter loop builds exactly the kept texts and their aligned metadata |
| VectorStoreModel.RowMetadata | utils/vector_store.py:74-77 | one record per CSV row, holding exactly the requested columns that exist, with that row's values |
| VectorStoreModel.Extracted | utils/vector_store.py:67-78 | an unreadable CSV and a missing text column raise; otherwise the texts are the column, and the metadata is empty exactly when no columns were requested or there are no rows, else one record per row |
| VectorStoreModel.ExtractTextsAndMetadata | utils/vector_store.py:67-78 | the extraction loop computes `Extracted` |
| VectorStoreModel.Padded | utils/vector_store.py:100 | `new_metadata or [{}] * len(new_texts)` |
| VectorStoreModel.UpsertLoadsCombined | utils/vector_store.py:80-104 | a successful upsert writes and reloads the filtered concatenation of the existing records and the new ones, under the default or given name; a failed one writes nothing |
| VectorStoreModel.ValidTextsClean | utils/vector_store.py:113-114 | every kept text is stripped and non-blank |
| VectorStoreModel.CleanPrefixAppend | utils/vector_store.py:99-118 | records that already passed the filter stay, unchanged, in front of the new ones |
| VectorStoreModel.UpsertFresh | utils/vector_store.py:89-121 | an upsert under a name without an artifact succeeds iff the CSV yields some non-blank text, and then writes exactly the filtered new records |
| VectorStoreModel.UpsertOntoLoaded | utils/vector_store.py:89-102 | an upsert onto a loaded artifact keeps its records first, then the filtered new ones |
| VectorStoreModel.UpsertTwice | utils/vector_store.py:80-104 | two upserts of A then B under one fresh name leave A's records followed by B's, each text with its own metadata |
| VectorStoreModel.UpsertKeepsOthers | utils/vector_store.py:80-104 | an upsert leaves every other artifact's load unchanged |
| VectorStoreModel.IndexInfoOf | utils/vector_store.py:182-215 | `get_index_info` reports existence, the vector dimension and count (both present exactly when the index reads, with the stored values), the text count iff the texts file reads, and metadata presence |
| VectorStoreModel.VectorStore.constructor | utils/vector_store.py:16 | empty fields, and the index directory exists |
| VectorStoreModel.VectorStore.LoadIndex | utils/vector_store.py:150-180 | returns and assigns what `LoadArtifact` gives for the current files |
| VectorStoreModel.VectorStore.CreateVectorIndex | utils/vector_store.py:106-148 | raises exactly when nothing survives the filter, then before writing; otherwise writes the filtered artifact and returns its `.index` path |
| VectorStoreModel.VectorStore.UpsertCsvToVectorStore | utils/vector_store.py:80-104 | result, files and fields are those of the upsert over the old state |
| VectorStoreModel.VectorStore.ListIndices | utils/vector_store.py:217-229 | `[]` for a missing directory, otherwise one entry per distinct file ending in `.index`, named by dropping those 6 characters, with that name's info |
| VectorStoreModel.VectorStore.DeleteIndex | utils/vector_store.py:231-248 | removes whichever of the three files exist and returns True |
| VectorStoreModel.DeleteIdempotent | utils/vector_store.py:238-245 | deleting twice is deleting once, and a deleted artifact no longer loads |
| VectorSearchModel.Passing | utils/vector_search.py:131-132 | the hits that pass the guard, in FAISS order: all of them and only them |
| VectorSearchModel.FormatHit | utils/vector_search.py:132-143 | one iteration raises exactly for a passing hit Python cannot index; otherwise it yields a record iff the hit passes, with content, similarity, index and metadata iff `idx < len(metadata)` |
| VectorSearchModel.Format | utils/vector_search.py:130-145 | the loop raises iff some hit faults; otherwise one record per passing hit, in order |
| VectorSearchModel.FormatErrStops | utils/vector_search.py:130-145 | once a prefix of the hits raises, the whole loop raises with the same error |
| VectorSearchModel.FormatStep | utils/vector_search.py:130-145 | one more hit extends the formatted prefix by that hit's record, nothing, or its `IndexError` |
| VectorSearchModel.FormatLoop | utils/vector_search.py:130-145 | the loop appending result dicts in place computes exactly the formatted hits, or the first `IndexError` |
| VectorSearchModel.SearchResultsSound | utils/vector_search.py:119-145 | every result clears the threshold, comes from a hit, has `-len(kb_data) <= idx < len(kb_data)` (no lower bound beyond Python's own), content `kb_data[idx]` as Python indexes it, and metadata iff `idx < len(metadata)`; never more results than hits |
| VectorSearchModel.AlignedSearchTotal | utils/vector_search.py:131-143 | with aligned metadata and non-negative positions the search never raises and every passing hit appears with its metadata |
| VectorSearchModel.Matching | utils/vector_search.py:165-174 | never more matches than results |
| VectorSearchModel.MatchingMembers | utils/vector_search.py:165-174 | every match is a result whose metadata holds every filter key with an equal value, and every such result is a match |
| VectorSearchModel.MatchingStep | utils/vector_search.py:165-174 | looking at one more result appends it exactly when its metadata matches the filter |
| VectorSearchModel.MatchingPrefix | utils/vector_search.py:165-176 | filtering a prefix gives a prefix of the filtered whole |
| VectorSearchModel.FirstMatching | utils/vector_search.py:164-177 | the kept results are a prefix of the matches, at most `max(top_k, 1)`, and fewer only when matches run out |
| VectorSearchModel.FirstMatchingStops | utils/vector_search.py:175-176 | once the limit is reached the loop's prefix is the answer |
| VectorSearchModel.MetadataMatches | utils/vector_search.py:167-171 | the inner loop answers True iff every filter key is present with an equal value |
| VectorSearchModel.KeepFirstMatching | utils/vector_search.py:164-178 | the filtering loop computes `FirstMatching` |
| VectorSearchModel.EmptyFilterKeepsResultsWithMetadata | utils/vector_search.py:166 | an empty filter keeps exactly the results that carry metadata |
| VectorSearchModel.TextAt | utils/vector_search.py:252-262 | `get_text_by_index` is `None` outside `[0, len(kb_data))`, else the text, its index, and metadata iff `i < len(metadata)` |
| VectorSearchModel.SearchAgreesWithTextAt | utils/vector_search.py:131-143 | a search result at a non-negative position is the entry `get_text_by_index` gives there |
| VectorSearchModel.FreshArtifactConsistent | utils/vector_store.py:134-145 | a freshly written artifact loads with as many vectors, texts and metadata records, and the vectors embed the texts |
| VectorSearchModel.VectorSearch.constructor | utils/vector_search.py:14 | empty fields and no current index name |
| VectorSearchModel.VectorSearch.LoadIndex | utils/vector_search.py:66-105 | as the store's load, and it records the name once the index is read |
| VectorSearchModel.VectorSearch.Search | utils/vector_search.py:107-145 | raises without an index, otherwise formats the FAISS hits for `top_k` |
| VectorSearchModel.VectorSearch.SearchWithMetadataFilter | utils/vector_search.py:147-178 | searches with `top_k = len(kb_data)` and keeps `FirstMatching` of the results, or raises as that search does |
| VectorSearchModel.VectorSearch.BatchSearch | utils/vector_search.py:180-202 | one key per distinct query, each its own search's results or `[]` where that search raised |
| VectorSearchModel.VectorSearch.GetAllTexts | utils/vector_search.py:264-282 | `len(kb_data)` entries, entry `i` being what `get_text_by_index(i)` returns |
| QaRag.MissingOf | utils/qa_rag.py:44-45 | the missing columns are the requested ones absent from the CSV, in request order, and none iff all are present |
| QaRag.MissingColumnsOrder | utils/qa_rag.py:44-47 | the list names question, answer and score in that order |
| QaRag.ZipPairs | utils/qa_rag.py:50-55 | one pair per row, from that row's three columns |
| QaRag.RebuildPairs | utils/qa_rag.py:126-131 | `min(len(kb_data), len(metadata))` pairs, pair `i` being the text with `get('answer','')` and `get('score','')` |
| QaRag.RebuildAppend | utils/qa_rag.py:126-131 | rebuilding distributes over aligned concatenation |
| QaRag.QaFormat | utils/qa_rag.py:158-167 | raises iff a result lacks metadata; otherwise one QA record per result, in order, with `question = content` |
| QaRag.FormatQaResults | utils/qa_rag.py:158-169 | the formatting loop returns exactly `QaFormat` of the results, stopping at the first result without metadata |
| QaRag.SearchQaIgnoresPriorState | utils/qa_rag.py:151-155 | the outcome does not depend on what the engine held before, since it reloads first |
| QaRag.SearchQaAgreesWithPairs | utils/qa_rag.py:151-167 | each QA result at a non-negative position is the pair the reload rebuilds at that position |
| QaRag.CountParsing | utils/qa_rag.py:284-291 | `0 <= valid_scores <= total`, all iff every score parses, none iff none does |
| QaRag.SingleRowExtracted | utils/qa_rag.py:243-259 | the one-row table gives the question as text and `{answer, score}` as metadata |
| QaRag.AddPairAppends | utils/qa_rag.py:252-263 | adding a clean question to a loaded aligned artifact appends exactly that pair to the rebuilt pairs |
| QaRag.AddPairUpserts | utils/qa_rag.py:252-263 | the upsert of the one-row temporary CSV succeeds and appends the question and its `{answer, score}` record to the loaded records |
| QaRag.SingleRow | utils/qa_rag.py:243-247 | the temporary table has the three columns and one row |
| QaRag.QaExtracted | utils/qa_rag.py:65-70 | the store extracts a clean QA dataset as its questions with one `{answer, score}` record per row, and both pass the blank filter unchanged |
| QaRag.QaUpsertFresh | utils/qa_rag.py:65-70 | upserting a clean dataset under a fresh name stores the questions with `{answer, score}` records |
| QaRag.RebuildOfRows | utils/qa_rag.py:126-131 | rebuilding from the stored questions and records gives the dataset's own pairs |
| QaRag.AddThenLoadRoundTrip | utils/qa_rag.py:112-134 | after `add_qa_dataset` of a clean dataset, `load_qa_index` rebuilds exactly the pairs it stored |
| QaRag.RebuildExtend | utils/qa_rag.py:127-131 | one more text adds a pair exactly when a metadata record exists at its position |
| QaRag.RebuildExtendPaired | utils/qa_rag.py:127-131 | a text with a metadata record at its position appends its pair |
| QaRag.RebuildExtendUnpaired | utils/qa_rag.py:127-131 | a text past the last metadata record adds no pair |
| QaRag.CollectPairs | utils/qa_rag.py:126-131 | the reconstruction loop computes `RebuildPairs` |
| QaRag.QaRag.constructor | utils/qa_rag.py:15-19 | a store and an engine on one directory, no pairs and no name |
| QaRag.QaRag.AddQaDataset | utils/qa_rag.py:21-72 | an unreadable CSV, or missing columns (named in order), raise before any change to the pairs, the name, the store or its files; otherwise the pairs and name are set, and the store's files and fields are the upsert's |
| QaRag.QaRag.LoadQaIndex | utils/qa_rag.py:112-134 | on success the name and the rebuilt pairs; on failure both stay as they were |
| QaRag.QaRag.SearchQa | utils/qa_rag.py:136-169 | reloads the current name, raising when that fails, then searches and formats; the engine then holds what the reload left, its current name set only when the reload read the index file, and the QA layer's index name is unchanged |
| QaRag.QaRag.GetQaByIndex | utils/qa_rag.py:171-183 | `None` outside `[0, len(qa_pairs))`, else that pair |
| QaRag.QaRag.GetAllQaPairs | utils/qa_rag.py:184-192 | the copy holds at each position the pair `get_qa_by_index` returns there, and indexing fails just past its end |
| QaRag.QaRag.UpdateQaDataset | utils/qa_rag.py:194-225 | raises without an index name and changes nothing; otherwise upserts into the current index, and when the upsert raises leaves the engine and the pairs as they were; when it succeeds reloads the engine and the pairs; the index name never changes |
| QaRag.QaRag.AddQaPair | utils/qa_rag.py:227-270 | raises without an index name and changes nothing; otherwise upserts the one-row table and reloads the engine and the pairs, or returns False leaving the engine and the pairs as they were where the upsert raised; the index name never changes |
| QaRag.QaRag.GetStatistics | utils/qa_rag.py:272-302 | the error record for no pairs; otherwise the total, the count of parsing scores, the name, and `index_loaded` iff a name is set |
| QaRag.BatchSearchQa | utils/qa_rag.py:358-382 | one key per distinct query, each its own `search_qa` results or `[]` where it raised; without queries the engine is untouched, otherwise it holds what one reload of the current name leaves, with its current name set iff that reload read the index file |
| CsvRag.ExplicitNameAgrees | utils/csv_utils.py:30-42 | with an explicit non-empty name the upserted and loaded names agree |
| CsvRag.DefaultNamesDiffer | utils/csv_utils.py:41 | without a name the upsert writes `<stem>_<column>` but the load asks for `<stem>` |
| CsvRag.ExplicitNameRoundTrip | utils/csv_utils.py:30-43 | with an explicit name a successful upsert is followed by a successful load of exactly the records stored |
| CsvRag.DefaultNameLoadsStaleArtifact | utils/csv_utils.py:41-45 | without a name the final load sees only what was on disk under `<stem>` before |
| CsvRag.ProcessCsvForRag | utils/csv_utils.py:8-45 | a fresh store upserts, a fresh engine loads the final name, raising `RuntimeError` when that load fails |
| CsvRag.UpdateExistingRagWithCsv | utils/csv_utils.py:48-80 | upserts with a fresh store; when the upsert raises the engine is untouched, otherwise the engine reloads the name, taking its current name iff the index file was read, and is returned itself |
| CsvRag.ExplicitConfigSucceeds | utils/csv_utils.py:30-45 | with an explicit name, processing yields an engine exactly when its upsert succeeds, holding what the upsert stored |
| CsvRag.StepsAt | utils/csv_utils.py:98-121 | the `i`-th configuration is processed over the files the configurations before it left |
| CsvRag.StepsSnoc | utils/csv_utils.py:98-121 | processing one more configuration extends the files and the steps by that configuration's outcome |
| CsvRag.TryProcess | utils/csv_utils.py:106-121 | writes the files `process_csv_for_rag` writes; an engine exactly when processing does not raise, fresh, on the directory, holding what the load left, under the final name |
| CsvRag.Names | utils/csv_utils.py:115 | one final name per configuration |
| CsvRag.KeyedCovers | utils/csv_utils.py:115-116 | every engine's final name is a key of the registry |
| CsvRag.LastWriterExtends | utils/csv_utils.py:115-116 | the last writer of a name stays so when a later entry does not write it |
| CsvRag.KeyedLastWriter | utils/csv_utils.py:115-116 | each key holds the engine of the last entry with that name that produced one |
| CsvRag.KeyedSnoc | utils/csv_utils.py:115-116 | registering one more engine adds or replaces its name and nothing else |
| CsvRag.AllYieldSnoc | utils/csv_utils.py:98-121 | a configuration that yielded its engine keeps every configuration so far yielding |
| CsvRag.BatchProcessCsvFiles | utils/csv_utils.py:83-123 | the files end as the configurations' outcomes in order leave them; configuration `i` yields an engine exactly when processing it over the files before it succeeds, holding what its load left; the registry keys each engine by its final name, the last such configuration winning |
| CsvRag.SearchAcrossMultipleRags | utils/csv_utils.py:126-152 | exactly the keys of the systems, each its own search's results or `[]` where it raised |
| Ranking.Insert | tools/retrieval.py:73 | inserting adds exactly one element |
| Ranking.SortDesc | tools/retrieval.py:73 | the sort keeps the length |
| Ranking.InsertAt | tools/retrieval.py:73 | where an element lands in a descending sequence |
| Ranking.InsertSorted | tools/retrieval.py:73 | insertion keeps a sequence descending |
| Ranking.SortDescSorted | tools/retrieval.py:73 | the result is in descending order of relevance |
| Ranking.InsertPermutes | tools/retrieval.py:73 | insertion adds the element to the multiset and nothing else |
| Ranking.SortDescPermutes | tools/retrieval.py:73 | the sort is a permutation |
| Ranking.WithRelevanceAppend | tools/retrieval.py:73 | equal-relevance selection distributes over concatenation |
| Ranking.InsertStable | tools/retrieval.py:73 | insertion puts a new element after the earlier ones of equal relevance |
| Ranking.SortDescStable | tools/retrieval.py:73 | the sort is stable: equal relevances keep their order |
| Ranking.KeptDominateDropped | tools/retrieval.py:73-74 | `[:max_results]` after the sort keeps the sorted prefix, and no dropped candidate ranks above a kept one |
| Ranking.InsertInPlace | tools/retrieval.py:73 | one in-place insertion step on the array |
| Ranking.SortByRelevanceDesc | tools/match.py:84 | the in-place sort leaves the array equal to `SortDesc` of its old contents |
| ToolBase.RequiredNamesMembers | tools/match.py:126-127 | a name is listed as required iff some declaration of it is flagged required |
| ToolBase.MissingIsRequiredAbsent | tools/match.py:99-102 | the missing parameters are the required names, in declaration order, that are absent |
| ToolBase.NoneMissingIff | tools/match.py:99-104 | nothing is missing iff every required name was passed |
| ToolBase.CollectMissing | tools/retrieval.py:83-86 | the loop computes the missing names |
| ToolBase.CallContract | tools/match.py:98-115 | `MissingParameters` iff a required parameter is absent, naming exactly those and not running `_execute`; otherwise `{"result": _execute(...), "status": "success"}` |
| ToolBase.DefinitionContract | tools/match.py:117-130 | the definition is a function of type object whose properties are the parameters unchanged and whose `required` lists the flagged names in order |
| ToolBase.ReferenceCount | tools/match.py:63-65 | absent gives the default, and a zero count is replaced by the default |
| ToolBase.HitCandidates | tools/retrieval.py:66-71 | one candidate per hit, in order, with its distance as relevance; raises iff some position cannot be indexed |
| ToolBase.BuildCandidates | tools/retrieval.py:66-71 | the append loop computes `HitCandidates` |
| ToolBase.HitCandidatesPrefix | tools/retrieval.py:66-71 | a position that raises in a prefix raises for the whole list |
| ToolBase.Payloads | tools/retrieval.py:76-77 | deleting `relevance` keeps one entry per candidate |
| ToolBase.RankedEntriesFromCandidates | tools/retrieval.py:73-77 | the entries are at most `max_results` (`s[:n]` length) and each is some candidate's payload |
| ToolBase.RankAndCut | tools/match.py:84-88 | sort in place, cut and strip compute the ranked entries |
| MatchTool.DefaultRequired | tools/match.py:12-25 | both default parameters are required, in declaration order |
| MatchTool.Repeat | tools/match.py:92-94 | an item appended `n` times |
| MatchTool.KeywordMatchesFacts | tools/match.py:90-94 | the keyword branch raises iff an item's attribute is not a string; otherwise it yields only knowledge-base items, and every item with a matching word is among them |
| MatchTool.KeywordRaises | tools/match.py:90-94 | the keyword branch raises iff some item's attribute is not a string |
| MatchTool.KeywordSound | tools/match.py:90-94 | everything the keyword branch returns is an item of the knowledge base |
| MatchTool.KeywordComplete | tools/match.py:90-94 | every item with a word found in the key word is among what the keyword branch returns |
| MatchTool.WordHitsFacts | tools/match.py:92-93 | a one-word attribute matches once iff it occurs in the key word; an empty word always matches |
| MatchTool.KeywordScan | tools/match.py:91-94 | the nested loops compute `KeywordMatches` |
| MatchTool.ExecErrorIffEmptyKeyWord | tools/match.py:62-68 | the error dict iff the lower-cased key word is empty |
| MatchTool.EmbeddedChoice | tools/match.py:74 | only `description` selects the description index |
| MatchTool.SpecialContract | tools/match.py:73-88 | over the `max_results + 2` hits: raises iff a position cannot be indexed; otherwise `s[:max_results]` of them, each `{"content": item}` for a knowledge-base item |
| MatchTool.RankedContentEntries | tools/match.py:73-88 | every ranked entry is `{"content": item}` for an item of the knowledge base |
| MatchTool.KeywordIgnoresCount | tools/match.py:90-94 | the keyword branch ignores `reference_entry` and the indexes |
| MatchTool.Execute | tools/match.py:61-95 | `_execute` with the in-place sort computes `ExecuteOutcome` |
| MatchTool.Call | tools/match.py:98-115 | `call` is `CallOutcome` over `_execute` |
| MatchTool.DefaultCallAndDefinition | tools/match.py:98-130 | with default parameters the definition requires both, and `call` reports exactly the absent ones |
| RetrievalTool.DefaultRequired | tools/retrieval.py:9-19 | only `query` is required by default |
| RetrievalTool.Search | tools/retrieval.py:47-50 | searches with `topK`, or 5 when it is falsy |
| RetrievalTool.SearchDefaultsToFive | tools/retrieval.py:49-50 | `None`, 0 and 5 search alike and the positions are the hits', in order |
| RetrievalTool.ExecErrorIffEmptyQuery | tools/retrieval.py:54-60 | the error dict iff the lower-cased query is empty |
| RetrievalTool.DeclaredCountIgnored | tools/retrieval.py:55 | the declared `reference_entries` has no effect on the result |
| RetrievalTool.ResultsContract | tools/retrieval.py:63-79 | a non-empty query yields `s[:max_results]` of the `max_results + 5` candidates, each `{"id": i, "content": kb_data[i]}` for a hit `i`; a bad position raises |
| RetrievalTool.Execute | tools/retrieval.py:53-79 | `_execute` with the in-place sort computes `ExecuteOutcome` |
| RetrievalTool.Call | tools/retrieval.py:82-99 | `call` is `CallOutcome` over `_execute` |
| RetrievalTool.DefaultCallAndDefinition | tools/retrieval.py:82-114 | with default parameters the definition requires `query`, and `call` reports `MissingParameters` exactly when `query` is absent |
| ToolRegistry.CallTool | tools/__init__.py:8-12 | dispatches `call` to the tool stored in the registry |
| ToolRegistry.Names | tools/__init__.py:28 | one key per registry entry |
| ToolRegistry.LookupFinds | tools/__init__.py:8-12 | a name finds a tool iff it is a key, and then the tool stored under it |
| ToolRegistry.DefaultRegistryLookup | tools/__init__.py:8-12 | the registry offers exactly `Retrieval` and `Match` |
| ToolRegistry.StripProperties | tools/__init__.py:19-21 | one property per input property |
| ToolRegistry.StripAll | tools/__init__.py:15-22 | one definition per input definition |
| ToolRegistry.StripContract | tools/__init__.py:15-22 | no property keeps `required`; other keys, names, order and the parameters-level `required` array are unchanged |
| ToolRegistry.StripIdempotent | tools/__init__.py:15-22 | stripping twice is stripping once |
| ToolRegistry.RemoveRequiredFromProperties | tools/__init__.py:15-22 | the nested loops on a copy compute `StripAll`, leaving the input as it was |
| ToolRegistry.Definitions | tools/__init__.py:26-29 | one definition per registry entry |
| ToolRegistry.InitTools | tools/__init__.py:25-30 | `init_tools` strips the definitions collected in registry order |
| ToolRegistry.InitToolsContract | tools/__init__.py:25-30 | each definition still lists its tool's required names but no property carries `required` |
| ToolCalls.Conversation.constructor | utils/toolscalls_process.py:15 | the history holds the given messages |
| ToolCalls.StepContract | utils/toolscalls_process.py:19-57 | a missing `function` or `arguments` parses as `{}`; an unknown name gives `ToolNotFound` and runs nothing; a known name records the tool's result, the same in the entry and in the message, whose id is the call's or `""` |
| ToolCalls.BatchContract | utils/toolscalls_process.py:19-57 | one entry and one message per call, in call order, all calls unless one raised |
| ToolCalls.RaisedStops | utils/toolscalls_process.py:19-24 | once a call raised the later calls are not processed |
| ToolCalls.ProcessToolCalls | utils/toolscalls_process.py:15-59 | the history gains exactly the batch's messages after its old entries; returns the processed calls iff nothing raised |
| LineCleanup.PiecesHaveNoBreak | utils/pdf_process.py:21 | no piece contains a line break |
| LineCleanup.CloseAt | utils/pdf_process.py:24 | the lazy match closes at the first `”` reached through allowed characters |
| LineCleanup.FirstQuotePassIsIdentity | utils/pdf_process.py:23 | the first quotation substitution never changes its input |
| LineCleanup.MatchHasNoBreak | utils/pdf_process.py:23 | a match of the first quotation pattern holds no newline, so its replacement leaves it alone |
| LineCleanup.QuoteSubWithoutQuotes | convert.py:26-27 | without an opening `“` neither substitution matches |
| LineCleanup.CleanLineChars | utils/convert.py:28 | a cleaned line has no `s` and only characters of the input |
| LineCleanup.CleanAll | utils/pdf_process.py:26 | one cleaned line per line |
| LineCleanup.NonEmptyFacts | utils/pdf_process.py:27 | the filter keeps exactly the non-empty lines, and every line when none is empty |
| LineCleanup.ProcessFileShape | utils/pdf_process.py:20-28 | no output line is empty, contains `s` or contains a line break |
| LineCleanup.ProcessFileKeepsCleanLines | convert.py:20-35 | non-empty stripped lines without `s`, `。`, `“` or line breaks come out unchanged |
| LineCleanup.PiecesOfCleanLines | utils/convert.py:19 | lines without `。` or line breaks are their own pieces |
| LineCleanup.GroupsCount | utils/pdf_process.py:31-36 | `ceil(len(lines) / g)` groups |
| LineCleanup.GroupsAt | utils/pdf_process.py:33-34 | group `k` is `' '.join(lines[k*g : k*g+g])` |
| LineCleanup.GroupsRejoin | utils/pdf_process.py:33-35 | joining the groups gives the lines joined |
| LineCleanup.JoinAppend | utils/pdf_process.py:34 | joining a concatenation of two non-empty lists |
| LineCleanup.GroupLines | utils/pdf_process.py:31-36 | the loop raises for size 0 (the `range` step), gives `[]` for a negative size, and otherwise the groups |

## Left out

- Model loading with its fallbacks (`_load_model_safely`) is foreign construction. The encoder's output dimension is a parameter.
- Embedding, `normalize_L2`, FAISS index construction and search are floating-point work in foreign libraries. They are the `Nearest` parameter, which gives `(score, position)` hits or raises.
- `get_similarity_score` is left out: it is only a dot product of foreign embeddings.
- `get_index_statistics` is a pure read of the current fields. It is modelled as `StatisticsOf` without a contract of its own.
- `QaRag.QaRag.GetStatistics`: does not compute `average_score`, which is float parsing and division. Whether a score parses is a parameter.
- pandas CSV reading and writing, JSON file I/O and `os.path` are modelled as a directory of typed file contents and tables. A JSON file that does not decode to the expected list is a file that does not parse.
- `QaRag.QaRag.AddQaPair`: treats the temporary CSV write and read as lossless, and does not model the file's removal.
- `export_qa_dataset`, `add_qa_list` and `create_qa_dataset_from_csv` are left out: they write or read CSV files and call the modelled operations.
- `get_pdf_text`, `bert_chunk`, `create_vector_index` in convert.py, the tool constructors, `create_kb` and `create_jsonkb` are left out: they load documents and models.
- `default_dump` and `json.dumps` are left out. A tool message's content is kept as the result itself, not its serialisation.
- Printing is left out.
- `Text.Lower`: lower-cases ASCII letters only.
- JSON numbers are integers here, so a float `reference_entry` such as `2.0` is not modelled.
- A knowledge-base item of `Match` that is not an object fails `FieldText` like a missing attribute does.
- A tool name that is not a string, and arguments that decode to something other than an object, are not modelled.
- `RetrievalTool.Search`: gives the positions of the hits. It does not model that `encode(query)` on a bare string yields a 1-D array for FAISS.
- `VectorStoreModel.VectorStore.ListIndices`: the directory's listing order is unspecified in the source. It is a ghost output rather than a fixed order.
- `ToolCalls.ProcessToolCalls`: a `function`, `arguments` or `id` key present with the JSON value `null` is modelled as absent. In the source a null `function` raises `AttributeError`, null `arguments` raise `TypeError` in `json.loads`, and a null `id` gives a message whose `tool_call_id` is `None`; the model instead reports an unnamed tool as not found, parses the arguments as `{}`, and uses the id `""`.
- All exceptions from the tools are one value, `Raises`, so which exception type escapes is not modelled.
- The configuration `KeyError` for a missing `path` or `text_column` in `batch_process_csv_files` is not modelled: a configuration is a record with those fields.
- The tool registry is given as an input. The import names in tools/__init__.py refer to modules that are not part of this model.
- Concurrency and file-system races are not modelled.
- `VectorStoreModel.VectorStore.DeleteIndex`: always returns True and removes all of the artifact's files. A failing `os.remove` and the `except` path returning False are not modelled, because the directory model has no failing removal.
- Metadata records (`Storage.Metadata`) map strings to strings, so a metadata filter with a non-string value such as `{"score": 5}` cannot be expressed; CSV cells are read as their text.
- `VectorSearchModel.SearchResultsSound`: bounds the results by `top_k` only when the vector search returns at most `top_k` hits, because `Nearest` is not constrained to FAISS's `k` rows.
