/** `QA_RAG` from utils/qa_rag.py: question/answer/score datasets indexed by
    their questions, with the pairs kept beside the store and the search
    engine that share one index directory. */
module QaRag {
  import opened Wrappers
  import opened Text
  import opened Storage
  import opened VectorStoreModel
  import opened VectorSearchModel

  /** One `(question, answer, score)` tuple. */
  datatype QaPair = QaPair(question: string, answer: string, score: string)

  /** One dictionary `search_qa` returns. */
  datatype QaResult = QaResult(question: string, answer: string, score: string, similarity: real, index: int)

  /** The exceptions the QA layer raises or passes on. */
  datatype QaError =
    | QaCsvUnreadable
    | MissingColumns(columns: seq<string>)
    | StoreFailed(storeError: StoreError)
    | NoQaIndex
    | SearchFailedWith(searchError: SearchError)
    | MissingMetadata
    | NoExistingIndex

  /** `meta.get(key, '')`. */
  function Get(meta: Metadata, key: string): string {
    if key in meta then meta[key] else ""
  }

  /** `if not self.index_name`: `None` and `""` both count as unset. */
  predicate NameSet(indexName: Option<string>) {
    indexName.Some? && indexName.value != ""
  }

  /** The name `f"{self.index_name}.index"` loads: Python formats `None` as `"None"`. */
  function LoadedName(indexName: Option<string>): string {
    if indexName.None? then "None" else indexName.value
  }

  /** The requested columns absent from the CSV, in request order (duplicates kept). */
  function MissingOf(required: seq<string>, columns: seq<string>): (r: seq<string>)
    ensures forall k :: 0 <= k < |r| ==> r[k] in required && r[k] !in columns
    ensures forall c :: c in required && c !in columns ==> c in r
    ensures r == [] <==> forall c :: c in required ==> c in columns
  {
    if required == [] then []
    else (if required[0] in columns then [] else [required[0]]) + MissingOf(required[1..], columns)
  }

  /** The missing-column list names question, answer and score in that order. */
  lemma MissingColumnsOrder(q: string, a: string, s: string, columns: seq<string>)
    ensures MissingOf([q, a, s], columns)
         == (if q in columns then [] else [q]) + (if a in columns then [] else [a]) + (if s in columns then [] else [s])
  {
    var x, y, z := (if q in columns then [] else [q]), (if a in columns then [] else [a]), (if s in columns then [] else [s]);
    var l0 := [q, a, s];
    var l1 := l0[1..];
    var l2 := l1[1..];
    assert l0[0] == q && l1[0] == a && l2[0] == s && |l2[1..]| == 0;
    assert MissingOf(l2, columns) == z + [] == z;
    assert MissingOf(l1, columns) == y + z;
    assert MissingOf(l0, columns) == x + (y + z);
    ConcatAssoc(x, y, z);
  }

  /** Concatenation regroups. */
  lemma ConcatAssoc<T>(x: seq<T>, y: seq<T>, z: seq<T>)
    ensures x + (y + z) == x + y + z
  {
  }

  /** `list(zip(questions, answers, scores))` of a CSV holding all three columns. */
  function ZipPairs(df: DataFrame, q: string, a: string, s: string): (r: seq<QaPair>)
    requires q in df.columns && a in df.columns && s in df.columns
    ensures |r| == |df.rows|
    ensures forall i :: 0 <= i < |r| ==> r[i] == QaPair(df.rows[i][q], df.rows[i][a], df.rows[i][s])
  {
    seq(|df.rows|, i requires 0 <= i < |df.rows| => QaPair(df.rows[i][q], df.rows[i][a], df.rows[i][s]))
  }

  /** The name `add_qa_dataset` uses: the given one, or the CSV's stem with `_qa`. */
  function QaIndexName(csvPath: string, indexName: Option<string>): string {
    if indexName.None? then Stem(csvPath) + "_qa" else indexName.value
  }

  /** The pairs `load_qa_index` rebuilds: one per position that has both a text
      and a metadata record, the answer and score read under the fixed keys. */
  function RebuildPairs(kb: seq<string>, meta: seq<Metadata>): (r: seq<QaPair>)
    ensures |r| == if |kb| < |meta| then |kb| else |meta|
    ensures forall i :: 0 <= i < |r| ==> r[i] == QaPair(kb[i], Get(meta[i], "answer"), Get(meta[i], "score"))
  {
    if kb == [] || meta == [] then []
    else [QaPair(kb[0], Get(meta[0], "answer"), Get(meta[0], "score"))] + RebuildPairs(kb[1..], meta[1..])
  }

  /** Rebuilding distributes over aligned concatenation. */
  lemma RebuildAppend(kb: seq<string>, meta: seq<Metadata>, kb2: seq<string>, meta2: seq<Metadata>)
    requires |kb| == |meta|
    ensures RebuildPairs(kb + kb2, meta + meta2) == RebuildPairs(kb, meta) + RebuildPairs(kb2, meta2)
  {
    var l, r1, r2 := RebuildPairs(kb + kb2, meta + meta2), RebuildPairs(kb, meta), RebuildPairs(kb2, meta2);
    assert |l| == |r1| + |r2|;
    forall i | 0 <= i < |l| ensures l[i] == (r1 + r2)[i] {
      if i < |kb| {
        assert (kb + kb2)[i] == kb[i] && (meta + meta2)[i] == meta[i];
        assert (r1 + r2)[i] == r1[i];
      } else {
        assert (kb + kb2)[i] == kb2[i - |kb|] && (meta + meta2)[i] == meta2[i - |kb|];
        assert (r1 + r2)[i] == r2[i - |kb|];
      }
    }
  }

  /** The formatting loop of `search_qa`: `result['metadata']` raises
      `KeyError` for a result without metadata. */
  function QaFormat(results: seq<SearchResult>): (r: Result<seq<QaResult>, QaError>)
    ensures r.Err? <==> exists i :: 0 <= i < |results| && results[i].metadata.None?
    ensures r.Err? ==> r.error == MissingMetadata
    ensures r.Ok? ==> |r.value| == |results|
    ensures r.Ok? ==> forall i :: 0 <= i < |results| ==>
              var meta := results[i].metadata.value;
              r.value[i] == QaResult(results[i].content, Get(meta, "answer"), Get(meta, "score"), results[i].similarity, results[i].index)
  {
    if results == [] then Ok([])
    else
      var n := |results| - 1;
      assert forall i :: 0 <= i < n ==> results[..n][i] == results[i];
      match QaFormat(results[..n])
      case Err(e) => Err(e)
      case Ok(front) =>
        var res := results[n];
        if res.metadata.None? then Err(MissingMetadata)
        else Ok(front + [QaResult(res.content, Get(res.metadata.value, "answer"), Get(res.metadata.value, "score"), res.similarity, res.index)])
  }

  /** The formatting loop of `search_qa`, returning early on the first result
      without metadata. */
  method FormatQaResults(results: seq<SearchResult>) returns (r: Result<seq<QaResult>, QaError>)
    ensures r == QaFormat(results)
  {
    var qaResults: seq<QaResult> := [];
    for i := 0 to |results|
      invariant QaFormat(results[..i]) == Ok(qaResults)
    {
      assert results[..i + 1][..i] == results[..i];
      var res := results[i];
      if res.metadata.None? {
        return Err(MissingMetadata);
      }
      var meta := res.metadata.value;
      qaResults := qaResults + [QaResult(res.content, Get(meta, "answer"), Get(meta, "score"), res.similarity, res.index)];
    }
    assert results[..|results|] == results;
    return Ok(qaResults);
  }


  /** `search_qa` as a function of the search engine's fields and the visible
      files: reload the current index (raising when that fails), search, format. */
  function SearchQaOutcome(mem: Memory, dirPath: string, files: Files, nearest: Nearest, indexName: Option<string>,
                           query: string, topK: int, threshold: real): Result<seq<QaResult>, QaError>
  {
    var load := LoadArtifact(mem, dirPath, files, LoadedName(indexName));
    if !load.ok then Err(NoQaIndex)
    else match SearchOutcome(load.mem, nearest, query, topK, threshold)
      case Err(e) => Err(SearchFailedWith(e))
      case Ok(results) => QaFormat(results)
  }

  /** What `search_qa` returns does not depend on what the engine held before:
      it reloads first. */
  lemma SearchQaIgnoresPriorState(mem: Memory, other: Memory, dirPath: string, files: Files, nearest: Nearest,
                                  indexName: Option<string>, query: string, topK: int, threshold: real)
    ensures SearchQaOutcome(mem, dirPath, files, nearest, indexName, query, topK, threshold)
         == SearchQaOutcome(other, dirPath, files, nearest, indexName, query, topK, threshold)
  {
    LoadFacts(mem, other, dirPath, files, LoadedName(indexName));
  }

  /** Each QA result at a non-negative position is the pair `load_qa_index`
      rebuilds at that position, with its similarity. */
  lemma SearchQaAgreesWithPairs(mem: Memory, dirPath: string, files: Files, nearest: Nearest, indexName: Option<string>,
                                query: string, topK: int, threshold: real)
    requires SearchQaOutcome(mem, dirPath, files, nearest, indexName, query, topK, threshold).Ok?
    ensures var load := LoadArtifact(mem, dirPath, files, LoadedName(indexName));
            var pairs := RebuildPairs(load.mem.kbData, load.mem.metadata);
            var rs := SearchQaOutcome(mem, dirPath, files, nearest, indexName, query, topK, threshold).value;
            forall k :: 0 <= k < |rs| && 0 <= rs[k].index ==>
              rs[k].index < |pairs| &&
              pairs[rs[k].index] == QaPair(rs[k].question, rs[k].answer, rs[k].score)
  {
    var load := LoadArtifact(mem, dirPath, files, LoadedName(indexName));
    var hits := nearest(load.mem.index.value.embedded, query, topK).value;
    var results := SearchOutcome(load.mem, nearest, query, topK, threshold).value;
    var p := Passing(hits, load.mem.kbData, threshold);
    forall k | 0 <= k < |results| && 0 <= results[k].index
      ensures results[k].metadata.Some? ==>
                && results[k].index < |load.mem.kbData| && results[k].index < |load.mem.metadata|
                && results[k].content == load.mem.kbData[results[k].index]
                && results[k].metadata.value == load.mem.metadata[results[k].index]
    {
      assert Describes(results[k], p[k], load.mem.kbData, load.mem.metadata);
    }
  }

  /** The statistics `get_statistics` reports (the average score is left out). */
  datatype QaStatistics =
    | NoQaData
    | QaStatistics(totalPairs: nat, validScores: nat, indexName: Option<string>, indexLoaded: bool)

  /** How many scores `float(score)` accepts; `parses` stands for that test. */
  function CountParsing(pairs: seq<QaPair>, parses: string -> bool): (n: nat)
    ensures n <= |pairs|
    ensures n == |pairs| <==> forall i :: 0 <= i < |pairs| ==> parses(pairs[i].score)
    ensures n == 0 <==> forall i :: 0 <= i < |pairs| ==> !parses(pairs[i].score)
  {
    if pairs == [] then 0
    else
      var k := |pairs| - 1;
      assert forall i :: 0 <= i < k ==> pairs[..k][i] == pairs[i];
      CountParsing(pairs[..k], parses) + (if parses(pairs[k].score) then 1 else 0)
  }

  /** What the store extracts from the one-row table of `add_qa_pair`. */
  lemma SingleRowExtracted(tempPath: string, question: string, answer: string, score: string)
    ensures Extracted(CsvFile(tempPath, Some(SingleRow(question, answer, score))), "question", Some(["answer", "score"]))
         == Ok(([question], [map["answer" := answer, "score" := score]]))
  {
    var df := SingleRow(question, answer, score);
    assert Column(df, "question") == [question];
    var meta := map["answer" := answer, "score" := score];
    assert RowMetadata(df, ["answer", "score"])[0] == meta;
    assert RowMetadata(df, ["answer", "score"]) == [meta];
  }

  /** Adding a question whose text is already clean to an artifact that loads
      with aligned records appends exactly that pair to the rebuilt pairs. */
  lemma AddPairAppends(mem: Memory, dirPath: string, files: Files, dimension: nat, name: string,
                       t: seq<string>, m: seq<Metadata>, question: string, answer: string, score: string, tempPath: string)
    requires LoadArtifact(mem, dirPath, files, name) == LoadStep(true, true, Memory(Some(VectorIndex(dimension, t)), Some(FilePath(dirPath, IndexFileName(name))), t, m))
    requires forall i :: 0 <= i < |t| ==> NonBlank(t[i]) && Strip(t[i]) == t[i]
    requires |m| == |t|
    requires NonBlank(question) && Strip(question) == question
    ensures var u := Upsert(mem, dirPath, files, dimension, CsvFile(tempPath, Some(SingleRow(question, answer, score))), "question", Some(name), Some(["answer", "score"]));
            && u.result.Ok?
            && RebuildPairs(u.mem.kbData, u.mem.metadata) == RebuildPairs(t, m) + [QaPair(question, answer, score)]
  {
    var meta := map["answer" := answer, "score" := score];
    AddPairUpserts(mem, dirPath, files, dimension, name, t, m, question, answer, score, tempPath);
    RebuildAppend(t, m, [question], [meta]);
  }

  /** The upsert behind `add_qa_pair` succeeds and appends the question and its
      `{answer, score}` record to the loaded records. */
  lemma AddPairUpserts(mem: Memory, dirPath: string, files: Files, dimension: nat, name: string,
                       t: seq<string>, m: seq<Metadata>, question: string, answer: string, score: string, tempPath: string)
    requires LoadArtifact(mem, dirPath, files, name) == LoadStep(true, true, Memory(Some(VectorIndex(dimension, t)), Some(FilePath(dirPath, IndexFileName(name))), t, m))
    requires forall i :: 0 <= i < |t| ==> NonBlank(t[i]) && Strip(t[i]) == t[i]
    requires |m| == |t|
    requires NonBlank(question) && Strip(question) == question
    ensures var u := Upsert(mem, dirPath, files, dimension, CsvFile(tempPath, Some(SingleRow(question, answer, score))), "question", Some(name), Some(["answer", "score"]));
            && u.result.Ok?
            && u.mem.kbData == t + [question]
            && u.mem.metadata == m + [map["answer" := answer, "score" := score]]
  {
    var csv := CsvFile(tempPath, Some(SingleRow(question, answer, score)));
    var meta := map["answer" := answer, "score" := score];
    SingleRowExtracted(tempPath, question, answer, score);
    assert Padded([meta], 1) == [meta];
    CleanPassesUnchanged([question], [meta]);
    assert [meta][..1] == [meta];
    CleanPrefixAppend(t, m, [question], [meta]);
    UpsertLoadsCombined(mem, dirPath, files, dimension, csv, "question", Some(name), Some(["answer", "score"]));
    assert (t + [question])[|t|] == question;
    UpsertOntoLoaded(mem, dirPath, files, dimension, csv, "question", name, Some(["answer", "score"]), t, m);
  }

  /** The one-row table `add_qa_pair` writes to its temporary CSV. */
  function SingleRow(question: string, answer: string, score: string): (df: DataFrame)
    ensures df.columns == ["question", "answer", "score"] && |df.rows| == 1
  {
    Table(["question", "answer", "score"], [map["question" := question, "answer" := answer, "score" := score]])
  }

  /** What the store extracts from a QA dataset whose questions are already
      clean: the questions and one `{answer, score}` record per row, both of
      which pass the blank filter unchanged. */
  lemma QaExtracted(csv: CsvFile, q: string)
    requires csv.frame.Some?
    requires q in csv.frame.value.columns
    requires csv.frame.value.rows != []
    requires forall i :: 0 <= i < |csv.frame.value.rows| ==>
               var t := csv.frame.value.rows[i][q]; NonBlank(t) && Strip(t) == t
    ensures var df := csv.frame.value;
            var t, m := Column(df, q), RowMetadata(df, ["answer", "score"]);
            && Extracted(csv, q, Some(["answer", "score"])) == Ok((t, m))
            && ValidTexts(t) == t != []
            && ValidMetadata(t, Padded(m, |t|)) == m
  {
    var df := csv.frame.value;
    var t, m := Column(df, q), RowMetadata(df, ["answer", "score"]);
    CleanPassesUnchanged(t, m);
    assert m[..|t|] == m;
  }

  /** The store's upsert of a QA dataset with clean questions into a fresh
      name succeeds and writes the questions with one `{answer, score}` record
      each. */
  lemma QaUpsertFresh(storeMem: Memory, dirPath: string, files: Files, dimension: nat, csv: CsvFile, q: string, name: string)
    requires csv.frame.Some?
    requires q in csv.frame.value.columns
    requires csv.frame.value.rows != []
    requires forall i :: 0 <= i < |csv.frame.value.rows| ==>
               var t := csv.frame.value.rows[i][q]; NonBlank(t) && Strip(t) == t
    requires IndexFileName(name) !in files
    ensures var u := Upsert(storeMem, dirPath, files, dimension, csv, q, Some(name), Some(["answer", "score"]));
            var df := csv.frame.value;
            && u.result.Ok?
            && u.files == WriteArtifact(files, name, dimension, Column(df, q), RowMetadata(df, ["answer", "score"]))
  {
    QaExtracted(csv, q);
    UpsertFresh(storeMem, dirPath, files, dimension, csv, q, name, Some(["answer", "score"]));
  }

  /** Rebuilding pairs from a dataset's questions and `{answer, score}`
      records gives the dataset's own pairs. */
  lemma RebuildOfRows(df: DataFrame, q: string)
    requires q in df.columns && "answer" in df.columns && "score" in df.columns
    ensures RebuildPairs(Column(df, q), RowMetadata(df, ["answer", "score"])) == ZipPairs(df, q, "answer", "score")
  {
    var l, r := RebuildPairs(Column(df, q), RowMetadata(df, ["answer", "score"])), ZipPairs(df, q, "answer", "score");
    assert |l| == |r|;
    forall i | 0 <= i < |l| ensures l[i] == r[i] {
      var meta := RowMetadata(df, ["answer", "score"])[i];
      assert "answer" in meta && "score" in meta;
    }
  }

  /** A dataset whose questions are already clean, with its answers and scores
      under the columns `answer` and `score`, comes back from its fresh index
      as exactly the pairs `add_qa_dataset` stored. */
  lemma AddThenLoadRoundTrip(storeMem: Memory, searchMem: Memory, dirPath: string, files: Files, dimension: nat,
                             csv: CsvFile, q: string, name: string)
    requires csv.frame.Some?
    requires q in csv.frame.value.columns && "answer" in csv.frame.value.columns && "score" in csv.frame.value.columns
    requires csv.frame.value.rows != []
    requires forall i :: 0 <= i < |csv.frame.value.rows| ==>
               var t := csv.frame.value.rows[i][q]; NonBlank(t) && Strip(t) == t
    requires IndexFileName(name) !in files
    ensures var u := Upsert(storeMem, dirPath, files, dimension, csv, q, Some(name), Some(["answer", "score"]));
            var load := LoadArtifact(searchMem, dirPath, u.files, name);
            && u.result.Ok? && load.ok
            && RebuildPairs(load.mem.kbData, load.mem.metadata) == ZipPairs(csv.frame.value, q, "answer", "score")
  {
    var df := csv.frame.value;
    QaUpsertFresh(storeMem, dirPath, files, dimension, csv, q, name);
    WriteThenLoad(searchMem, dirPath, files, name, dimension, Column(df, q), RowMetadata(df, ["answer", "score"]));
    RebuildOfRows(df, q);
  }

  /** Rebuilding after one more text adds a pair exactly when a metadata
      record exists at that position. */
  lemma RebuildExtend(kb: seq<string>, meta: seq<Metadata>, x: string)
    ensures RebuildPairs(kb + [x], meta)
         == RebuildPairs(kb, meta) + (if |kb| < |meta| then [QaPair(x, Get(meta[|kb|], "answer"), Get(meta[|kb|], "score"))] else [])
  {
    if |kb| < |meta| {
      RebuildExtendPaired(kb, meta, x);
    } else {
      RebuildExtendUnpaired(kb, meta, x);
    }
  }

  /** A text with a metadata record at its position adds its pair. */
  lemma {:induction false} RebuildExtendPaired(kb: seq<string>, meta: seq<Metadata>, x: string)
    requires |kb| < |meta|
    ensures RebuildPairs(kb + [x], meta) == RebuildPairs(kb, meta) + [QaPair(x, Get(meta[|kb|], "answer"), Get(meta[|kb|], "score"))]
  {
    var px := QaPair(x, Get(meta[|kb|], "answer"), Get(meta[|kb|], "score"));
    if kb == [] {
      assert ([] + [x])[1..] == [];
    } else {
      var p0 := QaPair(kb[0], Get(meta[0], "answer"), Get(meta[0], "score"));
      var rest := RebuildPairs(kb[1..], meta[1..]);
      RebuildExtendPaired(kb[1..], meta[1..], x);
      assert (kb + [x])[1..] == kb[1..] + [x];
      assert meta[1..][|kb[1..]|] == meta[|kb|];
      ConcatAssoc([p0], rest, [px]);
    }
  }

  /** A text past the last metadata record adds nothing. */
  lemma {:induction false} RebuildExtendUnpaired(kb: seq<string>, meta: seq<Metadata>, x: string)
    requires |kb| >= |meta|
    ensures RebuildPairs(kb + [x], meta) == RebuildPairs(kb, meta)
  {
    if meta != [] {
      RebuildExtendUnpaired(kb[1..], meta[1..], x);
      assert (kb + [x])[1..] == kb[1..] + [x];
    }
  }

  /** The reconstruction loop of `load_qa_index`. */
  method CollectPairs(kb: seq<string>, meta: seq<Metadata>) returns (pairs: seq<QaPair>)
    ensures pairs == RebuildPairs(kb, meta)
  {
    pairs := [];
    for i := 0 to |kb|
      invariant pairs == RebuildPairs(kb[..i], meta)
    {
      RebuildExtend(kb[..i], meta, kb[i]);
      assert kb[..i + 1] == kb[..i] + [kb[i]];
      if i < |meta| {
        pairs := pairs + [QaPair(kb[i], Get(meta[i], "answer"), Get(meta[i], "score"))];
      }
    }
    assert kb[..|kb|] == kb;
  }

  class QaRag {
    const store: VectorStore
    const search: VectorSearch
    var qaPairs: seq<QaPair>
    var indexName: Option<string>

    /** The store and the search engine work on one index directory. */
    ghost predicate Valid()
      reads this, store, search, store.dir
    {
      store.Valid() && search.dir == store.dir
    }

    /** `__init__` with the model already loaded. */
    constructor (dir: IndexDir, dimension: nat, nearest: Nearest)
      modifies dir
      ensures Valid() && fresh(store) && fresh(search)
      ensures store.dir == dir && store.dimension == dimension && search.nearest == nearest
      ensures store.State() == EmptyMemory && search.State() == EmptyMemory
      ensures qaPairs == [] && indexName == None
      ensures dir.files == old(dir.Visible())
    {
      store := new VectorStore(dir, dimension);
      search := new VectorSearch(dir, nearest);
      qaPairs := [];
      indexName := None;
    }

    /** `add_qa_dataset`: validate the three columns, keep the pairs, fix the
        index name, upsert the questions with answer and score as metadata. */
    method AddQaDataset(csv: CsvFile, q: string, a: string, s: string, name: Option<string>) returns (r: Result<FilePath, QaError>)
      requires Valid()
      modifies this, store, store.dir
      ensures Valid()
      ensures csv.frame.None? ==>
                && r == Err(QaCsvUnreadable) && qaPairs == old(qaPairs) && indexName == old(indexName)
                && store.dir.files == old(store.dir.files) && store.State() == old(store.State())
      ensures csv.frame.Some? && MissingOf([q, a, s], csv.frame.value.columns) != [] ==>
                r == Err(MissingColumns(MissingOf([q, a, s], csv.frame.value.columns)))
                && qaPairs == old(qaPairs) && indexName == old(indexName) && store.dir.files == old(store.dir.files)
                && store.State() == old(store.State())
      ensures csv.frame.Some? && MissingOf([q, a, s], csv.frame.value.columns) == [] ==>
                var u := Upsert(old(store.State()), store.dir.path, old(store.dir.files), store.dimension, csv, q,
                                Some(QaIndexName(csv.path, name)), Some([a, s]));
                && qaPairs == ZipPairs(csv.frame.value, q, a, s)
                && indexName == Some(QaIndexName(csv.path, name))
                && store.dir.files == u.files && store.State() == u.mem
                && (u.result.Ok? ==> r == Ok(u.result.value))
                && (u.result.Err? ==> r == Err(StoreFailed(u.result.error)))
    {
      if csv.frame.None? {
        return Err(QaCsvUnreadable);
      }
      var df := csv.frame.value;
      var missing := MissingOf([q, a, s], df.columns);
      if missing != [] {
        return Err(MissingColumns(missing));
      }
      qaPairs := ZipPairs(df, q, a, s);
      var chosen := QaIndexName(csv.path, name);
      indexName := Some(chosen);
      var u := store.UpsertCsvToVectorStore(csv, q, Some(chosen), Some([a, s]));
      if u.Err? {
        return Err(StoreFailed(u.error));
      }
      return Ok(u.value);
    }

    /** `load_qa_index`: on success, the name and the rebuilt pairs; on failure
        both stay as they were. */
    method LoadQaIndex(name: string) returns (ok: bool)
      modifies this, search
      ensures var s := LoadArtifact(old(search.State()), search.dir.path, search.dir.Visible(), name);
              && ok == s.ok && search.State() == s.mem
              && search.currentIndexName == (if s.indexRead then Some(name) else old(search.currentIndexName))
              && (ok ==> qaPairs == RebuildPairs(s.mem.kbData, s.mem.metadata) && indexName == Some(name))
              && (!ok ==> qaPairs == old(qaPairs) && indexName == old(indexName))
    {
      ok := search.LoadIndex(name);
      if ok {
        indexName := Some(name);
        qaPairs := CollectPairs(search.kbData, search.metadata);
      }
    }

    /** `search_qa`. */
    method SearchQa(query: string, topK: int, threshold: real) returns (r: Result<seq<QaResult>, QaError>)
      modifies search
      ensures indexName == old(indexName)
      ensures r == SearchQaOutcome(old(search.State()), search.dir.path, search.dir.Visible(), search.nearest, indexName, query, topK, threshold)
      ensures var load := LoadArtifact(old(search.State()), search.dir.path, search.dir.Visible(), LoadedName(indexName));
              && search.State() == load.mem
              && search.currentIndexName == if load.indexRead then Some(LoadedName(indexName)) else old(search.currentIndexName)
    {
      var loaded := search.LoadIndex(LoadedName(indexName));
      if !loaded {
        return Err(NoQaIndex);
      }
      var found := search.Search(query, topK, threshold);
      if found.Err? {
        return Err(SearchFailedWith(found.error));
      }
      r := FormatQaResults(found.value);
    }

    /** `get_qa_by_index`. */
    function GetQaByIndex(i: int): (r: Option<QaPair>)
      reads this
      ensures r.Some? <==> 0 <= i < |qaPairs|
      ensures r.Some? ==> r.value == qaPairs[i]
    {
      if 0 <= i < |qaPairs| then Some(qaPairs[i]) else None
    }

    /** `get_all_qa_pairs`: a copy, which a value sequence is. Entry `i` is
        what `get_qa_by_index(i)` returns, and indexing ends where the copy does. */
    function GetAllQaPairs(): (r: seq<QaPair>)
      reads this
      ensures forall i :: 0 <= i < |r| ==> GetQaByIndex(i) == Some(r[i])
      ensures GetQaByIndex(|r|).None? && GetQaByIndex(-1).None?
    {
      qaPairs
    }

    /** `update_qa_dataset`: upsert into the current index, then reload the pairs. */
    method UpdateQaDataset(csv: CsvFile, q: string, a: string, s: string) returns (r: Result<FilePath, QaError>)
      requires Valid()
      modifies this, store, store.dir, search
      ensures Valid()
      ensures indexName == old(indexName)
      ensures !NameSet(old(indexName)) ==>
                && r == Err(NoExistingIndex) && store.dir.files == old(store.dir.files)
                && store.State() == old(store.State()) && qaPairs == old(qaPairs)
                && search.State() == old(search.State()) && search.currentIndexName == old(search.currentIndexName)
      ensures NameSet(old(indexName)) ==>
                var u := Upsert(old(store.State()), store.dir.path, old(store.dir.files), store.dimension, csv, q, old(indexName), Some([a, s]));
                && store.dir.files == u.files && store.State() == u.mem
                && (u.result.Err? ==>
                     && r == Err(StoreFailed(u.result.error)) && qaPairs == old(qaPairs)
                     && search.State() == old(search.State()) && search.currentIndexName == old(search.currentIndexName))
                && (u.result.Ok? ==>
                     var load := LoadArtifact(old(search.State()), store.dir.path, u.files, old(indexName).value);
                     && r == Ok(u.result.value)
                     && search.State() == load.mem
                     && search.currentIndexName == (if load.indexRead then old(indexName) else old(search.currentIndexName))
                     && (load.ok ==> qaPairs == RebuildPairs(load.mem.kbData, load.mem.metadata))
                     && (!load.ok ==> qaPairs == old(qaPairs)))
    {
      if indexName.None? || indexName.value == "" {
        return Err(NoExistingIndex);
      }
      var name := indexName.value;
      var u := store.UpsertCsvToVectorStore(csv, q, indexName, Some([a, s]));
      if u.Err? {
        return Err(StoreFailed(u.error));
      }
      var _ := LoadQaIndex(name);
      return Ok(u.value);
    }

    /** `add_qa_pair`: upsert a one-row table (the temporary CSV's round trip
        is taken as lossless) and reload; `False` when the upsert raised. */
    method AddQaPair(question: string, answer: string, score: string) returns (r: Result<bool, QaError>)
      requires Valid()
      modifies this, store, store.dir, search
      ensures Valid()
      ensures indexName == old(indexName)
      ensures !NameSet(old(indexName)) ==>
                && r == Err(NoExistingIndex) && store.dir.files == old(store.dir.files)
                && store.State() == old(store.State()) && qaPairs == old(qaPairs)
                && search.State() == old(search.State()) && search.currentIndexName == old(search.currentIndexName)
      ensures NameSet(old(indexName)) ==>
                var name := old(indexName).value;
                var csv := CsvFile("temp_single_" + name + ".csv", Some(SingleRow(question, answer, score)));
                var u := Upsert(old(store.State()), store.dir.path, old(store.dir.files), store.dimension, csv, "question", Some(name), Some(["answer", "score"]));
                && r == Ok(u.result.Ok?)
                && store.dir.files == u.files && store.State() == u.mem
                && (u.result.Err? ==>
                     && qaPairs == old(qaPairs)
                     && search.State() == old(search.State()) && search.currentIndexName == old(search.currentIndexName))
                && (u.result.Ok? ==>
                     var load := LoadArtifact(old(search.State()), store.dir.path, u.files, name);
                     && search.State() == load.mem
                     && search.currentIndexName == (if load.indexRead then Some(name) else old(search.currentIndexName))
                     && (load.ok ==> qaPairs == RebuildPairs(load.mem.kbData, load.mem.metadata))
                     && (!load.ok ==> qaPairs == old(qaPairs)))
    {
      if indexName.None? || indexName.value == "" {
        return Err(NoExistingIndex);
      }
      var name := indexName.value;
      var csv := CsvFile("temp_single_" + name + ".csv", Some(SingleRow(question, answer, score)));
      var u := store.UpsertCsvToVectorStore(csv, "question", Some(name), Some(["answer", "score"]));
      if u.Err? {
        return Ok(false);
      }
      var _ := LoadQaIndex(name);
      return Ok(true);
    }

    /** `get_statistics`, with the counting loop. */
    method GetStatistics(parses: string -> bool) returns (st: QaStatistics)
      ensures qaPairs == [] ==> st == NoQaData
      ensures qaPairs != [] ==> st == QaStatistics(|qaPairs|, CountParsing(qaPairs, parses), indexName, indexName.Some?)
    {
      if qaPairs == [] {
        return NoQaData;
      }
      var valid := 0;
      for i := 0 to |qaPairs|
        invariant valid == CountParsing(qaPairs[..i], parses)
      {
        assert qaPairs[..i + 1][..i] == qaPairs[..i];
        if parses(qaPairs[i].score) {
          valid := valid + 1;
        }
      }
      assert qaPairs[..|qaPairs|] == qaPairs;
      return QaStatistics(|qaPairs|, valid, indexName, indexName.Some?);
    }
  }

  /** `batch_search_qa`: one entry per distinct query, `[]` where the search raised. */
  method BatchSearchQa(qa: QaRag, queries: seq<string>, topK: int) returns (r: map<string, seq<QaResult>>)
    modifies qa.search
    ensures r.Keys == set q | q in queries
    ensures forall q :: q in r ==>
              r[q] == SearchQaOutcome(old(qa.search.State()), qa.search.dir.path, qa.search.dir.Visible(), qa.search.nearest,
                                      qa.indexName, q, topK, 0.0).GetOr([])
    ensures queries == [] ==> qa.search.State() == old(qa.search.State()) && qa.search.currentIndexName == old(qa.search.currentIndexName)
    ensures queries != [] ==>
              var load := LoadArtifact(old(qa.search.State()), qa.search.dir.path, qa.search.dir.Visible(), LoadedName(qa.indexName));
              && qa.search.State() == load.mem
              && qa.search.currentIndexName == if load.indexRead then Some(LoadedName(qa.indexName)) else old(qa.search.currentIndexName)
  {
    r := map[];
    ghost var load := LoadArtifact(qa.search.State(), qa.search.dir.path, qa.search.dir.Visible(), LoadedName(qa.indexName));
    ghost var reloaded := if load.indexRead then Some(LoadedName(qa.indexName)) else qa.search.currentIndexName;
    LoadTwice(qa.search.State(), qa.search.dir.path, qa.search.dir.Visible(), LoadedName(qa.indexName));
    for i := 0 to |queries|
      invariant r.Keys == set q | q in queries[..i]
      invariant forall q :: q in r ==>
                  r[q] == SearchQaOutcome(old(qa.search.State()), qa.search.dir.path, qa.search.dir.Visible(), qa.search.nearest,
                                          qa.indexName, q, topK, 0.0).GetOr([])
      invariant i == 0 ==> qa.search.State() == old(qa.search.State()) && qa.search.currentIndexName == old(qa.search.currentIndexName)
      invariant i > 0 ==> qa.search.State() == load.mem && qa.search.currentIndexName == reloaded
    {
      assert queries[..i + 1] == queries[..i] + [queries[i]];
      SearchQaIgnoresPriorState(qa.search.State(), old(qa.search.State()), qa.search.dir.path, qa.search.dir.Visible(),
                                qa.search.nearest, qa.indexName, queries[i], topK, 0.0);
      var found := qa.SearchQa(queries[i], topK, 0.0);
      r := r[queries[i] := found.GetOr([])];
    }
    assert queries[..|queries|] == queries;
  }
}
