/** `VectorSearch` from utils/vector_search.py: loading an artifact for
    searching, nearest-neighbour search with a similarity threshold, metadata
    filtering, batch search and the read-only accessors. */
module VectorSearchModel {
  import opened Wrappers
  import opened PyLists
  import opened Storage

  /** One row of `index.search`: a similarity and a position, which FAISS pads
      with -1 when fewer than `k` vectors exist. */
  datatype Hit = Hit(score: real, idx: int)

  /** Encoding the query, normalising it and `index.search(query, k)` over the
      texts the index embeds: foreign code, given as a parameter. `None` means
      it raises. */
  type Nearest = (seq<string>, string, int) -> Option<seq<Hit>>

  /** The exceptions `search` raises: no index loaded, the encoder or FAISS
      failing, and Python's `IndexError` on an out-of-range position. */
  datatype SearchError = NoIndexLoaded | SearchFailed | IndexOutOfRange(idx: int)

  /** One result dictionary; `metadata` is absent when the position has none. */
  datatype SearchResult = SearchResult(content: string, similarity: real, index: int, metadata: Option<Metadata>)

  /** The guard `similarity >= threshold and idx < len(self.kb_data)`: note
      that it has no lower bound on `idx`. */
  predicate Passes(h: Hit, kb: seq<string>, threshold: real) {
    h.score >= threshold && h.idx < |kb|
  }

  /** A hit that passes the guard but whose position Python cannot index. */
  predicate Faults(h: Hit, kb: seq<string>, meta: seq<Metadata>, threshold: real) {
    Passes(h, kb, threshold) && (!IndexOk(h.idx, |kb|) || (h.idx < |meta| && !IndexOk(h.idx, |meta|)))
  }

  /** `res` is the dictionary built for hit `h`. */
  predicate Describes(res: SearchResult, h: Hit, kb: seq<string>, meta: seq<Metadata>) {
    && res.similarity == h.score && res.index == h.idx
    && IndexOk(h.idx, |kb|) && res.content == At(kb, h.idx)
    && (res.metadata.Some? <==> h.idx < |meta|)
    && (res.metadata.Some? ==> IndexOk(h.idx, |meta|) && res.metadata.value == At(meta, h.idx))
  }

  /** The hits that pass the guard, in FAISS order. */
  function Passing(hits: seq<Hit>, kb: seq<string>, threshold: real): (r: seq<Hit>)
    ensures |r| <= |hits|
    ensures forall k :: 0 <= k < |r| ==> r[k] in hits && Passes(r[k], kb, threshold)
    ensures forall i :: 0 <= i < |hits| && Passes(hits[i], kb, threshold) ==> hits[i] in r
  {
    if hits == [] then []
    else
      var n := |hits| - 1;
      var front := Passing(hits[..n], kb, threshold);
      assert forall k :: 0 <= k < |front| ==> front[k] in hits[..n];
      front + (if Passes(hits[n], kb, threshold) then [hits[n]] else [])
  }

  /** One iteration of the formatting loop. */
  function FormatHit(h: Hit, kb: seq<string>, meta: seq<Metadata>, threshold: real): (r: Result<Option<SearchResult>, SearchError>)
    ensures r.Err? <==> Faults(h, kb, meta, threshold)
    ensures r.Err? ==> r.error == IndexOutOfRange(h.idx)
    ensures r.Ok? ==> (r.value.Some? <==> Passes(h, kb, threshold))
    ensures r.Ok? && r.value.Some? ==> Describes(r.value.value, h, kb, meta)
  {
    if !(h.score >= threshold && h.idx < |kb|) then Ok(None)
    else if !IndexOk(h.idx, |kb|) then Err(IndexOutOfRange(h.idx))
    else if h.idx < |meta| then
      if !IndexOk(h.idx, |meta|) then Err(IndexOutOfRange(h.idx))
      else Ok(Some(SearchResult(At(kb, h.idx), h.score, h.idx, Some(At(meta, h.idx)))))
    else Ok(Some(SearchResult(At(kb, h.idx), h.score, h.idx, None)))
  }

  /** The formatting loop of `search`: one result per passing hit, in order,
      or the `IndexError` of the first hit Python cannot index. */
  function Format(hits: seq<Hit>, kb: seq<string>, meta: seq<Metadata>, threshold: real): (r: Result<seq<SearchResult>, SearchError>)
    ensures r.Err? <==> exists i :: 0 <= i < |hits| && Faults(hits[i], kb, meta, threshold)
    ensures r.Err? ==> exists i :: 0 <= i < |hits| && Faults(hits[i], kb, meta, threshold) && r.error == IndexOutOfRange(hits[i].idx)
                                && forall j :: 0 <= j < i ==> !Faults(hits[j], kb, meta, threshold)
    ensures r.Ok? ==> |r.value| == |Passing(hits, kb, threshold)|
    ensures r.Ok? ==> forall k :: 0 <= k < |r.value| ==> Describes(r.value[k], Passing(hits, kb, threshold)[k], kb, meta)
  {
    if hits == [] then Ok([])
    else
      var n := |hits| - 1;
      assert forall i :: 0 <= i < n ==> hits[..n][i] == hits[i];
      match Format(hits[..n], kb, meta, threshold)
      case Err(e) => Err(e)
      case Ok(front) =>
        match FormatHit(hits[n], kb, meta, threshold)
        case Err(e) => Err(e)
        case Ok(None) => Ok(front)
        case Ok(Some(res)) => Ok(front + [res])
  }

  /** Once a prefix of the hits raises, the whole loop raises with that error. */
  lemma {:induction false} FormatErrStops(hits: seq<Hit>, kb: seq<string>, meta: seq<Metadata>, threshold: real, n: nat)
    requires n <= |hits|
    requires Format(hits[..n], kb, meta, threshold).Err?
    ensures Format(hits, kb, meta, threshold) == Format(hits[..n], kb, meta, threshold)
  {
    if n < |hits| {
      assert hits[..|hits| - 1][..n] == hits[..n];
      FormatErrStops(hits[..|hits| - 1], kb, meta, threshold, n);
    } else {
      assert hits[..n] == hits;
    }
  }

  /** One more hit extends the formatted prefix by what that hit gives. */
  lemma FormatStep(hits: seq<Hit>, kb: seq<string>, meta: seq<Metadata>, threshold: real, i: nat)
    requires i < |hits|
    requires Format(hits[..i], kb, meta, threshold).Ok?
    ensures var front := Format(hits[..i], kb, meta, threshold).value;
            Format(hits[..i + 1], kb, meta, threshold)
            == (match FormatHit(hits[i], kb, meta, threshold)
                case Err(e) => Err(e)
                case Ok(None) => Ok(front)
                case Ok(Some(res)) => Ok(front + [res]))
  {
    assert hits[..i + 1][..i] == hits[..i];
  }

  /** The formatting loop of `search`, building the result list in order. */
  method FormatLoop(hits: seq<Hit>, kb: seq<string>, meta: seq<Metadata>, threshold: real)
    returns (r: Result<seq<SearchResult>, SearchError>)
    ensures r == Format(hits, kb, meta, threshold)
  {
    var results: seq<SearchResult> := [];
    for i := 0 to |hits|
      invariant Format(hits[..i], kb, meta, threshold) == Ok(results)
    {
      FormatStep(hits, kb, meta, threshold, i);
      var h := hits[i];
      if h.score >= threshold && h.idx < |kb| {
        if !IndexOk(h.idx, |kb|) {
          FormatErrStops(hits, kb, meta, threshold, i + 1);
          return Err(IndexOutOfRange(h.idx));
        }
        var res := SearchResult(At(kb, h.idx), h.score, h.idx, None);
        if h.idx < |meta| {
          if !IndexOk(h.idx, |meta|) {
            FormatErrStops(hits, kb, meta, threshold, i + 1);
            return Err(IndexOutOfRange(h.idx));
          }
          res := res.(metadata := Some(At(meta, h.idx)));
        }
        results := results + [res];
      }
    }
    assert hits[..|hits|] == hits;
    return Ok(results);
  }

  /** `search` as a function of the loaded fields: `ValueError` without an
      index, the foreign search's failure, or the formatted hits. */
  function SearchOutcome(mem: Memory, nearest: Nearest, query: string, topK: int, threshold: real): Result<seq<SearchResult>, SearchError> {
    if mem.index.None? then Err(NoIndexLoaded)
    else match nearest(mem.index.value.embedded, query, topK)
      case None => Err(SearchFailed)
      case Some(hits) => Format(hits, mem.kbData, mem.metadata, threshold)
  }

  /** Every result clears the threshold, names a real text of the knowledge
      base, carries that text, and carries metadata exactly when its position
      is below the metadata length; there are never more results than hits,
      so never more than `top_k` when the vector search keeps to `top_k` hits. */
  lemma SearchResultsSound(mem: Memory, nearest: Nearest, query: string, topK: int, threshold: real)
    requires SearchOutcome(mem, nearest, query, topK, threshold).Ok?
    ensures var rs := SearchOutcome(mem, nearest, query, topK, threshold).value;
            var hits := nearest(mem.index.value.embedded, query, topK).value;
            && |rs| <= |hits|
            && (|hits| <= topK ==> |rs| <= topK)
            && forall k :: 0 <= k < |rs| ==>
                 && rs[k].similarity >= threshold
                 && -|mem.kbData| <= rs[k].index < |mem.kbData|
                 && rs[k].content == At(mem.kbData, rs[k].index)
                 && (rs[k].metadata.Some? <==> rs[k].index < |mem.metadata|)
                 && Hit(rs[k].similarity, rs[k].index) in hits
  {
    var rs := SearchOutcome(mem, nearest, query, topK, threshold).value;
    var hits := nearest(mem.index.value.embedded, query, topK).value;
    var p := Passing(hits, mem.kbData, threshold);
    forall k | 0 <= k < |rs|
      ensures rs[k].similarity >= threshold && Hit(rs[k].similarity, rs[k].index) in hits
    {
      assert Describes(rs[k], p[k], mem.kbData, mem.metadata);
      assert Hit(rs[k].similarity, rs[k].index) == p[k];
    }
  }

  /** When metadata is aligned with the texts and FAISS reports only real
      positions, `search` never raises after the foreign call, and every hit
      above the threshold appears. */
  lemma AlignedSearchTotal(hits: seq<Hit>, kb: seq<string>, meta: seq<Metadata>, threshold: real)
    requires |meta| == |kb|
    requires forall i :: 0 <= i < |hits| ==> 0 <= hits[i].idx
    ensures Format(hits, kb, meta, threshold).Ok?
    ensures forall i :: 0 <= i < |hits| && hits[i].score >= threshold && hits[i].idx < |kb| ==>
              exists k :: 0 <= k < |Format(hits, kb, meta, threshold).value| &&
                Format(hits, kb, meta, threshold).value[k] == SearchResult(kb[hits[i].idx], hits[i].score, hits[i].idx, Some(meta[hits[i].idx]))
  {
    var rs := Format(hits, kb, meta, threshold).value;
    var p := Passing(hits, kb, threshold);
    forall i | 0 <= i < |hits| && hits[i].score >= threshold && hits[i].idx < |kb|
      ensures exists k :: 0 <= k < |rs| && rs[k] == SearchResult(kb[hits[i].idx], hits[i].score, hits[i].idx, Some(meta[hits[i].idx]))
    {
      assert Passes(hits[i], kb, threshold);
      var k :| 0 <= k < |p| && p[k] == hits[i];
      assert Describes(rs[k], p[k], kb, meta);
    }
  }

  /** A result entry with metadata whose filter keys all match. */
  predicate MatchesFilter(res: SearchResult, filter: Metadata) {
    res.metadata.Some? && MetaMatches(res.metadata.value, filter)
  }

  /** Every filter key is present in the record with an equal value. */
  predicate MetaMatches(meta: Metadata, filter: Metadata) {
    forall key :: key in filter ==> key in meta && meta[key] == filter[key]
  }

  /** The results that carry metadata matching the filter, in order. */
  function Matching(results: seq<SearchResult>, filter: Metadata): (r: seq<SearchResult>)
    ensures |r| <= |results|
  {
    if results == [] then []
    else
      var n := |results| - 1;
      Matching(results[..n], filter) + (if MatchesFilter(results[n], filter) then [results[n]] else [])
  }

  /** The matches are exactly the results that match the filter. */
  lemma {:induction false} MatchingMembers(results: seq<SearchResult>, filter: Metadata)
    ensures forall k :: 0 <= k < |Matching(results, filter)| ==>
              Matching(results, filter)[k] in results && MatchesFilter(Matching(results, filter)[k], filter)
    ensures forall i :: 0 <= i < |results| && MatchesFilter(results[i], filter) ==> results[i] in Matching(results, filter)
  {
    if results != [] {
      var n := |results| - 1;
      MatchingMembers(results[..n], filter);
      var front := Matching(results[..n], filter);
      var r := Matching(results, filter);
      assert r == front + (if MatchesFilter(results[n], filter) then [results[n]] else []);
      forall k | 0 <= k < |r| ensures r[k] in results && MatchesFilter(r[k], filter) {
        if k < |front| {
          assert r[k] == front[k];
          assert front[k] in results[..n];
        }
      }
      forall i | 0 <= i < |results| && MatchesFilter(results[i], filter) ensures results[i] in r {
        if i < n {
          assert results[..n][i] == results[i];
          assert results[i] in front;
        }
      }
    }
  }

  /** Filtering a prefix gives a prefix of the filtered whole. */
  lemma {:induction false} MatchingPrefix(results: seq<SearchResult>, filter: Metadata, j: nat)
    requires j <= |results|
    ensures Matching(results[..j], filter) <= Matching(results, filter)
  {
    if j < |results| {
      var n := |results| - 1;
      MatchingPrefix(results[..n], filter, j);
      assert results[..n][..j] == results[..j];
    } else {
      assert results[..j] == results;
    }
  }

  /** Filtering one more result appends it exactly when it matches. */
  lemma MatchingStep(results: seq<SearchResult>, filter: Metadata, i: nat)
    requires i < |results|
    ensures Matching(results[..i + 1], filter)
         == Matching(results[..i], filter) + (if MatchesFilter(results[i], filter) then [results[i]] else [])
  {
    assert results[..i + 1][..i] == results[..i];
  }

  /** What `search_with_metadata_filter` keeps: the first matches, at most
      `top_k` of them, but one even when `top_k <= 0` because the count is
      checked only after a match is appended. */
  function FirstMatching(results: seq<SearchResult>, filter: Metadata, topK: int): (r: seq<SearchResult>)
    ensures r <= Matching(results, filter)
    ensures |r| <= if topK < 1 then 1 else topK
    ensures |r| < |Matching(results, filter)| ==> |r| == (if topK < 1 then 1 else topK)
  {
    var m := Matching(results, filter);
    var limit := if topK < 1 then 1 else topK;
    if |m| <= limit then m else m[..limit]
  }

  /** Once the kept prefix reaches the limit, it is what `FirstMatching` keeps. */
  lemma FirstMatchingStops(results: seq<SearchResult>, filter: Metadata, topK: int, j: nat)
    requires j <= |results|
    requires |Matching(results[..j], filter)| == if topK < 1 then 1 else topK
    ensures FirstMatching(results, filter, topK) == Matching(results[..j], filter)
  {
    MatchingPrefix(results, filter, j);
  }

  /** The inner loop of `search_with_metadata_filter`: every filter key is
      present in the record with an equal value. */
  method MetadataMatches(meta: Metadata, filter: Metadata) returns (matches: bool)
    ensures matches <==> forall key :: key in filter ==> key in meta && meta[key] == filter[key]
  {
    matches := true;
    var keys := filter.Keys;
    while keys != {}
      invariant keys <= filter.Keys
      invariant matches <==> forall key :: key in filter && key !in keys ==> key in meta && meta[key] == filter[key]
      decreases keys
    {
      var key :| key in keys;
      if key !in meta || meta[key] != filter[key] {
        return false;
      }
      keys := keys - {key};
    }
  }

  /** The filtering loop of `search_with_metadata_filter`. */
  method KeepFirstMatching(results: seq<SearchResult>, filter: Metadata, topK: int) returns (filtered: seq<SearchResult>)
    ensures filtered == FirstMatching(results, filter, topK)
  {
    filtered := [];
    var i := 0;
    while i < |results|
      invariant 0 <= i <= |results|
      invariant filtered == Matching(results[..i], filter)
      invariant |filtered| < if topK < 1 then 1 else topK
    {
      MatchingStep(results, filter, i);
      var res := results[i];
      if res.metadata.Some? {
        var matches := MetadataMatches(res.metadata.value, filter);
        if matches {
          filtered := filtered + [res];
          if |filtered| >= topK {
            FirstMatchingStops(results, filter, topK, i + 1);
            return;
          }
        }
      }
      i := i + 1;
    }
    assert results[..i] == results;
  }

  /** A filter with no keys keeps exactly the results that carry metadata. */
  lemma EmptyFilterKeepsResultsWithMetadata(results: seq<SearchResult>)
    ensures forall k :: 0 <= k < |Matching(results, map[])| ==> Matching(results, map[])[k].metadata.Some?
    ensures forall i :: 0 <= i < |results| && results[i].metadata.Some? ==> results[i] in Matching(results, map[])
  {
    MatchingMembers(results, map[]);
    forall i | 0 <= i < |results| && results[i].metadata.Some?
      ensures results[i] in Matching(results, map[])
    {
      assert MatchesFilter(results[i], map[]);
    }
  }

  /** One entry of `get_text_by_index` / `get_all_texts`. */
  datatype TextEntry = TextEntry(content: string, index: int, metadata: Option<Metadata>)

  /** `get_text_by_index(i)`: the entry at a real position, `None` otherwise
      (negative positions included). */
  function TextAt(kb: seq<string>, meta: seq<Metadata>, i: int): (r: Option<TextEntry>)
    ensures r.Some? <==> 0 <= i < |kb|
    ensures r.Some? ==> r.value.content == kb[i] && r.value.index == i
    ensures r.Some? ==> (r.value.metadata.Some? <==> i < |meta|)
    ensures r.Some? && r.value.metadata.Some? ==> r.value.metadata.value == meta[i]
  {
    if 0 <= i < |kb| then Some(TextEntry(kb[i], i, if i < |meta| then Some(meta[i]) else None)) else None
  }

  /** A search result at a non-negative position is the entry `get_text_by_index`
      returns for that position, with the similarity added. */
  lemma SearchAgreesWithTextAt(hits: seq<Hit>, kb: seq<string>, meta: seq<Metadata>, threshold: real)
    requires Format(hits, kb, meta, threshold).Ok?
    ensures forall k :: 0 <= k < |Format(hits, kb, meta, threshold).value| && 0 <= Format(hits, kb, meta, threshold).value[k].index ==>
              var res := Format(hits, kb, meta, threshold).value[k];
              TextAt(kb, meta, res.index) == Some(TextEntry(res.content, res.index, res.metadata))
  {
    var rs := Format(hits, kb, meta, threshold).value;
    forall k | 0 <= k < |rs| && 0 <= rs[k].index
      ensures TextAt(kb, meta, rs[k].index) == Some(TextEntry(rs[k].content, rs[k].index, rs[k].metadata))
    {
      assert Describes(rs[k], Passing(hits, kb, threshold)[k], kb, meta);
    }
  }

  /** What `get_index_statistics` reports. */
  datatype IndexStatistics =
    | NoIndex
    | Statistics(indexName: Option<string>, totalTexts: nat, totalMetadata: nat, vectorDimension: nat, totalVectors: nat, indexPath: Option<FilePath>)

  function StatisticsOf(mem: Memory, currentIndexName: Option<string>): IndexStatistics {
    if mem.index.None? then NoIndex
    else Statistics(currentIndexName, |mem.kbData|, |mem.metadata|, mem.index.value.dimension, mem.index.value.Total(), mem.indexPath)
  }

  /** An artifact as `_create_vector_index` writes it loads with as many texts
      as vectors, and as many metadata records as texts. */
  lemma FreshArtifactConsistent(mem: Memory, dirPath: string, files: Files, name: string, dimension: nat,
                                texts: seq<string>, metadata: seq<Metadata>)
    requires |metadata| == |texts| > 0
    ensures var s := LoadArtifact(mem, dirPath, WriteArtifact(files, name, dimension, texts, metadata), name);
            && s.ok
            && var st := StatisticsOf(s.mem, Some(name));
            && st.Statistics?
            && st.totalTexts == st.totalVectors == st.totalMetadata == |texts|
            && st.vectorDimension == dimension
  {
    WriteThenLoad(mem, dirPath, files, name, dimension, texts, metadata);
  }

  class VectorSearch {
    const dir: IndexDir
    const nearest: Nearest
    var index: Option<VectorIndex>
    var indexPath: Option<FilePath>
    var kbData: seq<string>
    var metadata: seq<Metadata>
    var currentIndexName: Option<string>

    function State(): Memory
      reads this
    {
      Memory(index, indexPath, kbData, metadata)
    }

    /** `__init__` with the model already loaded (model loading is foreign). */
    constructor (dir: IndexDir, nearest: Nearest)
      ensures this.dir == dir && this.nearest == nearest
      ensures State() == EmptyMemory && currentIndexName == None
    {
      this.dir := dir;
      this.nearest := nearest;
      index, indexPath, kbData, metadata, currentIndexName := None, None, [], [], None;
    }

    /** `load_index`: as the store's, and it also records the name once the
        index file has been read. */
    method LoadIndex(name: string) returns (ok: bool)
      modifies this
      ensures var s := LoadArtifact(old(State()), dir.path, dir.Visible(), name);
              && ok == s.ok && State() == s.mem
              && currentIndexName == if s.indexRead then Some(name) else old(currentIndexName)
    {
      var files := dir.Visible();
      var ip, tp, mp := IndexFileName(name), TextsFileName(name), MetadataFileName(name);
      if ip !in files {
        return false;
      }
      var content := files[ip];
      if !content.VectorFile? {
        return false;
      }
      index := Some(VectorIndex(content.dimension, content.embedded));
      indexPath := Some(FilePath(dir.path, ip));
      currentIndexName := Some(name);
      if tp in files {
        var texts := files[tp];
        if !texts.TextsFile? {
          return false;
        }
        kbData := texts.texts;
      } else {
        kbData := [];
      }
      metadata := [];
      if mp in files {
        var records := files[mp];
        if !records.MetadataFile? {
          return false;
        }
        metadata := records.records;
      }
      return true;
    }

    /** `search`, with its formatting loop. */
    method Search(query: string, topK: int, threshold: real) returns (r: Result<seq<SearchResult>, SearchError>)
      ensures r == SearchOutcome(State(), nearest, query, topK, threshold)
    {
      if index.None? {
        return Err(NoIndexLoaded);
      }
      var found := nearest(index.value.embedded, query, topK);
      if found.None? {
        return Err(SearchFailed);
      }
      r := FormatLoop(found.value, kbData, metadata, threshold);
    }

    /** `search_with_metadata_filter`: search every text, then keep the first
        matching results. */
    method SearchWithMetadataFilter(query: string, filter: Metadata, topK: int, threshold: real)
      returns (r: Result<seq<SearchResult>, SearchError>)
      ensures var all := SearchOutcome(State(), nearest, query, |kbData|, threshold);
              && (all.Err? ==> r == all)
              && (all.Ok? ==> r == Ok(FirstMatching(all.value, filter, topK)))
    {
      var all := Search(query, |kbData|, threshold);
      if all.Err? {
        return all;
      }
      var filtered := KeepFirstMatching(all.value, filter, topK);
      return Ok(filtered);
    }

    /** `batch_search`: one entry per distinct query, an empty list where the
        search raised. */
    method BatchSearch(queries: seq<string>, topK: int, threshold: real) returns (r: map<string, seq<SearchResult>>)
      ensures r.Keys == set q | q in queries
      ensures forall q :: q in r ==> r[q] == SearchOutcome(State(), nearest, q, topK, threshold).GetOr([])
    {
      r := map[];
      for i := 0 to |queries|
        invariant r.Keys == set q | q in queries[..i]
        invariant forall q :: q in r ==> r[q] == SearchOutcome(State(), nearest, q, topK, threshold).GetOr([])
      {
        assert queries[..i + 1] == queries[..i] + [queries[i]];
        var found := Search(queries[i], topK, threshold);
        if found.Ok? {
          r := r[queries[i] := found.value];
        } else {
          r := r[queries[i] := []];
        }
      }
      assert queries[..|queries|] == queries;
    }

    /** `get_index_statistics`. */
    function GetIndexStatistics(): IndexStatistics
      reads this
    {
      StatisticsOf(State(), currentIndexName)
    }

    /** `get_text_by_index`. */
    function GetTextByIndex(i: int): Option<TextEntry>
      reads this
    {
      TextAt(kbData, metadata, i)
    }

    /** `get_all_texts`: entry `i` is what `get_text_by_index(i)` returns. */
    method GetAllTexts() returns (r: seq<TextEntry>)
      ensures |r| == |kbData|
      ensures forall i :: 0 <= i < |r| ==> GetTextByIndex(i) == Some(r[i])
    {
      r := [];
      for i := 0 to |kbData|
        invariant |r| == i
        invariant forall j :: 0 <= j < i ==> GetTextByIndex(j) == Some(r[j])
      {
        var entry := TextEntry(kbData[i], i, None);
        if i < |metadata| {
          entry := entry.(metadata := Some(metadata[i]));
        }
        r := r + [entry];
      }
    }
  }
}
