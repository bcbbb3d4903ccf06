/** The convenience functions of utils/csv_utils.py: building a searchable
    index from one CSV, updating one, doing that for a batch of CSVs, and
    searching several engines with one query. */
module CsvRag {
  import opened Wrappers
  import opened Text
  import opened Storage
  import opened VectorStoreModel
  import opened VectorSearchModel

  /** The exceptions `process_csv_for_rag` raises: the store's, and the
      `RuntimeError` for an index it cannot load afterwards. */
  datatype CsvRagError = StoreFailed(storeError: StoreError) | LoadFailed(indexPath: FilePath)

  /** `index_name or splitext(basename(csv_path))[0]`: the name loaded after
      the upsert. `None` and `""` both fall back to the bare stem. */
  function FinalName(csvPath: string, indexName: Option<string>): string {
    if indexName.Some? && indexName.value != "" then indexName.value else Stem(csvPath)
  }

  /** With an explicit non-empty name, the name upserted and the name loaded agree. */
  lemma ExplicitNameAgrees(csvPath: string, textColumn: string, name: string)
    requires name != ""
    ensures UpsertName(csvPath, textColumn, Some(name)) == FinalName(csvPath, Some(name))
  {
  }

  /** Without a name, the upsert writes `<stem>_<column>` but the load asks for `<stem>`. */
  lemma DefaultNamesDiffer(csvPath: string, textColumn: string)
    ensures UpsertName(csvPath, textColumn, None) != FinalName(csvPath, None)
  {
    assert |UpsertName(csvPath, textColumn, None)| > |FinalName(csvPath, None)|;
  }

  /** With an explicit non-empty name, a successful upsert is always followed
      by a successful load, and a fresh engine then holds exactly what the
      store holds. */
  lemma ExplicitNameRoundTrip(dirPath: string, files: Files, dimension: nat, csv: CsvFile, textColumn: string,
                              name: string, additionalColumns: Option<seq<string>>)
    requires name != ""
    requires Upsert(EmptyMemory, dirPath, files, dimension, csv, textColumn, Some(name), additionalColumns).result.Ok?
    ensures var u := Upsert(EmptyMemory, dirPath, files, dimension, csv, textColumn, Some(name), additionalColumns);
            var load := LoadArtifact(EmptyMemory, dirPath, u.files, FinalName(csv.path, Some(name)));
            load.ok && load.mem == u.mem
  {
    var first := LoadArtifact(EmptyMemory, dirPath, files, name);
    var existingTexts := if first.ok then first.mem.kbData else [];
    var existingMetadata := if first.ok then first.mem.metadata else [];
    var x := Extracted(csv, textColumn, additionalColumns).value;
    var combinedTexts := existingTexts + x.0;
    var combinedMetadata := existingMetadata + Padded(x.1, |x.0|);
    var t, m := ValidTexts(combinedTexts), ValidMetadata(combinedTexts, combinedMetadata);
    UpsertLoadsCombined(EmptyMemory, dirPath, files, dimension, csv, textColumn, Some(name), additionalColumns);
    ValidAt(combinedTexts, combinedMetadata);
    WriteThenLoad(EmptyMemory, dirPath, files, name, dimension, t, m);
    WriteThenLoad(first.mem, dirPath, files, name, dimension, t, m);
  }

  /** Without a name, the load after the upsert sees only what was already on
      disk under the bare stem: the call succeeds exactly when an artifact
      with that name loaded before. */
  lemma DefaultNameLoadsStaleArtifact(mem: Memory, dirPath: string, files: Files, dimension: nat, csv: CsvFile,
                                      textColumn: string, additionalColumns: Option<seq<string>>)
    ensures var u := Upsert(EmptyMemory, dirPath, files, dimension, csv, textColumn, None, additionalColumns);
            LoadArtifact(mem, dirPath, u.files, FinalName(csv.path, None)) == LoadArtifact(mem, dirPath, files, Stem(csv.path))
  {
    DefaultNamesDiffer(csv.path, textColumn);
    UpsertKeepsOthers(EmptyMemory, mem, dirPath, files, dimension, csv, textColumn, None, additionalColumns, Stem(csv.path));
  }

  /** `process_csv_for_rag`: a fresh store upserts, then a fresh engine loads
      the final name. */
  method ProcessCsvForRag(dir: IndexDir, dimension: nat, nearest: Nearest, csv: CsvFile, textColumn: string,
                          indexName: Option<string>, additionalColumns: Option<seq<string>>)
    returns (r: Result<VectorSearch, CsvRagError>)
    modifies dir
    ensures dir.present
    ensures var u := Upsert(EmptyMemory, dir.path, old(dir.Visible()), dimension, csv, textColumn, indexName, additionalColumns);
            && dir.files == u.files
            && (u.result.Err? ==> r == Err(StoreFailed(u.result.error)))
            && (u.result.Ok? ==>
                  var load := LoadArtifact(EmptyMemory, dir.path, u.files, FinalName(csv.path, indexName));
                  && (r.Ok? <==> load.ok)
                  && (r.Err? ==> r.error == LoadFailed(u.result.value))
                  && (r.Ok? ==> fresh(r.value) && r.value.dir == dir && r.value.nearest == nearest
                                && r.value.State() == load.mem
                                && r.value.currentIndexName == Some(FinalName(csv.path, indexName))))
  {
    var store := new VectorStore(dir, dimension);
    var indexPath := store.UpsertCsvToVectorStore(csv, textColumn, indexName, additionalColumns);
    if indexPath.Err? {
      return Err(StoreFailed(indexPath.error));
    }
    var search := new VectorSearch(dir, nearest);
    var finalName := FinalName(csv.path, indexName);
    var loaded := search.LoadIndex(finalName);
    if loaded {
      return Ok(search);
    }
    return Err(LoadFailed(indexPath.value));
  }

  /** `update_existing_rag_with_csv`: a fresh store on its own directory
      upserts, then the given engine reloads the name; the engine itself is
      returned. */
  method UpdateExistingRagWithCsv(search: VectorSearch, storeDir: IndexDir, dimension: nat, csv: CsvFile, textColumn: string,
                                  indexName: string, additionalColumns: Option<seq<string>>)
    returns (r: Result<VectorSearch, CsvRagError>)
    modifies search, storeDir
    ensures storeDir.present
    ensures var u := Upsert(EmptyMemory, storeDir.path, old(storeDir.Visible()), dimension, csv, textColumn, Some(indexName), additionalColumns);
            && storeDir.files == u.files
            && (u.result.Err? ==>
                  && r == Err(StoreFailed(u.result.error))
                  && search.State() == old(search.State()) && search.currentIndexName == old(search.currentIndexName))
            && (u.result.Ok? ==>
                  var load := LoadArtifact(old(search.State()), search.dir.path, search.dir.Visible(), indexName);
                  && r == Ok(search)
                  && search.State() == load.mem
                  && search.currentIndexName == if load.indexRead then Some(indexName) else old(search.currentIndexName))
  {
    var store := new VectorStore(storeDir, dimension);
    var indexPath := store.UpsertCsvToVectorStore(csv, textColumn, Some(indexName), additionalColumns);
    if indexPath.Err? {
      return Err(StoreFailed(indexPath.error));
    }
    var _ := search.LoadIndex(indexName);
    return Ok(search);
  }

  /** One entry of the configuration list of `batch_process_csv_files`. */
  datatype CsvConfig = CsvConfig(csv: CsvFile, textColumn: string, indexName: Option<string>, additionalColumns: Option<seq<string>>)

  function ConfigName(c: CsvConfig): string {
    FinalName(c.csv.path, c.indexName)
  }

  /** What processing one configuration does to the visible files, and the
      fields of the engine it returns (`None` where it raises). */
  datatype ProcessStep = ProcessStep(files: Files, loaded: Option<Memory>)

  /** `process_csv_for_rag` of one configuration as a function of the visible files. */
  function ProcessOutcome(dirPath: string, files: Files, dimension: nat, c: CsvConfig): ProcessStep {
    var u := Upsert(EmptyMemory, dirPath, files, dimension, c.csv, c.textColumn, c.indexName, c.additionalColumns);
    if u.result.Err? then ProcessStep(u.files, None)
    else
      var load := LoadArtifact(EmptyMemory, dirPath, u.files, ConfigName(c));
      ProcessStep(u.files, if load.ok then Some(load.mem) else None)
  }

  /** `ProcessOutcome` over one directory and dimension, as a step over files and configurations. */
  function Outcomes(dirPath: string, dimension: nat): (Files, CsvConfig) -> ProcessStep {
    (files: Files, c: CsvConfig) => ProcessOutcome(dirPath, files, dimension, c)
  }

  /** The visible files after processing the configurations in order, each
      one seeing what the earlier ones wrote. */
  function FilesAfter(step: (Files, CsvConfig) -> ProcessStep, files: Files, configs: seq<CsvConfig>): Files {
    if configs == [] then files
    else
      var n := |configs| - 1;
      step(FilesAfter(step, files, configs[..n]), configs[n]).files
  }

  /** What each configuration does, in order, each one seeing the files the
      earlier ones left. */
  function Steps(step: (Files, CsvConfig) -> ProcessStep, files: Files, configs: seq<CsvConfig>): (r: seq<ProcessStep>)
    ensures |r| == |configs|
  {
    if configs == [] then []
    else
      var n := |configs| - 1;
      Steps(step, files, configs[..n]) + [step(FilesAfter(step, files, configs[..n]), configs[n])]
  }

  /** Entry `i` of the steps is configuration `i` processed over the files the
      configurations before it left. */
  lemma {:induction false} StepsAt(step: (Files, CsvConfig) -> ProcessStep, files: Files, configs: seq<CsvConfig>, i: nat)
    requires i < |configs|
    ensures Steps(step, files, configs)[i] == step(FilesAfter(step, files, configs[..i]), configs[i])
  {
    var n := |configs| - 1;
    if i < n {
      StepsAt(step, files, configs[..n], i);
      assert configs[..n][..i] == configs[..i];
    }
  }

  /** Configuration `c` yielded `e` by step `p`: an engine exactly when the step
      loaded one, on the directory, holding the loaded fields under the final name. */
  predicate Yields(e: Option<VectorSearch>, p: ProcessStep, dir: IndexDir, c: CsvConfig)
    reads if e.Some? then {e.value} else {}
  {
    && (e.Some? <==> p.loaded.Some?)
    && (e.Some? ==> e.value.dir == dir && e.value.State() == p.loaded.value
                    && e.value.currentIndexName == Some(ConfigName(c)))
  }

  /** A configuration with an explicit non-empty name yields an engine exactly
      when its upsert succeeds, and the engine holds what the store holds. */
  lemma ExplicitConfigSucceeds(dirPath: string, files: Files, dimension: nat, c: CsvConfig)
    requires c.indexName.Some? && c.indexName.value != ""
    ensures var u := Upsert(EmptyMemory, dirPath, files, dimension, c.csv, c.textColumn, c.indexName, c.additionalColumns);
            var p := ProcessOutcome(dirPath, files, dimension, c);
            && p.files == u.files
            && (p.loaded.Some? <==> u.result.Ok?)
            && (p.loaded.Some? ==> p.loaded.value == u.mem)
  {
    var u := Upsert(EmptyMemory, dirPath, files, dimension, c.csv, c.textColumn, c.indexName, c.additionalColumns);
    if u.result.Ok? {
      ExplicitNameRoundTrip(dirPath, files, dimension, c.csv, c.textColumn, c.indexName.value, c.additionalColumns);
    }
  }

  /** The `try` block of `batch_process_csv_files`: the engine, or `None`
      where `process_csv_for_rag` raised. */
  method TryProcess(dir: IndexDir, dimension: nat, nearest: Nearest, c: CsvConfig) returns (r: Option<VectorSearch>)
    modifies dir
    ensures dir.present
    ensures var p := ProcessOutcome(dir.path, old(dir.Visible()), dimension, c);
            dir.files == p.files && Yields(r, p, dir, c)
    ensures r.Some? ==> fresh(r.value) && r.value.nearest == nearest
  {
    var outcome := ProcessCsvForRag(dir, dimension, nearest, c.csv, c.textColumn, c.indexName, c.additionalColumns);
    if outcome.Ok? {
      return Some(outcome.value);
    }
    return None;
  }

  /** The final name of each configuration. */
  function Names(configs: seq<CsvConfig>): (r: seq<string>)
    ensures |r| == |configs|
  {
    seq(|configs|, i requires 0 <= i < |configs| => ConfigName(configs[i]))
  }

  /** The engines keyed by their names, a later engine replacing an earlier one
      with the same name; `None` entries are skipped. */
  function Keyed<T>(names: seq<string>, systems: seq<Option<T>>): map<string, T>
    requires |systems| == |names|
  {
    if names == [] then map[]
    else
      var n := |names| - 1;
      var r := Keyed(names[..n], systems[..n]);
      if systems[n].Some? then r[names[n] := systems[n].value] else r
  }

  /** Every engine's name is a key. */
  lemma {:induction false} KeyedCovers<T>(names: seq<string>, systems: seq<Option<T>>)
    requires |systems| == |names|
    ensures forall i :: 0 <= i < |names| && systems[i].Some? ==> names[i] in Keyed(names, systems)
  {
    if names != [] {
      var n := |names| - 1;
      KeyedCovers(names[..n], systems[..n]);
      forall i | 0 <= i < n && systems[i].Some?
        ensures names[i] in Keyed(names[..n], systems[..n])
      {
        assert names[..n][i] == names[i] && systems[..n][i] == systems[i];
      }
    }
  }

  /** Entry `i` is the last one named `k` that holds an engine, and that engine
      is `v`. */
  ghost predicate LastWriter<T>(names: seq<string>, systems: seq<Option<T>>, i: int, k: string, v: T)
    requires |systems| == |names|
  {
    && 0 <= i < |names| && systems[i] == Some(v) && names[i] == k
    && forall j :: i < j < |names| && systems[j].Some? ==> names[j] != k
  }

  /** The last writer of `k` among all but the final entry stays the last
      writer when the final entry does not write `k`. */
  lemma LastWriterExtends<T>(names: seq<string>, systems: seq<Option<T>>, i: int, k: string, v: T)
    requires |systems| == |names| > 0
    requires LastWriter(names[..|names| - 1], systems[..|names| - 1], i, k, v)
    requires !(systems[|names| - 1].Some? && names[|names| - 1] == k)
    ensures LastWriter(names, systems, i, k, v)
  {
    var n := |names| - 1;
    assert systems[i] == systems[..n][i] && names[i] == names[..n][i];
    forall j | i < j < |names| && systems[j].Some?
      ensures names[j] != k
    {
      if j < n {
        assert systems[..n][j] == systems[j] && names[..n][j] == names[j];
      }
    }
  }

  /** Each key holds the engine of the last entry with that name that holds
      one. */
  lemma {:induction false} KeyedLastWriter<T>(names: seq<string>, systems: seq<Option<T>>)
    requires |systems| == |names|
    ensures forall k :: k in Keyed(names, systems) ==> exists i :: LastWriter(names, systems, i, k, Keyed(names, systems)[k])
  {
    if names != [] {
      var n := |names| - 1;
      var r0 := Keyed(names[..n], systems[..n]);
      var r := Keyed(names, systems);
      KeyedLastWriter(names[..n], systems[..n]);
      forall k | k in r
        ensures exists i :: LastWriter(names, systems, i, k, r[k])
      {
        if systems[n].Some? && names[n] == k {
          assert LastWriter(names, systems, n, k, r[k]);
        } else {
          assert k in r0 && r[k] == r0[k];
          var i :| LastWriter(names[..n], systems[..n], i, k, r0[k]);
          LastWriterExtends(names, systems, i, k, r[k]);
        }
      }
    }
  }

  /** Every configuration yielded its engine by its step. */
  predicate AllYield(systems: seq<Option<VectorSearch>>, steps: seq<ProcessStep>, dir: IndexDir, configs: seq<CsvConfig>)
    requires |systems| == |steps| <= |configs|
    reads set j | 0 <= j < |systems| && systems[j].Some? :: systems[j].value
  {
    forall j :: 0 <= j < |systems| ==> Yields(systems[j], steps[j], dir, configs[j])
  }

  /** One more configuration that yielded its engine keeps every configuration
      yielding. */
  lemma AllYieldSnoc(systems: seq<Option<VectorSearch>>, steps: seq<ProcessStep>, dir: IndexDir, configs: seq<CsvConfig>,
                     e: Option<VectorSearch>, p: ProcessStep)
    requires |systems| == |steps| < |configs|
    requires AllYield(systems, steps, dir, configs)
    requires Yields(e, p, dir, configs[|systems|])
    ensures AllYield(systems + [e], steps + [p], dir, configs)
  {
    var i := |systems|;
    forall j | 0 <= j < i + 1
      ensures Yields((systems + [e])[j], (steps + [p])[j], dir, configs[j])
    {
      if j == i {
        assert (systems + [e])[j] == e && (steps + [p])[j] == p;
      } else {
        assert (systems + [e])[j] == systems[j] && (steps + [p])[j] == steps[j];
      }
    }
  }

  /** Processing one more configuration extends the fold by one step. */
  lemma StepsSnoc(step: (Files, CsvConfig) -> ProcessStep, files: Files, configs: seq<CsvConfig>, i: nat)
    requires i < |configs|
    ensures var before := FilesAfter(step, files, configs[..i]);
            && FilesAfter(step, files, configs[..i + 1]) == step(before, configs[i]).files
            && Steps(step, files, configs[..i + 1]) == Steps(step, files, configs[..i]) + [step(before, configs[i])]
  {
    assert configs[..i + 1][..i] == configs[..i];
  }

  /** Keying one more entry adds or replaces its name. */
  lemma KeyedSnoc<T>(names: seq<string>, systems: seq<Option<T>>, e: Option<T>)
    requires |systems| < |names|
    ensures var i := |systems|;
            var r := Keyed(names[..i], systems);
            Keyed(names[..i + 1], systems + [e]) == if e.Some? then r[names[i] := e.value] else r
  {
    var i := |systems|;
    var n1, s1 := names[..i + 1], systems + [e];
    assert n1[..i] == names[..i] && n1[i] == names[i];
    assert s1[..i] == systems && s1[i] == e;
  }

  /** `batch_process_csv_files`: configurations whose processing raises are
      skipped; the others are keyed by their final name, a later one
      replacing an earlier one with the same name. `systems[i]` is what
      configuration `i` produced from the files the earlier ones left. */
  method BatchProcessCsvFiles(dir: IndexDir, dimension: nat, nearest: Nearest, configs: seq<CsvConfig>)
    returns (r: map<string, VectorSearch>, ghost systems: seq<Option<VectorSearch>>)
    modifies dir
    ensures dir.Visible() == FilesAfter(Outcomes(dir.path, dimension), old(dir.Visible()), configs)
    ensures |systems| == |configs|
    ensures forall i :: 0 <= i < |configs| ==>
              Yields(systems[i], Steps(Outcomes(dir.path, dimension), old(dir.Visible()), configs)[i], dir, configs[i])
    ensures forall i :: 0 <= i < |configs| && systems[i].Some? ==> fresh(systems[i].value)
    ensures r == Keyed(Names(configs), systems)
    ensures forall i :: 0 <= i < |configs| && systems[i].Some? ==> ConfigName(configs[i]) in r
    ensures forall k :: k in r ==> exists i :: LastWriter(Names(configs), systems, i, k, r[k])
  {
    ghost var files0 := dir.Visible();
    ghost var step := Outcomes(dir.path, dimension);
    ghost var names := Names(configs);
    ghost var steps: seq<ProcessStep> := [];
    r, systems := map[], [];
    for i := 0 to |configs|
      invariant dir.Visible() == FilesAfter(step, files0, configs[..i])
      invariant steps == Steps(step, files0, configs[..i])
      invariant |systems| == i
      invariant AllYield(systems, steps, dir, configs)
      invariant forall j :: 0 <= j < i && systems[j].Some? ==> fresh(systems[j].value)
      invariant r == Keyed(names[..i], systems)
    {
      var c := configs[i];
      StepsSnoc(step, files0, configs, i);
      ghost var p := step(dir.Visible(), c);
      var outcome := TryProcess(dir, dimension, nearest, c);
      KeyedSnoc(names, systems, outcome);
      if outcome.Some? {
        r := r[ConfigName(c) := outcome.value];
      }
      AllYieldSnoc(systems, steps, dir, configs, outcome, p);
      systems := systems + [outcome];
      steps := steps + [p];
    }
    assert configs[..|configs|] == configs && names[..|configs|] == names;
    assert AllYield(systems, steps, dir, configs);
    KeyedCovers(names, systems);
    KeyedLastWriter(names, systems);
  }

  /** `search_across_multiple_rags`: one entry per engine, `[]` where its
      search raised. */
  method SearchAcrossMultipleRags(rags: map<string, VectorSearch>, query: string, topK: int, threshold: real)
    returns (r: map<string, seq<SearchResult>>)
    ensures r.Keys == rags.Keys
    ensures forall k :: k in r ==> r[k] == SearchOutcome(rags[k].State(), rags[k].nearest, query, topK, threshold).GetOr([])
  {
    r := map[];
    var remaining := rags.Keys;
    while remaining != {}
      invariant remaining <= rags.Keys
      invariant r.Keys == rags.Keys - remaining
      invariant forall k :: k in r ==> r[k] == SearchOutcome(rags[k].State(), rags[k].nearest, query, topK, threshold).GetOr([])
      decreases remaining
    {
      var name :| name in remaining;
      var found := rags[name].Search(query, topK, threshold);
      r := r[name := found.GetOr([])];
      remaining := remaining - {name};
    }
  }
}
