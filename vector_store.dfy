/** `VectorStore` from utils/vector_store.py: building, upserting, loading,
    inspecting, listing and deleting named index artifacts. Embedding is
    foreign; an artifact's vector file records which texts it embeds. */
module VectorStoreModel {
  import opened Wrappers
  import opened Text
  import opened Storage

  /** The exceptions the store raises: `pd.read_csv` failing, a missing text
      column, and nothing left to embed. */
  datatype StoreError = CsvUnreadable | ColumnNotFound(column: string) | NoValidTexts

  /** `text and text.strip()`: the entries that survive the blank filter. */
  predicate NonBlank(t: string) {
    HasNonSpace(t)
  }

  /** The positions of `texts` that survive the blank filter, in increasing order. */
  function KeptPositions(texts: seq<string>): (p: seq<nat>)
    ensures forall j :: 0 <= j < |p| ==> p[j] < |texts| && NonBlank(texts[p[j]])
    ensures forall j, k :: 0 <= j < k < |p| ==> p[j] < p[k]
    ensures forall i :: 0 <= i < |texts| && NonBlank(texts[i]) ==> i in p
  {
    if texts == [] then []
    else
      var n := |texts| - 1;
      var front := KeptPositions(texts[..n]);
      assert forall j :: 0 <= j < |front| ==> texts[..n][front[j]] == texts[front[j]];
      front + (if NonBlank(texts[n]) then [n] else [])
  }

  /** `valid_texts`: the surviving entries, stripped, in input order. */
  function ValidTexts(texts: seq<string>): seq<string> {
    if texts == [] then []
    else
      var n := |texts| - 1;
      ValidTexts(texts[..n]) + (if NonBlank(texts[n]) then [Strip(texts[n])] else [])
  }

  /** The metadata of position `i`: `metadata[i]` when it exists, else `{}`. */
  function MetaAt(metadata: seq<Metadata>, i: nat): Metadata {
    if i < |metadata| then metadata[i] else map[]
  }

  /** `valid_metadata`: for each surviving text, the metadata of its original position. */
  function ValidMetadata(texts: seq<string>, metadata: seq<Metadata>): seq<Metadata> {
    if texts == [] then []
    else
      var n := |texts| - 1;
      ValidMetadata(texts[..n], metadata) + (if NonBlank(texts[n]) then [MetaAt(metadata, n)] else [])
  }

  /** Entry `j` of `valid_texts` is the stripped text at the `j`-th surviving
      position, and entry `j` of `valid_metadata` that position's metadata: the
      two lists stay aligned. */
  lemma {:induction false} ValidAt(texts: seq<string>, metadata: seq<Metadata>)
    ensures |ValidTexts(texts)| == |ValidMetadata(texts, metadata)| == |KeptPositions(texts)|
    ensures forall j :: 0 <= j < |KeptPositions(texts)| ==>
              ValidTexts(texts)[j] == Strip(texts[KeptPositions(texts)[j]])
              && ValidMetadata(texts, metadata)[j] == MetaAt(metadata, KeptPositions(texts)[j])
  {
    if texts != [] {
      var n := |texts| - 1;
      ValidAt(texts[..n], metadata);
      var p, vt, vm := KeptPositions(texts[..n]), ValidTexts(texts[..n]), ValidMetadata(texts[..n], metadata);
      var tail := if NonBlank(texts[n]) then [n] else [];
      assert KeptPositions(texts) == p + tail;
      assert ValidTexts(texts) == vt + (if NonBlank(texts[n]) then [Strip(texts[n])] else []);
      assert ValidMetadata(texts, metadata) == vm + (if NonBlank(texts[n]) then [MetaAt(metadata, n)] else []);
      forall j | 0 <= j < |p| ensures texts[..n][p[j]] == texts[p[j]] {
      }
    }
  }

  /** The blank filter distributes over concatenation: existing records stay
      first, in order. */
  lemma {:induction false} ValidTextsAppend(a: seq<string>, b: seq<string>)
    ensures ValidTexts(a + b) == ValidTexts(a) + ValidTexts(b)
  {
    if b == [] {
      assert a + b == a;
    } else {
      var n := |b| - 1;
      ValidTextsAppend(a, b[..n]);
      assert (a + b)[..|a + b| - 1] == a + b[..n];
      assert (a + b)[|a + b| - 1] == b[n];
    }
  }

  /** The same for metadata, as long as the first part's metadata is aligned with its texts. */
  lemma {:induction false} ValidMetadataAppend(a: seq<string>, ma: seq<Metadata>, b: seq<string>, mb: seq<Metadata>)
    requires |ma| == |a|
    ensures ValidMetadata(a + b, ma + mb) == ValidMetadata(a, ma) + ValidMetadata(b, mb)
  {
    if b == [] {
      assert a + b == a;
      var l, r := ValidMetadata(a, ma + mb), ValidMetadata(a, ma);
      ValidAt(a, ma + mb);
      ValidAt(a, ma);
      forall j | 0 <= j < |l| ensures l[j] == r[j] {
        assert KeptPositions(a)[j] < |a|;
      }
    } else {
      var n := |b| - 1;
      ValidMetadataAppend(a, ma, b[..n], mb);
      assert (a + b)[..|a + b| - 1] == a + b[..n];
      assert (a + b)[|a + b| - 1] == b[n];
      assert MetaAt(ma + mb, |a| + n) == MetaAt(mb, n);
    }
  }

  /** Texts that are already stripped and non-blank pass the filter unchanged,
      and keep their metadata. */
  lemma CleanPassesUnchanged(t: seq<string>, m: seq<Metadata>)
    requires forall i :: 0 <= i < |t| ==> NonBlank(t[i]) && Strip(t[i]) == t[i]
    requires |t| <= |m|
    ensures ValidTexts(t) == t
    ensures ValidMetadata(t, m) == m[..|t|]
  {
    CleanTextsUnchanged(t);
    CleanMetadataUnchanged(t, m);
  }

  /** The texts half of the above. */
  lemma {:induction false} CleanTextsUnchanged(t: seq<string>)
    requires forall i :: 0 <= i < |t| ==> NonBlank(t[i]) && Strip(t[i]) == t[i]
    ensures ValidTexts(t) == t
  {
    if t != [] {
      var n := |t| - 1;
      CleanTextsUnchanged(t[..n]);
      assert t[..n] + [t[n]] == t;
    }
  }

  /** The metadata half of the above. */
  lemma {:induction false} CleanMetadataUnchanged(t: seq<string>, m: seq<Metadata>)
    requires forall i :: 0 <= i < |t| ==> NonBlank(t[i])
    requires |t| <= |m|
    ensures ValidMetadata(t, m) == m[..|t|]
  {
    if t != [] {
      var n := |t| - 1;
      CleanMetadataUnchanged(t[..n], m);
      assert m[..n] + [m[n]] == m[..|t|];
    }
  }

  /** Filtering twice is filtering once. */
  lemma ValidTextsIdempotent(t: seq<string>)
    ensures ValidTexts(ValidTexts(t)) == ValidTexts(t)
  {
    var v := ValidTexts(t);
    ValidTextsClean(t);
    CleanPassesUnchanged(v, seq(|v|, _ => map[]));
  }

  /** `_create_vector_index`'s filter loop. */
  method FilterValid(texts: seq<string>, metadata: seq<Metadata>) returns (validTexts: seq<string>, validMetadata: seq<Metadata>)
    ensures validTexts == ValidTexts(texts)
    ensures validMetadata == ValidMetadata(texts, metadata)
  {
    validTexts, validMetadata := [], [];
    for i := 0 to |texts|
      invariant validTexts == ValidTexts(texts[..i])
      invariant validMetadata == ValidMetadata(texts[..i], metadata)
    {
      assert texts[..i + 1][..i] == texts[..i];
      var text := texts[i];
      HasNonSpaceIffStripNonEmpty(text);
      if text != "" && Strip(text) != "" {
        validTexts := validTexts + [Strip(text)];
        if |metadata| > 0 && i < |metadata| {
          validMetadata := validMetadata + [metadata[i]];
        } else {
          validMetadata := validMetadata + [map[]];
        }
      }
    }
    assert texts[..|texts|] == texts;
  }

  /** One record per CSV row holding the requested columns that exist. */
  function RowMetadata(df: DataFrame, columns: seq<string>): (r: seq<Metadata>)
    ensures |r| == |df.rows|
    ensures forall i :: 0 <= i < |r| ==> r[i].Keys == (set c | c in columns && c in df.columns)
    ensures forall i, c :: 0 <= i < |r| && c in r[i] ==> r[i][c] == df.rows[i][c]
  {
    seq(|df.rows|, i requires 0 <= i < |df.rows| => map c | c in columns && c in df.columns :: df.rows[i][c])
  }

  /** What `_extract_texts_and_metadata_from_csv` returns or raises. */
  function Extracted(csv: CsvFile, textColumn: string, additionalColumns: Option<seq<string>>): (r: Result<(seq<string>, seq<Metadata>), StoreError>)
    ensures csv.frame.None? ==> r == Err(CsvUnreadable)
    ensures csv.frame.Some? ==> (r.Err? <==> textColumn !in csv.frame.value.columns)
    ensures r.Err? && csv.frame.Some? ==> r.error == ColumnNotFound(textColumn)
    ensures r.Ok? ==> r.value.0 == Column(csv.frame.value, textColumn)
    ensures r.Ok? ==> (r.value.1 == [] <==> additionalColumns.None? || additionalColumns.value == [] || csv.frame.value.rows == [])
    ensures r.Ok? && r.value.1 != [] ==> r.value.1 == RowMetadata(csv.frame.value, additionalColumns.value)
  {
    match csv.frame
    case None => Err(CsvUnreadable)
    case Some(df) =>
      if textColumn !in df.columns then Err(ColumnNotFound(textColumn))
      else Ok((Column(df, textColumn),
               if additionalColumns.Some? && additionalColumns.value != [] then RowMetadata(df, additionalColumns.value) else []))
  }

  /** `_extract_texts_and_metadata_from_csv`, with its row loop. */
  method ExtractTextsAndMetadata(csv: CsvFile, textColumn: string, additionalColumns: Option<seq<string>>)
    returns (r: Result<(seq<string>, seq<Metadata>), StoreError>)
    ensures r == Extracted(csv, textColumn, additionalColumns)
  {
    if csv.frame.None? {
      return Err(CsvUnreadable);
    }
    var df := csv.frame.value;
    if textColumn !in df.columns {
      return Err(ColumnNotFound(textColumn));
    }
    var texts := Column(df, textColumn);
    var metadata: seq<Metadata> := [];
    if additionalColumns.Some? && additionalColumns.value != [] {
      var columns := additionalColumns.value;
      for i := 0 to |df.rows|
        invariant metadata == RowMetadata(df, columns)[..i]
      {
        var meta := map c | c in columns && c in df.columns :: df.rows[i][c];
        metadata := metadata + [meta];
      }
      assert RowMetadata(df, columns)[..|df.rows|] == RowMetadata(df, columns);
    }
    return Ok((texts, metadata));
  }

  /** The default artifact name: the CSV's stem, `_`, the text column. */
  function DefaultIndexName(csvPath: string, textColumn: string): string {
    Stem(csvPath) + "_" + textColumn
  }

  function UpsertName(csvPath: string, textColumn: string, indexName: Option<string>): string {
    if indexName.None? then DefaultIndexName(csvPath, textColumn) else indexName.value
  }

  /** `new_metadata or [{}] * len(new_texts)`. */
  function Padded(newMetadata: seq<Metadata>, count: nat): (r: seq<Metadata>)
    ensures newMetadata == [] ==> |r| == count && forall i :: 0 <= i < count ==> r[i] == map[]
    ensures newMetadata != [] ==> r == newMetadata
  {
    if newMetadata == [] then seq(count, _ => map[]) else newMetadata
  }

  /** What an upsert returns, the files afterwards and the store's fields afterwards. */
  datatype UpsertStep = UpsertStep(result: Result<FilePath, StoreError>, files: Files, mem: Memory)

  /** `upsert_csv_to_vector_store` as a function of the store's fields and the
      visible files. */
  function Upsert(mem: Memory, dirPath: string, files: Files, dimension: nat, csv: CsvFile, textColumn: string,
                  indexName: Option<string>, additionalColumns: Option<seq<string>>): UpsertStep
  {
    var name := UpsertName(csv.path, textColumn, indexName);
    var first := LoadArtifact(mem, dirPath, files, name);
    var existingTexts := if first.ok then first.mem.kbData else [];
    var existingMetadata := if first.ok then first.mem.metadata else [];
    match Extracted(csv, textColumn, additionalColumns)
    case Err(e) => UpsertStep(Err(e), files, first.mem)
    case Ok(extracted) =>
      var combinedTexts := existingTexts + extracted.0;
      var combinedMetadata := existingMetadata + Padded(extracted.1, |extracted.0|);
      if ValidTexts(combinedTexts) == [] then UpsertStep(Err(NoValidTexts), files, first.mem)
      else
        var written := WriteArtifact(files, name, dimension, ValidTexts(combinedTexts), ValidMetadata(combinedTexts, combinedMetadata));
        UpsertStep(Ok(FilePath(dirPath, IndexFileName(name))), written, LoadArtifact(first.mem, dirPath, written, name).mem)
  }

  /** After a successful upsert the store holds the stripped non-blank texts of
      the existing records followed by the new ones, each with its aligned
      metadata, and the vector file embeds exactly those texts; a failed upsert
      writes nothing. */
  lemma {:induction false} UpsertLoadsCombined(mem: Memory, dirPath: string, files: Files, dimension: nat, csv: CsvFile,
                                              textColumn: string, indexName: Option<string>, additionalColumns: Option<seq<string>>)
    ensures var s := Upsert(mem, dirPath, files, dimension, csv, textColumn, indexName, additionalColumns);
            var name := UpsertName(csv.path, textColumn, indexName);
            var first := LoadArtifact(mem, dirPath, files, name);
            var existingTexts := if first.ok then first.mem.kbData else [];
            var existingMetadata := if first.ok then first.mem.metadata else [];
            var x := Extracted(csv, textColumn, additionalColumns);
            && (s.result.Err? ==> s.files == files)
            && (s.result.Ok? <==> x.Ok? && ValidTexts(existingTexts + x.value.0) != [])
            && (s.result.Ok? ==>
                  && s.result.value == FilePath(dirPath, IndexFileName(name))
                  && s.mem.kbData == ValidTexts(existingTexts) + ValidTexts(x.value.0)
                  && s.mem.metadata == ValidMetadata(existingTexts + x.value.0, existingMetadata + Padded(x.value.1, |x.value.0|))
                  && |s.mem.metadata| == |s.mem.kbData|
                  && s.mem.index == Some(VectorIndex(dimension, s.mem.kbData)))
  {
    var name := UpsertName(csv.path, textColumn, indexName);
    var first := LoadArtifact(mem, dirPath, files, name);
    var existingTexts := if first.ok then first.mem.kbData else [];
    var existingMetadata := if first.ok then first.mem.metadata else [];
    var x := Extracted(csv, textColumn, additionalColumns);
    if x.Ok? {
      var combinedTexts := existingTexts + x.value.0;
      var combinedMetadata := existingMetadata + Padded(x.value.1, |x.value.0|);
      ValidTextsAppend(existingTexts, x.value.0);
      ValidAt(combinedTexts, combinedMetadata);
      if ValidTexts(combinedTexts) != [] {
        WriteThenLoad(first.mem, dirPath, files, name, dimension, ValidTexts(combinedTexts), ValidMetadata(combinedTexts, combinedMetadata));
      }
    }
  }

  /** Every entry `valid_texts` produces is already stripped and non-blank. */
  lemma ValidTextsClean(t: seq<string>)
    ensures forall i :: 0 <= i < |ValidTexts(t)| ==> NonBlank(ValidTexts(t)[i]) && Strip(ValidTexts(t)[i]) == ValidTexts(t)[i]
  {
    var v := ValidTexts(t);
    ValidAt(t, []);
    forall i | 0 <= i < |v| ensures NonBlank(v[i]) && Strip(v[i]) == v[i] {
      var x := t[KeptPositions(t)[i]];
      StripIdempotent(x);
      HasNonSpaceIffStripNonEmpty(x);
      HasNonSpaceIffStripNonEmpty(Strip(x));
    }
  }

  /** Records that came out of the filter pass through it again unchanged, in
      front of the new ones. */
  lemma CleanPrefixAppend(t: seq<string>, m: seq<Metadata>, b: seq<string>, mb: seq<Metadata>)
    requires forall i :: 0 <= i < |t| ==> NonBlank(t[i]) && Strip(t[i]) == t[i]
    requires |m| == |t|
    ensures ValidTexts(t + b) == t + ValidTexts(b)
    ensures ValidMetadata(t + b, m + mb) == m + ValidMetadata(b, mb)
  {
    ValidTextsAppend(t, b);
    ValidMetadataAppend(t, m, b, mb);
    CleanPassesUnchanged(t, m);
    assert m[..|t|] == m;
  }

  /** An upsert under a name with no artifact yet succeeds exactly when the
      CSV yields some non-blank text, and then writes exactly the filtered new
      records. */
  lemma UpsertFresh(mem: Memory, dirPath: string, files: Files, dimension: nat, csv: CsvFile,
                    textColumn: string, name: string, additionalColumns: Option<seq<string>>)
    requires IndexFileName(name) !in files
    ensures var s := Upsert(mem, dirPath, files, dimension, csv, textColumn, Some(name), additionalColumns);
            var xr := Extracted(csv, textColumn, additionalColumns);
            && (s.result.Ok? <==> xr.Ok? && ValidTexts(xr.value.0) != [])
            && (s.result.Ok? ==>
                  var t, m := ValidTexts(xr.value.0), ValidMetadata(xr.value.0, Padded(xr.value.1, |xr.value.0|));
                  && s.mem.kbData == t && s.mem.metadata == m && |m| > 0
                  && s.files == WriteArtifact(files, name, dimension, t, m))
  {
    LoadFacts(mem, mem, dirPath, files, name);
    UpsertLoadsCombined(mem, dirPath, files, dimension, csv, textColumn, Some(name), additionalColumns);
    var xr := Extracted(csv, textColumn, additionalColumns);
    if xr.Ok? {
      var x := xr.value;
      assert [] + x.0 == x.0 && [] + Padded(x.1, |x.0|) == Padded(x.1, |x.0|);
      ValidAt(x.0, Padded(x.1, |x.0|));
    }
  }

  /** An upsert onto an artifact that loads with filtered records `t` and
      aligned metadata `m` keeps them in front of the new records. */
  lemma UpsertOntoLoaded(mem: Memory, dirPath: string, files: Files, dimension: nat, csv: CsvFile,
                         textColumn: string, name: string, additionalColumns: Option<seq<string>>,
                         t: seq<string>, m: seq<Metadata>)
    requires LoadArtifact(mem, dirPath, files, name) == LoadStep(true, true, Memory(Some(VectorIndex(dimension, t)), Some(FilePath(dirPath, IndexFileName(name))), t, m))
    requires forall i :: 0 <= i < |t| ==> NonBlank(t[i]) && Strip(t[i]) == t[i]
    requires |m| == |t|
    requires Upsert(mem, dirPath, files, dimension, csv, textColumn, Some(name), additionalColumns).result.Ok?
    ensures var s := Upsert(mem, dirPath, files, dimension, csv, textColumn, Some(name), additionalColumns);
            var x := Extracted(csv, textColumn, additionalColumns).value;
            && s.mem.kbData == t + ValidTexts(x.0)
            && s.mem.metadata == m + ValidMetadata(x.0, Padded(x.1, |x.0|))
  {
    var x := Extracted(csv, textColumn, additionalColumns).value;
    assert UpsertName(csv.path, textColumn, Some(name)) == name;
    UpsertLoadsCombined(mem, dirPath, files, dimension, csv, textColumn, Some(name), additionalColumns);
    CleanPrefixAppend(t, m, x.0, Padded(x.1, |x.0|));
    CleanTextsUnchanged(t);
  }

  /** Two successive upserts of record sets A and B under one fresh name leave
      the records of A followed by those of B, each text with its own metadata. */
  lemma {:induction false} UpsertTwice(mem: Memory, dirPath: string, files: Files, dimension: nat, a: CsvFile, b: CsvFile,
                                      textColumn: string, name: string, additionalColumns: Option<seq<string>>)
    requires IndexFileName(name) !in files
    requires Upsert(mem, dirPath, files, dimension, a, textColumn, Some(name), additionalColumns).result.Ok?
    requires var s1 := Upsert(mem, dirPath, files, dimension, a, textColumn, Some(name), additionalColumns);
             Upsert(s1.mem, dirPath, s1.files, dimension, b, textColumn, Some(name), additionalColumns).result.Ok?
    ensures var s1 := Upsert(mem, dirPath, files, dimension, a, textColumn, Some(name), additionalColumns);
            var s2 := Upsert(s1.mem, dirPath, s1.files, dimension, b, textColumn, Some(name), additionalColumns);
            var xa := Extracted(a, textColumn, additionalColumns).value;
            var xb := Extracted(b, textColumn, additionalColumns).value;
            && s2.mem.kbData == ValidTexts(xa.0) + ValidTexts(xb.0)
            && s2.mem.metadata == ValidMetadata(xa.0, Padded(xa.1, |xa.0|)) + ValidMetadata(xb.0, Padded(xb.1, |xb.0|))
  {
    var s1 := Upsert(mem, dirPath, files, dimension, a, textColumn, Some(name), additionalColumns);
    var xa := Extracted(a, textColumn, additionalColumns).value;
    var ta, ma := ValidTexts(xa.0), ValidMetadata(xa.0, Padded(xa.1, |xa.0|));
    UpsertFresh(mem, dirPath, files, dimension, a, textColumn, name, additionalColumns);
    // The second upsert reads back what the first one wrote.
    WriteThenLoad(s1.mem, dirPath, files, name, dimension, ta, ma);
    ValidTextsClean(xa.0);
    ValidAt(xa.0, Padded(xa.1, |xa.0|));
    UpsertOntoLoaded(s1.mem, dirPath, s1.files, dimension, b, textColumn, name, additionalColumns, ta, ma);
  }

  /** An upsert under one name leaves every other artifact as it was. */
  lemma UpsertKeepsOthers(mem: Memory, other: Memory, dirPath: string, files: Files, dimension: nat, csv: CsvFile,
                          textColumn: string, indexName: Option<string>, additionalColumns: Option<seq<string>>, n: string)
    requires n != UpsertName(csv.path, textColumn, indexName)
    ensures LoadArtifact(other, dirPath, Upsert(mem, dirPath, files, dimension, csv, textColumn, indexName, additionalColumns).files, n)
         == LoadArtifact(other, dirPath, files, n)
  {
    var name := UpsertName(csv.path, textColumn, indexName);
    var first := LoadArtifact(mem, dirPath, files, name);
    var existingTexts := if first.ok then first.mem.kbData else [];
    var existingMetadata := if first.ok then first.mem.metadata else [];
    var x := Extracted(csv, textColumn, additionalColumns);
    var s := Upsert(mem, dirPath, files, dimension, csv, textColumn, indexName, additionalColumns);
    if x.Ok? {
      var combinedTexts := existingTexts + x.value.0;
      var combinedMetadata := existingMetadata + Padded(x.value.1, |x.value.0|);
      var t, m := ValidTexts(combinedTexts), ValidMetadata(combinedTexts, combinedMetadata);
      if t != [] {
        assert s.files == WriteArtifact(files, name, dimension, t, m);
        WriteKeepsOthers(other, dirPath, files, name, n, dimension, t, m);
      } else {
        assert s.files == files;
      }
    } else {
      assert s.files == files;
    }
  }

  /** What `get_index_info` reports for one name. */
  datatype IndexInfo = IndexInfo(
    indexName: string, indexPath: FilePath, present: bool,
    vectorDimension: Option<nat>, totalVectors: Option<nat>, indexError: bool,
    textsCount: nat, textsError: bool, hasMetadata: bool)

  /** `get_index_info(name)` over the visible files. */
  function IndexInfoOf(dirPath: string, files: Files, name: string): (info: IndexInfo)
    ensures info.indexName == name && info.indexPath == FilePath(dirPath, IndexFileName(name))
    ensures info.present <==> IndexFileName(name) in files
    ensures info.totalVectors.Some? <==> info.present && files[IndexFileName(name)].VectorFile?
    ensures info.totalVectors.Some? ==> info.totalVectors.value == |files[IndexFileName(name)].embedded|
    ensures info.vectorDimension.Some? <==> info.totalVectors.Some?
    ensures info.vectorDimension.Some? ==> info.vectorDimension.value == files[IndexFileName(name)].dimension
    ensures info.indexError <==> info.present && !files[IndexFileName(name)].VectorFile?
    ensures info.textsCount != 0 ==> TextsFileName(name) in files && files[TextsFileName(name)].TextsFile?
    ensures TextsFileName(name) in files && files[TextsFileName(name)].TextsFile? ==> info.textsCount == |files[TextsFileName(name)].texts|
    ensures info.textsError <==> TextsFileName(name) in files && !files[TextsFileName(name)].TextsFile?
    ensures info.hasMetadata <==> MetadataFileName(name) in files
  {
    var ip, tp, mp := IndexFileName(name), TextsFileName(name), MetadataFileName(name);
    var index := if ip in files then Some(files[ip]) else None;
    var texts := if tp in files then Some(files[tp]) else None;
    IndexInfo(
      name, FilePath(dirPath, ip), ip in files,
      if index.Some? && index.value.VectorFile? then Some(index.value.dimension) else None,
      if index.Some? && index.value.VectorFile? then Some(|index.value.embedded|) else None,
      index.Some? && !index.value.VectorFile?,
      if texts.Some? && texts.value.TextsFile? then |texts.value.texts| else 0,
      texts.Some? && !texts.value.TextsFile?,
      mp in files)
  }

  /** `filename.endswith('.index')`. */
  predicate EndsWithIndex(f: string) {
    |f| >= 6 && f[|f| - 6..] == ".index"
  }

  /** `info` is what `get_index_info` reports for the listed `.index` file `f`. */
  predicate InfoOfListed(info: IndexInfo, f: string, dirPath: string, files: Files) {
    EndsWithIndex(f) && info == IndexInfoOf(dirPath, files, f[..|f| - 6])
  }

  predicate NoDuplicates<T(==)>(s: seq<T>) {
    forall i, j :: 0 <= i < j < |s| ==> s[i] != s[j]
  }

  class VectorStore {
    const dir: IndexDir
    /** The output dimension of the (foreign) sentence-embedding model. */
    const dimension: nat
    var index: Option<VectorIndex>
    var indexPath: Option<FilePath>
    var kbData: seq<string>
    var metadata: seq<Metadata>

    function State(): Memory
      reads this
    {
      Memory(index, indexPath, kbData, metadata)
    }

    /** The constructor created the index directory and nothing removes it. */
    ghost predicate Valid()
      reads this, dir
    {
      dir.present
    }

    /** `__init__`: empty fields; `os.makedirs(index_dir, exist_ok=True)`. */
    constructor (dir: IndexDir, dimension: nat)
      modifies dir
      ensures this.dir == dir && this.dimension == dimension
      ensures State() == EmptyMemory && Valid()
      ensures dir.files == old(dir.Visible())
    {
      this.dir := dir;
      this.dimension := dimension;
      index, indexPath, kbData, metadata := None, None, [], [];
      new;
      if !dir.present {
        dir.files := map[];
        dir.present := true;
      }
    }

    /** `load_index`. */
    method LoadIndex(name: string) returns (ok: bool)
      requires Valid()
      modifies this
      ensures var s := LoadArtifact(old(State()), dir.path, dir.files, name);
              ok == s.ok && State() == s.mem
    {
      var ip, tp, mp := IndexFileName(name), TextsFileName(name), MetadataFileName(name);
      if ip !in dir.files {
        return false;
      }
      var content := dir.files[ip];
      if !content.VectorFile? {
        return false;
      }
      index := Some(VectorIndex(content.dimension, content.embedded));
      indexPath := Some(FilePath(dir.path, ip));
      if tp in dir.files {
        var texts := dir.files[tp];
        if !texts.TextsFile? {
          return false;
        }
        kbData := texts.texts;
      } else {
        kbData := [];
      }
      metadata := [];
      if mp in dir.files {
        var records := dir.files[mp];
        if !records.MetadataFile? {
          return false;
        }
        metadata := records.records;
      }
      return true;
    }

    /** `_create_vector_index`: filter, refuse an empty result before writing
        anything, then write the artifact. */
    method CreateVectorIndex(texts: seq<string>, name: string, metadata: seq<Metadata>) returns (r: Result<FilePath, StoreError>)
      requires Valid()
      modifies dir
      ensures Valid()
      ensures r.Err? <==> ValidTexts(texts) == []
      ensures r.Err? ==> r.error == NoValidTexts && dir.files == old(dir.files)
      ensures r.Ok? ==> r.value == FilePath(dir.path, IndexFileName(name))
      ensures r.Ok? ==> dir.files == WriteArtifact(old(dir.files), name, dimension, ValidTexts(texts), ValidMetadata(texts, metadata))
    {
      var validTexts, validMetadata := FilterValid(texts, metadata);
      if validTexts == [] {
        return Err(NoValidTexts);
      }
      dir.files := dir.files[IndexFileName(name) := VectorFile(dimension, validTexts)];
      if |validMetadata| > 0 {
        dir.files := dir.files[MetadataFileName(name) := MetadataFile(validMetadata)];
      }
      dir.files := dir.files[TextsFileName(name) := TextsFile(validTexts)];
      return Ok(FilePath(dir.path, IndexFileName(name)));
    }

    /** `upsert_csv_to_vector_store`. */
    method UpsertCsvToVectorStore(csv: CsvFile, textColumn: string, indexName: Option<string>, additionalColumns: Option<seq<string>>)
      returns (r: Result<FilePath, StoreError>)
      requires Valid()
      modifies this, dir
      ensures Valid()
      ensures var s := Upsert(old(State()), dir.path, old(dir.files), dimension, csv, textColumn, indexName, additionalColumns);
              r == s.result && dir.files == s.files && State() == s.mem
    {
      var name := UpsertName(csv.path, textColumn, indexName);
      var existingTexts: seq<string>, existingMetadata: seq<Metadata>;
      var loaded := LoadIndex(name);
      if loaded {
        existingTexts, existingMetadata := kbData, metadata;
      } else {
        existingTexts, existingMetadata := [], [];
      }
      var extracted := ExtractTextsAndMetadata(csv, textColumn, additionalColumns);
      if extracted.Err? {
        return Err(extracted.error);
      }
      var newTexts, newMetadata := extracted.value.0, extracted.value.1;
      var combinedTexts := existingTexts + newTexts;
      var combinedMetadata := existingMetadata + Padded(newMetadata, |newTexts|);
      r := CreateVectorIndex(combinedTexts, name, combinedMetadata);
      if r.Err? {
        return;
      }
      var _ := LoadIndex(name);
    }

    /** `list_indices`: one entry per file name ending in `.index`, in the
        directory's (unspecified) listing order; `listed` records that order. */
    method ListIndices() returns (infos: seq<IndexInfo>, ghost listed: seq<string>)
      ensures !dir.present ==> infos == []
      ensures |listed| == |infos| && NoDuplicates(listed)
      ensures forall f :: f in listed <==> f in dir.Visible() && EndsWithIndex(f)
      ensures forall k :: 0 <= k < |infos| ==> InfoOfListed(infos[k], listed[k], dir.path, dir.Visible())
    {
      infos, listed := [], [];
      if !dir.present {
        return;
      }
      var files := dir.files;
      var remaining := files.Keys;
      while remaining != {}
        invariant remaining <= files.Keys
        invariant forall f :: f in listed ==> f in files && EndsWithIndex(f) && f !in remaining
        invariant forall f :: f in files && EndsWithIndex(f) && f !in remaining ==> f in listed
        invariant NoDuplicates(listed)
        invariant |listed| == |infos|
        invariant forall k :: 0 <= k < |infos| ==> InfoOfListed(infos[k], listed[k], dir.path, files)
        decreases remaining
      {
        var f :| f in remaining;
        if EndsWithIndex(f) {
          assert f !in listed;
          listed := listed + [f];
          infos := infos + [IndexInfoOf(dir.path, files, f[..|f| - 6])];
        }
        remaining := remaining - {f};
      }
    }

    /** `delete_index`: removes whichever of the three files exist and reports
        success even when none did. */
    method DeleteIndex(name: string) returns (ok: bool)
      requires Valid()
      modifies dir
      ensures Valid() && ok
      ensures dir.files == DeleteArtifact(old(dir.files), name)
    {
      var toDelete := [IndexFileName(name), TextsFileName(name), MetadataFileName(name)];
      for i := 0 to |toDelete|
        invariant dir.present
        invariant dir.files.Keys <= old(dir.files).Keys
        invariant forall f :: f in dir.files ==> dir.files[f] == old(dir.files)[f]
        invariant forall f :: f in old(dir.files) ==> (f in dir.files <==> f !in toDelete[..i])
      {
        if toDelete[i] in dir.files {
          dir.files := dir.files - {toDelete[i]};
        }
      }
      assert toDelete[..3] == toDelete;
      return true;
    }
  }

  /** Deleting twice is deleting once, and a deleted artifact no longer loads. */
  lemma DeleteIdempotent(mem: Memory, dirPath: string, files: Files, name: string)
    ensures DeleteArtifact(DeleteArtifact(files, name), name) == DeleteArtifact(files, name)
    ensures !LoadArtifact(mem, dirPath, DeleteArtifact(files, name), name).ok
  {
  }
}
