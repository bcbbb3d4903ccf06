/** The on-disk side of an index: the directory of artifact files, the three
    file names of an artifact, reading an artifact into memory the way
    `load_index` does, writing one the way `_create_vector_index` does, and the
    CSV tables the store ingests. */
module Storage {
  import opened Wrappers

  /** One metadata record: the string columns kept beside a text. */
  type Metadata = map<string, string>

  /** What a file holds. A vector file keeps the texts whose embeddings it
      stores (the vectors themselves are foreign); `Unreadable` is a file whose
      parse raises. */
  datatype FileContent =
    | VectorFile(dimension: nat, embedded: seq<string>)
    | TextsFile(texts: seq<string>)
    | MetadataFile(records: seq<Metadata>)
    | Unreadable

  /** The files of an index directory, by file name. */
  type Files = map<string, FileContent>

  /** `os.path.join(index_dir, file)`, kept as its two parts. */
  datatype FilePath = FilePath(dir: string, file: string)

  /** The index directory shared by the store and the search engine. */
  class IndexDir {
    const path: string
    var present: bool
    var files: Files

    constructor (path: string, present: bool, files: Files)
      ensures this.path == path && this.present == present && this.files == files
    {
      this.path := path;
      this.present := present;
      this.files := files;
    }

    /** The files `os.path.exists` sees: none while the directory is missing. */
    function Visible(): Files
      reads this
    {
      if present then files else map[]
    }
  }

  function IndexFileName(name: string): string { name + ".index" }
  function TextsFileName(name: string): string { name + "_texts.json" }
  function MetadataFileName(name: string): string { name + "_metadata.json" }

  /** The three files of one artifact never collide with each other, and two
      artifacts share a file only when they share their name. */
  lemma FileNamesDistinct(n: string, m: string)
    ensures IndexFileName(n) != TextsFileName(m)
    ensures IndexFileName(n) != MetadataFileName(m)
    ensures TextsFileName(n) != MetadataFileName(m)
    ensures IndexFileName(n) == IndexFileName(m) ==> n == m
    ensures TextsFileName(n) == TextsFileName(m) ==> n == m
    ensures MetadataFileName(n) == MetadataFileName(m) ==> n == m
  {
    var i, t, md := IndexFileName(n), TextsFileName(m), MetadataFileName(m);
    assert i[|i| - 1] == 'x' && t[|t| - 1] == 'n' && md[|md| - 1] == 'n';
    var t' := TextsFileName(n);
    assert t'[|t'| - 6] == 's' && md[|md| - 6] == 'a';
    if IndexFileName(n) == IndexFileName(m) {
      assert n == IndexFileName(n)[..|n|] == IndexFileName(m)[..|m|] == m;
    }
    if TextsFileName(n) == TextsFileName(m) {
      assert n == TextsFileName(n)[..|n|] == TextsFileName(m)[..|m|] == m;
    }
    if MetadataFileName(n) == MetadataFileName(m) {
      assert n == MetadataFileName(n)[..|n|] == MetadataFileName(m)[..|m|] == m;
    }
  }

  /** A loaded FAISS index: its dimension and the texts whose vectors it holds. */
  datatype VectorIndex = VectorIndex(dimension: nat, embedded: seq<string>) {
    /** `index.ntotal`. */
    function Total(): nat { |embedded| }
  }

  /** The fields `load_index` assigns: `index`, `index_path`, `kb_data`, `metadata`. */
  datatype Memory = Memory(index: Option<VectorIndex>, indexPath: Option<FilePath>, kbData: seq<string>, metadata: seq<Metadata>)

  const EmptyMemory := Memory(None, None, [], [])

  /** The outcome of `load_index`: what it returns, whether `read_index` got as
      far as assigning the index, and the fields afterwards. */
  datatype LoadStep = LoadStep(ok: bool, indexRead: bool, mem: Memory)

  /** `load_index(name)` over the visible files. A missing or unreadable
      `.index` file leaves every field alone; a texts file that does not parse
      leaves `kb_data` and `metadata` alone after the index was assigned; a
      metadata file that does not parse leaves `metadata` empty. */
  function LoadArtifact(mem: Memory, dirPath: string, files: Files, name: string): (s: LoadStep)
    ensures !s.indexRead ==> !s.ok && s.mem == mem
    ensures s.ok ==> s.indexRead
  {
    var ip, tp, mp := IndexFileName(name), TextsFileName(name), MetadataFileName(name);
    if ip !in files || !files[ip].VectorFile? then LoadStep(false, false, mem)
    else
      var m1 := mem.(index := Some(VectorIndex(files[ip].dimension, files[ip].embedded)),
                     indexPath := Some(FilePath(dirPath, ip)));
      if tp in files && !files[tp].TextsFile? then LoadStep(false, true, m1)
      else
        var m2 := m1.(kbData := if tp in files then files[tp].texts else [], metadata := []);
        if mp in files && !files[mp].MetadataFile? then LoadStep(false, true, m2)
        else LoadStep(true, true, m2.(metadata := if mp in files then files[mp].records else []))
  }

  /** `load_index` returns False without touching a field when the `.index`
      file is absent; when it succeeds, the fields it leaves do not depend on
      what was loaded before. */
  lemma LoadFacts(mem: Memory, other: Memory, dirPath: string, files: Files, name: string)
    ensures IndexFileName(name) !in files ==> LoadArtifact(mem, dirPath, files, name) == LoadStep(false, false, mem)
    ensures LoadArtifact(mem, dirPath, files, name).ok == LoadArtifact(other, dirPath, files, name).ok
    ensures LoadArtifact(mem, dirPath, files, name).ok ==>
              LoadArtifact(mem, dirPath, files, name).mem == LoadArtifact(other, dirPath, files, name).mem
  {
  }

  /** Loading the same artifact again from what a load left changes nothing:
      the same outcome, the same fields. */
  lemma LoadTwice(mem: Memory, dirPath: string, files: Files, name: string)
    ensures var s := LoadArtifact(mem, dirPath, files, name);
            var t := LoadArtifact(s.mem, dirPath, files, name);
            t.ok == s.ok && t.indexRead == s.indexRead && t.mem == s.mem
  {
  }

  /** The files `_create_vector_index` writes: the index, then the metadata
      file when there is metadata, then the texts. */
  function WriteArtifact(files: Files, name: string, dimension: nat, texts: seq<string>, metadata: seq<Metadata>): Files
  {
    var withIndex := files[IndexFileName(name) := VectorFile(dimension, texts)];
    var withMeta := if |metadata| > 0 then withIndex[MetadataFileName(name) := MetadataFile(metadata)] else withIndex;
    withMeta[TextsFileName(name) := TextsFile(texts)]
  }

  /** Reading back a freshly written artifact (with metadata) yields exactly
      what was written, whatever was in memory before. */
  lemma {:induction false} WriteThenLoad(mem: Memory, dirPath: string, files: Files, name: string, dimension: nat, texts: seq<string>, metadata: seq<Metadata>)
    requires |metadata| > 0
    ensures LoadArtifact(mem, dirPath, WriteArtifact(files, name, dimension, texts, metadata), name)
         == LoadStep(true, true, Memory(Some(VectorIndex(dimension, texts)), Some(FilePath(dirPath, IndexFileName(name))), texts, metadata))
  {
    FileNamesDistinct(name, name);
    var w := WriteArtifact(files, name, dimension, texts, metadata);
    assert w[IndexFileName(name)] == VectorFile(dimension, texts);
    assert w[TextsFileName(name)] == TextsFile(texts);
    assert w[MetadataFileName(name)] == MetadataFile(metadata);
  }

  /** Writing one artifact leaves every other artifact's load unchanged. */
  lemma {:induction false} WriteKeepsOthers(mem: Memory, dirPath: string, files: Files, name: string, other: string, dimension: nat, texts: seq<string>, metadata: seq<Metadata>)
    requires other != name
    ensures LoadArtifact(mem, dirPath, WriteArtifact(files, name, dimension, texts, metadata), other)
         == LoadArtifact(mem, dirPath, files, other)
  {
    FileNamesDistinct(name, other);
    FileNamesDistinct(other, name);
    var w := WriteArtifact(files, name, dimension, texts, metadata);
    var written := {IndexFileName(name), MetadataFileName(name), TextsFileName(name)};
    assert forall f :: f !in written ==> (f in w <==> f in files) && (f in files ==> w[f] == files[f]);
    assert IndexFileName(other) !in written && TextsFileName(other) !in written && MetadataFileName(other) !in written;
  }

  /** The files left after `delete_index(name)`: its three files, where present, removed. */
  function DeleteArtifact(files: Files, name: string): Files {
    files - {IndexFileName(name), TextsFileName(name), MetadataFileName(name)}
  }

  /** A CSV file as pandas reads it: the column names and, per row, a value for
      every column (already passed through `astype(str)`). */
  datatype Table = Table(columns: seq<string>, rows: seq<map<string, string>>)

  predicate WellFormed(t: Table) {
    forall i, c :: 0 <= i < |t.rows| && c in t.columns ==> c in t.rows[i]
  }

  type DataFrame = t: Table | WellFormed(t) witness Table([], [])

  /** A CSV path and what `pd.read_csv` makes of it (`None`: the read raises). */
  datatype CsvFile = CsvFile(path: string, frame: Option<DataFrame>)

  /** `df[column].astype(str).tolist()`. */
  function Column(df: DataFrame, column: string): (r: seq<string>)
    requires column in df.columns
    ensures |r| == |df.rows|
    ensures forall i :: 0 <= i < |r| ==> r[i] == df.rows[i][column]
  {
    seq(|df.rows|, i requires 0 <= i < |df.rows| => df.rows[i][column])
  }
}
