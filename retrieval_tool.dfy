/** The `Retrieval` tool: nearest-neighbour search over the grouped lines of a
    PDF, returning each hit's position and text. */
module RetrievalTool {
  import opened Wrappers
  import opened PyLists
  import opened VectorSearchModel
  import opened ToolBase

  /** A constructed `Retrieval`: its declaration and the texts of its
      knowledge base, which are also the texts its FAISS file embeds. */
  datatype Retrieval = Retrieval(
    name: string,
    description: string,
    parameters: ParamDefs,
    kbData: seq<string>,
    nearest: Nearest)

  /** The default `parameters` of `Retrieval()`. */
  const DefaultParameters: ParamDefs := [
    ("query", map["type" := JStr("string"), "description" := JStr("Search query string"), "required" := JBool(true)]),
    ("reference_entries", map["type" := JStr("integer"), "description" := JStr("number of reference sentences returned"),
                              "required" := JBool(false)])
  ]

  /** Only `query` is required by default. */
  lemma DefaultRequired()
    ensures RequiredNames(DefaultParameters) == ["query"]
  {
    assert DefaultParameters[..1][..0] == [];
    assert DefaultParameters[..|DefaultParameters| - 1] == DefaultParameters[..1];
  }

  /** `search(query, topK)`: the positions of the nearest texts, asking for
      `topK`, or 5 when `topK` is `None` or 0. */
  function Search(r: Retrieval, query: string, topK: Option<int>): (ids: Option<seq<int>>)
    ensures ids.Some? <==> r.nearest(r.kbData, query, if topK.Some? && topK.value != 0 then topK.value else 5).Some?
  {
    var k := if topK.Some? && topK.value != 0 then topK.value else 5;
    match r.nearest(r.kbData, query, k)
    case None => None
    case Some(hits) => Some(seq(|hits|, i requires 0 <= i < |hits| => hits[i].idx))
  }

  /** A falsy `topK` asks for 5 results: `None`, 0 and 5 search alike, and the
      positions are those of the hits, in order. */
  lemma SearchDefaultsToFive(r: Retrieval, query: string, hits: seq<Hit>)
    requires r.nearest(r.kbData, query, 5) == Some(hits)
    ensures Search(r, query, None) == Search(r, query, Some(0)) == Search(r, query, Some(5))
    ensures var ids := Search(r, query, None).value;
            |ids| == |hits| && forall i :: 0 <= i < |hits| ==> ids[i] == hits[i].idx
  {
  }

  /** `{"id": i, "content": kb_data[i]}`, before its relevance is attached. */
  function IdEntry(i: int, text: string): Json {
    JObject(map["id" := JInt(i), "content" := JStr(text)])
  }

  /** `_execute(parameters)`: `max_results + 5` candidates, ranked and cut. */
  function ExecuteOutcome(r: Retrieval, args: Args): Result<ExecResult, ToolError> {
    match LoweredArg(args, "query")
    case None => Err(Raises)
    case Some(query) =>
      var count := ReferenceCount(args, 5);
      if query == "" then Ok(ExecError("Query is required"))
      else if count.None? then Err(Raises)
      else
        match r.nearest(r.kbData, query, count.value + 5)
        case None => Err(Raises)
        case Some(hits) =>
          match HitCandidates(hits, r.kbData, IdEntry)
          case None => Err(Raises)
          case Some(c) => Ok(Results(RankedEntries(c, count.value)))
  }

  /** `_execute` returns its error dict exactly when the lower-cased query is empty. */
  lemma ExecErrorIffEmptyQuery(r: Retrieval, args: Args)
    ensures ExecuteOutcome(r, args).Ok? && ExecuteOutcome(r, args).value.ExecError? <==> LoweredArg(args, "query") == Some("")
    ensures LoweredArg(args, "query") == Some("") ==> ExecuteOutcome(r, args) == Ok(ExecError("Query is required"))
  {
  }

  /** The count is read from `reference_entry`: the declared parameter
      `reference_entries` has no effect on the result. */
  lemma DeclaredCountIgnored(r: Retrieval, args: Args, v: Json)
    ensures ExecuteOutcome(r, args["reference_entries" := v]) == ExecuteOutcome(r, args)
  {
    var args' := args["reference_entries" := v];
    assert LoweredArg(args', "query") == LoweredArg(args, "query");
    assert ReferenceCount(args', 5) == ReferenceCount(args, 5);
  }

  /** A non-empty query returns `max_results` entries (or every hit when
      fewer came back), each `{"id": i, "content": kb_data[i]}` for a hit `i`;
      a hit outside the knowledge base raises. */
  lemma ResultsContract(r: Retrieval, args: Args, query: string, n: int, hits: seq<Hit>)
    requires LoweredArg(args, "query") == Some(query) && query != ""
    requires ReferenceCount(args, 5) == Some(n)
    requires r.nearest(r.kbData, query, n + 5) == Some(hits)
    ensures var o := ExecuteOutcome(r, args);
            && (o.Ok? <==> forall k :: 0 <= k < |hits| ==> IndexOk(hits[k].idx, |r.kbData|))
            && (o.Ok? ==> o.value.Results? && |o.value.entries| == SliceStop(n, |hits|)
                          && forall e :: e in o.value.entries ==>
                               exists k :: 0 <= k < |hits| && IndexOk(hits[k].idx, |r.kbData|)
                                 && e == IdEntry(hits[k].idx, At(r.kbData, hits[k].idx)))
  {
    match HitCandidates(hits, r.kbData, IdEntry)
    case None =>
    case Some(c) =>
      RankedEntriesFromCandidates(c, n);
      forall e | e in RankedEntries(c, n)
        ensures exists k :: 0 <= k < |hits| && IndexOk(hits[k].idx, |r.kbData|)
                  && e == IdEntry(hits[k].idx, At(r.kbData, hits[k].idx))
      {
        var x :| x in c && x.payload == e;
        var k :| 0 <= k < |c| && c[k] == x;
      }
  }

  /** `_execute`, with the sort done in place. */
  method Execute(r: Retrieval, args: Args) returns (o: Result<ExecResult, ToolError>)
    ensures o == ExecuteOutcome(r, args)
  {
    var query := LoweredArg(args, "query");
    if query.None? {
      return Err(Raises);
    }
    var count := ReferenceCount(args, 5);
    if query.value == "" {
      return Ok(ExecError("Query is required"));
    }
    if count.None? {
      return Err(Raises);
    }
    var hits := r.nearest(r.kbData, query.value, count.value + 5);
    if hits.None? {
      return Err(Raises);
    }
    var cands := BuildCandidates(hits.value, r.kbData, IdEntry);
    if cands.None? {
      return Err(Raises);
    }
    var entries := RankAndCut(cands.value, count.value);
    return Ok(Results(entries));
  }

  /** `call(parameters)`. */
  method Call(r: Retrieval, args: Args) returns (o: Result<CallResult, ToolError>)
    ensures o == CallOutcome(r.parameters, args, ExecuteOutcome(r, args))
  {
    var missing := CollectMissing(r.parameters, args);
    if missing != [] {
      return Ok(MissingParameters(missing, MissingMessage(missing)));
    }
    var e := Execute(r, args);
    match e {
      case Ok(v) => return Ok(Success(v));
      case Err(err) => return Err(err);
    }
  }

  /** `get_definition()`. */
  function GetDefinition(r: Retrieval): ToolDefinition {
    Definition(r.name, r.description, r.parameters)
  }

  /** With the default parameters `get_definition` marks only `query`
      required, and `call` reports `MissingParameters` exactly when `query` is
      absent, naming only it. */
  lemma DefaultCallAndDefinition(r: Retrieval, args: Args)
    requires r.parameters == DefaultParameters
    ensures GetDefinition(r).fn.parameters.required == ["query"]
    ensures var o := CallOutcome(r.parameters, args, ExecuteOutcome(r, args));
            && ("query" !in args ==> o == Ok(MissingParameters(["query"], MissingMessage(["query"]))))
            && ("query" in args ==> !(o.Ok? && o.value.MissingParameters?))
  {
    DefaultRequired();
    MissingIsRequiredAbsent(DefaultParameters, args);
    assert ["query"][..0] == [];
  }
}
