/** What the two tools share: JSON arguments, parameter declarations with
    their `required` flags, the `call` wrapper that reports missing parameters,
    the `get_definition` record, the `reference_entry` count, and turning raw
    nearest-neighbour hits into ranked, truncated result entries. */
module ToolBase {
  import opened Wrappers
  import opened Text
  import opened PyLists
  import opened Ranking
  import opened VectorSearchModel

  /** A JSON value as `json.loads` builds it; numbers are integers here. */
  datatype Json =
    | JNull
    | JBool(b: bool)
    | JInt(i: int)
    | JStr(s: string)
    | JList(items: seq<Json>)
    | JObject(fields: map<string, Json>)

  /** Python truthiness of a decoded JSON value. */
  predicate Truthy(j: Json) {
    match j
    case JNull => false
    case JBool(b) => b
    case JInt(i) => i != 0
    case JStr(s) => s != ""
    case JList(items) => items != []
    case JObject(fields) => fields != map[]
  }

  /** The arguments a tool is called with. */
  type Args = map<string, Json>

  /** One parameter's declaration (`type`, `description`, `required`, `enum`, ...). */
  type Property = map<string, Json>

  /** A tool's `parameters` dict, in insertion order; names are its keys. */
  type ParamDefs = seq<(string, Property)>

  /** `param_def.get("required", False)` is truthy. */
  predicate IsRequired(p: Property) {
    "required" in p && Truthy(p["required"])
  }

  /** `[k for k, v in parameters.items() if v.get("required", False)]`. */
  function RequiredNames(defs: ParamDefs): seq<string> {
    if defs == [] then []
    else
      var last := defs[|defs| - 1];
      RequiredNames(defs[..|defs| - 1]) + (if IsRequired(last.1) then [last.0] else [])
  }

  /** A name is listed as required exactly when some declaration of it is flagged required. */
  lemma {:induction false} RequiredNamesMembers(defs: ParamDefs, x: string)
    ensures x in RequiredNames(defs) <==> exists i :: 0 <= i < |defs| && defs[i].0 == x && IsRequired(defs[i].1)
  {
    if defs != [] {
      var init := defs[..|defs| - 1];
      RequiredNamesMembers(init, x);
      if exists i :: 0 <= i < |init| && init[i].0 == x && IsRequired(init[i].1) {
        var i :| 0 <= i < |init| && init[i].0 == x && IsRequired(init[i].1);
        assert defs[i] == init[i];
      }
      if exists i :: 0 <= i < |defs| && defs[i].0 == x && IsRequired(defs[i].1) {
        var i :| 0 <= i < |defs| && defs[i].0 == x && IsRequired(defs[i].1);
        if i < |init| {
          assert init[i] == defs[i];
        }
      }
    }
  }

  /** The required names that are not keys of `args`, keeping their order. */
  function AbsentFrom(names: seq<string>, args: Args): seq<string> {
    if names == [] then []
    else
      var last := names[|names| - 1];
      AbsentFrom(names[..|names| - 1], args) + (if last !in args then [last] else [])
  }

  /** `missing_params` as `call` builds it: required and absent, in declaration order. */
  function MissingNames(defs: ParamDefs, args: Args): seq<string> {
    if defs == [] then []
    else
      var last := defs[|defs| - 1];
      MissingNames(defs[..|defs| - 1], args) + (if IsRequired(last.1) && last.0 !in args then [last.0] else [])
  }

  /** The missing parameters are exactly the required names, in order, minus
      those that were passed. */
  lemma {:induction false} MissingIsRequiredAbsent(defs: ParamDefs, args: Args)
    ensures MissingNames(defs, args) == AbsentFrom(RequiredNames(defs), args)
  {
    if defs != [] {
      var init, last := defs[..|defs| - 1], defs[|defs| - 1];
      MissingIsRequiredAbsent(init, args);
      var r := RequiredNames(init);
      if IsRequired(last.1) {
        assert (r + [last.0])[..|r + [last.0]| - 1] == r;
      } else {
        assert RequiredNames(defs) == r;
      }
    }
  }

  /** No missing parameters exactly when every required name was passed. */
  lemma {:induction false} NoneMissingIff(defs: ParamDefs, args: Args)
    ensures MissingNames(defs, args) == [] <==> forall x :: x in RequiredNames(defs) ==> x in args
  {
    if defs != [] {
      NoneMissingIff(defs[..|defs| - 1], args);
    }
  }

  /** The loop in `call` that collects `missing_params`. */
  method CollectMissing(defs: ParamDefs, args: Args) returns (missing: seq<string>)
    ensures missing == MissingNames(defs, args)
  {
    missing := [];
    for i := 0 to |defs|
      invariant missing == MissingNames(defs[..i], args)
    {
      var (name, def) := defs[i];
      if IsRequired(def) && name !in args {
        missing := missing + [name];
      }
      assert defs[..i + 1][..i] == defs[..i];
    }
    assert defs[..|defs|] == defs;
  }

  /** The `message` of a `MissingParameters` result. */
  function MissingMessage(missing: seq<string>): string {
    "Missing required parameters: " + Join(missing, ", ")
  }

  /** What `_execute` returns: an error dict, or the list of result entries. */
  datatype ExecResult = ExecError(error: string) | Results(entries: seq<Json>)

  /** What `call` returns: `{"result": ..., "status": "success"}` or the
      `MissingParameters` error dict. */
  datatype CallResult =
    | Success(result: ExecResult)
    | MissingParameters(missing: seq<string>, message: string)

  /** An exception escaping `_execute` (a `KeyError`, `IndexError`,
      `TypeError`, `AttributeError`, or a failure of the encoder or FAISS). */
  datatype ToolError = Raises

  /** `call` over the outcome of `_execute`: the missing parameters are
      reported without executing anything. */
  function CallOutcome(defs: ParamDefs, args: Args, exec: Result<ExecResult, ToolError>): Result<CallResult, ToolError> {
    var missing := MissingNames(defs, args);
    if missing != [] then Ok(MissingParameters(missing, MissingMessage(missing)))
    else match exec
      case Ok(e) => Ok(Success(e))
      case Err(err) => Err(err)
  }

  /** `call` reports `MissingParameters` exactly when a required parameter is
      absent, names exactly those, and then does not depend on `_execute`;
      otherwise it is `_execute`'s result wrapped as a success. */
  lemma CallContract(defs: ParamDefs, args: Args, exec: Result<ExecResult, ToolError>, other: Result<ExecResult, ToolError>)
    ensures var r := CallOutcome(defs, args, exec);
            && (r.Ok? && r.value.MissingParameters? <==> exists x :: x in RequiredNames(defs) && x !in args)
            && (r.Ok? && r.value.MissingParameters? ==>
                  r.value.missing == AbsentFrom(RequiredNames(defs), args) && r == CallOutcome(defs, args, other))
            && (!(r.Ok? && r.value.MissingParameters?) ==>
                  (r.Ok? <==> exec.Ok?) && (exec.Ok? ==> r.value == Success(exec.value)))
  {
    NoneMissingIff(defs, args);
    MissingIsRequiredAbsent(defs, args);
  }

  /** The `parameters` object of a definition. */
  datatype ParametersDef = ParametersDef(kind: string, properties: ParamDefs, required: seq<string>)

  /** The `function` object of a definition. */
  datatype FunctionDef = FunctionDef(name: string, description: string, parameters: ParametersDef)

  /** What `get_definition` returns. */
  datatype ToolDefinition = ToolDefinition(kind: string, fn: FunctionDef)

  /** `get_definition()`. */
  function Definition(name: string, description: string, defs: ParamDefs): ToolDefinition {
    ToolDefinition("function", FunctionDef(name, description, ParametersDef("object", defs, RequiredNames(defs))))
  }

  /** A definition is a function of type object whose `properties` are the
      declarations unchanged and whose `required` array names exactly the
      parameters flagged required. */
  lemma DefinitionContract(name: string, description: string, defs: ParamDefs, x: string)
    ensures var d := Definition(name, description, defs);
            && d.kind == "function" && d.fn.name == name && d.fn.description == description
            && d.fn.parameters.kind == "object"
            && d.fn.parameters.properties == defs
            && (x in d.fn.parameters.required <==>
                  exists i :: 0 <= i < |defs| && defs[i].0 == x && IsRequired(defs[i].1))
  {
    RequiredNamesMembers(defs, x);
  }

  /** `parameters.get(key, "").lower()`: `None` where `.lower()` raises. */
  function LoweredArg(args: Args, key: string): Option<string> {
    if key !in args then Some("")
    else match args[key]
      case JStr(s) => Some(Lower(s))
      case _ => None
  }

  /** `parameters.get("reference_entry", default)` with `0` replaced by the
      default, as the integer it is when added to and sliced with; `None`
      where that arithmetic raises `TypeError`. */
  function ReferenceCount(args: Args, default: int): (n: Option<int>)
    ensures "reference_entry" !in args ==> n == Some(default)
    ensures n == Some(0) ==> default == 0
  {
    if "reference_entry" !in args then Some(default)
    else match args["reference_entry"]
      case JInt(i) => Some(if i == 0 then default else i)
      case JBool(b) => Some(if b then 1 else default)
      case _ => None
  }

  /** `{..., "relevance": d}` for every `(d, i)` of the hits, the rest of the
      entry built from `i` and `kb_data[i]`; `None` where `kb_data[i]` raises. */
  function HitCandidates<K>(hits: seq<Hit>, kb: seq<K>, entry: (int, K) -> Json): (r: Option<seq<Candidate<Json>>>)
    ensures r.Some? <==> forall k :: 0 <= k < |hits| ==> IndexOk(hits[k].idx, |kb|)
    ensures r.Some? ==> |r.value| == |hits|
    ensures r.Some? ==> forall k :: 0 <= k < |hits| ==>
              r.value[k] == Candidate(hits[k].score, entry(hits[k].idx, At(kb, hits[k].idx)))
  {
    if hits == [] then Some([])
    else
      var h := hits[|hits| - 1];
      match HitCandidates(hits[..|hits| - 1], kb, entry)
      case None => None
      case Some(c) =>
        if IndexOk(h.idx, |kb|) then Some(c + [Candidate(h.score, entry(h.idx, At(kb, h.idx)))]) else None
  }

  /** The loop that appends one candidate per hit. */
  method BuildCandidates<K>(hits: seq<Hit>, kb: seq<K>, entry: (int, K) -> Json) returns (r: Option<seq<Candidate<Json>>>)
    ensures r == HitCandidates(hits, kb, entry)
  {
    var acc := [];
    for i := 0 to |hits|
      invariant HitCandidates(hits[..i], kb, entry) == Some(acc)
    {
      assert hits[..i + 1][..i] == hits[..i];
      if !IndexOk(hits[i].idx, |kb|) {
        assert HitCandidates(hits[..i + 1], kb, entry) == None;
        HitCandidatesPrefix(hits, kb, entry, i + 1);
        return None;
      }
      acc := acc + [Candidate(hits[i].score, entry(hits[i].idx, At(kb, hits[i].idx)))];
    }
    assert hits[..|hits|] == hits;
    return Some(acc);
  }

  /** A hit that raises in a prefix raises for the whole list. */
  lemma HitCandidatesPrefix<K>(hits: seq<Hit>, kb: seq<K>, entry: (int, K) -> Json, n: nat)
    requires n <= |hits|
    requires HitCandidates(hits[..n], kb, entry) == None
    ensures HitCandidates(hits, kb, entry) == None
  {
    var k :| 0 <= k < n && !IndexOk(hits[..n][k].idx, |kb|);
    assert hits[k] == hits[..n][k];
  }

  /** The entries after `del result["relevance"]`. */
  function Payloads(s: seq<Candidate<Json>>): (r: seq<Json>)
    ensures |r| == |s|
  {
    seq(|s|, i requires 0 <= i < |s| => s[i].payload)
  }

  /** Sorting by relevance descending, `[:max_results]`, and dropping the relevance. */
  function RankedEntries(cands: seq<Candidate<Json>>, n: int): seq<Json> {
    Payloads(TakePrefix(SortDesc(cands), n))
  }

  /** The ranked entries are at most `max_results` (when it is not negative)
      of the candidates' entries, and only entries of candidates. */
  lemma RankedEntriesFromCandidates(cands: seq<Candidate<Json>>, n: int)
    ensures |RankedEntries(cands, n)| == SliceStop(n, |cands|)
    ensures 0 <= n ==> |RankedEntries(cands, n)| <= n
    ensures forall e :: e in RankedEntries(cands, n) ==> exists c :: c in cands && c.payload == e
  {
    var sorted := SortDesc(cands);
    SortDescPermutes(cands);
    var kept := TakePrefix(sorted, n);
    forall e | e in RankedEntries(cands, n)
      ensures exists c :: c in cands && c.payload == e
    {
      var i :| 0 <= i < |kept| && Payloads(kept)[i] == e;
      assert kept[i] in multiset(sorted);
      assert kept[i] in cands;
    }
  }

  /** Sort, truncate and strip, on a list sorted in place. */
  method RankAndCut(cands: seq<Candidate<Json>>, n: int) returns (entries: seq<Json>)
    ensures entries == RankedEntries(cands, n)
  {
    var a := new Candidate<Json>[|cands|](i requires 0 <= i < |cands| => cands[i]);
    assert a[..] == cands;
    SortByRelevanceDesc(a);
    var kept := TakePrefix(a[..], n);
    entries := [];
    for i := 0 to |kept|
      invariant entries == Payloads(kept[..i])
    {
      entries := entries + [kept[i].payload];
    }
    assert kept[..|kept|] == kept;
  }
}
