/** The `Match` tool: finds job postings either by nearest neighbours over the
    `positionName` or `description` index, or by matching the words of another
    attribute against the key word. */
module MatchTool {
  import opened Wrappers
  import opened Text
  import opened PyLists
  import opened VectorSearchModel
  import opened ToolBase
  import Ranking

  /** A constructed `Match`: its declaration, the items of the JSON knowledge
      base, and the texts each of its two FAISS files embeds. */
  datatype Match = Match(
    name: string,
    description: string,
    parameters: ParamDefs,
    kbData: seq<Json>,
    positionNames: seq<string>,
    descriptions: seq<string>,
    nearest: Nearest)

  /** The default `parameters` of `Match()`. */
  const DefaultParameters: ParamDefs := [
    ("key word", map["type" := JStr("string"), "description" := JStr("Query string of categories"), "required" := JBool(true)]),
    ("categories", map["type" := JStr("string"),
                       "enum" := JList([JStr("company"), JStr("rating"), JStr("location"), JStr("positionName"),
                                        JStr("description"), JStr("salary"), JStr("jobType")]),
                       "description" := JStr("Categories of key word, 'full-time' and 'Contract' are the only two values of jobType, rating must be numerical"),
                       "required" := JBool(true)])
  ]

  /** Both default parameters are required, in declaration order. */
  lemma DefaultRequired()
    ensures RequiredNames(DefaultParameters) == ["key word", "categories"]
  {
    assert DefaultParameters[..1][..0] == [];
    assert DefaultParameters[..|DefaultParameters| - 1] == DefaultParameters[..1];
  }

  /** `parameters.get('categories')`. */
  function Category(args: Args): Json {
    if "categories" in args then args["categories"] else JNull
  }

  /** `attr in SPECIAL_LIST`. */
  predicate IsSpecial(attr: Json) {
    attr == JStr("positionName") || attr == JStr("description")
  }

  /** `item[attr].lower()` before the split; `None` where the lookup raises
      `KeyError` or the value has no `lower()`. */
  function FieldText(item: Json, attr: Json): Option<string> {
    if item.JObject? && attr.JStr? && attr.s in item.fields && item.fields[attr.s].JStr?
    then Some(Lower(item.fields[attr.s].s))
    else None
  }

  /** How many of the words occur in the query. */
  function WordHits(words: seq<string>, query: string): nat {
    if words == [] then 0
    else WordHits(words[..|words| - 1], query) + (if IsSubstring(words[|words| - 1], query) then 1 else 0)
  }

  /** How many times the item is appended: once per space-separated word of its attribute found in the key word. */
  function ItemHits(item: Json, attr: Json, query: string): Option<nat> {
    match FieldText(item, attr)
    case None => None
    case Some(t) => Some(WordHits(Split(t, ' '), query))
  }

  function Repeat(x: Json, n: nat): (r: seq<Json>)
    ensures |r| == n
    ensures forall y :: y in r ==> y == x
  {
    seq(n, _ => x)
  }

  /** The keyword branch over the items in order; `None` where an item raises. */
  function KeywordMatches(kb: seq<Json>, attr: Json, query: string): Option<seq<Json>> {
    if kb == [] then Some([])
    else
      match KeywordMatches(kb[..|kb| - 1], attr, query)
      case None => None
      case Some(r) =>
        match ItemHits(kb[|kb| - 1], attr, query)
        case None => None
        case Some(n) => Some(r + Repeat(kb[|kb| - 1], n))
  }

  /** The keyword branch raises exactly when some item lacks a string value
      for the attribute; otherwise it returns only items of the knowledge base,
      and every item with a matching word is among them. */
  lemma KeywordMatchesFacts(kb: seq<Json>, attr: Json, query: string)
    ensures KeywordMatches(kb, attr, query).None? <==> exists k :: 0 <= k < |kb| && ItemHits(kb[k], attr, query).None?
    ensures KeywordMatches(kb, attr, query).Some? ==>
              (forall x :: x in KeywordMatches(kb, attr, query).value ==> x in kb)
              && forall k :: 0 <= k < |kb| && ItemHits(kb[k], attr, query).value > 0 ==> kb[k] in KeywordMatches(kb, attr, query).value
  {
    KeywordRaises(kb, attr, query);
    if KeywordMatches(kb, attr, query).Some? {
      KeywordSound(kb, attr, query);
      KeywordComplete(kb, attr, query);
    }
  }

  /** The keyword branch raises exactly when some item lacks a string value for the attribute. */
  lemma {:induction false} KeywordRaises(kb: seq<Json>, attr: Json, query: string)
    ensures KeywordMatches(kb, attr, query).None? <==> exists k :: 0 <= k < |kb| && ItemHits(kb[k], attr, query).None?
  {
    if kb != [] {
      var init, last := kb[..|kb| - 1], kb[|kb| - 1];
      KeywordRaises(init, attr, query);
      if KeywordMatches(init, attr, query).None? {
        var k :| 0 <= k < |init| && ItemHits(init[k], attr, query).None?;
        assert kb[k] == init[k];
      } else if ItemHits(last, attr, query).Some? {
        forall k | 0 <= k < |kb| ensures ItemHits(kb[k], attr, query).Some? {
          if k < |init| {
            assert kb[k] == init[k];
          }
        }
      }
    }
  }

  /** What the keyword branch returns are items of the knowledge base. */
  lemma {:induction false} KeywordSound(kb: seq<Json>, attr: Json, query: string)
    requires KeywordMatches(kb, attr, query).Some?
    ensures forall x :: x in KeywordMatches(kb, attr, query).value ==> x in kb
  {
    if kb != [] {
      var init, last := kb[..|kb| - 1], kb[|kb| - 1];
      KeywordSound(init, attr, query);
      var r := KeywordMatches(init, attr, query).value;
      var n := ItemHits(last, attr, query).value;
      assert KeywordMatches(kb, attr, query).value == r + Repeat(last, n);
      forall x | x in r + Repeat(last, n) ensures x in kb {
        if x in r {
          var k :| 0 <= k < |init| && init[k] == x;
          assert kb[k] == x;
        }
      }
    }
  }

  /** Every item with a word found in the key word is among what the keyword branch returns. */
  lemma {:induction false} KeywordComplete(kb: seq<Json>, attr: Json, query: string)
    requires KeywordMatches(kb, attr, query).Some?
    ensures forall k :: 0 <= k < |kb| && ItemHits(kb[k], attr, query).Some? && ItemHits(kb[k], attr, query).value > 0 ==>
              kb[k] in KeywordMatches(kb, attr, query).value
  {
    if kb != [] {
      var init, last := kb[..|kb| - 1], kb[|kb| - 1];
      KeywordComplete(init, attr, query);
      var r := KeywordMatches(init, attr, query).value;
      var n := ItemHits(last, attr, query).value;
      assert KeywordMatches(kb, attr, query).value == r + Repeat(last, n);
      forall k | 0 <= k < |kb| && ItemHits(kb[k], attr, query).Some? && ItemHits(kb[k], attr, query).value > 0
        ensures kb[k] in r + Repeat(last, n)
      {
        if k < |init| {
          assert kb[k] == init[k];
        } else {
          assert Repeat(last, n)[0] == last;
        }
      }
    }
  }

  /** An attribute of one word is matched once when it occurs in the key word
      and not at all otherwise; an attribute with an empty word (empty, or with
      a doubled, leading or trailing space) always matches. */
  lemma {:induction false} WordHitsFacts(t: string, words: seq<string>, query: string)
    ensures ' ' !in t ==> WordHits(Split(t, ' '), query) == if IsSubstring(t, query) then 1 else 0
    ensures "" in words ==> WordHits(words, query) > 0
  {
    if ' ' !in t {
      SplitWhole(t, ' ');
      assert [t][..0] == [];
    }
    if words != [] && "" in words {
      var init := words[..|words| - 1];
      if words[|words| - 1] == "" {
        EmptyIsSubstring(query);
      } else {
        assert "" in init;
        WordHitsFacts(t, init, query);
      }
    }
  }

  /** The nested loops of the keyword branch, appending items in place. */
  method KeywordScan(kb: seq<Json>, attr: Json, query: string) returns (r: Option<seq<Json>>)
    ensures r == KeywordMatches(kb, attr, query)
  {
    var results := [];
    for i := 0 to |kb|
      invariant KeywordMatches(kb[..i], attr, query) == Some(results)
    {
      assert kb[..i + 1][..i] == kb[..i];
      var text := FieldText(kb[i], attr);
      if text.None? {
        assert KeywordMatches(kb[..i + 1], attr, query) == None;
        KeywordMatchesFacts(kb[..i + 1], attr, query);
        KeywordMatchesFacts(kb, attr, query);
        var k :| 0 <= k < i + 1 && ItemHits(kb[..i + 1][k], attr, query).None?;
        assert kb[k] == kb[..i + 1][k];
        return None;
      }
      var words := Split(text.value, ' ');
      ghost var before := results;
      for w := 0 to |words|
        invariant results == before + Repeat(kb[i], WordHits(words[..w], query))
      {
        assert words[..w + 1][..w] == words[..w];
        if IsSubstring(words[w], query) {
          results := results + [kb[i]];
        }
      }
      assert words[..|words|] == words;
    }
    assert kb[..|kb|] == kb;
    return Some(results);
  }

  /** `{"content": kb_data[i]}`, before its relevance is attached. */
  function ContentEntry(i: int, item: Json): Json {
    JObject(map["content" := item])
  }

  /** The index a special category searches: the description index exactly
      when `attr.lower() == 'description'`. */
  function Embedded(m: Match, attr: string): seq<string> {
    if Lower(attr) == "description" then m.descriptions else m.positionNames
  }

  /** The nearest-neighbour branch: `max_results + 2` candidates, ranked and cut. */
  function SpecialOutcome(m: Match, attr: string, query: string, count: Option<int>): Result<ExecResult, ToolError> {
    if count.None? then Err(Raises)
    else
      match m.nearest(Embedded(m, attr), query, count.value + 2)
      case None => Err(Raises)
      case Some(hits) =>
        match HitCandidates(hits, m.kbData, ContentEntry)
        case None => Err(Raises)
        case Some(c) => Ok(Results(RankedEntries(c, count.value)))
  }

  /** `_execute(parameters)`. */
  function ExecuteOutcome(m: Match, args: Args): Result<ExecResult, ToolError> {
    match LoweredArg(args, "key word")
    case None => Err(Raises)
    case Some(query) =>
      if query == "" then Ok(ExecError("key word is required"))
      else
        var attr := Category(args);
        if IsSpecial(attr) then SpecialOutcome(m, attr.s, query, ReferenceCount(args, 3))
        else
          match KeywordMatches(m.kbData, attr, query)
          case None => Err(Raises)
          case Some(items) => Ok(Results(items))
  }

  /** `_execute` returns its error dict exactly when the lower-cased key word is empty. */
  lemma ExecErrorIffEmptyKeyWord(m: Match, args: Args)
    ensures ExecuteOutcome(m, args).Ok? && ExecuteOutcome(m, args).value.ExecError? <==> LoweredArg(args, "key word") == Some("")
    ensures LoweredArg(args, "key word") == Some("") ==> ExecuteOutcome(m, args) == Ok(ExecError("key word is required"))
  {
  }

  /** Of the two special categories only `description` selects the description index. */
  lemma EmbeddedChoice(m: Match)
    ensures Embedded(m, "description") == m.descriptions
    ensures Embedded(m, "positionName") == m.positionNames
  {
    assert Lower("positionName")[8] == 'n';
  }

  /** In the nearest-neighbour branch every entry is `{"content": item}` for
      an item of the knowledge base, there are `max_results` of them (or every
      candidate when fewer came back), and a hit outside the knowledge base raises. */
  lemma SpecialContract(m: Match, attr: string, query: string, n: int, hits: seq<Hit>)
    requires m.nearest(Embedded(m, attr), query, n + 2) == Some(hits)
    ensures var r := SpecialOutcome(m, attr, query, Some(n));
            && (r.Ok? <==> forall k :: 0 <= k < |hits| ==> IndexOk(hits[k].idx, |m.kbData|))
            && (r.Ok? ==> r.value.Results? && |r.value.entries| == SliceStop(n, |hits|)
                          && forall e :: e in r.value.entries ==>
                               exists item :: item in m.kbData && e == JObject(map["content" := item]))
  {
    match HitCandidates(hits, m.kbData, ContentEntry)
    case None =>
    case Some(c) =>
      RankedEntriesFromCandidates(c, n);
      RankedContentEntries(hits, m.kbData, c, n);
  }

  /** Every ranked entry built from the hits is `{"content": item}` for an item of the knowledge base. */
  lemma RankedContentEntries(hits: seq<Hit>, kb: seq<Json>, c: seq<Ranking.Candidate<Json>>, n: int)
    requires HitCandidates(hits, kb, ContentEntry) == Some(c)
    ensures forall e :: e in RankedEntries(c, n) ==> exists item :: item in kb && e == JObject(map["content" := item])
  {
    RankedEntriesFromCandidates(c, n);
    forall e | e in RankedEntries(c, n)
      ensures exists item :: item in kb && e == JObject(map["content" := item])
    {
      var x :| x in c && x.payload == e;
      var k :| 0 <= k < |c| && c[k] == x;
      var item := At(kb, hits[k].idx);
      assert item in kb;
      assert e == JObject(map["content" := item]);
    }
  }

  /** The keyword branch neither consults `reference_entry` nor the indexes. */
  lemma KeywordIgnoresCount(m: Match, args: Args, count: Json)
    requires LoweredArg(args, "key word").Some? && LoweredArg(args, "key word") != Some("")
    requires !IsSpecial(Category(args))
    ensures ExecuteOutcome(m, args) == ExecuteOutcome(m, args["reference_entry" := count])
    ensures var q := LoweredArg(args, "key word").value;
            ExecuteOutcome(m, args) == (match KeywordMatches(m.kbData, Category(args), q)
                                        case None => Err(Raises)
                                        case Some(items) => Ok(Results(items)))
  {
    var args' := args["reference_entry" := count];
    assert LoweredArg(args', "key word") == LoweredArg(args, "key word");
    assert Category(args') == Category(args);
  }

  /** `_execute`, with the sort done in place. */
  method Execute(m: Match, args: Args) returns (r: Result<ExecResult, ToolError>)
    ensures r == ExecuteOutcome(m, args)
  {
    var query := LoweredArg(args, "key word");
    if query.None? {
      return Err(Raises);
    }
    var count := ReferenceCount(args, 3);
    if query.value == "" {
      return Ok(ExecError("key word is required"));
    }
    var attr := Category(args);
    if IsSpecial(attr) {
      if count.None? {
        return Err(Raises);
      }
      var hits := m.nearest(Embedded(m, attr.s), query.value, count.value + 2);
      if hits.None? {
        return Err(Raises);
      }
      var cands := BuildCandidates(hits.value, m.kbData, ContentEntry);
      if cands.None? {
        return Err(Raises);
      }
      var entries := RankAndCut(cands.value, count.value);
      return Ok(Results(entries));
    }
    var items := KeywordScan(m.kbData, attr, query.value);
    if items.None? {
      return Err(Raises);
    }
    return Ok(Results(items.value));
  }

  /** `call(parameters)`. */
  method Call(m: Match, args: Args) returns (r: Result<CallResult, ToolError>)
    ensures r == CallOutcome(m.parameters, args, ExecuteOutcome(m, args))
  {
    var missing := CollectMissing(m.parameters, args);
    if missing != [] {
      return Ok(MissingParameters(missing, MissingMessage(missing)));
    }
    var e := Execute(m, args);
    match e {
      case Ok(v) => return Ok(Success(v));
      case Err(err) => return Err(err);
    }
  }

  /** `get_definition()`. */
  function GetDefinition(m: Match): ToolDefinition {
    Definition(m.name, m.description, m.parameters)
  }

  /** With the default parameters `call` reports both parameters when neither
      is passed, and `get_definition` marks both required. */
  lemma DefaultCallAndDefinition(m: Match, args: Args)
    requires m.parameters == DefaultParameters
    ensures GetDefinition(m).fn.parameters.required == ["key word", "categories"]
    ensures "key word" !in args && "categories" !in args ==>
              CallOutcome(m.parameters, args, ExecuteOutcome(m, args))
              == Ok(MissingParameters(["key word", "categories"], MissingMessage(["key word", "categories"])))
  {
    DefaultRequired();
    MissingIsRequiredAbsent(DefaultParameters, args);
    var req := ["key word", "categories"];
    assert req[..1][..0] == [] && req[..|req| - 1] == req[..1];
    if "key word" !in args && "categories" !in args {
      assert AbsentFrom(req[..1], args) == ["key word"];
      assert AbsentFrom(req, args) == req;
    }
  }
}
