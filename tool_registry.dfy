/** The tool registry: the `Retrieval` and `Match` tools by name, their
    definitions as offered to the chat model, and the removal of the
    per-property `required` flags from those definitions. */
module ToolRegistry {
  import opened Wrappers
  import opened ToolBase
  import opened RetrievalTool
  import opened MatchTool

  datatype Tool = RetrievalEntry(retrieval: Retrieval) | MatchEntry(matcher: Match)

  /** `tool.get_definition()`. */
  function ToolDefinitionOf(t: Tool): ToolDefinition {
    match t
    case RetrievalEntry(r) => RetrievalTool.GetDefinition(r)
    case MatchEntry(m) => MatchTool.GetDefinition(m)
  }

  /** The declared parameters of a tool. */
  function Parameters(t: Tool): ParamDefs {
    match t
    case RetrievalEntry(r) => r.parameters
    case MatchEntry(m) => m.parameters
  }

  /** `tool.call(parameters)`. */
  function ToolCallOutcome(t: Tool, args: Args): Result<CallResult, ToolError> {
    match t
    case RetrievalEntry(r) => CallOutcome(r.parameters, args, RetrievalTool.ExecuteOutcome(r, args))
    case MatchEntry(m) => CallOutcome(m.parameters, args, MatchTool.ExecuteOutcome(m, args))
  }

  method CallTool(t: Tool, args: Args) returns (o: Result<CallResult, ToolError>)
    ensures o == ToolCallOutcome(t, args)
  {
    match t {
      case RetrievalEntry(r) => o := RetrievalTool.Call(r, args);
      case MatchEntry(m) => o := MatchTool.Call(m, args);
    }
  }

  /** The dict `get_tools()` returns, in insertion order. */
  type Registry = seq<(string, Tool)>

  /** `get_tools()` over already constructed tools. */
  function DefaultRegistry(r: Retrieval, m: Match): Registry {
    [("Retrieval", RetrievalEntry(r)), ("Match", MatchEntry(m))]
  }

  function Names(reg: Registry): (names: seq<string>)
    ensures |names| == |reg|
  {
    seq(|reg|, i requires 0 <= i < |reg| => reg[i].0)
  }

  /** Dict keys are distinct. */
  predicate UniqueNames(reg: Registry) {
    forall i, j :: 0 <= i < j < |reg| ==> reg[i].0 != reg[j].0
  }

  /** `tool_list[name]` where `name in tool_list`. */
  function Lookup(reg: Registry, name: string): Option<Tool> {
    if reg == [] then None
    else if reg[0].0 == name then Some(reg[0].1)
    else Lookup(reg[1..], name)
  }

  /** A name finds a tool exactly when it is a key, and then the tool stored under it. */
  lemma {:induction false} LookupFinds(reg: Registry, name: string)
    requires UniqueNames(reg)
    ensures Lookup(reg, name).Some? <==> name in Names(reg)
    ensures forall i :: 0 <= i < |reg| && reg[i].0 == name ==> Lookup(reg, name) == Some(reg[i].1)
  {
    if reg != [] {
      LookupFinds(reg[1..], name);
      assert forall i :: 1 <= i < |reg| ==> reg[1..][i - 1] == reg[i];
      if name in Names(reg[1..]) {
        var k :| 0 <= k < |reg[1..]| && Names(reg[1..])[k] == name;
        assert Names(reg)[k + 1] == name;
      }
      if reg[0].0 == name {
        assert Names(reg)[0] == name;
      }
      if name in Names(reg) && reg[0].0 != name {
        var k :| 0 <= k < |reg| && Names(reg)[k] == name;
        assert Names(reg[1..])[k - 1] == name;
      }
    }
  }

  /** The default registry offers exactly `Retrieval` and `Match`. */
  lemma DefaultRegistryLookup(r: Retrieval, m: Match, name: string)
    ensures UniqueNames(DefaultRegistry(r, m))
    ensures Lookup(DefaultRegistry(r, m), name).Some? <==> name == "Retrieval" || name == "Match"
  {
    var reg := DefaultRegistry(r, m);
    assert reg[0].0[0] == 'R' && reg[1].0[0] == 'M';
    LookupFinds(reg, name);
    assert Names(reg) == ["Retrieval", "Match"];
  }

  /** Every property declaration with its `required` key deleted. */
  function StripProperties(props: ParamDefs): (r: ParamDefs)
    ensures |r| == |props|
  {
    seq(|props|, i requires 0 <= i < |props| => (props[i].0, props[i].1 - {"required"}))
  }

  /** A definition with `required` deleted from each of its properties. */
  function StripDefinition(d: ToolDefinition): ToolDefinition {
    d.(fn := d.fn.(parameters := d.fn.parameters.(properties := StripProperties(d.fn.parameters.properties))))
  }

  /** `remove_required_from_properties(tool_definitions)`. */
  function StripAll(defs: seq<ToolDefinition>): (r: seq<ToolDefinition>)
    ensures |r| == |defs|
  {
    seq(|defs|, i requires 0 <= i < |defs| => StripDefinition(defs[i]))
  }

  /** After stripping no property declares `required`; every other key keeps
      its value; names, descriptions, property names and order, and the
      parameters-level `required` array are unchanged. */
  lemma StripContract(defs: seq<ToolDefinition>, i: nat, j: nat, key: string)
    requires i < |defs| && j < |defs[i].fn.parameters.properties|
    ensures var d, s := defs[i], StripAll(defs)[i];
            var p, q := d.fn.parameters.properties[j], s.fn.parameters.properties[j];
            && "required" !in q.1
            && q.0 == p.0
            && (key != "required" ==> (key in q.1 <==> key in p.1) && (key in p.1 ==> q.1[key] == p.1[key]))
            && |s.fn.parameters.properties| == |d.fn.parameters.properties|
            && s.kind == d.kind && s.fn.name == d.fn.name && s.fn.description == d.fn.description
            && s.fn.parameters.kind == d.fn.parameters.kind
            && s.fn.parameters.required == d.fn.parameters.required
  {
  }

  /** Stripping twice strips nothing more. */
  lemma StripIdempotent(defs: seq<ToolDefinition>)
    ensures StripAll(StripAll(defs)) == StripAll(defs)
  {
    forall i | 0 <= i < |defs|
      ensures StripDefinition(StripDefinition(defs[i])) == StripDefinition(defs[i])
    {
      var props := defs[i].fn.parameters.properties;
      forall j | 0 <= j < |props|
        ensures StripProperties(StripProperties(props))[j] == StripProperties(props)[j]
      {
        assert (props[j].1 - {"required"}) - {"required"} == props[j].1 - {"required"};
      }
    }
  }

  /** The nested loops of `remove_required_from_properties`, over a copy:
      the caller's definitions, being values, are left as they were. */
  method RemoveRequiredFromProperties(defs: seq<ToolDefinition>) returns (r: seq<ToolDefinition>)
    ensures r == StripAll(defs)
  {
    r := [];
    for t := 0 to |defs|
      invariant r == StripAll(defs[..t])
    {
      var d := defs[t];
      var props := d.fn.parameters.properties;
      var stripped := [];
      for p := 0 to |props|
        invariant stripped == StripProperties(props[..p])
      {
        var (name, prop) := props[p];
        if "required" in prop {
          prop := prop - {"required"};
        } else {
          assert prop - {"required"} == prop;
        }
        assert props[..p + 1][..p] == props[..p];
        stripped := stripped + [(name, prop)];
      }
      assert props[..|props|] == props;
      r := r + [d.(fn := d.fn.(parameters := d.fn.parameters.(properties := stripped)))];
    }
    assert defs[..|defs|] == defs;
  }

  /** The definitions `init_tools` collects before stripping, in registry order. */
  function Definitions(reg: Registry): (defs: seq<ToolDefinition>)
    ensures |defs| == |reg|
  {
    seq(|reg|, i requires 0 <= i < |reg| => ToolDefinitionOf(reg[i].1))
  }

  /** `init_tools()` over a given registry. */
  method InitTools(reg: Registry) returns (defs: seq<ToolDefinition>)
    ensures defs == StripAll(Definitions(reg))
  {
    var collected := [];
    for i := 0 to |reg|
      invariant collected == Definitions(reg[..i])
    {
      collected := collected + [ToolDefinitionOf(reg[i].1)];
    }
    assert reg[..|reg|] == reg;
    defs := RemoveRequiredFromProperties(collected);
  }

  /** `init_tools` gives one definition per tool, in registry order, that
      still lists the tool's required parameters at the parameters level while
      none of its properties carries a `required` key. */
  lemma InitToolsContract(reg: Registry, i: nat, x: string)
    requires i < |reg|
    ensures var d := StripAll(Definitions(reg))[i];
            var ps := Parameters(reg[i].1);
            && (x in d.fn.parameters.required <==> exists k :: 0 <= k < |ps| && ps[k].0 == x && IsRequired(ps[k].1))
            && |d.fn.parameters.properties| == |ps|
            && forall j :: 0 <= j < |ps| ==>
                 d.fn.parameters.properties[j].0 == ps[j].0 && "required" !in d.fn.parameters.properties[j].1
  {
    var t := reg[i].1;
    var ps := Parameters(t);
    var d0 := ToolDefinitionOf(t);
    assert Definitions(reg)[i] == d0;
    match t {
      case RetrievalEntry(r) => DefinitionContract(r.name, r.description, r.parameters, x);
      case MatchEntry(m) => DefinitionContract(m.name, m.description, m.parameters, x);
    }
    assert d0.fn.parameters.properties == ps;
    var d := StripDefinition(d0);
    assert StripAll(Definitions(reg))[i] == d;
    assert d.fn.parameters.required == d0.fn.parameters.required;
    assert d.fn.parameters.properties == StripProperties(ps);
  }
}
