/** `process_tool_calls`: runs the tool calls a chat model asked for, appends
    one `tool` message per call to the conversation history, and reports a
    `ToolNotFound` error for a name the registry does not have. */
module ToolCalls {
  import opened Wrappers
  import opened ToolBase
  import opened ToolRegistry

  /** The `function` object of a tool call: its `name` and its JSON `arguments` text. */
  datatype FunctionCall = FunctionCall(name: Option<string>, arguments: Option<string>)

  /** One entry of `tool_calls`: its `id` and its `function` object. */
  datatype ToolCallRequest = ToolCallRequest(id: Option<string>, fn: Option<FunctionCall>)

  /** `json.loads` on an arguments text; `None` where it raises. */
  type Parser = string -> Option<Args>

  /** `call.get("function", {}).get("name")`. */
  function CallName(c: ToolCallRequest): Option<string> {
    if c.fn.Some? then c.fn.value.name else None
  }

  /** `json.loads(call.get("function", {}).get("arguments", "{}"))`. */
  function CallParameters(c: ToolCallRequest, parse: Parser): Option<Args> {
    if c.fn.None? || c.fn.value.arguments.None? then Some(map[]) else parse(c.fn.value.arguments.value)
  }

  /** What a processed call records as its result: the tool's own result, or
      the `ToolNotFound` error dict. */
  datatype ToolOutcome = Called(result: CallResult) | NotFound(error: string, message: string, status: string)

  /** How the f-string shows the name: `None` when there is none. */
  function ShownName(name: Option<string>): string {
    match name
    case None => "None"
    case Some(n) => n
  }

  function NotFoundOutcome(name: Option<string>): ToolOutcome {
    NotFound("ToolNotFound", "Tool '" + ShownName(name) + "' is not available", "error")
  }

  /** An entry of `processed_calls`. */
  datatype ProcessedCall = ProcessedCall(name: Option<string>, parameters: Args, result: ToolOutcome)

  /** An entry of the conversation history. Tool messages have role `tool`
      and carry the serialised result, kept here as the result itself. */
  datatype Message =
    | ChatMessage(role: string, text: string)
    | ToolMessage(toolCallId: string, name: Option<string>, content: ToolOutcome)

  /** The caller's `conversation_history` list, appended to in place. */
  class Conversation {
    var messages: seq<Message>

    constructor (messages: seq<Message>)
      ensures this.messages == messages
    {
      this.messages := messages;
    }
  }

  /** One iteration of the loop: the processed entry and the message it
      appends, or the exception that ends the loop. */
  function StepOutcome(reg: Registry, parse: Parser, c: ToolCallRequest): Result<(ProcessedCall, Message), ToolError> {
    match CallParameters(c, parse)
    case None => Err(Raises)
    case Some(args) =>
      var name := CallName(c);
      var id := c.id.GetOr("");
      if name.Some? && Lookup(reg, name.value).Some? then
        match ToolCallOutcome(Lookup(reg, name.value).value, args)
        case Err(e) => Err(e)
        case Ok(res) => Ok((ProcessedCall(name, args, Called(res)), ToolMessage(id, name, Called(res))))
      else
        Ok((ProcessedCall(name, args, NotFoundOutcome(name)), ToolMessage(id, name, NotFoundOutcome(name))))
  }

  /** The calls processed so far, the messages appended so far, and whether
      an exception ended the loop. */
  datatype Batch = Batch(processed: seq<ProcessedCall>, appended: seq<Message>, raised: bool)

  /** The loop over the calls in order, stopping at the first exception. */
  function ProcessAll(reg: Registry, parse: Parser, calls: seq<ToolCallRequest>): Batch {
    if calls == [] then Batch([], [], false)
    else
      var b := ProcessAll(reg, parse, calls[..|calls| - 1]);
      if b.raised then b
      else
        match StepOutcome(reg, parse, calls[|calls| - 1])
        case Err(_) => b.(raised := true)
        case Ok(step) => Batch(b.processed + [step.0], b.appended + [step.1], false)
  }

  /** An unknown (or missing) name gives the `ToolNotFound` result, runs no
      tool and raises nothing once the arguments parse; a known name records
      the tool's own result, the same in the entry and in the message. Missing
      `function` or `arguments` parse as `{}`; the message's `tool_call_id`
      is the call's `id` or `""`. */
  lemma StepContract(reg: Registry, parse: Parser, c: ToolCallRequest)
    ensures c.fn.None? || c.fn.value.arguments.None? ==> CallParameters(c, parse) == Some(map[])
    ensures var name, args := CallName(c), CallParameters(c, parse);
            var s := StepOutcome(reg, parse, c);
            && (s.Ok? <==> args.Some? && (name.Some? && Lookup(reg, name.value).Some? ==>
                                            ToolCallOutcome(Lookup(reg, name.value).value, args.value).Ok?))
            && (s.Ok? ==> s.value.0.name == name && s.value.0.parameters == args.value
                          && s.value.1 == ToolMessage(c.id.GetOr(""), name, s.value.0.result))
            && (s.Ok? && !(name.Some? && Lookup(reg, name.value).Some?) ==> s.value.0.result == NotFoundOutcome(name))
            && (s.Ok? && name.Some? && Lookup(reg, name.value).Some? ==>
                  s.value.0.result == Called(ToolCallOutcome(Lookup(reg, name.value).value, args.value).value))
  {
  }

  /** Entry k of the batch and message k both come from call k: one entry and
      one `tool` message per call, in call order; all calls are processed
      unless one raised. */
  lemma {:induction false} BatchContract(reg: Registry, parse: Parser, calls: seq<ToolCallRequest>)
    ensures var b := ProcessAll(reg, parse, calls);
            && |b.processed| == |b.appended| <= |calls|
            && (!b.raised ==> |b.processed| == |calls|)
            && (b.raised ==> |b.processed| < |calls| && StepOutcome(reg, parse, calls[|b.processed|]).Err?)
            && forall k :: 0 <= k < |b.processed| ==>
                 StepOutcome(reg, parse, calls[k]) == Ok((b.processed[k], b.appended[k]))
  {
    if calls != [] {
      var init := calls[..|calls| - 1];
      BatchContract(reg, parse, init);
      var b := ProcessAll(reg, parse, init);
      assert forall k :: 0 <= k < |init| ==> init[k] == calls[k];
      if b.raised {
        assert calls[|b.processed|] == init[|b.processed|];
      } else {
        var last := calls[|calls| - 1];
        assert |b.processed| == |init|;
        match StepOutcome(reg, parse, last)
        case Err(_) =>
        case Ok(step) =>
          var b' := Batch(b.processed + [step.0], b.appended + [step.1], false);
          assert ProcessAll(reg, parse, calls) == b';
          assert b'.processed[|init|] == step.0 && b'.appended[|init|] == step.1;
      }
    }
  }

  /** Once a call has raised, the later calls are not processed. */
  lemma {:induction false} RaisedStops(reg: Registry, parse: Parser, calls: seq<ToolCallRequest>, n: nat)
    requires n <= |calls|
    requires ProcessAll(reg, parse, calls[..n]).raised
    ensures ProcessAll(reg, parse, calls) == ProcessAll(reg, parse, calls[..n])
  {
    if n < |calls| {
      assert calls[..|calls| - 1][..n] == calls[..n];
      RaisedStops(reg, parse, calls[..|calls| - 1], n);
    } else {
      assert calls[..n] == calls;
    }
  }

  /** `process_tool_calls(tool_calls, conversation_history)`: returns the
      processed calls, or raises after appending the messages of the calls
      before the one that raised. */
  method ProcessToolCalls(calls: seq<ToolCallRequest>, conversation: Conversation, reg: Registry, parse: Parser)
    returns (r: Result<seq<ProcessedCall>, ToolError>)
    modifies conversation
    ensures var b := ProcessAll(reg, parse, calls);
            && conversation.messages == old(conversation.messages) + b.appended
            && (r.Ok? <==> !b.raised)
            && (r.Ok? ==> r.value == b.processed)
  {
    ghost var start := conversation.messages;
    var processed := [];
    for i := 0 to |calls|
      invariant |start| <= |conversation.messages| && conversation.messages[..|start|] == start
      invariant ProcessAll(reg, parse, calls[..i]) == Batch(processed, conversation.messages[|start|..], false)
    {
      assert calls[..i + 1][..i] == calls[..i];
      var c := calls[i];
      var name := CallName(c);
      var args := CallParameters(c, parse);
      if args.None? {
        RaisedStops(reg, parse, calls, i + 1);
        assert conversation.messages == start + conversation.messages[|start|..];
        return Err(Raises);
      }
      var id := c.id.GetOr("");
      var outcome;
      if name.Some? && Lookup(reg, name.value).Some? {
        var res := CallTool(Lookup(reg, name.value).value, args.value);
        if res.Err? {
          RaisedStops(reg, parse, calls, i + 1);
          assert conversation.messages == start + conversation.messages[|start|..];
          return Err(res.error);
        }
        outcome := Called(res.value);
      } else {
        outcome := NotFoundOutcome(name);
      }
      processed := processed + [ProcessedCall(name, args.value, outcome)];
      ghost var before := conversation.messages;
      conversation.messages := conversation.messages + [ToolMessage(id, name, outcome)];
      assert conversation.messages[|start|..] == before[|start|..] + [ToolMessage(id, name, outcome)];
      assert conversation.messages[..|start|] == before[..|start|];
    }
    assert calls[..|calls|] == calls;
    assert conversation.messages == start + conversation.messages[|start|..];
    return Ok(processed);
  }
}
