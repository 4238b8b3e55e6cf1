/**
 * The bounded agentic loop in its two hand-written variants (src/core/agentic_loop.py:351-561;
 * src/core/agentic_loop_streaming.py:274-546), proved against one account of what is sent to the
 * model and which tools are called. The model, the tools, the guardrail and the clock are oracles.
 */
module AgenticLoop {
  import opened Basics
  import opened Summary
  import opened Transcript
  import opened Trimming
  import opened ContextView

  datatype Limits = Limits(maxSteps: int, maxDurationMs: int, maxTokens: int)

  /** A model response; `wantsTools` is the stop reason "tool_use". */
  datatype Reply = Reply(wantsTools: bool, content: seq<Block>, tokens: int)

  datatype Response = Replied(reply: Reply) | Raised(error: string)

  /** The world around a loop: the model, the clock at each budget check, the guardrail on
      arguments, the tool routes, the tools, the guardrail on results, truncation, and the fixed texts. Calls
      are numbered by step, and by position within a step. */
  datatype World = World(
    converse: (nat, seq<Message>) -> Response,
    elapsedMs: nat -> int,
    argsSafe: (nat, nat, Block) -> bool,
    routes: map<string, string>,
    callTool: (nat, nat, string, Block) -> string,
    screen: (nat, nat, string) -> string,
    truncate: string -> string,
    resultFraming: string,
    budgetNote: (nat, int, int, seq<string>) -> string,
    streamNote: string,
    display: string -> string,
    brief: string -> string
  )

  // ----- blocks -----

  function Tools(content: seq<Block>): (tools: seq<Block>)
    ensures forall b :: b in tools ==> b.ToolUse? && b in content
    ensures |tools| <= |content|
  {
    if content == [] then []
    else
      var n := |content| - 1;
      Tools(content[..n]) + if content[n].ToolUse? then [content[n]] else []
  }

  /** `_to_converse_assistant_blocks`. */
  function AssistantParts(content: seq<Block>): seq<Content>
  {
    if content == [] then []
    else
      var n := |content| - 1;
      AssistantParts(content[..n]) + PartOf(content[n])
  }

  function PartOf(block: Block): seq<Content>
  {
    match block
    case Text(text) => [TextPart(text)]
    case ToolUse(id, name, args) => [ToolUsePart(id, name, args)]
    case _ => []
  }

  /** The non-empty texts of a response. */
  function Texts(content: seq<Block>): seq<string>
  {
    if content == [] then []
    else (if content[0].Text? && content[0].text != "" then [content[0].text] else []) + Texts(content[1..])
  }

  function AnswerText(content: seq<Block>): string { Join("\n", Texts(content)) }

  // ----- one tool call -----

  datatype Fate = Blocked | Unrouted | Ran(adapter: string)

  datatype ToolCall = ToolCall(step: nat, index: nat, adapter: string, tool: Block)

  function FateOf(world: World, step: nat, index: nat, tool: Block): Fate
    requires tool.ToolUse?
  {
    if !world.argsSafe(step, index, tool) then Blocked
    else if tool.name !in world.routes then Unrouted
    else Ran(world.routes[tool.name])
  }

  /** The tool's output framed as data. */
  function Framed(world: World, name: string, text: string): string
  {
    "<tool_result_data tool=\"" + name + "\">\n" + text + world.resultFraming
  }

  /** The guardrail-screened output of a tool that ran. */
  function Screened(world: World, step: nat, index: nat, adapter: string, tool: Block): string
  {
    world.screen(step, index, world.callTool(step, index, adapter, tool))
  }

  function ResultText(world: World, step: nat, index: nat, tool: Block): string
    requires tool.ToolUse?
  {
    match FateOf(world, step, index, tool)
    case Blocked => "[" + tool.name + "] blocked: arguments failed guardrail check"
    case Unrouted => "[" + tool.name + "] error: tool not found in any adapter"
    case Ran(adapter) =>
      Framed(world, tool.name, world.truncate(Screened(world, step, index, adapter, tool)))
  }

  function ResultPart(world: World, step: nat, index: nat, tool: Block): Content
    requires tool.ToolUse?
  {
    ToolResultPart(tool.id, [TextItem(ResultText(world, step, index, tool))], !FateOf(world, step, index, tool).Ran?)
  }

  /** The answers to the first `n` tool uses of a turn. */
  function Results(world: World, step: nat, tools: seq<Block>, n: nat): (results: seq<Content>)
    requires n <= |tools| && forall b :: b in tools ==> b.ToolUse?
    ensures |results| == n
  {
    seq(n, i requires 0 <= i < n => ResultPart(world, step, i, tools[i]))
  }

  /** What a tool use is answered with. If its arguments are safe and it has a route, the adapter of the
      route is called, what comes back is screened, then truncated, then framed under the tool's
      name; else the text says why it was not run. */
  ghost predicate IsAnswer(world: World, step: nat, index: nat, tool: Block, answer: Content)
    requires tool.ToolUse?
  {
    var safe, routed := world.argsSafe(step, index, tool), tool.name in world.routes;
    var text :=
      if !safe then "[" + tool.name + "] blocked: arguments failed guardrail check"
      else if !routed then "[" + tool.name + "] error: tool not found in any adapter"
      else
        "<tool_result_data tool=\"" + tool.name + "\">\n"
        + world.truncate(world.screen(step, index, world.callTool(step, index, world.routes[tool.name], tool)))
        + world.resultFraming;
    answer == ToolResultPart(tool.id, [TextItem(text)], !(safe && routed))
  }

  ghost predicate AreAnswers(world: World, step: nat, tools: seq<Block>, results: seq<Content>)
  {
    |results| == |tools| && forall i: nat :: i < |tools| ==>
      tools[i].ToolUse? && IsAnswer(world, step, i, tools[i], results[i])
  }

  lemma ResultsAnswer(world: World, step: nat, tools: seq<Block>)
    requires forall b :: b in tools ==> b.ToolUse?
    ensures AreAnswers(world, step, tools, Results(world, step, tools, |tools|))
  {
  }

  /** The calls that reach an adapter. */
  function Calls(world: World, step: nat, tools: seq<Block>, n: nat): seq<ToolCall>
    requires n <= |tools| && forall b :: b in tools ==> b.ToolUse?
  {
    if n == 0 then []
    else
      Calls(world, step, tools, n - 1)
      + match FateOf(world, step, n - 1, tools[n - 1])
        case Ran(adapter) => [ToolCall(step, n - 1, adapter, tools[n - 1])]
        case _ => []
  }

  /** The tools that were blocked or not found. */
  function Unfulfilled(world: World, step: nat, tools: seq<Block>, n: nat): seq<string>
    requires n <= |tools| && forall b :: b in tools ==> b.ToolUse?
  {
    if n == 0 then []
    else
      Unfulfilled(world, step, tools, n - 1)
      + if FateOf(world, step, n - 1, tools[n - 1]).Ran? then [] else [tools[n - 1].name]
  }

  function TurnOf(world: World, step: nat, content: seq<Block>): Turn
  {
    Turn(AssistantParts(content), Results(world, step, Tools(content), |Tools(content)|))
  }

  // ----- what a run does, whichever loop runs it -----

  datatype Ending =
    | Answered(content: seq<Block>)
    | NoTools(content: seq<Block>)
    | Exhausted(step: nat, elapsedMs: int, tokens: int, unfulfilled: seq<string>, last: Option<seq<Block>>)
    | Failed(error: string)

  /** One call of the model: what was sent, what came back, and the tool calls made for it. */
  datatype Exchange = Exchange(sent: seq<Message>, response: Response, calls: seq<ToolCall>)

  /** The completed turns of a run, its exchanges with the model, and how it ends. */
  datatype Play = Play(turns: seq<Turn>, log: seq<Exchange>, ending: Ending)

  /** Where a run stands before a budget check: the completed turns, the tokens spent, the
      tools that were not run, and the last response, if there was one. */
  datatype State = State(turns: seq<Turn>, tokens: int, unfulfilled: seq<string>, last: Option<seq<Block>>)

  const START := State([], 0, [], None)

  predicate WithinBudget(world: World, limits: Limits, step: nat, tokens: int)
  {
    step < limits.maxSteps && world.elapsedMs(step) < limits.maxDurationMs && tokens < limits.maxTokens
  }

  function Next(world: World, state: State, reply: Reply): State
  {
    var step, tools := |state.turns|, Tools(reply.content);
    State(state.turns + [TurnOf(world, step, reply.content)], state.tokens + reply.tokens,
          state.unfulfilled + Unfulfilled(world, step, tools, |tools|), Some(reply.content))
  }

  /** The rest of a run. No list is edited here: what is sent is the view of the turns so far. */
  function PlayFrom(world: World, policy: Policy, limits: Limits, first: Message, state: State): Play
    decreases limits.maxSteps - |state.turns|
  {
    var step := |state.turns|;
    if !WithinBudget(world, limits, step, state.tokens) then
      Play(state.turns, [], Exhausted(step, world.elapsedMs(step), state.tokens, state.unfulfilled, state.last))
    else
      var messages := View(policy, first, state.turns);
      var response := world.converse(step, messages);
      match response
      case Raised(error) => Play(state.turns, [Exchange(messages, response, [])], Failed(error))
      case Replied(reply) =>
        var tools := Tools(reply.content);
        if !reply.wantsTools then Play(state.turns, [Exchange(messages, response, [])], Answered(reply.content))
        else if tools == [] then Play(state.turns, [Exchange(messages, response, [])], NoTools(reply.content))
        else
          After([Exchange(messages, response, Calls(world, step, tools, |tools|))],
                PlayFrom(world, policy, limits, first, Next(world, state, reply)))
  }

  /** A run with exchanges already made that goes on as `rest`. */
  function After(log: seq<Exchange>, rest: Play): Play
  {
    Play(rest.turns, log + rest.log, rest.ending)
  }

  function PlayOf(world: World, policy: Policy, limits: Limits, first: Message): Play
  {
    PlayFrom(world, policy, limits, first, START)
  }

  function Ids(tools: seq<Block>): seq<string>
    requires forall b :: b in tools ==> b.ToolUse?
  {
    seq(|tools|, i requires 0 <= i < |tools| => assert tools[i] in tools; tools[i].id)
  }

  lemma IdsGrow(tools: seq<Block>, tool: Block)
    requires (forall b :: b in tools ==> b.ToolUse?) && tool.ToolUse?
    ensures Ids(tools + [tool]) == Ids(tools) + [tool.id]
  {
  }

  lemma ToolUseIdsGrow(parts: seq<Content>, part: Content)
    ensures ToolUseIds(parts + [part]) == ToolUseIds(parts) + if part.ToolUsePart? then [part.id] else []
  {
  }

  lemma {:induction false} PartsHoldTools(content: seq<Block>)
    ensures ToolUseIds(AssistantParts(content)) == Ids(Tools(content))
  {
    if content == [] {
    } else {
      var n := |content| - 1;
      var parts, tools := AssistantParts(content[..n]), Tools(content[..n]);
      PartsHoldTools(content[..n]);
      match content[n]
      case ToolUse(id, name, args) =>
        ToolUseIdsGrow(parts, ToolUsePart(id, name, args));
        IdsGrow(tools, content[n]);
      case Text(text) =>
        ToolUseIdsGrow(parts, TextPart(text));
      case _ =>
        assert AssistantParts(content) == parts && Tools(content) == tools;
    }
  }

  /** Blocked, unrouted, failed or successful: every tool use gets exactly one answer. */
  lemma TurnAnswers(world: World, step: nat, content: seq<Block>)
    requires Tools(content) != []
    ensures var turn := TurnOf(world, step, content); Answers(turn.assistant, turn.results)
  {
    PartsHoldTools(content);
    var turn := TurnOf(world, step, content);
    assert ResultIds(turn.results) == Ids(Tools(content));
  }

  predicate InOrder(calls: seq<ToolCall>)
  {
    forall j, k :: 0 <= j < k < |calls| ==> calls[j].index < calls[k].index
  }

  lemma {:induction false} CallsAreFaithful(world: World, step: nat, tools: seq<Block>, n: nat)
    requires n <= |tools| && forall b :: b in tools ==> b.ToolUse?
    ensures |Calls(world, step, tools, n)| + |Unfulfilled(world, step, tools, n)| == n
    ensures forall c :: c in Calls(world, step, tools, n) ==>
      c.step == step && c.index < n && c.tool == tools[c.index]
        && FateOf(world, step, c.index, c.tool) == Ran(c.adapter)
  {
    if n == 0 {
    } else {
      CallsAreFaithful(world, step, tools, n - 1);
    }
  }

  lemma {:induction false} CallsAreInOrder(world: World, step: nat, tools: seq<Block>, n: nat)
    requires n <= |tools| && forall b :: b in tools ==> b.ToolUse?
    ensures InOrder(Calls(world, step, tools, n))
  {
    if n == 0 {
    } else {
      CallsAreInOrder(world, step, tools, n - 1);
      CallsAreFaithful(world, step, tools, n - 1);
      var calls := Calls(world, step, tools, n - 1);
      assert forall j :: 0 <= j < |calls| ==> calls[j] in calls;
    }
  }

  /** No tool use is lost or called twice: each either reaches the adapter its route names, once
      and in order, or is reported as unfulfilled and answered with an error. */
  lemma EveryToolIsAccountedFor(world: World, step: nat, tools: seq<Block>, n: nat)
    requires n <= |tools| && forall b :: b in tools ==> b.ToolUse?
    ensures |Calls(world, step, tools, n)| + |Unfulfilled(world, step, tools, n)| == n
    ensures forall c :: c in Calls(world, step, tools, n) ==>
      c.step == step && c.index < n && c.tool == tools[c.index]
        && FateOf(world, step, c.index, c.tool) == Ran(c.adapter)
    ensures InOrder(Calls(world, step, tools, n))
    ensures forall i :: 0 <= i < n ==>
      (Results(world, step, tools, n)[i].error <==> !FateOf(world, step, i, tools[i]).Ran?)
  {
    CallsAreFaithful(world, step, tools, n);
    CallsAreInOrder(world, step, tools, n);
  }

  // ----- the non-streaming loop -----

  datatype LoopResult = Answer(text: string, messages: seq<Message>) | Error(error: string) | UnboundContent

  /** What `run_agentic_loop` returns for each way a run can end. */
  function LoopResultOf(world: World, policy: Policy, first: Message, turns: seq<Turn>, ending: Ending): LoopResult
  {
    match ending
    case Answered(content) => Answer(AnswerText(content), View(policy, first, turns))
    case NoTools(content) =>
      Answer(if AnswerText(content) != "" then AnswerText(content) else "(no response)", View(policy, first, turns))
    case Failed(error) => Error(error)
    case Exhausted(step, elapsedMs, tokens, unfulfilled, last) =>
      match last
      case None => UnboundContent
      case Some(content) =>
        var note := world.budgetNote(step, elapsedMs, tokens, unfulfilled);
        var text := if Texts(content) != [] then AnswerText(content) + "\n\n" + note else note;
        Answer(text, Pending(policy, first, turns))
  }

  lemma AfterOne(log: seq<Exchange>, exchange: Exchange, rest: Play)
    ensures After(log, After([exchange], rest)) == After(log + [exchange], rest)
  {
  }

  /** A pending list grows by the turn just completed. */
  lemma PendingGrows(policy: Policy, first: Message, turns: seq<Turn>, turn: Turn)
    ensures Pending(policy, first, turns + [turn])
      == View(policy, first, turns) + [Message(Assistant, turn.assistant)] + [Message(User, turn.results)]
  {
  }

  /** The answer to one tool use, the call made for it, and its name if none was made. */
  method ExecuteTool(world: World, step: nat, index: nat, tool: Block)
    returns (result: Content, calls: seq<ToolCall>, missed: seq<string>)
    requires tool.ToolUse?
    ensures result == ResultPart(world, step, index, tool) && IsAnswer(world, step, index, tool, result)
    ensures var runs := world.argsSafe(step, index, tool) && tool.name in world.routes;
      && calls == (if runs then [ToolCall(step, index, world.routes[tool.name], tool)] else [])
      && missed == (if runs then [] else [tool.name])
  {
    calls, missed := [], [];
    if !world.argsSafe(step, index, tool) {
      var text := "[" + tool.name + "] blocked: arguments failed guardrail check";
      result := ToolResultPart(tool.id, [TextItem(text)], true);
      missed := [tool.name];
    } else if tool.name !in world.routes {
      var text := "[" + tool.name + "] error: tool not found in any adapter";
      result := ToolResultPart(tool.id, [TextItem(text)], true);
      missed := [tool.name];
    } else {
      var adapter := world.routes[tool.name];
      calls := [ToolCall(step, index, adapter, tool)];
      var text := world.callTool(step, index, adapter, tool);
      text := world.screen(step, index, text);
      text := world.truncate(text);
      result := ToolResultPart(tool.id, [TextItem(Framed(world, tool.name, text))], false);
    }
  }

  /** One tool-use turn of the non-streaming loop. */
  method ExecuteTools(world: World, step: nat, tools: seq<Block>)
    returns (results: seq<Content>, calls: seq<ToolCall>, unfulfilled: seq<string>)
    requires forall b :: b in tools ==> b.ToolUse?
    ensures results == Results(world, step, tools, |tools|) && AreAnswers(world, step, tools, results)
    ensures calls == Calls(world, step, tools, |tools|)
    ensures unfulfilled == Unfulfilled(world, step, tools, |tools|)
  {
    results, calls, unfulfilled := [], [], [];
    for i := 0 to |tools|
      invariant results == Results(world, step, tools, i)
      invariant calls == Calls(world, step, tools, i)
      invariant unfulfilled == Unfulfilled(world, step, tools, i)
    {
      assert Results(world, step, tools, i + 1)
        == Results(world, step, tools, i) + [ResultPart(world, step, i, tools[i])];
      var result, made, missed := ExecuteTool(world, step, i, tools[i]);
      results, calls, unfulfilled := results + [result], calls + made, unfulfilled + missed;
    }
    ResultsAnswer(world, step, tools);
  }

  /** After a tool turn the run goes on from `next`, and the history holds the new turn. */
  ghost predicate TurnDone(world: World, policy: Policy, limits: Limits, first: Message, state: State,
                           messages: seq<Message>, exchange: Exchange, missed: seq<string>, next: State)
  {
    && exchange.response.Replied?
    && PlayFrom(world, policy, limits, first, state) == After([exchange], PlayFrom(world, policy, limits, first, next))
    && |next.turns| == |state.turns| + 1
    && next.tokens == state.tokens + exchange.response.reply.tokens
    && next.unfulfilled == state.unfulfilled + missed
    && next.last == Some(exchange.response.reply.content)
    && GoodTurns(first, next.turns) && messages == Pending(policy, first, next.turns)
  }

  /** A tool turn whose two messages are appended to the view is done. */
  lemma TurnIsDone(world: World, policy: Policy, limits: Limits, first: Message, state: State, response: Response)
    requires GoodTurns(first, state.turns) && WithinBudget(world, limits, |state.turns|, state.tokens)
    requires world.converse(|state.turns|, View(policy, first, state.turns)) == response && response.Replied?
    requires response.reply.wantsTools && Tools(response.reply.content) != []
    ensures var step, reply, view := |state.turns|, response.reply, View(policy, first, state.turns);
      var tools := Tools(reply.content);
      var results := Results(world, step, tools, |tools|);
      TurnDone(world, policy, limits, first, state,
               view + [Message(Assistant, AssistantParts(reply.content))] + [Message(User, results)],
               Exchange(view, response, Calls(world, step, tools, |tools|)), Unfulfilled(world, step, tools, |tools|),
               Next(world, state, reply))
  {
    var content := response.reply.content;
    TurnAnswers(world, |state.turns|, content);
    PendingGrows(policy, first, state.turns, TurnOf(world, |state.turns|, content));
  }

  /** The body of the loop after the budget checks: trim, ask the model, and either finish or
      execute the tools and record the turn. */
  method Step(world: World, policy: Policy, limits: Limits, history: MessageHistory, step: nat, ghost first: Message,
              ghost state: State)
    returns (ended: Option<LoopResult>, exchange: Exchange, missed: seq<string>, ghost next: State)
    requires step == |state.turns| && GoodTurns(first, state.turns)
    requires WithinBudget(world, limits, step, state.tokens)
    requires history.messages == Pending(policy, first, state.turns)
    modifies history
    ensures var play := PlayFrom(world, policy, limits, first, state);
      ended.Some? ==>
        play.log == [exchange] && ended.value == LoopResultOf(world, policy, first, play.turns, play.ending)
    ensures ended.None? ==> TurnDone(world, policy, limits, first, state, history.messages, exchange, missed, next)
  {
    next, missed := state, [];
    history.Trim(policy.summarize, policy.keep, policy.enabled);
    assert history.messages == View(policy, first, state.turns) by {
      TrimReachesView(policy, first, state.turns);
    }
    var sent := history.messages;
    var response := world.converse(step, sent);
    exchange := Exchange(sent, response, []);
    if response.Raised? {
      ended := Some(Error(response.error));
      return;
    }
    var content := response.reply.content;
    if !response.reply.wantsTools {
      ended := Some(Answer(AnswerText(content), history.messages));
      return;
    }
    var tools := Tools(content);
    if tools == [] {
      var text := AnswerText(content);
      ended := Some(Answer(if text != "" then text else "(no response)", history.messages));
      return;
    }
    history.Append(Message(Assistant, AssistantParts(content)));
    var results, calls;
    results, calls, missed := ExecuteTools(world, step, tools);
    exchange := Exchange(sent, response, calls);
    history.Append(Message(User, results));
    ended, next := None, Next(world, state, response.reply);
    TurnIsDone(world, policy, limits, first, state, response);
  }

  /** The end of a run whose budget is spent; `content_blocks` is unbound before any response. */
  method Degrade(world: World, policy: Policy, first: Message, ghost state: State, messages: seq<Message>,
                 step: nat, elapsedMs: int, tokens: int, unfulfilled: seq<string>,
                 contentBlocks: Option<seq<Block>>)
    returns (result: LoopResult)
    requires messages == Pending(policy, first, state.turns)
    ensures result
      == LoopResultOf(world, policy, first, state.turns, Exhausted(step, elapsedMs, tokens, unfulfilled, contentBlocks))
  {
    if contentBlocks.None? {
      return UnboundContent;
    }
    var partial := Texts(contentBlocks.value);
    var note := world.budgetNote(step, elapsedMs, tokens, unfulfilled);
    if partial != [] {
      return Answer(Join("\n", partial) + "\n\n" + note, messages);
    }
    return Answer(note, messages);
  }

  /** `run_agentic_loop` from the first message on, with its exchanges with the model. */
  method RunLoop(world: World, policy: Policy, limits: Limits, first: Message)
    returns (result: LoopResult, log: seq<Exchange>)
    requires first.role == User
    ensures var play := PlayOf(world, policy, limits, first);
      log == play.log && result == LoopResultOf(world, policy, first, play.turns, play.ending)
  {
    ghost var play, state := PlayOf(world, policy, limits, first), START;
    var history := new MessageHistory(first);
    var contentBlocks: Option<seq<Block>> := None;
    var step: nat := 0;
    var tokens := 0;
    var unfulfilled: seq<string> := [];
    var elapsedMs := world.elapsedMs(0);
    log := [];
    while true
      invariant fresh(history)
      invariant state == State(state.turns, tokens, unfulfilled, contentBlocks)
      invariant step == |state.turns| && GoodTurns(first, state.turns)
      invariant history.messages == Pending(policy, first, state.turns)
      invariant play == After(log, PlayFrom(world, policy, limits, first, state))
      decreases limits.maxSteps - step
    {
      elapsedMs := world.elapsedMs(step);
      if step >= limits.maxSteps || elapsedMs >= limits.maxDurationMs || tokens >= limits.maxTokens {
        break;
      }
      var ended, exchange, missed;
      ghost var next;
      ended, exchange, missed, next := Step(world, policy, limits, history, step, first, state);
      if ended.Some? {
        return ended.value, log + [exchange];
      }
      AfterOne(log, exchange, PlayFrom(world, policy, limits, first, next));
      log := log + [exchange];
      var reply := exchange.response.reply;
      tokens, unfulfilled, contentBlocks := tokens + reply.tokens, unfulfilled + missed, Some(reply.content);
      state, step := next, step + 1;
    }
    result := Degrade(world, policy, first, state, history.messages, step, elapsedMs, tokens, unfulfilled,
                      contentBlocks);
  }
}
