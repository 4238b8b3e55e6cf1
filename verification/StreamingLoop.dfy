/**
 * The streaming variant of the agentic loop (src/core/agentic_loop_streaming.py:274-546): the
 * same account of messages and tool calls, told as step events, and its agreement with the
 * non-streaming loop.
 */
module StreamingLoop {
  import opened Basics
  import opened Summary
  import opened Transcript
  import opened Trimming
  import opened ContextView
  import opened AgenticLoop

  datatype Event =
    | Routing(agent: string)
    | Thinking(text: string)
    | ToolCalled(name: string, args: string)
    | ToolResulted(name: string, summary: string)
    | FinalChunk(text: string)
    | Done(reason: string)

  predicate IsTrace(event: Event)
  {
    event.Routing? || event.Thinking? || event.ToolCalled? || event.ToolResulted?
  }

  /** The answer a client assembles from a stream. */
  function FinalText(events: seq<Event>): string
  {
    if events == [] then ""
    else
      var n := |events| - 1;
      FinalText(events[..n]) + if events[n].FinalChunk? then events[n].text else ""
  }

  const CHUNK_SIZE: nat := 200

  function Chunks(text: string): seq<Event>
  {
    if |text| <= CHUNK_SIZE then (if text == "" then [] else [FinalChunk(text)])
    else [FinalChunk(text[..CHUNK_SIZE])] + Chunks(text[CHUNK_SIZE..])
  }

  // ----- the events of a run -----

  /** Thinking events for the non-empty reasoning blocks, or for the non-empty texts. */
  function Thoughts(content: seq<Block>, reasoning: bool): seq<Event>
  {
    if content == [] then []
    else
      var n := |content| - 1;
      Thoughts(content[..n], reasoning)
      + if (if reasoning then content[n].Reasoning? else content[n].Text?) && content[n].text != ""
        then [Thinking(content[n].text)] else []
  }

  function Brief(world: World, step: nat, index: nat, tool: Block): string
    requires tool.ToolUse?
  {
    match FateOf(world, step, index, tool)
    case Blocked => "blocked by guardrail"
    case Unrouted => "tool not found"
    case Ran(adapter) => world.brief(Screened(world, step, index, adapter, tool))
  }

  /** A call event and a result event for each of the first `n` tool uses. */
  function ToolEvents(world: World, step: nat, tools: seq<Block>, n: nat): seq<Event>
    requires n <= |tools| && forall b :: b in tools ==> b.ToolUse?
  {
    if n == 0 then []
    else
      var tool := tools[n - 1];
      ToolEvents(world, step, tools, n - 1)
      + [ToolCalled(tool.name, world.display(tool.args)), ToolResulted(tool.name, Brief(world, step, n - 1, tool))]
  }

  function ReplyThoughts(reply: Reply): seq<Event>
  {
    Thoughts(reply.content, true) + if reply.wantsTools then Thoughts(reply.content, false) else []
  }

  function ReplyTrace(world: World, step: nat, reply: Reply): seq<Event>
  {
    ReplyThoughts(reply)
      + if reply.wantsTools then ToolEvents(world, step, Tools(reply.content), |Tools(reply.content)|) else []
  }

  function ExchangeTrace(world: World, step: nat, exchange: Exchange): seq<Event>
  {
    if exchange.response.Replied? then ReplyTrace(world, step, exchange.response.reply) else []
  }

  /** The trace of the exchanges of a run, in order. */
  function Trace(world: World, log: seq<Exchange>): seq<Event>
  {
    if log == [] then []
    else
      var n := |log| - 1;
      Trace(world, log[..n]) + ExchangeTrace(world, n, log[n])
  }

  /** The events that end a stream; a failed run just stops. */
  function EndingEvents(world: World, ending: Ending): seq<Event>
  {
    match ending
    case Answered(content) => Chunks(AnswerText(content)) + [Done("stop")]
    case NoTools(content) =>
      (if AnswerText(content) != "" then [FinalChunk(AnswerText(content))] else []) + [Done("stop")]
    case Exhausted(_, _, _, _, last) =>
      [FinalChunk(if last.Some? && Texts(last.value) != [] then world.streamNote + "\n\n" + AnswerText(last.value)
          else world.streamNote),
       Done("length")]
    case Failed(_) => []
  }

  function EventsOf(world: World, play: Play): seq<Event>
  {
    Trace(world, play.log) + EndingEvents(world, play.ending)
  }

  // ----- the streaming loop -----

  method StreamThoughts(content: seq<Block>, reasoning: bool) returns (events: seq<Event>)
    ensures events == Thoughts(content, reasoning)
  {
    events := [];
    for i := 0 to |content|
      invariant events == Thoughts(content[..i], reasoning)
    {
      assert content[..i + 1][..i] == content[..i];
      if (if reasoning then content[i].Reasoning? else content[i].Text?) && content[i].text != "" {
        events := events + [Thinking(content[i].text)];
      }
    }
    assert content[..|content|] == content;
  }

  method StreamChunks(text: string) returns (events: seq<Event>)
    ensures events == Chunks(text)
  {
    events := [];
    var i := 0;
    assert text[0..] == text;
    while i < |text|
      invariant 0 <= i <= |text|
      invariant Chunks(text) == events + Chunks(text[i..])
    {
      var hi := if i + CHUNK_SIZE <= |text| then i + CHUNK_SIZE else |text|;
      var chunk := FinalChunk(text[i..hi]);
      ChunksStep(text, i, hi);
      assert events + ([chunk] + Chunks(text[hi..])) == events + [chunk] + Chunks(text[hi..]);
      events := events + [chunk];
      i := hi;
    }
    assert text[|text|..] == "";
  }

  lemma ChunksStep(text: string, i: nat, hi: nat)
    requires i < |text| && hi == Min(i + CHUNK_SIZE, |text|)
    ensures Chunks(text[i..]) == [FinalChunk(text[i..hi])] + Chunks(text[hi..])
  {
    var rest := text[i..];
    if |rest| <= CHUNK_SIZE {
      assert rest == text[i..hi] && text[hi..] == "";
    } else {
      assert rest[..CHUNK_SIZE] == text[i..hi] && rest[CHUNK_SIZE..] == text[hi..];
    }
  }

  method StreamReplyThoughts(reply: Reply) returns (events: seq<Event>)
    ensures events == ReplyThoughts(reply)
  {
    events := StreamThoughts(reply.content, true);
    if reply.wantsTools {
      var narration := StreamThoughts(reply.content, false);
      events := events + narration;
    }
  }

  method StreamAnswer(world: World, content: seq<Block>, wantsTools: bool) returns (events: seq<Event>)
    ensures events == EndingEvents(world, if wantsTools then NoTools(content) else Answered(content))
  {
    var text := AnswerText(content);
    if wantsTools {
      events := (if text != "" then [FinalChunk(text)] else []) + [Done("stop")];
    } else {
      events := StreamChunks(text);
      events := events + [Done("stop")];
    }
  }

  /** The answer to one tool use, the call made for it, its name if none was made, and its events. */
  method StreamTool(world: World, step: nat, index: nat, tool: Block)
    returns (result: Content, calls: seq<ToolCall>, missed: seq<string>, events: seq<Event>)
    requires tool.ToolUse?
    ensures result == ResultPart(world, step, index, tool) && IsAnswer(world, step, index, tool, result)
    ensures var runs := world.argsSafe(step, index, tool) && tool.name in world.routes;
      && calls == (if runs then [ToolCall(step, index, world.routes[tool.name], tool)] else [])
      && missed == (if runs then [] else [tool.name])
    ensures events ==
      [ToolCalled(tool.name, world.display(tool.args)), ToolResulted(tool.name, Brief(world, step, index, tool))]
  {
    calls, missed := [], [];
    events := [ToolCalled(tool.name, world.display(tool.args))];
    var summary;
    if !world.argsSafe(step, index, tool) {
      var text := "[" + tool.name + "] blocked: arguments failed guardrail check";
      result := ToolResultPart(tool.id, [TextItem(text)], true);
      missed := [tool.name];
      summary := "blocked by guardrail";
    } else if tool.name !in world.routes {
      var text := "[" + tool.name + "] error: tool not found in any adapter";
      result := ToolResultPart(tool.id, [TextItem(text)], true);
      missed := [tool.name];
      summary := "tool not found";
    } else {
      var adapter := world.routes[tool.name];
      calls := [ToolCall(step, index, adapter, tool)];
      var text := world.screen(step, index, world.callTool(step, index, adapter, tool));
      summary := world.brief(text);
      text := world.truncate(text);
      result := ToolResultPart(tool.id, [TextItem(Framed(world, tool.name, text))], false);
    }
    events := events + [ToolResulted(tool.name, summary)];
  }

  /** One tool-use turn of the streaming loop. */
  method ExecuteAndStream(world: World, step: nat, tools: seq<Block>)
    returns (results: seq<Content>, calls: seq<ToolCall>, unfulfilled: seq<string>, events: seq<Event>)
    requires forall b :: b in tools ==> b.ToolUse?
    ensures results == Results(world, step, tools, |tools|) && AreAnswers(world, step, tools, results)
    ensures calls == Calls(world, step, tools, |tools|)
    ensures unfulfilled == Unfulfilled(world, step, tools, |tools|)
    ensures events == ToolEvents(world, step, tools, |tools|)
  {
    results, calls, unfulfilled, events := [], [], [], [];
    for i := 0 to |tools|
      invariant results == Results(world, step, tools, i)
      invariant calls == Calls(world, step, tools, i)
      invariant unfulfilled == Unfulfilled(world, step, tools, i)
      invariant events == ToolEvents(world, step, tools, i)
    {
      assert Results(world, step, tools, i + 1)
        == Results(world, step, tools, i) + [ResultPart(world, step, i, tools[i])];
      var result, made, missed, told := StreamTool(world, step, i, tools[i]);
      results, calls, unfulfilled, events := results + [result], calls + made, unfulfilled + missed, events + told;
    }
    ResultsAnswer(world, step, tools);
  }

  datatype StreamEnd = Open | Finished | Failure(error: string)

  /** The body of the streaming loop after the budget checks. */
  method StreamStep(world: World, policy: Policy, limits: Limits, history: MessageHistory, step: nat,
                    ghost first: Message, ghost state: State)
    returns (end: StreamEnd, events: seq<Event>, exchange: Exchange, missed: seq<string>, ghost next: State)
    requires step == |state.turns| && GoodTurns(first, state.turns)
    requires WithinBudget(world, limits, step, state.tokens)
    requires history.messages == Pending(policy, first, state.turns)
    modifies history
    ensures end.Open? ==>
      && TurnDone(world, policy, limits, first, state, history.messages, exchange, missed, next)
      && events == ExchangeTrace(world, step, exchange)
    ensures var play := PlayFrom(world, policy, limits, first, state);
      !end.Open? ==>
        && play.log == [exchange]
        && events == ExchangeTrace(world, step, exchange) + EndingEvents(world, play.ending)
        && (if end.Failure? then play.ending == Failed(end.error) else !play.ending.Failed?)
  {
    next, missed, events := state, [], [];
    history.Trim(policy.summarize, policy.keep, policy.enabled);
    assert history.messages == View(policy, first, state.turns) by {
      TrimReachesView(policy, first, state.turns);
    }
    var sent := history.messages;
    var response := world.converse(step, sent);
    exchange := Exchange(sent, response, []);
    if response.Raised? {
      end := Failure(response.error);
      return;
    }
    var reply := response.reply;
    events := StreamReplyThoughts(reply);
    var tools := Tools(reply.content);
    if !reply.wantsTools || tools == [] {
      var answer := StreamAnswer(world, reply.content, reply.wantsTools);
      events := events + answer;
      assert ReplyTrace(world, step, reply) == ReplyThoughts(reply);
      end := Finished;
      return;
    }
    history.Append(Message(Assistant, AssistantParts(reply.content)));
    var results, calls, toolEvents;
    results, calls, missed, toolEvents := ExecuteAndStream(world, step, tools);
    exchange := Exchange(sent, response, calls);
    events := events + toolEvents;
    history.Append(Message(User, results));
    end, next := Open, Next(world, state, reply);
    TurnIsDone(world, policy, limits, first, state, response);
  }

  lemma TraceGrows(world: World, log: seq<Exchange>, exchange: Exchange)
    ensures Trace(world, log + [exchange]) == Trace(world, log) + ExchangeTrace(world, |log|, exchange)
  {
  }

  lemma TraceCloses(world: World, log: seq<Exchange>, exchange: Exchange, last: seq<Event>)
    ensures Trace(world, log + [exchange]) + last == Trace(world, log) + (ExchangeTrace(world, |log|, exchange) + last)
  {
    TraceGrows(world, log, exchange);
    var t, x := Trace(world, log), ExchangeTrace(world, |log|, exchange);
    assert t + x + last == t + (x + last);
  }

  /** The end of a stream whose budget is spent. */
  method StreamDegraded(world: World, contentBlocks: seq<Block>, ghost ending: Ending) returns (events: seq<Event>)
    requires ending.Exhausted? && contentBlocks == if ending.last.Some? then ending.last.value else []
    ensures events == EndingEvents(world, ending)
  {
    var note := world.streamNote;
    var partial := Texts(contentBlocks);
    if partial != [] {
      note := note + "\n\n" + Join("\n", partial);
    }
    events := [FinalChunk(note), Done("length")];
  }

  /** `run_agentic_loop_streaming` from the first message on. */
  method RunStreaming(world: World, policy: Policy, limits: Limits, first: Message)
    returns (events: seq<Event>, failure: Option<string>, log: seq<Exchange>)
    requires first.role == User
    ensures var play := PlayOf(world, policy, limits, first);
      && log == play.log
      && events == EventsOf(world, play)
      && failure == if play.ending.Failed? then Some(play.ending.error) else None
  {
    ghost var play, state := PlayOf(world, policy, limits, first), START;
    var history := new MessageHistory(first);
    var contentBlocks: seq<Block> := [];
    var step: nat := 0;
    var tokens := 0;
    events, failure, log := [], None, [];
    while true
      invariant fresh(history)
      invariant tokens == state.tokens
      invariant contentBlocks == if state.last.Some? then state.last.value else []
      invariant step == |state.turns| == |log| && GoodTurns(first, state.turns)
      invariant history.messages == Pending(policy, first, state.turns)
      invariant play == After(log, PlayFrom(world, policy, limits, first, state))
      invariant events == Trace(world, log) && failure == None
      decreases limits.maxSteps - step
    {
      var elapsedMs := world.elapsedMs(step);
      if step >= limits.maxSteps || elapsedMs >= limits.maxDurationMs || tokens >= limits.maxTokens {
        break;
      }
      var end, more, exchange, missed;
      ghost var next;
      end, more, exchange, missed, next := StreamStep(world, policy, limits, history, step, first, state);
      TraceGrows(world, log, exchange);
      if !end.Open? {
        TraceCloses(world, log, exchange, EndingEvents(world, play.ending));
        events, log := events + more, log + [exchange];
        failure := if end.Failure? then Some(end.error) else None;
        return;
      }
      AfterOne(log, exchange, PlayFrom(world, policy, limits, first, next));
      events, log := events + more, log + [exchange];
      tokens, contentBlocks := tokens + exchange.response.reply.tokens, exchange.response.reply.content;
      state, step := next, step + 1;
    }
    var last := StreamDegraded(world, contentBlocks, play.ending);
    assert play.log == log;
    events := events + last;
  }

  // ----- the two loops agree -----

  lemma {:induction false} FinalTextSplit(a: seq<Event>, b: seq<Event>)
    ensures FinalText(a + b) == FinalText(a) + FinalText(b)
  {
    if b == [] {
      assert a + b == a;
    } else {
      var n := |b| - 1;
      assert (a + b)[..|a| + n] == a + b[..n];
      FinalTextSplit(a, b[..n]);
    }
  }

  /** Chunking loses nothing, and every chunk is non-empty and at most 200 characters long. */
  lemma {:induction false} ChunksJoin(text: string)
    ensures FinalText(Chunks(text)) == text
    ensures forall e :: e in Chunks(text) ==> e.FinalChunk? && 1 <= |e.text| <= CHUNK_SIZE
  {
    if |text| > CHUNK_SIZE {
      ChunksJoin(text[CHUNK_SIZE..]);
      FinalTextSplit([FinalChunk(text[..CHUNK_SIZE])], Chunks(text[CHUNK_SIZE..]));
      assert text == text[..CHUNK_SIZE] + text[CHUNK_SIZE..];
    }
    assert forall s :: FinalText([FinalChunk(s)]) == s;
  }

  lemma {:induction false} ThoughtsAreTrace(content: seq<Block>, reasoning: bool)
    ensures forall e :: e in Thoughts(content, reasoning) ==> IsTrace(e)
  {
    if content == [] {
    } else {
      ThoughtsAreTrace(content[..|content| - 1], reasoning);
    }
  }

  lemma {:induction false} ToolEventsAreTrace(world: World, step: nat, tools: seq<Block>, n: nat)
    requires n <= |tools| && forall b :: b in tools ==> b.ToolUse?
    ensures forall e :: e in ToolEvents(world, step, tools, n) ==> IsTrace(e)
  {
    if n == 0 {
    } else {
      ToolEventsAreTrace(world, step, tools, n - 1);
    }
  }

  /** The trace of a turn tells each tool use in order: its call and, right after it, its result. */
  lemma {:induction false} CallThenResult(world: World, step: nat, tools: seq<Block>, n: nat, i: nat)
    requires i < n <= |tools| && forall b :: b in tools ==> b.ToolUse?
    ensures var events := ToolEvents(world, step, tools, n);
      && |events| == 2 * n
      && events[2 * i] == ToolCalled(tools[i].name, world.display(tools[i].args))
      && events[2 * i + 1].ToolResulted? && events[2 * i + 1].name == tools[i].name
      && (FateOf(world, step, i, tools[i]).Ran? ==>
            events[2 * i + 1].summary == world.brief(Screened(world, step, i, world.routes[tools[i].name], tools[i])))
  {
    if n <= 1 {
    } else {
      CallThenResult(world, step, tools, n - 1, if i < n - 1 then i else 0);
    }
  }

  lemma {:induction false} TraceIsTrace(world: World, log: seq<Exchange>)
    ensures forall e :: e in Trace(world, log) ==> IsTrace(e)
  {
    if log == [] {
    } else {
      var n := |log| - 1;
      TraceIsTrace(world, log[..n]);
      if log[n].response.Replied? {
        var content := log[n].response.reply.content;
        ThoughtsAreTrace(content, true);
        ThoughtsAreTrace(content, false);
        ToolEventsAreTrace(world, n, Tools(content), |Tools(content)|);
      }
    }
  }

  lemma {:induction false} TraceHasNoAnswer(events: seq<Event>)
    requires forall e :: e in events ==> !e.FinalChunk?
    ensures FinalText(events) == ""
  {
    if events == [] {
    } else {
      TraceHasNoAnswer(events[..|events| - 1]);
    }
  }

  /** A stream is a trace, then answer chunks, then Done; a failed stream is only a trace. */
  ghost predicate StreamShape(events: seq<Event>, trace: seq<Event>, chunks: seq<Event>, reason: string)
  {
    && events == trace + chunks + [Done(reason)]
    && (forall e :: e in trace ==> IsTrace(e))
    && (forall e :: e in chunks ==> e.FinalChunk?)
  }

  lemma EndingShape(world: World, ending: Ending) returns (chunks: seq<Event>, reason: string)
    requires !ending.Failed?
    ensures EndingEvents(world, ending) == chunks + [Done(reason)]
    ensures forall e :: e in chunks ==> e.FinalChunk?
    ensures reason == if ending.Exhausted? then "length" else "stop"
    ensures ending.Answered? || ending.NoTools? ==> FinalText(chunks) == AnswerText(ending.content)
  {
    match ending
    case Answered(content) =>
      chunks, reason := Chunks(AnswerText(content)), "stop";
      ChunksJoin(AnswerText(content));
    case NoTools(content) =>
      chunks, reason := if AnswerText(content) != "" then [FinalChunk(AnswerText(content))] else [], "stop";
      assert FinalText([]) == "";
      assert forall s :: FinalText([FinalChunk(s)]) == s;
    case Exhausted(_, _, _, _, _) =>
      var all := EndingEvents(world, ending);
      chunks, reason := all[..1], "length";
      assert all == all[..1] + [Done("length")];
  }

  /** The stream tells what the other loop returns. On a final answer the chunks join up to the
      returned text; a tool_use turn without tools gives "(no response)" in place of an empty
      text. The stream ends with "length" exactly when the budget ran out, and where the other
      loop then fails on an unbound name, before any response, the stream still ends properly. */
  ghost predicate Agrees(world: World, policy: Policy, limits: Limits, first: Message,
                         result: LoopResult, events: seq<Event>, failure: Option<string>)
  {
    match failure
    case Some(error) => result == Error(error)
    case None =>
      var spent := OutOfBudget(world, policy, limits, first);
      && (spent && result.Answer? ==>
          SamePartial(world, PlayOf(world, policy, limits, first), result.text, FinalText(events)))
      && (exists trace, chunks, reason :: StreamShape(events, trace, chunks, reason) && (reason == "length" <==> spent))
      && (result.UnboundContent? <==> !WithinBudget(world, limits, 0, 0))
      && (!spent ==>
            && result.Answer?
            && (result.text == FinalText(events) || (FinalText(events) == "" && result.text == "(no response)")))
      && !result.Error?
  }

  /** The text of the last response of a run. */
  function LastText(log: seq<Exchange>): string
  {
    if log != [] && log[|log| - 1].response.Replied? then AnswerText(log[|log| - 1].response.reply.content) else ""
  }

  /** Out of budget, both loops hand over what the last response said: the one in front of its note,
      the other behind its own. */
  ghost predicate SamePartial(world: World, play: Play, text: string, streamed: string)
  {
    && play.ending.Exhausted?
    && var partial, e := LastText(play.log), play.ending;
      var note := world.budgetNote(e.step, e.elapsedMs, e.tokens, e.unfulfilled);
      && text == (if partial == "" then note else partial + "\n\n" + note)
      && streamed == (if partial == "" then world.streamNote else world.streamNote + "\n\n" + partial)
  }

  lemma {:induction false} LastIsLogged(world: World, policy: Policy, limits: Limits, first: Message, state: State)
    ensures var play := PlayFrom(world, policy, limits, first, state);
      play.ending.Exhausted? ==>
        if play.log == [] then play.ending.last == state.last
        else
          var response := play.log[|play.log| - 1].response;
          response.Replied? && play.ending.last == Some(response.reply.content)
    decreases limits.maxSteps - |state.turns|
  {
    if WithinBudget(world, limits, |state.turns|, state.tokens) {
      match world.converse(|state.turns|, View(policy, first, state.turns))
      case Replied(reply) =>
        if reply.wantsTools && Tools(reply.content) != [] {
          LastIsLogged(world, policy, limits, first, Next(world, state, reply));
        }
      case _ =>
    }
  }

  lemma {:induction false} TextsAreNotEmpty(content: seq<Block>)
    ensures AnswerText(content) == "" <==> Texts(content) == []
    ensures forall t :: t in Texts(content) ==> t != ""
  {
    if content == [] {
    } else {
      TextsAreNotEmpty(content[1..]);
    }
  }

  /** What the stream of a run without budget tells, given the last response. */
  lemma DegradedStream(world: World, play: Play)
    requires play.ending.Exhausted? && play.ending.last.Some?
    ensures var partial := AnswerText(play.ending.last.value);
      FinalText(EventsOf(world, play)) == if partial == "" then world.streamNote
        else world.streamNote + "\n\n" + partial
  {
    TextsAreNotEmpty(play.ending.last.value);
    var chunks, reason := EndingShape(world, play.ending);
    TraceIsTrace(world, play.log);
    assert EventsOf(world, play) == Trace(world, play.log) + chunks + [Done(reason)];
    ShapeText(EventsOf(world, play), Trace(world, play.log), chunks, reason);
    assert chunks == [FinalChunk(chunks[0].text)];
    assert FinalText([]) == "";
  }

  /** When the budget is spent after some response, the two loops carry the same partial answer. */
  lemma BothDegradeAlike(world: World, policy: Policy, limits: Limits, first: Message)
    requires OutOfBudget(world, policy, limits, first) && WithinBudget(world, limits, 0, 0)
    ensures var play := PlayOf(world, policy, limits, first);
      var result := LoopResultOf(world, policy, first, play.turns, play.ending);
      result.Answer? && SamePartial(world, play, result.text, FinalText(EventsOf(world, play)))
  {
    var play := PlayOf(world, policy, limits, first);
    LastIsLogged(world, policy, limits, first, START);
    UnboundOnlyAtStart(world, policy, limits, first, START);
    DegradedStream(world, play);
    TextsAreNotEmpty(play.ending.last.value);
  }

  /** The events of a run that does not fail have their shape and tell the answer of its ending. */
  lemma StreamIsShaped(world: World, play: Play)
    requires !play.ending.Failed?
    ensures exists trace, chunks, reason ::
      StreamShape(EventsOf(world, play), trace, chunks, reason) && (reason == "length" <==> play.ending.Exhausted?)
    ensures play.ending.Answered? || play.ending.NoTools? ==>
      FinalText(EventsOf(world, play)) == AnswerText(play.ending.content)
  {
    var chunks, reason := EndingShape(world, play.ending);
    var trace, events := Trace(world, play.log), EventsOf(world, play);
    TraceIsTrace(world, play.log);
    assert events == trace + chunks + [Done(reason)];
    assert StreamShape(events, trace, chunks, reason);
    ShapeText(events, trace, chunks, reason);
  }

  lemma LoopsAgree(world: World, policy: Policy, limits: Limits, first: Message)
    ensures var play := PlayOf(world, policy, limits, first);
      Agrees(world, policy, limits, first, LoopResultOf(world, policy, first, play.turns, play.ending),
             EventsOf(world, play), if play.ending.Failed? then Some(play.ending.error) else None)
  {
    var play := PlayOf(world, policy, limits, first);
    UnboundOnlyAtStart(world, policy, limits, first, START);
    if !play.ending.Failed? {
      StreamIsShaped(world, play);
      if play.ending.Exhausted? && WithinBudget(world, limits, 0, 0) {
        BothDegradeAlike(world, policy, limits, first);
      }
    }
  }

  lemma ShapeText(events: seq<Event>, trace: seq<Event>, chunks: seq<Event>, reason: string)
    requires StreamShape(events, trace, chunks, reason)
    ensures FinalText(events) == FinalText(chunks)
  {
    TraceHasNoAnswer(trace);
    FinalTextSplit(trace + chunks, [Done(reason)]);
    FinalTextSplit(trace, chunks);
    assert FinalText([Done(reason)]) == "";
  }

  /** For the same world both loops have the same exchanges with the model, message list for
      message list and tool call for tool call, and agree on the answer. */
  method BothLoops(world: World, policy: Policy, limits: Limits, first: Message)
    returns (result: LoopResult, log: seq<Exchange>, events: seq<Event>, failure: Option<string>,
             streamLog: seq<Exchange>)
    requires first.role == User
    ensures log == streamLog
    ensures Agrees(world, policy, limits, first, result, events, failure)
  {
    result, log := RunLoop(world, policy, limits, first);
    events, failure, streamLog := RunStreaming(world, policy, limits, first);
    LoopsAgree(world, policy, limits, first);
  }

  ghost predicate OutOfBudget(world: World, policy: Policy, limits: Limits, first: Message)
  {
    PlayOf(world, policy, limits, first).ending.Exhausted?
  }

  lemma {:induction false} UnboundOnlyAtStart(world: World, policy: Policy, limits: Limits, first: Message,
                                              state: State)
    ensures var ending := PlayFrom(world, policy, limits, first, state).ending;
      ending.Exhausted? && ending.last.None? <==>
        state.last.None? && !WithinBudget(world, limits, |state.turns|, state.tokens)
    decreases limits.maxSteps - |state.turns|
  {
    if WithinBudget(world, limits, |state.turns|, state.tokens) {
      match world.converse(|state.turns|, View(policy, first, state.turns))
      case Replied(reply) =>
        if reply.wantsTools && Tools(reply.content) != [] {
          UnboundOnlyAtStart(world, policy, limits, first, Next(world, state, reply));
        }
      case _ =>
    }
  }
}
