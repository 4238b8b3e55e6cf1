/**
 * A run of the agentic loop in plain terms (src/core/agentic_loop.py:351-561;
 * src/core/agentic_loop_streaming.py:274-546): which blocks become what, what each tool use is
 * answered with, which calls are made, how a run ends and what is told of it.
 */
module AgentFacts {
  import opened Basics
  import opened Summary
  import opened Transcript
  import opened ContextView
  import opened AgenticLoop
  import opened StreamingLoop
  import opened LoopProperties

  // ----- blocks, in their order -----

  /** The places in a list where something holds, in order. */
  ghost predicate PlacesOf<T>(list: seq<T>, at: seq<nat>, holds: T -> bool)
  {
    && (forall k :: 0 <= k < |at| ==> at[k] < |list| && holds(list[at[k]]))
    && (forall k, m :: 0 <= k < m < |at| ==> at[k] < at[m])
    && (forall i :: 0 <= i < |list| && holds(list[i]) ==> i in at)
  }

  lemma MorePlaces<T>(list: seq<T>, at: seq<nat>, holds: T -> bool) returns (more: seq<nat>)
    requires list != [] && PlacesOf(list[..|list| - 1], at, holds)
    ensures PlacesOf(list, more, holds)
    ensures more == at + if holds(list[|list| - 1]) then [|list| - 1] else []
  {
    var n := |list| - 1;
    more := at + if holds(list[n]) then [n] else [];
    forall i | 0 <= i < |list| && holds(list[i])
      ensures i in more
    {
      if i < n {
        assert holds(list[..n][i]);
        assert i in at;
      } else {
        assert more[|at|] == n;
      }
    }
  }

  /** The tool uses of a response, in order. */
  lemma {:induction false} ToolsInOrder(content: seq<Block>) returns (at: seq<nat>)
    ensures PlacesOf(content, at, (b: Block) => b.ToolUse?)
    ensures |Tools(content)| == |at| && forall k :: 0 <= k < |at| ==> Tools(content)[k] == content[at[k]]
  {
    if content == [] {
      at := [];
    } else {
      at := ToolsInOrder(content[..|content| - 1]);
      at := MorePlaces(content, at, (b: Block) => b.ToolUse?);
    }
  }

  lemma PartsGrow(content: seq<Block>)
    requires content != []
    ensures var n := |content| - 1; var b := content[n];
      AssistantParts(content) == AssistantParts(content[..n]) +
        if b.Text? then [TextPart(b.text)] else if b.ToolUse? then [ToolUsePart(b.id, b.name, b.args)] else []
  {
  }

  /** The assistant's message: every text and every tool use of the response, in order. */
  lemma {:induction false} PartsInOrder(content: seq<Block>) returns (at: seq<nat>)
    ensures PlacesOf(content, at, (b: Block) => b.Text? || b.ToolUse?)
    ensures |AssistantParts(content)| == |at|
    ensures forall k :: 0 <= k < |at| ==>
      var b := content[at[k]];
      AssistantParts(content)[k] == if b.Text? then TextPart(b.text) else ToolUsePart(b.id, b.name, b.args)
  {
    if content == [] {
      at := [];
    } else {
      var n := |content| - 1;
      var before := PartsInOrder(content[..n]);
      at := MorePlaces(content, before, (b: Block) => b.Text? || b.ToolUse?);
      PartsGrow(content);
      forall k | 0 <= k < |at|
        ensures var b := content[at[k]];
          AssistantParts(content)[k] == if b.Text? then TextPart(b.text) else ToolUsePart(b.id, b.name, b.args)
      {
        assert k < |before| ==> content[..n][before[k]] == content[at[k]];
      }
    }
  }

  lemma {:induction false} TextsGrow(content: seq<Block>, b: Block)
    ensures Texts(content + [b]) == Texts(content) + if b.Text? && b.text != "" then [b.text] else []
  {
    if content == [] {
      assert content + [b] == [b] && [b][1..] == [];
    } else {
      TextsGrow(content[1..], b);
      assert (content + [b])[1..] == content[1..] + [b];
    }
  }

  /** The texts of an answer: every text that is not empty, in order. */
  lemma {:induction false} TextsInOrder(content: seq<Block>) returns (at: seq<nat>)
    ensures PlacesOf(content, at, (b: Block) => b.Text? && b.text != "")
    ensures |Texts(content)| == |at|
    ensures forall k :: 0 <= k < |at| ==> Texts(content)[k] == content[at[k]].text
    decreases |content|
  {
    if content == [] {
      at := [];
    } else {
      var n := |content| - 1;
      at := TextsInOrder(content[..n]);
      TextsGrow(content[..n], content[n]);
      assert content[..n] + [content[n]] == content;
      at := MorePlaces(content, at, (b: Block) => b.Text? && b.text != "");
    }
  }

  /** They are joined by line breaks. */
  lemma {:induction false} AnswerJoins(before: seq<string>, after: seq<string>)
    ensures before != [] && after != [] ==> Join("\n", before + after) == Join("\n", before) + "\n" + Join("\n", after)
    ensures |before| == 1 ==> Join("\n", before) == before[0]
    ensures Join("\n", []) == ""
  {
    if |before| <= 1 {
      assert before != [] ==> (before + after)[1..] == after;
    } else {
      AnswerJoins(before[1..], after);
      assert (before + after)[1..] == before[1..] + after;
    }
  }

  // ----- tools -----

  /** What each tool use of a turn is answered with. A tool whose arguments are safe and that has a
      route is called once, through the adapter of its route; what it puts out is screened, then
      truncated, then framed under the tool's name. The others get an error that says why. */
  lemma ToolIsAnswered(world: World, step: nat, tools: seq<Block>, n: nat, i: nat)
    requires i < n <= |tools| && forall b :: b in tools ==> b.ToolUse?
    ensures var tool := tools[i];
      var runs := world.argsSafe(step, i, tool) && tool.name in world.routes;
      var text :=
        if !world.argsSafe(step, i, tool) then "[" + tool.name + "] blocked: arguments failed guardrail check"
        else if tool.name !in world.routes then "[" + tool.name + "] error: tool not found in any adapter"
        else
          "<tool_result_data tool=\"" + tool.name + "\">\n"
          + world.truncate(world.screen(step, i, world.callTool(step, i, world.routes[tool.name], tool)))
          + world.resultFraming;
      Results(world, step, tools, n)[i] == ToolResultPart(tool.id, [TextItem(text)], !runs)
  {
    assert tools[i] in tools;
  }

  predicate Runs(world: World, step: nat, tools: seq<Block>, i: nat)
    requires i < |tools| && tools[i].ToolUse?
  {
    world.argsSafe(step, i, tools[i]) && tools[i].name in world.routes
  }

  /** The calls of a turn, in order: one for each tool use that is safe and has a route. The names of
      the others, in order, are what the turn did not fulfil. */
  lemma {:induction false} CallsInOrder(world: World, step: nat, tools: seq<Block>, n: nat)
      returns (ran: seq<nat>, missed: seq<nat>)
    requires n <= |tools| && forall b :: b in tools ==> b.ToolUse?
    ensures Splits(world, step, tools, n, ran, missed)
    ensures var calls := Calls(world, step, tools, n);
      |calls| == |ran| && forall k :: 0 <= k < |ran| ==>
        calls[k] == ToolCall(step, ran[k], world.routes[tools[ran[k]].name], tools[ran[k]])
    ensures var names := Unfulfilled(world, step, tools, n);
      |names| == |missed| && forall k :: 0 <= k < |missed| ==> names[k] == tools[missed[k]].name
  {
    if n == 0 {
      ran, missed := [], [];
    } else {
      ran, missed := CallsInOrder(world, step, tools, n - 1);
      assert tools[n - 1] in tools;
      if Runs(world, step, tools, n - 1) {
        ran := ran + [n - 1];
      } else {
        missed := missed + [n - 1];
      }
    }
  }

  /** The first `n` tool uses, each with those that ran or with those that did not. */
  ghost predicate Splits(world: World, step: nat, tools: seq<Block>, n: nat, ran: seq<nat>, missed: seq<nat>)
    requires n <= |tools| && forall b :: b in tools ==> b.ToolUse?
  {
    && (forall k :: 0 <= k < |ran| ==> ran[k] < n && tools[ran[k]] in tools && Runs(world, step, tools, ran[k]))
    && (forall k :: 0 <= k < |missed| ==>
          missed[k] < n && tools[missed[k]] in tools && !Runs(world, step, tools, missed[k]))
    && (forall k, m :: 0 <= k < m < |ran| ==> ran[k] < ran[m])
    && (forall k, m :: 0 <= k < m < |missed| ==> missed[k] < missed[m])
    && |ran| + |missed| == n
  }

  // ----- a whole run -----

  /** The exchange at this step of a run with so many completed turns: the model answered the list
      that is logged, and the tool calls are those of the turn; an answer that ends the run makes none. */
  ghost predicate IsTrue(world: World, step: nat, turns: nat, exchange: Exchange)
  {
    && exchange.response == world.converse(step, exchange.sent)
    && exchange.calls ==
      if step < turns && exchange.response.Replied? then
        var tools := Tools(exchange.response.reply.content); Calls(world, step, tools, |tools|)
      else []
  }

  lemma {:induction false} LogIsTrue(world: World, policy: Policy, limits: Limits, first: Message, state: State, i: nat)
    requires i < |PlayFrom(world, policy, limits, first, state).log|
    ensures var play := PlayFrom(world, policy, limits, first, state);
      IsTrue(world, |state.turns| + i, |play.turns|, play.log[i])
    decreases i
  {
    var play := PlayFrom(world, policy, limits, first, state);
    if i == 0 {
      var reply := play.log[0].response;
      if reply.Replied? && reply.reply.wantsTools && Tools(reply.reply.content) != [] {
        TurnsKept(world, policy, limits, first, Next(world, state, reply.reply));
      }
    } else {
      var next := Next(world, state, play.log[0].response.reply);
      assert play.log[i] == PlayFrom(world, policy, limits, first, next).log[i - 1];
      LogIsTrue(world, policy, limits, first, next, i - 1);
    }
  }

  lemma {:induction false} TurnsKept(world: World, policy: Policy, limits: Limits, first: Message, state: State)
    ensures |PlayFrom(world, policy, limits, first, state).turns| >= |state.turns|
    decreases limits.maxSteps - |state.turns|
  {
    if WithinBudget(world, limits, |state.turns|, state.tokens) {
      match world.converse(|state.turns|, View(policy, first, state.turns))
      case Replied(reply) =>
        if reply.wantsTools && Tools(reply.content) != [] {
          TurnsKept(world, policy, limits, first, Next(world, state, reply));
        }
      case _ =>
    }
  }

  /** The names of the tools that were not run, turn by turn. */
  function Missed(world: World, log: seq<Exchange>, step: nat): seq<string>
  {
    if log == [] then []
    else
      (if log[0].response.Replied? then
         var tools := Tools(log[0].response.reply.content); Unfulfilled(world, step, tools, |tools|)
       else [])
      + Missed(world, log[1..], step + 1)
  }

  /** Why a run that began in `state` ended: the model's last word, or the first budget check that
      failed, with what the run had spent and left undone by then. */
  ghost predicate EndsBecause(world: World, limits: Limits, state: State, play: Play)
  {
    match play.ending
    case Answered(content) =>
      play.log != [] && var last := play.log[|play.log| - 1].response;
        last.Replied? && !last.reply.wantsTools && last.reply.content == content
    case NoTools(content) =>
      play.log != [] && var last := play.log[|play.log| - 1].response;
        && last.Replied? && last.reply.wantsTools && last.reply.content == content
        && forall b :: b in content ==> !b.ToolUse?
    case Failed(error) =>
      play.log != [] && play.log[|play.log| - 1].response == Raised(error)
    case Exhausted(step, elapsedMs, tokens, unfulfilled, _) =>
      && step == |play.turns| && elapsedMs == world.elapsedMs(step)
      && tokens == state.tokens + Spent(play.log)
      && unfulfilled == state.unfulfilled + Missed(world, play.log, |state.turns|)
      && (step >= limits.maxSteps || elapsedMs >= limits.maxDurationMs || tokens >= limits.maxTokens)
      && forall i :: 0 <= i < |play.log| ==> var response := play.log[i].response;
           response.Replied? && response.reply.wantsTools && exists b :: b in response.reply.content && b.ToolUse?
  }

  lemma NoToolsMeans(content: seq<Block>)
    ensures Tools(content) == [] <==> forall b :: b in content ==> !b.ToolUse?
  {
    var at := ToolsInOrder(content);
    if Tools(content) == [] {
      forall b | b in content
        ensures !b.ToolUse?
      {
        var i :| 0 <= i < |content| && content[i] == b;
        assert i !in at;
      }
    } else {
      assert content[at[0]] in content;
    }
  }

  lemma EndsLater(world: World, limits: Limits, state: State, exchange: Exchange, next: State, rest: Play)
    requires exchange.response.Replied? && exchange.response.reply.wantsTools
    requires Tools(exchange.response.reply.content) != [] && next == Next(world, state, exchange.response.reply)
    requires EndsBecause(world, limits, next, rest)
    ensures EndsBecause(world, limits, state, After([exchange], rest))
  {
    var play := After([exchange], rest);
    NoToolsMeans(exchange.response.reply.content);
    assert play.log[1..] == rest.log && play.log[0] == exchange;
    if rest.log != [] {
      assert play.log[|play.log| - 1] == rest.log[|rest.log| - 1];
    }
    if rest.ending.Exhausted? {
      forall i | 0 <= i < |play.log|
        ensures var response := play.log[i].response;
          response.Replied? && response.reply.wantsTools && exists b :: b in response.reply.content && b.ToolUse?
      {
        if i > 0 {
          assert play.log[i] == rest.log[i - 1];
        }
      }
    }
  }

  lemma {:induction false} RunEndsBecause(world: World, policy: Policy, limits: Limits, first: Message, state: State)
    ensures EndsBecause(world, limits, state, PlayFrom(world, policy, limits, first, state))
    decreases limits.maxSteps - |state.turns|
  {
    var step := |state.turns|;
    if WithinBudget(world, limits, step, state.tokens) {
      var messages := View(policy, first, state.turns);
      match world.converse(step, messages)
      case Replied(reply) =>
        var tools := Tools(reply.content);
        NoToolsMeans(reply.content);
        if reply.wantsTools && tools != [] {
          var next := Next(world, state, reply);
          RunEndsBecause(world, policy, limits, first, next);
          EndsLater(world, limits, state, Exchange(messages, Replied(reply), Calls(world, step, tools, |tools|)), next,
                    PlayFrom(world, policy, limits, first, next));
        }
      case _ =>
    }
  }

  // ----- what is sent, returned and told -----

  /** While a turn is not trimmed, every call of the model carries what its tools put out, screened,
      truncated and framed, or why they were not run, under the ids of the tool uses and in order. */
  lemma OutputIsSent(world: World, policy: Policy, limits: Limits, first: Message, k: nat, t: nat, i: nat)
    requires first.role == User && k < |PlayOf(world, policy, limits, first).log| && 1 <= t <= k
    requires !policy.enabled || t + Max(policy.keep, 1) >= k
    requires var play := PlayOf(world, policy, limits, first);
      play.log[t - 1].response.Replied? && i < |Tools(play.log[t - 1].response.reply.content)|
    ensures var log := PlayOf(world, policy, limits, first).log;
      var tool := Tools(log[t - 1].response.reply.content)[i];
      var runs := world.argsSafe(t - 1, i, tool) && tool.name in world.routes;
      var text :=
        if !world.argsSafe(t - 1, i, tool) then "[" + tool.name + "] blocked: arguments failed guardrail check"
        else if tool.name !in world.routes then "[" + tool.name + "] error: tool not found in any adapter"
        else
          "<tool_result_data tool=\"" + tool.name + "\">\n"
          + world.truncate(world.screen(t - 1, i, world.callTool(t - 1, i, world.routes[tool.name], tool)))
          + world.resultFraming;
      && |log[k].sent| == 2 * k + 1
      && |log[k].sent[2 * t].content| == |Tools(log[t - 1].response.reply.content)|
      && log[k].sent[2 * t].content[i] == ToolResultPart(tool.id, [TextItem(text)], !runs)
  {
    var play := PlayOf(world, policy, limits, first);
    WholeRun(world, policy, limits, first);
    TurnAsSent(world, policy, limits, first, k, t);
    assert Recorded(world, policy, limits, first, play, 0, t - 1);
    var tools := Tools(play.log[t - 1].response.reply.content);
    assert tools[i] in tools;
    ToolIsAnswered(world, t - 1, tools, |tools|, i);
  }

  /** So what a tool put out shows: if it differs, screened and truncated, the answer differs. */
  lemma OutputShows(a: World, b: World, step: nat, tools: seq<Block>, i: nat)
    requires i < |tools| && (forall t :: t in tools ==> t.ToolUse?) && a.resultFraming == b.resultFraming
    requires a.argsSafe(step, i, tools[i]) && tools[i].name in a.routes
    requires b.argsSafe(step, i, tools[i]) && tools[i].name in b.routes
    requires var name := tools[i].name;
      a.truncate(a.screen(step, i, a.callTool(step, i, a.routes[name], tools[i])))
        != b.truncate(b.screen(step, i, b.callTool(step, i, b.routes[name], tools[i])))
    ensures Results(a, step, tools, |tools|)[i] != Results(b, step, tools, |tools|)[i]
  {
    ToolIsAnswered(a, step, tools, |tools|, i);
    ToolIsAnswered(b, step, tools, |tools|, i);
    var name := tools[i].name;
    MiddleShows("<tool_result_data tool=\"" + name + "\">\n",
                a.truncate(a.screen(step, i, a.callTool(step, i, a.routes[name], tools[i]))),
                b.truncate(b.screen(step, i, b.callTool(step, i, b.routes[name], tools[i]))), a.resultFraming);
  }

  lemma MiddleShows(front: string, u: string, v: string, back: string)
    ensures front + u + back == front + v + back ==> u == v
  {
    if front + u + back == front + v + back {
      assert |front + u + back| == |front| + |u| + |back| && |front + v + back| == |front| + |v| + |back|;
      assert u == (front + u + back)[|front|..|front| + |u|];
      assert v == (front + v + back)[|front|..|front| + |v|];
    }
  }

  /** The result by the last response of a run: its text on an answer, its error if it raised, its
      text and a note out of budget, and the unbound name if there was none. */
  ghost predicate IsLastWord(world: World, policy: Policy, first: Message, play: Play, result: LoopResult)
  {
    if play.log == [] then result == UnboundContent
    else
      var last := play.log[|play.log| - 1].response;
      if last.Raised? then result == Error(last.error)
      else
        var text := AnswerText(last.reply.content);
        && result.Answer?
        && if play.ending.Exhausted?
           then SamePartial(world, play, result.text, FinalText(EventsOf(world, play)))
           else (&& result.messages == View(policy, first, play.turns)
                 && result.text == if text == "" && last.reply.wantsTools then "(no response)" else text)
  }

  lemma ReturnsLastWord(world: World, policy: Policy, limits: Limits, first: Message)
    ensures var play := PlayOf(world, policy, limits, first);
      IsLastWord(world, policy, first, play, LoopResultOf(world, policy, first, play.turns, play.ending))
  {
    var play := PlayOf(world, policy, limits, first);
    RunEndsBecause(world, policy, limits, first, START);
    LastIsLogged(world, policy, limits, first, START);
    UnboundOnlyAtStart(world, policy, limits, first, START);
    if play.ending.Exhausted? && play.log != [] {
      BothDegradeAlike(world, policy, limits, first);
    }
  }

  /** Thinking events: one for each text of the kind that is not empty, in order. */
  lemma {:induction false} ThoughtsInOrder(content: seq<Block>, reasoning: bool) returns (at: seq<nat>)
    ensures PlacesOf(content, at, (b: Block) => (if reasoning then b.Reasoning? else b.Text?) && b.text != "")
    ensures |Thoughts(content, reasoning)| == |at|
    ensures forall k :: 0 <= k < |at| ==> Thoughts(content, reasoning)[k] == Thinking(content[at[k]].text)
  {
    if content == [] {
      at := [];
    } else {
      at := ThoughtsInOrder(content[..|content| - 1], reasoning);
      at := MorePlaces(content, at, (b: Block) => (if reasoning then b.Reasoning? else b.Text?) && b.text != "");
    }
  }

  /** A tool use is told as a call and, right after it, its result: a digest of the screened output,
      or why it was not run. */
  lemma ToolIsTold(world: World, step: nat, tools: seq<Block>, n: nat, i: nat)
    requires i < n <= |tools| && forall b :: b in tools ==> b.ToolUse?
    ensures var tool := tools[i];
      var summary :=
        if !world.argsSafe(step, i, tool) then "blocked by guardrail"
        else if tool.name !in world.routes then "tool not found"
        else world.brief(world.screen(step, i, world.callTool(step, i, world.routes[tool.name], tool)));
      var events := ToolEvents(world, step, tools, n);
      && |events| == 2 * n
      && events[2 * i] == ToolCalled(tool.name, world.display(tool.args))
      && events[2 * i + 1] == ToolResulted(tool.name, summary)
  {
    assert tools[i] in tools;
    if n > 1 {
      if i < n - 1 {
        ToolIsTold(world, step, tools, n - 1, i);
      } else {
        ToolIsTold(world, step, tools, n - 1, 0);
      }
    }
  }

  /** What is told of one call: the model's reasoning, its narration if it wants tools, and then the
      tools; of a call that raised, nothing. */
  function ToldOf(world: World, n: nat, response: Response): seq<Event>
  {
    if response.Raised? then []
    else if !response.reply.wantsTools then Thoughts(response.reply.content, true)
    else
      var content := response.reply.content;
      Thoughts(content, true) + Thoughts(content, false) + ToolEvents(world, n, Tools(content), |Tools(content)|)
  }

  /** The trace is told call by call. */
  lemma TurnIsTold(world: World, log: seq<Exchange>, n: nat)
    requires n < |log|
    ensures Trace(world, log[..n + 1]) == Trace(world, log[..n]) + ToldOf(world, n, log[n].response)
  {
    assert log[..n + 1][..n] == log[..n];
  }

  /** An answer is told in pieces of 200 characters, the last of at most 200. */
  lemma {:induction false} ChunksInOrder(text: string, k: nat)
    requires 200 * k < |text|
    ensures k < |Chunks(text)|
    ensures Chunks(text)[k] == FinalChunk(text[200 * k..Min(200 * k + 200, |text|)])
  {
    if k == 0 || |text| <= 200 {
    } else {
      ChunksInOrder(text[200..], k - 1);
      assert text[200..][200 * (k - 1)..Min(200 * k, |text| - 200)] == text[200 * k..Min(200 * k + 200, |text|)];
    }
  }

  /** How the stream ends, by the last response of the run: in pieces on an answer, in one piece
      otherwise, and without a word if the model raised. */
  ghost predicate EndsStream(world: World, play: Play, tail: seq<Event>)
  {
    if play.ending.Exhausted? then |tail| == 2 && tail[0].FinalChunk? && tail[1] == Done("length")
    else if play.log == [] then false
    else
      var last := play.log[|play.log| - 1].response;
      if last.Raised? then tail == []
      else
        var text := AnswerText(last.reply.content);
        if !last.reply.wantsTools then tail == Chunks(text) + [Done("stop")]
        else tail == (if text == "" then [] else [FinalChunk(text)]) + [Done("stop")]
  }

  lemma StreamEndsWith(world: World, policy: Policy, limits: Limits, first: Message) returns (tail: seq<Event>)
    ensures var play := PlayOf(world, policy, limits, first);
      EventsOf(world, play) == Trace(world, play.log) + tail && EndsStream(world, play, tail)
  {
    var play := PlayOf(world, policy, limits, first);
    RunEndsBecause(world, policy, limits, first, START);
    tail := EndingEvents(world, play.ending);
  }
}
