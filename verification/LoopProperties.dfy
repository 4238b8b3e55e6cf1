/**
 * What holds at every call of the model in every run of the agentic loop: the Converse protocol,
 * the budgets, which turns are verbatim and which summarized, and how long each text can be
 * (src/core/agentic_loop.py:353-375, 441-535; src/core/truncation.py:217-296).
 */
module LoopProperties {
  import opened Basics
  import opened Summary
  import opened Transcript
  import opened Trimming
  import opened ContextView
  import opened AgenticLoop
  import opened StreamingLoop

  /** A run that starts with `base` turns done: exchange `i` happens within budget, sends the
      view of the turns done by then, and turn `i` is what the model's reply made of it. */
  ghost predicate Recorded(world: World, policy: Policy, limits: Limits, first: Message, play: Play, base: nat, i: nat)
    requires i < |play.log|
  {
    && base + i <= |play.turns|
    && base + i < limits.maxSteps
    && world.elapsedMs(base + i) < limits.maxDurationMs
    && play.log[i].sent == View(policy, first, play.turns[..base + i])
    && (base + i < |play.turns| ==>
          && play.log[i].response.Replied?
          && Tools(play.log[i].response.reply.content) != []
          && play.turns[base + i] == TurnOf(world, base + i, play.log[i].response.reply.content))
  }

  ghost predicate AllRecorded(world: World, policy: Policy, limits: Limits, first: Message, play: Play, base: nat)
  {
    forall i: nat {:trigger Recorded(world, policy, limits, first, play, base, i)} ::
      i < |play.log| ==> Recorded(world, policy, limits, first, play, base, i)
  }

  lemma RecordedMore(world: World, policy: Policy, limits: Limits, first: Message, exchange: Exchange, rest: Play,
                     base: nat)
    requires AllRecorded(world, policy, limits, first, rest, base + 1)
    requires Recorded(world, policy, limits, first, After([exchange], rest), base, 0)
    ensures AllRecorded(world, policy, limits, first, After([exchange], rest), base)
  {
    var play := After([exchange], rest);
    forall i: nat | i < |play.log|
      ensures Recorded(world, policy, limits, first, play, base, i)
    {
      if i > 0 {
        assert play.log[i] == rest.log[i - 1];
        assert Recorded(world, policy, limits, first, rest, base + 1, i - 1);
      }
    }
  }

  lemma {:induction false} RunIsRecorded(world: World, policy: Policy, limits: Limits, first: Message, state: State)
    ensures Recording(world, policy, limits, first, state, PlayFrom(world, policy, limits, first, state))
    decreases limits.maxSteps - |state.turns|
  {
    var base := |state.turns|;
    if WithinBudget(world, limits, base, state.tokens) {
      var messages := View(policy, first, state.turns);
      var response := world.converse(base, messages);
      if response.Replied? && response.reply.wantsTools && Tools(response.reply.content) != [] {
        var next := Next(world, state, response.reply);
        RunIsRecorded(world, policy, limits, first, next);
        TurnIsRecorded(world, policy, limits, first, state, response.reply,
                       PlayFrom(world, policy, limits, first, next));
      } else {
        assert state.turns[..base] == state.turns;
      }
    }
  }

  /** The play of a run that starts in `state` begins with the turns done by then. */
  ghost predicate Recording(world: World, policy: Policy, limits: Limits, first: Message, state: State, play: Play)
  {
    && |state.turns| <= |play.turns| && play.turns[..|state.turns|] == state.turns
    && |play.log| == |play.turns| - |state.turns| + (if play.ending.Exhausted? then 0 else 1)
    && AllRecorded(world, policy, limits, first, play, |state.turns|)
  }

  lemma TurnIsRecorded(world: World, policy: Policy, limits: Limits, first: Message, state: State, reply: Reply,
                       rest: Play)
    requires WithinBudget(world, limits, |state.turns|, state.tokens) && Tools(reply.content) != []
    requires Recording(world, policy, limits, first, Next(world, state, reply), rest)
    ensures var base, tools := |state.turns|, Tools(reply.content);
      var exchange := Exchange(View(policy, first, state.turns), Replied(reply), Calls(world, base, tools, |tools|));
      Recording(world, policy, limits, first, state, After([exchange], rest))
  {
    var base, tools := |state.turns|, Tools(reply.content);
    var exchange := Exchange(View(policy, first, state.turns), Replied(reply), Calls(world, base, tools, |tools|));
    TurnsExtend(rest.turns, state.turns, TurnOf(world, base, reply.content));
    RecordedMore(world, policy, limits, first, exchange, rest, base);
  }

  lemma TurnsExtend(all: seq<Turn>, turns: seq<Turn>, turn: Turn)
    requires |turns| < |all| && all[..|turns| + 1] == turns + [turn]
    ensures all[..|turns|] == turns && all[|turns|] == turn
  {
  }

  /** The account of a whole run. */
  lemma WholeRun(world: World, policy: Policy, limits: Limits, first: Message)
    ensures var play := PlayOf(world, policy, limits, first);
      && |play.log| == |play.turns| + (if play.ending.Exhausted? then 0 else 1)
      && AllRecorded(world, policy, limits, first, play, 0)
  {
    RunIsRecorded(world, policy, limits, first, START);
  }

  lemma TurnsAreGood(world: World, policy: Policy, limits: Limits, first: Message)
    requires first.role == User
    ensures GoodTurns(first, PlayOf(world, policy, limits, first).turns)
  {
    var play := PlayOf(world, policy, limits, first);
    WholeRun(world, policy, limits, first);
    forall t | 0 <= t < |play.turns|
      ensures Answers(play.turns[t].assistant, play.turns[t].results)
    {
      assert Recorded(world, policy, limits, first, play, 0, t);
      TurnAnswers(world, t, play.log[t].response.reply.content);
    }
  }

  /** At every call of the model the list alternates, is 2k + 1 long, and answers every tool use
      in the very next message, whatever became of the tools and however often it was trimmed. */
  lemma EveryCallObeysProtocol(world: World, policy: Policy, limits: Limits, first: Message, k: nat)
    requires first.role == User && k < |PlayOf(world, policy, limits, first).log|
    ensures var sent := PlayOf(world, policy, limits, first).log[k].sent;
      Protocol(sent) && |sent| == 2 * k + 1 && sent[0] == first
  {
    var play := PlayOf(world, policy, limits, first);
    WholeRun(world, policy, limits, first);
    TurnsAreGood(world, policy, limits, first);
    assert Recorded(world, policy, limits, first, play, 0, k);
    ViewKeepsProtocol(policy, first, play.turns[..k]);
  }

  /** What the replies of a log cost in tokens. */
  function Spent(log: seq<Exchange>): int
  {
    if log == [] then 0
    else (if log[0].response.Replied? then log[0].response.reply.tokens else 0) + Spent(log[1..])
  }

  lemma {:induction false} TokensInBudget(world: World, policy: Policy, limits: Limits, first: Message, state: State,
                                          k: nat)
    requires k < |PlayFrom(world, policy, limits, first, state).log|
    ensures state.tokens + Spent(PlayFrom(world, policy, limits, first, state).log[..k]) < limits.maxTokens
    decreases k
  {
    if k == 0 {
    } else {
      var log := PlayFrom(world, policy, limits, first, state).log;
      var next := Next(world, state, log[0].response.reply);
      TokensInBudget(world, policy, limits, first, next, k - 1);
      assert log[..k][1..] == PlayFrom(world, policy, limits, first, next).log[..k - 1];
    }
  }

  /** The budgets bound every run: at most maxSteps calls, each begun within the time limit and
      before the replies so far have used up the tokens. */
  lemma BudgetsHold(world: World, policy: Policy, limits: Limits, first: Message)
    ensures var play := PlayOf(world, policy, limits, first);
      && |play.log| <= Max(0, limits.maxSteps)
      && forall k :: 0 <= k < |play.log| ==>
          world.elapsedMs(k) < limits.maxDurationMs && Spent(play.log[..k]) < limits.maxTokens
  {
    var play := PlayOf(world, policy, limits, first);
    WholeRun(world, policy, limits, first);
    forall k: nat | k < |play.log|
      ensures k < limits.maxSteps && world.elapsedMs(k) < limits.maxDurationMs
      ensures Spent(play.log[..k]) < limits.maxTokens
    {
      assert Recorded(world, policy, limits, first, play, 0, k);
      TokensInBudget(world, policy, limits, first, START, k);
    }
    if play.log != [] {
      assert Recorded(world, policy, limits, first, play, 0, |play.log| - 1);
    }
  }

  /** What call `k` shows of turn `t`: the assistant's message as it was, and its results
      summarized once for every call since the turn left the newest keep + 1. */
  lemma TurnAsSent(world: World, policy: Policy, limits: Limits, first: Message, k: nat, t: nat)
    requires first.role == User && k < |PlayOf(world, policy, limits, first).log| && 1 <= t <= k
    ensures var play := PlayOf(world, policy, limits, first);
      && t <= |play.turns| && |play.log[k].sent| == 2 * k + 1
      && play.log[k].sent[2 * t - 1] == Message(Assistant, play.turns[t - 1].assistant)
      && play.log[k].sent[2 * t] == Message(User, Aged(policy.summarize, play.turns[t - 1], Age(policy, k, t)))
      && (t + Max(policy.keep, 1) >= k ==> play.log[k].sent[2 * t].content == play.turns[t - 1].results)
  {
    var play := PlayOf(world, policy, limits, first);
    WholeRun(world, policy, limits, first);
    assert Recorded(world, policy, limits, first, play, 0, k);
    ViewPlaces(policy, first, play.turns[..k], t);
  }

  /** Results summarized `n` times over. */
  function Again(summarize: Summarizer, assistant: seq<Content>, results: seq<Content>, n: nat): seq<Content>
  {
    if n == 0 then results else SummarizeParts(summarize, assistant, Again(summarize, assistant, results, n - 1))
  }

  lemma {:induction false} AgedAgain(summarize: Summarizer, turn: Turn, age: nat, n: nat)
    ensures Again(summarize, turn.assistant, Aged(summarize, turn, age), n) == Aged(summarize, turn, age + n)
  {
    if n == 0 {
    } else {
      AgedAgain(summarize, turn, age, n - 1);
    }
  }

  /** No call restores what an earlier one trimmed: the results shown at a later call are those
      shown before, summarized again, and once more for every call between if the turn has left
      the newest `keep`. */
  lemma NeverRestored(world: World, policy: Policy, limits: Limits, first: Message, k: nat, later: nat, t: nat)
    requires first.role == User && 1 <= t <= k <= later < |PlayOf(world, policy, limits, first).log|
    ensures var log, again := PlayOf(world, policy, limits, first).log, Age(policy, later, t) - Age(policy, k, t);
      && |log[k].sent| == 2 * k + 1 && |log[later].sent| == 2 * later + 1 && again >= 0
      && log[later].sent[2 * t].content
        == Again(policy.summarize, log[k].sent[2 * t - 1].content, log[k].sent[2 * t].content, again)
      && (policy.enabled && t + Max(policy.keep, 1) <= k ==> again == later - k)
  {
    TurnAsSent(world, policy, limits, first, k, t);
    TurnAsSent(world, policy, limits, first, later, t);
    var turn := PlayOf(world, policy, limits, first).turns[t - 1];
    AgedAgain(policy.summarize, turn, Age(policy, k, t), Age(policy, later, t) - Age(policy, k, t));
  }

  // ----- what becomes of raw tool output -----

  /** The same world but for what tools put out before it is screened. */
  ghost predicate SameButRaw(a: World, b: World)
  {
    && b == a.(callTool := b.callTool)
    && forall step, index, adapter, tool ::
      Screened(a, step, index, adapter, tool) == Screened(b, step, index, adapter, tool)
  }

  lemma SameTurn(a: World, b: World, step: nat, content: seq<Block>)
    requires SameButRaw(a, b)
    ensures TurnOf(a, step, content) == TurnOf(b, step, content)
  {
    var tools := Tools(content);
    forall i: nat | i < |tools|
      ensures ResultPart(a, step, i, tools[i]) == ResultPart(b, step, i, tools[i])
    {
    }
    assert Results(a, step, tools, |tools|) == Results(b, step, tools, |tools|);
  }

  lemma {:induction false} SameCalls(a: World, b: World, step: nat, tools: seq<Block>, n: nat)
    requires SameButRaw(a, b) && n <= |tools| && forall t :: t in tools ==> t.ToolUse?
    ensures Calls(a, step, tools, n) == Calls(b, step, tools, n)
    ensures Unfulfilled(a, step, tools, n) == Unfulfilled(b, step, tools, n)
  {
    if n == 0 {
    } else {
      SameCalls(a, b, step, tools, n - 1);
      assert FateOf(a, step, n - 1, tools[n - 1]) == FateOf(b, step, n - 1, tools[n - 1]);
    }
  }

  /** Tool output reaches the model, and decides what a run does, only through the screen: two
      worlds whose screened outputs agree have the same run, whatever the raw outputs were. */
  lemma {:induction false} OnlyScreenedOutput(a: World, b: World, policy: Policy, limits: Limits, first: Message,
                                              state: State)
    requires SameButRaw(a, b)
    ensures PlayFrom(a, policy, limits, first, state) == PlayFrom(b, policy, limits, first, state)
    decreases limits.maxSteps - |state.turns|
  {
    var step := |state.turns|;
    if WithinBudget(a, limits, step, state.tokens) {
      match a.converse(step, View(policy, first, state.turns))
      case Replied(reply) =>
        var tools := Tools(reply.content);
        if reply.wantsTools && tools != [] {
          SameTurn(a, b, step, reply.content);
          SameCalls(a, b, step, tools, |tools|);
          OnlyScreenedOutput(a, b, policy, limits, first, Next(a, state, reply));
        }
      case _ =>
    }
  }

  /** And so does the trace that is shown to the user. */
  lemma OnlyScreenedTrace(a: World, b: World, policy: Policy, limits: Limits, first: Message)
    requires SameButRaw(a, b)
    ensures EventsOf(a, PlayOf(a, policy, limits, first)) == EventsOf(b, PlayOf(b, policy, limits, first))
  {
    OnlyScreenedOutput(a, b, policy, limits, first, START);
    SameTrace(a, b, PlayOf(a, policy, limits, first).log);
  }

  lemma {:induction false} SameTrace(a: World, b: World, log: seq<Exchange>)
    requires SameButRaw(a, b)
    ensures Trace(a, log) == Trace(b, log)
  {
    if log == [] {
    } else {
      var n := |log| - 1;
      SameTrace(a, b, log[..n]);
      if log[n].response.Replied? {
        var tools := Tools(log[n].response.reply.content);
        SameToolEvents(a, b, n, tools, |tools|);
      }
    }
  }

  lemma {:induction false} SameToolEvents(a: World, b: World, step: nat, tools: seq<Block>, n: nat)
    requires SameButRaw(a, b) && n <= |tools| && forall t :: t in tools ==> t.ToolUse?
    ensures ToolEvents(a, step, tools, n) == ToolEvents(b, step, tools, n)
  {
    if n == 0 {
    } else {
      SameToolEvents(a, b, step, tools, n - 1);
      assert Brief(a, step, n - 1, tools[n - 1]) == Brief(b, step, n - 1, tools[n - 1]);
    }
  }

  // ----- how long a text can be -----

  /** Limits on text lengths: of tool names, of screened outputs, of what is left of an output
      after truncation, of a summary, and of any text that is summarized. */
  datatype Caps = Caps(name: nat, output: nat, truncated: nat, summary: nat, text: nat)

  /** A text that cannot be taken for a JSON object, and its length. */
  ghost predicate TextFits(text: string, cap: nat)
  {
    text != [] && (text[0] == '<' || text[0] == '[') && |text| <= cap
  }

  function VerbatimCap(world: World, caps: Caps): nat
  {
    77 + caps.name + caps.truncated + |world.resultFraming|
  }

  /** Tools, truncation and summaries respect the limits. */
  ghost predicate Respects(world: World, policy: Policy, caps: Caps)
  {
    && (forall step, index, adapter, tool :: |Screened(world, step, index, adapter, tool)| <= caps.output)
    && (forall text {:trigger world.truncate(text)} :: |text| <= caps.output ==>
        |world.truncate(text)| <= caps.truncated)
    && (forall name, args, text {:trigger policy.summarize(name, args, text)} ::
          |name| <= caps.name && TextFits(text, caps.text) ==>
            TextFits(policy.summarize(name, args, text), caps.summary))
    && |UNKNOWN_TOOL.0| <= caps.name && caps.summary <= caps.text && VerbatimCap(world, caps) <= caps.text
  }

  ghost predicate NamesFit(assistant: seq<Content>, limit: nat)
  {
    forall i :: 0 <= i < |assistant| && assistant[i].ToolUsePart? ==> |assistant[i].name| <= limit
  }

  /** One text within the cap. */
  ghost predicate PartFits(part: Content, cap: nat)
  {
    && part.ToolResultPart? && |part.items| == 1
    && part.items[0].TextItem? && TextFits(part.items[0].text, cap)
  }

  ghost predicate ResultsFit(results: seq<Content>, cap: nat)
  {
    forall i :: 0 <= i < |results| ==> PartFits(results[i], cap)
  }

  lemma FreshTextFits(world: World, policy: Policy, caps: Caps, step: nat, index: nat, tool: Block)
    requires Respects(world, policy, caps) && tool.ToolUse? && |tool.name| <= caps.name
    ensures TextFits(ResultText(world, step, index, tool), VerbatimCap(world, caps))
  {
  }

  lemma {:induction false} ToolsHaveParts(content: seq<Block>, i: nat)
    requires i < |Tools(content)|
    ensures ToolUsePart(Tools(content)[i].id, Tools(content)[i].name, Tools(content)[i].args) in AssistantParts(content)
  {
    var n := |content| - 1;
    if i < |Tools(content[..n])| {
      ToolsHaveParts(content[..n], i);
    } else {
      assert AssistantParts(content)[|AssistantParts(content[..n])|] == PartOf(content[n])[0];
    }
  }

  lemma FreshResultsFit(world: World, policy: Policy, caps: Caps, step: nat, content: seq<Block>)
    requires Respects(world, policy, caps) && NamesFit(AssistantParts(content), caps.name)
    ensures ResultsFit(TurnOf(world, step, content).results, VerbatimCap(world, caps))
  {
    var tools := Tools(content);
    forall i: nat | i < |tools|
      ensures TextFits(ResultText(world, step, i, tools[i]), VerbatimCap(world, caps))
    {
      ToolsHaveParts(content, i);
      FreshTextFits(world, policy, caps, step, i, tools[i]);
    }
  }

  lemma {:induction false} PairNameFits(assistant: seq<Content>, id: string, limit: nat)
    requires NamesFit(assistant, limit)
    ensures FindToolUse(assistant, id).Some? ==> |FindToolUse(assistant, id).value.0| <= limit
  {
    if assistant == [] {
    } else {
      assert NamesFit(assistant[1..], limit) by {
        assert forall i :: 0 <= i < |assistant[1..]| ==> assistant[1..][i] == assistant[i + 1];
      }
      PairNameFits(assistant[1..], id, limit);
    }
  }

  lemma SummarizedPartFits(world: World, policy: Policy, caps: Caps, assistant: seq<Content>, part: Content)
    requires Respects(world, policy, caps) && NamesFit(assistant, caps.name) && PartFits(part, caps.text)
    ensures PartFits(SummarizePart(policy.summarize, assistant, part), caps.summary)
  {
    var pair := PairIn(assistant, part.id);
    PairNameFits(assistant, part.id, caps.name);
    var after := SummarizePart(policy.summarize, assistant, part);
    assert after.items[0] == SummarizeItem(policy.summarize, pair, part.items[0]);
  }

  lemma ResultsFitMore(results: seq<Content>, cap: nat, more: nat)
    requires ResultsFit(results, cap) && cap <= more
    ensures ResultsFit(results, more)
  {
  }

  /** However often it is summarized, an aged result stays within the summary's cap: a summary
      can be summarized within the same cap again. */
  lemma {:induction false} AgedFits(world: World, policy: Policy, caps: Caps, turn: Turn, age: nat)
    requires Respects(world, policy, caps) && NamesFit(turn.assistant, caps.name)
    requires ResultsFit(turn.results, VerbatimCap(world, caps))
    ensures ResultsFit(Aged(policy.summarize, turn, age), if age == 0 then VerbatimCap(world, caps) else caps.summary)
  {
    if age == 0 {
    } else {
      AgedFits(world, policy, caps, turn, age - 1);
      var before := Aged(policy.summarize, turn, age - 1);
      ResultsFitMore(before, if age == 1 then VerbatimCap(world, caps) else caps.summary, caps.text);
      forall i | 0 <= i < |before|
        ensures PartFits(SummarizeParts(policy.summarize, turn.assistant, before)[i], caps.summary)
      {
        SummarizedPartFits(world, policy, caps, turn.assistant, before[i]);
      }
    }
  }

  /** Every tool-result text the model is ever sent is bounded: in the newest keep + 1 turns by
      the verbatim cap, in all older turns by the summary cap. */
  lemma ContextFits(world: World, policy: Policy, limits: Limits, first: Message, caps: Caps, k: nat, t: nat)
    requires first.role == User && k < |PlayOf(world, policy, limits, first).log| && 1 <= t <= k
    requires Respects(world, policy, caps)
    requires var log := PlayOf(world, policy, limits, first).log;
      forall i :: 0 <= i < |log| && log[i].response.Replied? ==>
        NamesFit(AssistantParts(log[i].response.reply.content), caps.name)
    ensures var sent, trimmed :=
      PlayOf(world, policy, limits, first).log[k].sent, policy.enabled && t + Max(policy.keep, 1) < k;
      2 * t < |sent| && ResultsFit(sent[2 * t].content, if trimmed then caps.summary else VerbatimCap(world, caps))
  {
    var play := PlayOf(world, policy, limits, first);
    WholeRun(world, policy, limits, first);
    TurnAsSent(world, policy, limits, first, k, t);
    assert Recorded(world, policy, limits, first, play, 0, t - 1);
    FreshResultsFit(world, policy, caps, t - 1, play.log[t - 1].response.reply.content);
    AgedFits(world, policy, caps, play.turns[t - 1], Age(policy, k, t));
  }

  // ----- the source's own truncation and summaries -----

  ghost predicate SourceTexts(world: World, policy: Policy, codec: Codec, maxResultChars: nat)
  {
    && Sane(codec)
    && (forall text :: world.truncate(text) == TruncateWithMarker(codec, text, maxResultChars))
    && (forall name, args, text :: policy.summarize(name, args, text) == Summarize(codec, name, args, text))
  }

  /** The caps for the source's texts, given the longest tool name and tool output. */
  function SourceCaps(world: World, maxResultChars: nat, name: nat, output: nat): Caps
  {
    var truncated := 50 + maxResultChars + |Decimal(maxResultChars)| + |Decimal(output)|;
    var text := 2 * (577 + name + truncated + |world.resultFraming|);
    Caps(name, output, truncated, 495 + name + |Decimal(text)|, text)
  }

  lemma {:induction false} DecimalIsShort(n: nat)
    ensures |Decimal(n)| <= 1 + n / 10
  {
    if n < 10 {
    } else {
      DecimalIsShort(n / 10);
    }
  }

  lemma SourceSummaryFits(codec: Codec, name: string, args: string, text: string, limit: nat, bound: nat)
    requires Sane(codec) && TextFits(text, bound) && |name| <= limit
    ensures TextFits(Summarize(codec, name, args, text), 495 + limit + |Decimal(bound)|)
  {
    assert !StartsWith(Strip(text), '{') by {
      StripKeepsFirst(text);
    }
    SummaryFits(codec, name, args, text, bound);
  }

  /** The source's truncation and summaries respect the caps, so ContextFits holds of it with
      explicit numbers. */
  lemma SourceRespectsCaps(world: World, policy: Policy, codec: Codec, maxResultChars: nat, name: nat, output: nat)
    requires SourceTexts(world, policy, codec, maxResultChars) && name >= 7
    requires forall step, index, adapter, tool :: |Screened(world, step, index, adapter, tool)| <= output
    ensures Respects(world, policy, SourceCaps(world, maxResultChars, name, output))
  {
    var caps := SourceCaps(world, maxResultChars, name, output);
    CapsAreOrdered(world, maxResultChars, name, output);
    forall text: string | |text| <= output
      ensures |world.truncate(text)| <= caps.truncated
    {
      TruncateFits(codec, text, maxResultChars, output);
    }
    forall n, args, text | |n| <= caps.name && TextFits(text, caps.text)
      ensures TextFits(policy.summarize(n, args, text), caps.summary)
    {
      SourceSummaryFits(codec, n, args, text, name, caps.text);
    }
  }

  lemma CapsAreOrdered(world: World, maxResultChars: nat, name: nat, output: nat)
    ensures var caps := SourceCaps(world, maxResultChars, name, output);
      caps.summary <= caps.text && VerbatimCap(world, caps) <= caps.text
  {
    DecimalIsShort(SourceCaps(world, maxResultChars, name, output).text);
  }
}
