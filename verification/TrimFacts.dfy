/**
 * Which messages a trim rewrites and how, and under which tool's name the loop summarizes a result
 * (src/core/truncation.py:217-324; src/core/agentic_loop.py:375, 441-533).
 */
module TrimFacts {
  import opened Basics
  import opened Transcript
  import opened Trimming
  import opened ContextView
  import opened AgenticLoop
  import opened LoopProperties
  import opened AgentFacts

  // ----- which messages are rewritten -----

  lemma {:induction false} TurnsAre(messages: seq<Message>, end: nat)
    requires end <= |messages|
    ensures forall j :: j in ResultTurns(messages, end) <==> 1 <= j < end && IsResultTurn(messages[j])
  {
    if end <= 1 {
    } else {
      TurnsAre(messages, end - 1);
    }
  }

  lemma {:induction false} IncreasingSize(numbers: seq<nat>, elements: set<nat>)
    requires forall j, k :: 0 <= j < k < |numbers| ==> numbers[j] < numbers[k]
    requires forall x :: x in elements <==> x in numbers
    ensures |elements| == |numbers|
  {
    if numbers == [] {
      assert elements == {};
    } else {
      var n := |numbers| - 1;
      var last := numbers[n];
      assert forall x :: x in numbers[..n] <==> x in numbers && x != last;
      IncreasingSize(numbers[..n], elements - {last});
    }
  }

  lemma SizeBehind(turns: seq<nat>, p: nat, later: set<nat>)
    requires p < |turns| && forall j, k :: 0 <= j < k < |turns| ==> turns[j] < turns[k]
    requires forall x :: x in later <==> x in turns && turns[p] < x
    ensures |later| == |turns| - p - 1
  {
    var tail := turns[p + 1..];
    forall x: nat
      ensures x in later <==> x in tail
    {
      if x in later {
        var q: nat :| q < |turns| && turns[q] == x;
        assert q > p && tail[q - p - 1] == x;
      }
      if x in tail {
        var q: nat :| q < |tail| && tail[q] == x;
        assert turns[p + 1 + q] == x;
      }
    }
    IncreasingSize(tail, later);
  }

  /** A message is trimmed if it is followed by at least as many tool-result turns as are kept, and
      one even if none is to be kept, not counting the last two messages. */
  lemma TrimsOlder(messages: seq<Message>, keep: int, i: nat, later: set<nat>)
    requires i < |messages|
    requires forall j: nat :: j in later <==> i < j && j + 2 < |messages| && IsResultTurn(messages[j])
    ensures i in ToTrim(messages, keep) <==>
      1 <= i && i + 2 < |messages| && IsResultTurn(messages[i]) && |later| >= 1 && |later| >= keep
  {
    var end: nat := Max(0, |messages| - 2);
    var turns := ResultTurns(messages, end);
    TurnsAre(messages, end);
    if i in turns {
      var p: nat :| p < |turns| && turns[p] == i;
      assert forall x :: x in later <==> x in turns && turns[p] < x;
      SizeBehind(turns, p, later);
      InFront(turns, p, Max(keep, 1));
    } else {
      assert !(1 <= i && i + 2 < |messages| && IsResultTurn(messages[i]));
    }
  }

  /** An increasing list without its last elements. */
  lemma InFront(turns: seq<nat>, p: nat, n: nat)
    requires p < |turns| && forall j, k :: 0 <= j < k < |turns| ==> turns[j] < turns[k]
    ensures turns[p] in (if |turns| <= n then [] else turns[..|turns| - n]) <==> |turns| - p - 1 >= n
  {
    if |turns| - p - 1 >= n {
      assert turns[..|turns| - n][p] == turns[p];
    }
  }

  /** A block of a message before and after: of a tool result every text is summarized under the name
      and arguments of its tool; ids, flags and everything else stay. */
  ghost predicate IsSummarized(summarize: Summarizer, messages: seq<Message>, i: nat, before: Content, after: Content)
    requires i <= |messages|
  {
    if before.ToolResultPart? then
      var pair := PairedToolUse(messages, i, before.id);
      && after.ToolResultPart? && after.id == before.id && after.error == before.error
      && |after.items| == |before.items|
      && forall k :: 0 <= k < |before.items| ==>
        after.items[k] == if before.items[k].TextItem? then TextItem(summarize(pair.0, pair.1, before.items[k].text))
                          else before.items[k]
    else after == before
  }

  /** What a trim does to each message. */
  lemma TrimsExactly(summarize: Summarizer, messages: seq<Message>, keep: int, i: nat, later: set<nat>)
    requires i < |messages|
    requires forall j: nat :: j in later <==>
      i < j && j + 2 < |messages| && messages[j].role == User
      && exists b :: 0 <= b < |messages[j].content| && messages[j].content[b].ToolResultPart?
    ensures var trimmed := Trimmed(summarize, messages, keep);
      && |trimmed| == |messages| && trimmed[i].role == messages[i].role
      && |trimmed[i].content| == |messages[i].content|
    ensures var trimmed := Trimmed(summarize, messages, keep);
      if 1 <= i && i + 2 < |messages| && messages[i].role == User && |later| >= 1 && |later| >= keep then
        forall b :: 0 <= b < |messages[i].content| ==>
          IsSummarized(summarize, messages, i, messages[i].content[b], trimmed[i].content[b])
      else trimmed[i] == messages[i]
  {
    TrimsOlder(messages, keep, i, later);
    if messages[i].role == User && !IsResultTurn(messages[i]) {
      assert forall b :: 0 <= b < |messages[i].content| ==> !messages[i].content[b].ToolResultPart?;
    }
  }

  // ----- under which tool's name a result is summarized -----

  lemma {:induction false} FoundIsIn(content: seq<Content>, id: string)
    ensures var found := FindToolUse(content, id);
      found.Some? ==> ToolUsePart(id, found.value.0, found.value.1) in content
  {
    if content != [] && !UsesId(content[0], id) {
      FoundIsIn(content[1..], id);
    }
  }

  lemma {:induction false} PartsComeFromTools(content: seq<Block>, part: Content)
    requires part in AssistantParts(content) && part.ToolUsePart?
    ensures exists j :: 0 <= j < |Tools(content)| && Tools(content)[j] == ToolUse(part.id, part.name, part.args)
  {
    var n := |content| - 1;
    if part in AssistantParts(content[..n]) {
      PartsComeFromTools(content[..n], part);
      var j :| 0 <= j < |Tools(content[..n])| && Tools(content[..n])[j] == ToolUse(part.id, part.name, part.args);
      assert Tools(content)[j] == Tools(content[..n])[j];
    } else {
      assert part in PartOf(content[n]);
      assert Tools(content)[|Tools(content[..n])|] == content[n];
    }
  }

  /** Where the ids of a response's tool uses are not empty and differ, each id finds its own tool. */
  lemma ToolOfId(content: seq<Block>, i: nat)
    requires i < |Tools(content)| && Tools(content)[i].id != ""
    requires forall j :: 0 <= j < |Tools(content)| && j != i ==> Tools(content)[j].id != Tools(content)[i].id
    ensures PairIn(AssistantParts(content), Tools(content)[i].id) == (Tools(content)[i].name, Tools(content)[i].args)
  {
    var parts, id := AssistantParts(content), Tools(content)[i].id;
    ToolsHaveParts(content, i);
    FirstUseIsFound(parts, id);
    FoundIsIn(parts, id);
    var k :| 0 <= k < |parts| && parts[k] == ToolUsePart(id, Tools(content)[i].name, Tools(content)[i].args);
    assert UsesId(parts[k], id);
    var found := FindToolUse(parts, id).value;
    PartsComeFromTools(content, ToolUsePart(id, found.0, found.1));
  }

  /** A text summarized again and again under one name and these arguments. */
  function Times(summarize: Summarizer, name: string, args: string, text: string, n: nat): string
  {
    if n == 0 then text else summarize(name, args, Times(summarize, name, args, text, n - 1))
  }

  lemma {:induction false} AgedResult(summarize: Summarizer, turn: Turn, i: nat, part: Content, name: string,
                                      args: string, n: nat)
    requires i < |turn.results| && turn.results[i] == part && part.ToolResultPart?
    requires |part.items| == 1 && part.items[0].TextItem? && PairIn(turn.assistant, part.id) == (name, args)
    ensures Aged(summarize, turn, n)[i]
      == ToolResultPart(part.id, [TextItem(Times(summarize, name, args, part.items[0].text, n))], part.error)
  {
    if n == 0 {
    } else {
      AgedResult(summarize, turn, i, part, name, args, n - 1);
    }
  }

  /** A turn of the loop after `n` summaries. */
  lemma TurnIsSummarized(world: World, summarize: Summarizer, step: nat, content: seq<Block>, i: nat, n: nat)
    requires i < |Tools(content)| && Tools(content)[i].id != ""
    requires forall j :: 0 <= j < |Tools(content)| && j != i ==> Tools(content)[j].id != Tools(content)[i].id
    ensures var tool, results := Tools(content)[i], Aged(summarize, TurnOf(world, step, content), n);
      var runs := world.argsSafe(step, i, tool) && tool.name in world.routes;
      var text :=
        if !world.argsSafe(step, i, tool) then "[" + tool.name + "] blocked: arguments failed guardrail check"
        else if tool.name !in world.routes then "[" + tool.name + "] error: tool not found in any adapter"
        else
          "<tool_result_data tool=\"" + tool.name + "\">\n"
          + world.truncate(world.screen(step, i, world.callTool(step, i, world.routes[tool.name], tool)))
          + world.resultFraming;
      && |results| == |Tools(content)|
      && results[i] == ToolResultPart(tool.id, [TextItem(Times(summarize, tool.name, tool.args, text, n))], !runs)
  {
    var tools, turn := Tools(content), TurnOf(world, step, content);
    assert tools[i] in tools;
    ToolIsAnswered(world, step, tools, |tools|, i);
    ToolOfId(content, i);
    AgedResult(summarize, turn, i, turn.results[i], tools[i].name, tools[i].args, n);
  }

  /** At every call of the model, result `i` of every turn so far is the answer to tool use `i`, once
      summarized under that tool's own name and arguments for every call since the turn left the
      newest `keep`: where the ids of the turn's tool uses are not empty and differ. */
  lemma OutputIsSummarized(world: World, policy: Policy, limits: Limits, first: Message, k: nat, t: nat, i: nat, n: nat)
    requires first.role == User && k < |PlayOf(world, policy, limits, first).log| && 1 <= t <= k
    requires n == if policy.enabled && k > t + policy.keep && k > t + 1 then k - t - Max(policy.keep, 1) else 0
    requires var play := PlayOf(world, policy, limits, first);
      play.log[t - 1].response.Replied? && i < |Tools(play.log[t - 1].response.reply.content)|
    requires var tools := Tools(PlayOf(world, policy, limits, first).log[t - 1].response.reply.content);
      tools[i].id != "" && forall j :: 0 <= j < |tools| && j != i ==> tools[j].id != tools[i].id
    ensures var log := PlayOf(world, policy, limits, first).log;
      var tool := Tools(log[t - 1].response.reply.content)[i];
      var runs := world.argsSafe(t - 1, i, tool) && tool.name in world.routes;
      var text :=
        if !world.argsSafe(t - 1, i, tool) then "[" + tool.name + "] blocked: arguments failed guardrail check"
        else if tool.name !in world.routes then "[" + tool.name + "] error: tool not found in any adapter"
        else
          "<tool_result_data tool=\"" + tool.name + "\">\n"
          + world.truncate(world.screen(t - 1, i, world.callTool(t - 1, i, world.routes[tool.name], tool)))
          + world.resultFraming;
      && |log[k].sent| == 2 * k + 1
      && |log[k].sent[2 * t].content| == |Tools(log[t - 1].response.reply.content)|
      && log[k].sent[2 * t].content[i]
        == ToolResultPart(tool.id, [TextItem(Times(policy.summarize, tool.name, tool.args, text, n))], !runs)
  {
    var play := PlayOf(world, policy, limits, first);
    WholeRun(world, policy, limits, first);
    TurnAsSent(world, policy, limits, first, k, t);
    assert Recorded(world, policy, limits, first, play, 0, t - 1);
    assert n == Age(policy, k, t);
    TurnIsSummarized(world, policy.summarize, t - 1, play.log[t - 1].response.reply.content, i, n);
  }
}
