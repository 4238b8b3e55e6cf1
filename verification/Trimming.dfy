/**
 * Context trimming (src/core/truncation.py:217-324): the in-place rewriting of older tool
 * results, its specification, and the closed form that repeated trimming reaches.
 */
module Trimming {
  import opened Basics
  import opened Transcript

  /** Summarizes a tool result, given the tool's name, its arguments and the text. */
  type Summarizer = (string, string, string) -> string

  // ----- pairing -----

  /** The name and arguments of the first tool use with this id. */
  function FindToolUse(content: seq<Content>, id: string): Option<(string, string)>
  {
    if content == [] then None
    else if content[0].ToolUsePart? && content[0].id == id then Some((content[0].name, content[0].args))
    else FindToolUse(content[1..], id)
  }

  const UNKNOWN_TOOL := ("unknown", "{}")

  function PairIn(content: seq<Content>, id: string): (string, string)
  {
    if id == "" then UNKNOWN_TOOL
    else match FindToolUse(content, id) case Some(found) => found case None => UNKNOWN_TOOL
  }

  /** The content of the nearest assistant message before `idx`. */
  function PrecedingAssistant(messages: seq<Message>, idx: nat): seq<Content>
    requires idx <= |messages|
  {
    if idx == 0 then []
    else if messages[idx - 1].role == Assistant then messages[idx - 1].content
    else PrecedingAssistant(messages, idx - 1)
  }

  /** `_find_paired_tool_use`. */
  function PairedToolUse(messages: seq<Message>, idx: nat, id: string): (string, string)
    requires idx <= |messages|
  {
    PairIn(PrecedingAssistant(messages, idx), id)
  }

  predicate UsesId(part: Content, id: string) { part.ToolUsePart? && part.id == id }

  /** `n` is the nearest assistant message before `idx`. */
  ghost predicate Nearest(messages: seq<Message>, idx: nat, n: nat)
    requires idx <= |messages|
  {
    n < idx && messages[n].role == Assistant && forall q :: n < q < idx ==> messages[q].role != Assistant
  }

  /** Block `k` is the first tool use with this id. */
  ghost predicate FirstUse(content: seq<Content>, id: string, k: nat)
  {
    k < |content| && UsesId(content[k], id) && forall q :: 0 <= q < k ==> !UsesId(content[q], id)
  }

  ghost predicate NoUse(content: seq<Content>, id: string)
  {
    forall k :: 0 <= k < |content| ==> !UsesId(content[k], id)
  }

  lemma {:induction false} NearestIsPreceding(messages: seq<Message>, idx: nat)
    requires idx <= |messages|
    ensures forall n: nat :: Nearest(messages, idx, n) ==> PrecedingAssistant(messages, idx) == messages[n].content
    ensures (forall q :: 0 <= q < idx ==> messages[q].role != Assistant) ==> PrecedingAssistant(messages, idx) == []
  {
    if idx > 0 && messages[idx - 1].role != Assistant {
      NearestIsPreceding(messages, idx - 1);
      assert forall n: nat :: Nearest(messages, idx, n) ==> Nearest(messages, idx - 1, n);
    }
  }

  lemma {:induction false} FirstUseIsFound(content: seq<Content>, id: string)
    ensures forall k: nat :: FirstUse(content, id, k) ==>
      FindToolUse(content, id) == Some((content[k].name, content[k].args))
    ensures NoUse(content, id) <==> FindToolUse(content, id).None?
  {
    if content == [] || UsesId(content[0], id) {
      assert forall k: nat :: FirstUse(content, id, k) ==> k == 0;
    } else {
      FirstUseIsFound(content[1..], id);
      forall k: nat | FirstUse(content, id, k)
        ensures FindToolUse(content, id) == Some((content[k].name, content[k].args))
      {
        assert k > 0;
        var m: nat := k - 1;
        assert FirstUse(content[1..], id, m);
      }
      if NoUse(content[1..], id) {
        assert forall k :: 0 < k < |content| ==> content[k] == content[1..][k - 1];
      }
    }
  }

  /** A result belongs to the first tool use with its id in the nearest assistant message before it,
      and to no tool exactly if there is none or the id is empty. */
  lemma PairIs(messages: seq<Message>, idx: nat, id: string)
    requires idx <= |messages|
    ensures forall n: nat, k: nat :: id != "" && Nearest(messages, idx, n) && FirstUse(messages[n].content, id, k) ==>
      PairedToolUse(messages, idx, id) == (messages[n].content[k].name, messages[n].content[k].args)
    ensures id == "" ==> PairedToolUse(messages, idx, id) == ("unknown", "{}")
    ensures forall n: nat :: Nearest(messages, idx, n) && NoUse(messages[n].content, id) ==>
      PairedToolUse(messages, idx, id) == ("unknown", "{}")
    ensures (forall q :: 0 <= q < idx ==> messages[q].role != Assistant) ==>
      PairedToolUse(messages, idx, id) == ("unknown", "{}")
  {
    NearestIsPreceding(messages, idx);
    FirstUseIsFound(PrecedingAssistant(messages, idx), id);
  }

  /** The source's search: backwards to the nearest assistant message, then through its blocks. */
  method FindPairedToolUse(messages: seq<Message>, idx: nat, id: string) returns (pair: (string, string))
    requires idx <= |messages|
    ensures pair == PairedToolUse(messages, idx, id)
    ensures forall n: nat, k: nat :: id != "" && Nearest(messages, idx, n) && FirstUse(messages[n].content, id, k) ==>
      pair == (messages[n].content[k].name, messages[n].content[k].args)
    ensures id == "" || (forall q :: 0 <= q < idx ==> messages[q].role != Assistant) ==> pair == ("unknown", "{}")
    ensures forall n: nat :: Nearest(messages, idx, n) && NoUse(messages[n].content, id) ==> pair == ("unknown", "{}")
  {
    PairIs(messages, idx, id);
    if id == "" {
      return UNKNOWN_TOOL;
    }
    var at: nat := idx;
    while at > 0
      invariant at <= idx && PrecedingAssistant(messages, at) == PrecedingAssistant(messages, idx)
    {
      at := at - 1;
      if messages[at].role == Assistant {
        var content := messages[at].content;
        for k := 0 to |content|
          invariant FindToolUse(content[k..], id) == FindToolUse(content, id)
        {
          if content[k].ToolUsePart? && content[k].id == id {
            return (content[k].name, content[k].args);
          }
          assert content[k..][1..] == content[k + 1..];
        }
        assert content[|content|..] == [];
        return UNKNOWN_TOOL;
      }
    }
    return UNKNOWN_TOOL;
  }

  // ----- what one trim does -----

  function SummarizeItem(summarize: Summarizer, pair: (string, string), item: Item): Item
  {
    if item.TextItem? then TextItem(summarize(pair.0, pair.1, item.text)) else item
  }

  /** Only texts inside tool results change; ids and everything else stay. */
  function SummarizePart(summarize: Summarizer, assistant: seq<Content>, part: Content): Content
  {
    if part.ToolResultPart? then
      var pair := PairIn(assistant, part.id);
      var items := seq(|part.items|, i requires 0 <= i < |part.items| =>
                         SummarizeItem(summarize, pair, part.items[i]));
      part.(items := items)
    else part
  }

  function SummarizeParts(summarize: Summarizer, assistant: seq<Content>, parts: seq<Content>): (r: seq<Content>)
    ensures |r| == |parts|
  {
    seq(|parts|, i requires 0 <= i < |parts| => SummarizePart(summarize, assistant, parts[i]))
  }

  predicate IsResultTurn(message: Message)
  {
    message.role == User && exists i :: 0 <= i < |message.content| && message.content[i].ToolResultPart?
  }

  /** The indices of the tool-result turns in messages[1..end], in order. */
  function ResultTurns(messages: seq<Message>, end: nat): (indices: seq<nat>)
    requires end <= |messages|
    ensures forall k :: 0 <= k < |indices| ==> 1 <= indices[k] < end && IsResultTurn(messages[indices[k]])
    ensures forall j, k :: 0 <= j < k < |indices| ==> indices[j] < indices[k]
  {
    if end <= 1 then []
    else ResultTurns(messages, end - 1) + if IsResultTurn(messages[end - 1]) then [end - 1] else []
  }

  /** The turns to trim: all but the last `keep` of those before the final two messages. */
  function ToTrim(messages: seq<Message>, keep: int): (indices: seq<nat>)
    ensures forall k :: 0 <= k < |indices| ==> 1 <= indices[k] < |messages| - 2 && messages[indices[k]].role == User
    ensures forall j, k :: 0 <= j < k < |indices| ==> indices[j] < indices[k]
  {
    var turns := ResultTurns(messages, Max(0, |messages| - 2));
    var effective := Max(keep, 1);
    if |turns| <= effective then [] else turns[..|turns| - effective]
  }

  function TrimmedAt(summarize: Summarizer, messages: seq<Message>, idx: nat): Message
    requires idx < |messages|
  {
    messages[idx].(content := SummarizeParts(summarize, PrecedingAssistant(messages, idx), messages[idx].content))
  }

  function Rewritten(summarize: Summarizer, messages: seq<Message>, indices: seq<nat>): (r: seq<Message>)
    ensures |r| == |messages|
  {
    seq(|messages|, i requires 0 <= i < |messages| =>
      if i in indices then TrimmedAt(summarize, messages, i) else messages[i])
  }

  function Trimmed(summarize: Summarizer, messages: seq<Message>, keep: int): seq<Message>
  {
    Rewritten(summarize, messages, ToTrim(messages, keep))
  }

  /** Rewriting user messages does not move or change the assistant message before any place. */
  lemma {:induction false} AssistantsUnmoved(before: seq<Message>, after: seq<Message>, idx: nat)
    requires |before| == |after| && idx <= |before|
    requires forall i :: 0 <= i < |before| ==>
      after[i] == before[i] || (after[i].role == User && before[i].role == User)
    ensures PrecedingAssistant(after, idx) == PrecedingAssistant(before, idx)
  {
    if idx == 0 {
    } else {
      AssistantsUnmoved(before, after, idx - 1);
    }
  }

  lemma SummarizingKeepsAnswers(summarize: Summarizer, assistant: seq<Content>, nearest: seq<Content>,
                                results: seq<Content>)
    requires Answers(assistant, results)
    ensures Answers(assistant, SummarizeParts(summarize, nearest, results))
  {
  }

  /** Trimming keeps the protocol: it rewrites texts inside results and touches no id, and the
      first message stays as it is. */
  lemma TrimKeepsProtocol(summarize: Summarizer, messages: seq<Message>, keep: int)
    requires Protocol(messages)
    ensures Protocol(Trimmed(summarize, messages, keep))
    ensures Trimmed(summarize, messages, keep)[0] == messages[0]
  {
    var indices := ToTrim(messages, keep);
    var after := Rewritten(summarize, messages, indices);
    assert forall i :: 0 <= i < |after| ==> after[i].role == messages[i].role;
    forall i | 0 <= i < |after| && i % 2 == 1
      ensures Answers(after[i].content, after[i + 1].content)
    {
      assert Answers(messages[i].content, messages[i + 1].content);
      assert i !in indices && after[i] == messages[i];
      if i + 1 in indices {
        SummarizingKeepsAnswers(summarize, messages[i].content, PrecedingAssistant(messages, i + 1),
                                messages[i + 1].content);
      }
    }
  }

  /** The message list of an agentic loop, trimmed in place. */
  class MessageHistory {
    var messages: seq<Message>

    constructor (first: Message)
      ensures messages == [first]
    {
      messages := [first];
    }

    method Append(message: Message)
      modifies this
      ensures messages == old(messages) + [message]
    {
      messages := messages + [message];
    }

    /** `trim_message_history`. */
    method Trim(summarize: Summarizer, keepLastN: int, enabled: bool)
      modifies this
      ensures messages == if enabled then Trimmed(summarize, old(messages), keepLastN) else old(messages)
    {
      if !enabled {
        return;
      }
      var effectiveN := if keepLastN < 1 then 1 else keepLastN;
      var turns := FindResultTurns(if |messages| >= 2 then |messages| - 2 else 0);
      if |turns| <= effectiveN {
        assert messages == Trimmed(summarize, old(messages), keepLastN);
        return;
      }
      var toTrim := turns[..|turns| - effectiveN];
      assert toTrim == ToTrim(messages, keepLastN);
      for k := 0 to |toTrim|
        invariant messages == Rewritten(summarize, old(messages), toTrim[..k])
      {
        RewriteOneMore(summarize, old(messages), toTrim, k);
        RewriteMessage(summarize, toTrim[k]);
      }
      assert toTrim[..|toTrim|] == toTrim;
    }

    /** The scan for tool-result turns before `safeEnd`; the first message is skipped. */
    method FindResultTurns(safeEnd: nat) returns (turns: seq<nat>)
      requires safeEnd <= |messages|
      ensures turns == ResultTurns(messages, safeEnd)
    {
      turns := [];
      if safeEnd >= 1 {
        for idx := 1 to safeEnd
          invariant turns == ResultTurns(messages, idx)
        {
          if IsResultTurn(messages[idx]) {
            turns := turns + [idx];
          }
        }
      }
    }

    /** The body of the loop over turns: every block of one message, in place. */
    method RewriteMessage(summarize: Summarizer, idx: nat)
      requires idx < |messages| && messages[idx].role == User
      modifies this
      ensures messages == old(messages)[idx := TrimmedAt(summarize, old(messages), idx)]
    {
      ghost var before, assistant := messages, PrecedingAssistant(messages, idx);
      var blocks := |messages[idx].content|;
      assert PartWay(summarize, assistant, before[idx].content, 0) == before[idx].content;
      for b := 0 to blocks
        invariant messages
          == before[idx := before[idx].(content := PartWay(summarize, assistant, before[idx].content, b))]
      {
        PartWayMore(summarize, assistant, before[idx].content, b);
        var part := messages[idx].content[b];
        if part.ToolResultPart? {
          AssistantsUnmoved(before, messages, idx);
          var pair := FindPairedToolUse(messages, idx, part.id);
          var items :=
            seq(|part.items|, i requires 0 <= i < |part.items| => SummarizeItem(summarize, pair, part.items[i]));
          assert part.(items := items) == SummarizePart(summarize, assistant, part);
          messages := messages[idx := messages[idx].(content := messages[idx].content[b := part.(items := items)])];
        } else {
          assert PartWay(summarize, assistant, before[idx].content, b + 1)
            == PartWay(summarize, assistant, before[idx].content, b);
        }
      }
      assert PartWay(summarize, assistant, before[idx].content, blocks)
        == SummarizeParts(summarize, assistant, before[idx].content);
    }
  }

  /** The first `b` parts rewritten. */
  ghost function PartWay(summarize: Summarizer, assistant: seq<Content>, parts: seq<Content>, b: nat): (r: seq<Content>)
    ensures |r| == |parts|
  {
    seq(|parts|, i requires 0 <= i < |parts| =>
      if i < b then SummarizePart(summarize, assistant, parts[i]) else parts[i])
  }

  lemma PartWayMore(summarize: Summarizer, assistant: seq<Content>, parts: seq<Content>, b: nat)
    requires b < |parts|
    ensures PartWay(summarize, assistant, parts, b + 1)
      == PartWay(summarize, assistant, parts, b)[b := SummarizePart(summarize, assistant, parts[b])]
    ensures PartWay(summarize, assistant, parts, b)[b] == parts[b]
  {
  }

  lemma RewriteOneMore(summarize: Summarizer, messages: seq<Message>, indices: seq<nat>, k: nat)
    requires k < |indices| && forall i, j :: 0 <= i < j < |indices| ==> indices[i] < indices[j]
    requires forall i :: 0 <= i < |indices| ==> indices[i] < |messages| && messages[indices[i]].role == User
    ensures Rewritten(summarize, messages, indices[..k + 1])
      == Rewritten(summarize, messages, indices[..k])[indices[k] :=
          TrimmedAt(summarize, Rewritten(summarize, messages, indices[..k]), indices[k])]
  {
    var before := Rewritten(summarize, messages, indices[..k]);
    AssistantsUnmoved(messages, before, indices[k]);
    assert indices[k] !in indices[..k];
    assert indices[..k + 1] == indices[..k] + [indices[k]];
  }
}
