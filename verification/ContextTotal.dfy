/**
 * How much tool output one call of the model carries in all (src/core/agentic_loop.py:375, 510-535;
 * src/core/truncation.py:242-291): the texts of LoopProperties added up over the whole list.
 */
module ContextTotal {
  import opened Basics
  import opened Transcript
  import opened ContextView
  import opened AgenticLoop
  import opened LoopProperties

  // ----- adding up -----

  function ItemsLength(items: seq<Item>): nat
  {
    if items == [] then 0
    else ItemsLength(items[..|items| - 1]) + if items[|items| - 1].TextItem? then |items[|items| - 1].text| else 0
  }

  function PartLength(part: Content): nat
  {
    if part.ToolResultPart? then ItemsLength(part.items) else 0
  }

  /** The characters of tool-result text in a message. */
  function ContentLength(parts: seq<Content>): nat
  {
    if parts == [] then 0 else ContentLength(parts[..|parts| - 1]) + PartLength(parts[|parts| - 1])
  }

  /** The characters of tool-result text in a list of messages. */
  function ToolText(messages: seq<Message>): nat
  {
    if messages == [] then 0
    else ToolText(messages[..|messages| - 1]) + ContentLength(messages[|messages| - 1].content)
  }

  /** The number of tool results in some turns. */
  function ResultCount(turns: seq<Turn>): nat
  {
    if turns == [] then 0 else ResultCount(turns[..|turns| - 1]) + |turns[|turns| - 1].results|
  }

  /** What `n` turns are allowed: `aged` turns at one cap for each result, the rest at another. */
  function Allowance(turns: seq<Turn>, aged: nat, agedCap: nat, newCap: nat, n: nat): nat
    requires n <= |turns|
  {
    if n == 0 then 0
    else
      Allowance(turns, aged, agedCap, newCap, n - 1)
      + |turns[n - 1].results| * (if n <= aged then agedCap else newCap)
  }

  lemma CountNext(turns: seq<Turn>, from: nat, n: nat, cap: nat)
    requires from <= n < |turns|
    ensures ResultCount(turns[from..n + 1]) * cap == ResultCount(turns[from..n]) * cap + |turns[n].results| * cap
  {
    assert turns[from..n + 1][..n - from] == turns[from..n];
    Distribute(ResultCount(turns[from..n]), |turns[n].results|, cap);
  }

  lemma Distribute(a: nat, b: nat, c: nat)
    ensures (a + b) * c == a * c + b * c
  {
  }

  lemma {:induction false} AllowanceOfAged(turns: seq<Turn>, aged: nat, agedCap: nat, newCap: nat, n: nat)
    requires n <= aged <= |turns|
    ensures Allowance(turns, aged, agedCap, newCap, n) == ResultCount(turns[0..n]) * agedCap
  {
    if n == 0 {
    } else {
      AllowanceOfAged(turns, aged, agedCap, newCap, n - 1);
      CountNext(turns, 0, n - 1, agedCap);
    }
  }

  lemma {:induction false} AllowanceSplits(turns: seq<Turn>, aged: nat, agedCap: nat, newCap: nat, n: nat)
    requires aged <= n <= |turns|
    ensures Allowance(turns, aged, agedCap, newCap, n)
      == ResultCount(turns[..aged]) * agedCap + ResultCount(turns[aged..n]) * newCap
  {
    if n == aged {
      AllowanceOfAged(turns, aged, agedCap, newCap, n);
      assert turns[0..n] == turns[..aged];
    } else {
      AllowanceSplits(turns, aged, agedCap, newCap, n - 1);
      CountNext(turns, aged, n - 1, newCap);
    }
  }

  // ----- what one message carries -----

  lemma {:induction false} ResultsAddUp(results: seq<Content>, cap: nat)
    requires ResultsFit(results, cap)
    ensures ContentLength(results) <= |results| * cap
  {
    if results == [] {
    } else {
      var n := |results| - 1;
      assert ResultsFit(results[..n], cap) by {
        assert forall i :: 0 <= i < n ==> results[..n][i] == results[i];
      }
      ResultsAddUp(results[..n], cap);
      assert PartFits(results[n], cap);
      assert ItemsLength(results[n].items[..0]) == 0;
    }
  }

  /** The model's own messages hold no tool results. */
  lemma {:induction false} AssistantHoldsNone(content: seq<Block>)
    ensures ContentLength(AssistantParts(content)) == 0
  {
    if content == [] {
    } else {
      var n := |content| - 1;
      AssistantHoldsNone(content[..n]);
      var before := AssistantParts(content[..n]);
      if PartOf(content[n]) == [] {
        assert AssistantParts(content) == before;
      } else {
        assert AssistantParts(content)[..|before|] == before;
      }
    }
  }

  // ----- what one call carries -----

  /** How many turns a call after `k` turns shows summarized. */
  function AgedTurns(policy: Policy, k: nat): nat
  {
    if policy.enabled then Max(0, k - Max(policy.keep, 1) - 1) else 0
  }

  ghost predicate AllNamesFit(log: seq<Exchange>, limit: nat)
  {
    forall i :: 0 <= i < |log| && log[i].response.Replied? ==>
      NamesFit(AssistantParts(log[i].response.reply.content), limit)
  }

  lemma TurnAddsUp(world: World, policy: Policy, limits: Limits, first: Message, caps: Caps, k: nat, t: nat)
    requires first.role == User && k < |PlayOf(world, policy, limits, first).log| && 1 <= t <= k
    requires Respects(world, policy, caps) && AllNamesFit(PlayOf(world, policy, limits, first).log, caps.name)
    ensures var play := PlayOf(world, policy, limits, first);
      var sent, cap := play.log[k].sent, if t <= AgedTurns(policy, k) then caps.summary else VerbatimCap(world, caps);
      && t <= |play.turns| && 2 * t < |sent| && ContentLength(sent[2 * t - 1].content) == 0
      && ContentLength(sent[2 * t].content) <= |play.turns[t - 1].results| * cap
  {
    var play := PlayOf(world, policy, limits, first);
    WholeRun(world, policy, limits, first);
    TurnAsSent(world, policy, limits, first, k, t);
    ContextFits(world, policy, limits, first, caps, k, t);
    assert Recorded(world, policy, limits, first, play, 0, t - 1);
    AssistantHoldsNone(play.log[t - 1].response.reply.content);
    ResultsAddUp(play.log[k].sent[2 * t].content,
                 if t <= AgedTurns(policy, k) then caps.summary else VerbatimCap(world, caps));
  }

  lemma ToolTextOfTwo(messages: seq<Message>, n: nat)
    requires 1 <= n && 2 * n < |messages|
    ensures ToolText(messages[..2 * n + 1])
      == ToolText(messages[..2 * n - 1]) + ContentLength(messages[2 * n - 1].content)
        + ContentLength(messages[2 * n].content)
  {
    assert messages[..2 * n + 1][..2 * n] == messages[..2 * n];
    assert messages[..2 * n][..2 * n - 1] == messages[..2 * n - 1];
  }

  lemma {:induction false} TurnsAddUp(world: World, policy: Policy, limits: Limits, first: Message, caps: Caps, k: nat,
                                      n: nat)
    requires first.role == User && k < |PlayOf(world, policy, limits, first).log| && n <= k
    requires Respects(world, policy, caps) && AllNamesFit(PlayOf(world, policy, limits, first).log, caps.name)
    ensures var play := PlayOf(world, policy, limits, first);
      && n <= |play.turns| && 2 * n < |play.log[k].sent|
      && ToolText(play.log[k].sent[..2 * n + 1]) <= ContentLength(first.content)
        + Allowance(play.turns, AgedTurns(policy, k), caps.summary, VerbatimCap(world, caps), n)
  {
    if n == 0 {
      EveryCallObeysProtocol(world, policy, limits, first, k);
      var sent := PlayOf(world, policy, limits, first).log[k].sent;
      assert sent[..1] == [first];
      assert ToolText(sent[..1]) == ToolText([]) + ContentLength(first.content) by {
        assert sent[..1][..0] == [];
      }
    } else {
      TurnsAddUp(world, policy, limits, first, caps, k, n - 1);
      TurnAddsUp(world, policy, limits, first, caps, k, n);
      ToolTextOfTwo(PlayOf(world, policy, limits, first).log[k].sent, n);
    }
  }

  /** All the tool output that call `k` carries is bounded: the verbatim cap for each result of
      the newest keep + 1 turns, and one summary's cap for each result of all the turns before. */
  lemma ContextIsBounded(world: World, policy: Policy, limits: Limits, first: Message, caps: Caps, k: nat)
    requires first.role == User && k < |PlayOf(world, policy, limits, first).log|
    requires Respects(world, policy, caps) && AllNamesFit(PlayOf(world, policy, limits, first).log, caps.name)
    ensures var play, aged := PlayOf(world, policy, limits, first), AgedTurns(policy, k);
      && k <= |play.turns|
      && ToolText(play.log[k].sent) <= ContentLength(first.content)
        + ResultCount(play.turns[..aged]) * caps.summary
        + ResultCount(play.turns[aged..k]) * VerbatimCap(world, caps)
  {
    TurnsAddUp(world, policy, limits, first, caps, k, k);
    var play := PlayOf(world, policy, limits, first);
    EveryCallObeysProtocol(world, policy, limits, first, k);
    assert play.log[k].sent[..2 * k + 1] == play.log[k].sent;
    AllowanceSplits(play.turns, AgedTurns(policy, k), caps.summary, VerbatimCap(world, caps), k);
  }
}
