/**
 * What repeated in-place trimming amounts to: before the k-th call the model sees turn t of the
 * loop summarized exactly max(0, k - keep - t) times, and everything else verbatim
 * (src/core/truncation.py:242-291 as called from src/core/agentic_loop.py:375).
 */
module ContextView {
  import opened Basics
  import opened Transcript
  import opened Trimming

  datatype Policy = Policy(summarize: Summarizer, keep: int, enabled: bool)

  /** How often turn `t` (counted from 1) has been summarized when `done` turns are complete. */
  function Age(policy: Policy, done: nat, t: nat): nat
  {
    if policy.enabled then Max(0, done - Max(policy.keep, 1) - t) else 0
  }

  function Aged(summarize: Summarizer, turn: Turn, age: nat): (results: seq<Content>)
    ensures |results| == |turn.results|
  {
    if age == 0 then turn.results else SummarizeParts(summarize, turn.assistant, Aged(summarize, turn, age - 1))
  }

  function ViewAt(policy: Policy, first: Message, turns: seq<Turn>, i: nat): Message
    requires i <= 2 * |turns|
  {
    if i == 0 then first
    else if i % 2 == 1 then Message(Assistant, turns[i / 2].assistant)
    else Message(User, Aged(policy.summarize, turns[i / 2 - 1], Age(policy, |turns|, i / 2)))
  }

  /** The message list sent after the given turns. */
  function View(policy: Policy, first: Message, turns: seq<Turn>): (messages: seq<Message>)
    ensures |messages| == 2 * |turns| + 1
  {
    seq(2 * |turns| + 1, i requires 0 <= i <= 2 * |turns| => ViewAt(policy, first, turns, i))
  }

  /** The list as it stands before the trim: the previous view and the newest turn. */
  function Pending(policy: Policy, first: Message, turns: seq<Turn>): (messages: seq<Message>)
    ensures |messages| == 2 * |turns| + 1
  {
    if turns == [] then [first]
    else
      var n := |turns| - 1;
      View(policy, first, turns[..n]) + [Message(Assistant, turns[n].assistant), Message(User, turns[n].results)]
  }

  ghost predicate GoodTurns(first: Message, turns: seq<Turn>)
  {
    && first.role == User
    && forall t :: 0 <= t < |turns| ==> Answers(turns[t].assistant, turns[t].results)
  }

  lemma {:induction false} AgedAnswers(summarize: Summarizer, turn: Turn, age: nat)
    requires Answers(turn.assistant, turn.results)
    ensures Answers(turn.assistant, Aged(summarize, turn, age))
  {
    if age == 0 {
    } else {
      AgedAnswers(summarize, turn, age - 1);
      SummarizingKeepsAnswers(summarize, turn.assistant, turn.assistant, Aged(summarize, turn, age - 1));
    }
  }

  /** Every message list the loop sends obeys the Converse protocol. */
  lemma ViewKeepsProtocol(policy: Policy, first: Message, turns: seq<Turn>)
    requires GoodTurns(first, turns)
    ensures Protocol(View(policy, first, turns))
  {
    var messages := View(policy, first, turns);
    forall i | 0 <= i < |messages| && i % 2 == 1
      ensures Answers(messages[i].content, messages[i + 1].content)
    {
      assert (i + 1) / 2 - 1 == i / 2;
      AgedAnswers(policy.summarize, turns[i / 2], Age(policy, |turns|, (i + 1) / 2));
    }
  }

  /** The first message, every assistant message, the newest tool-result turn and the `keep`
      turns before it are verbatim. */
  lemma NewestVerbatim(policy: Policy, first: Message, turns: seq<Turn>, t: nat)
    requires 1 <= t <= |turns| && t + Max(policy.keep, 1) >= |turns|
    ensures View(policy, first, turns)[0] == first
    ensures View(policy, first, turns)[2 * t - 1] == Message(Assistant, turns[t - 1].assistant)
    ensures View(policy, first, turns)[2 * t] == Message(User, turns[t - 1].results)
  {
  }

  // ----- the in-place trim reaches the view -----

  /** The places of a view, without halving. */
  lemma ViewPlaces(policy: Policy, first: Message, turns: seq<Turn>, t: nat)
    requires 1 <= t <= |turns|
    ensures View(policy, first, turns)[2 * t - 1] == Message(Assistant, turns[t - 1].assistant)
    ensures View(policy, first, turns)[2 * t]
      == Message(User, Aged(policy.summarize, turns[t - 1], Age(policy, |turns|, t)))
  {
  }

  ghost predicate AlternatesAt(messages: seq<Message>, t: nat)
  {
    1 <= t && 2 * t < |messages| ==> !IsResultTurn(messages[2 * t - 1]) && IsResultTurn(messages[2 * t])
  }

  /** 2, 4, ..., 2n: where the results of `n` turns stand. */
  function Evens(n: nat): (indices: seq<nat>)
    ensures |indices| == n
  {
    seq(n, j requires 0 <= j < n => 2 * (j + 1))
  }

  lemma NextEvenTurn(messages: seq<Message>, n: nat)
    requires 2 * n + 3 <= |messages| && AlternatesAt(messages, n + 1)
    ensures ResultTurns(messages, 2 * n + 3) == ResultTurns(messages, 2 * n + 1) + [2 * (n + 1)]
    ensures Evens(n + 1) == Evens(n) + [2 * (n + 1)]
  {
    assert ResultTurns(messages, 2 * n + 2) == ResultTurns(messages, 2 * n + 1);
  }

  ghost predicate Alternates(messages: seq<Message>, n: nat)
  {
    forall t {:trigger AlternatesAt(messages, t)} :: 1 <= t <= n ==> AlternatesAt(messages, t)
  }

  lemma {:induction false} EvenTurns(messages: seq<Message>, n: nat, k: nat)
    requires k <= n && 2 * n + 1 <= |messages| && Alternates(messages, n)
    ensures ResultTurns(messages, 2 * k + 1) == Evens(k)
  {
    if k == 0 {
    } else {
      assert AlternatesAt(messages, k);
      EvenTurns(messages, n, k - 1);
      NextEvenTurn(messages, k - 1);
    }
  }

  lemma AnswersIsResultTurn(assistant: seq<Content>, message: Message)
    requires message.role == User && Answers(assistant, message.content)
    ensures IsResultTurn(message)
  {
    assert message.content[0].ToolResultPart?;
  }

  lemma PendingPrefix(policy: Policy, first: Message, turns: seq<Turn>, i: nat)
    requires turns != [] && i < 2 * |turns| - 1
    ensures Pending(policy, first, turns)[i] == View(policy, first, turns[..|turns| - 1])[i]
  {
  }

  /** The newest turn of a pending list is as it was recorded. */
  lemma PendingNewest(policy: Policy, first: Message, turns: seq<Turn>, n: nat)
    requires |turns| == n + 1
    ensures Pending(policy, first, turns)[2 * n + 1] == Message(Assistant, turns[n].assistant)
    ensures Pending(policy, first, turns)[2 * n + 2] == Message(User, turns[n].results)
  {
  }

  /** The turns before the newest are as the last view left them. */
  lemma PendingEarlier(policy: Policy, first: Message, turns: seq<Turn>, t: nat)
    requires 1 <= t < |turns|
    ensures Pending(policy, first, turns)[2 * t - 1] == Message(Assistant, turns[t - 1].assistant)
    ensures Pending(policy, first, turns)[2 * t]
      == Message(User, Aged(policy.summarize, turns[t - 1], Age(policy, |turns| - 1, t)))
  {
    PendingPrefix(policy, first, turns, 2 * t - 1);
    PendingPrefix(policy, first, turns, 2 * t);
    ViewPlaces(policy, first, turns[..|turns| - 1], t);
  }

  /** The places of a pending list. */
  lemma PendingPlaces(policy: Policy, first: Message, turns: seq<Turn>, t: nat)
    requires 1 <= t <= |turns|
    ensures var pending := Pending(policy, first, turns);
      && pending[0] == first
      && pending[2 * t - 1] == Message(Assistant, turns[t - 1].assistant)
      && pending[2 * t]
        == Message(User, Aged(policy.summarize, turns[t - 1], if t < |turns| then Age(policy, |turns| - 1, t) else 0))
  {
    PendingPrefix(policy, first, turns, 0);
    if t < |turns| {
      PendingEarlier(policy, first, turns, t);
    } else {
      PendingNewest(policy, first, turns, t - 1);
    }
  }

  lemma PendingAlternates(policy: Policy, first: Message, turns: seq<Turn>, t: nat)
    requires GoodTurns(first, turns) && 1 <= t <= |turns|
    ensures AlternatesAt(Pending(policy, first, turns), t)
  {
    PendingPlaces(policy, first, turns, t);
    var age := if t < |turns| then Age(policy, |turns| - 1, t) else 0;
    AgedAnswers(policy.summarize, turns[t - 1], age);
    AnswersIsResultTurn(turns[t - 1].assistant, Pending(policy, first, turns)[2 * t]);
  }

  /** A trim touches exactly the turns up to `done - 1 - keep`. */
  lemma TrimRegion(policy: Policy, first: Message, turns: seq<Turn>) returns (last: nat)
    requires GoodTurns(first, turns)
    ensures last == Max(0, |turns| - 1 - Max(policy.keep, 1))
    ensures ToTrim(Pending(policy, first, turns), policy.keep) == Evens(last)
  {
    var messages, effective := Pending(policy, first, turns), Max(policy.keep, 1);
    last := Max(0, |turns| - 1 - effective);
    if turns != [] {
      var n := |turns| - 1;
      forall t: nat | 1 <= t <= n
        ensures AlternatesAt(messages, t)
      {
        PendingAlternates(policy, first, turns, t);
      }
      EvenTurns(messages, n, n);
      assert Evens(n)[..last] == Evens(last);
    }
  }

  lemma EvensHold(n: nat, t: nat)
    requires t >= 1
    ensures 0 !in Evens(n) && 2 * t - 1 !in Evens(n)
    ensures 2 * t in Evens(n) <==> t <= n
  {
    if t <= n {
      assert Evens(n)[t - 1] == 2 * t;
    }
  }

  /** A trim of the first `last` turns rewrites their results and nothing else. */
  lemma TrimmedPlaces(summarize: Summarizer, messages: seq<Message>, keep: int, last: nat, t: nat)
    requires 1 <= t && 2 * t < |messages| && ToTrim(messages, keep) == Evens(last)
    ensures var trimmed := Trimmed(summarize, messages, keep);
      && trimmed[0] == messages[0] && trimmed[2 * t - 1] == messages[2 * t - 1]
      && trimmed[2 * t] == if t <= last then TrimmedAt(summarize, messages, 2 * t) else messages[2 * t]
  {
    EvensHold(last, t);
  }

  /** One more turn ages the first `last` turns by one summary, and no other. */
  lemma OneTrimOlder(policy: Policy, turn: Turn, n: nat, t: nat)
    requires policy.enabled && 1 <= t <= n
    ensures var before := Aged(policy.summarize, turn, if t < n then Age(policy, n - 1, t) else 0);
      Aged(policy.summarize, turn, Age(policy, n, t)) ==
        if t <= n - 1 - Max(policy.keep, 1) then SummarizeParts(policy.summarize, turn.assistant, before) else before
  {
  }

  lemma TrimmedResults(summarize: Summarizer, messages: seq<Message>, t: nat, turn: Turn, results: seq<Content>)
    requires 1 <= t && 2 * t < |messages|
    requires messages[2 * t - 1] == Message(Assistant, turn.assistant) && messages[2 * t] == Message(User, results)
    ensures TrimmedAt(summarize, messages, 2 * t) == Message(User, SummarizeParts(summarize, turn.assistant, results))
  {
    assert PrecedingAssistant(messages, 2 * t) == turn.assistant;
  }

  lemma TrimmedTurn(policy: Policy, first: Message, turns: seq<Turn>, t: nat)
    requires GoodTurns(first, turns) && policy.enabled && 1 <= t <= |turns|
    ensures var trimmed, view :=
      Trimmed(policy.summarize, Pending(policy, first, turns), policy.keep), View(policy, first, turns);
      SameAt(trimmed, view, t)
  {
    var messages, turn, n := Pending(policy, first, turns), turns[t - 1], |turns|;
    var last := TrimRegion(policy, first, turns);
    ViewPlaces(policy, first, turns, t);
    PendingPlaces(policy, first, turns, t);
    TrimmedPlaces(policy.summarize, messages, policy.keep, last, t);
    OneTrimOlder(policy, turn, n, t);
    TrimmedResults(policy.summarize, messages, t, turn, messages[2 * t].content);
  }

  /** Trimming the list in place, turn after turn, yields the view: each trim ages the old turns
      by one summary and the in-place list never drifts from the closed form. */
  lemma TrimReachesView(policy: Policy, first: Message, turns: seq<Turn>)
    requires GoodTurns(first, turns)
    ensures var pending := Pending(policy, first, turns);
      (if policy.enabled then Trimmed(policy.summarize, pending, policy.keep) else pending)
        == View(policy, first, turns)
  {
    var view, pending := View(policy, first, turns), Pending(policy, first, turns);
    var reached := if policy.enabled then Trimmed(policy.summarize, pending, policy.keep) else pending;
    if turns == [] {
      assert reached[0] == view[0];
    } else {
      forall t: nat | 1 <= t <= |turns|
        ensures SameAt(reached, view, t)
      {
        if policy.enabled {
          TrimmedTurn(policy, first, turns, t);
        } else {
          ViewPlaces(policy, first, turns, t);
          PendingPlaces(policy, first, turns, t);
        }
      }
      assert SameAt(reached, view, 1);
      SamePlaces(reached, view, |turns|);
    }
  }

  ghost predicate SameAt(a: seq<Message>, b: seq<Message>, t: nat)
    requires 1 <= t && 2 * t < |a| && 2 * t < |b|
  {
    a[0] == b[0] && a[2 * t - 1] == b[2 * t - 1] && a[2 * t] == b[2 * t]
  }

  lemma SamePlaces(a: seq<Message>, b: seq<Message>, n: nat)
    requires n >= 1 && |a| == |b| == 2 * n + 1
    requires forall t: nat {:trigger SameAt(a, b, t)} :: 1 <= t <= n ==> SameAt(a, b, t)
    ensures a == b
  {
    assert SameAt(a, b, 1);
    forall i | 0 <= i < |a|
      ensures a[i] == b[i]
    {
      if i > 0 {
        var t := (i + 1) / 2;
        assert i == 2 * t - 1 || i == 2 * t;
        assert SameAt(a, b, t);
      }
    }
  }
}
