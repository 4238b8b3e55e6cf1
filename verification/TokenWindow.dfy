/**
 * History truncation by tokens (src/core/token_budget.py:260-306; src/core/model_tier.py:174-183).
 */
module TokenWindow {

  /** `estimate_tokens`. */
  function EstimateTokens(text: string): nat
  {
    if text == "" then 0 else if |text| / 4 < 1 then 1 else |text| / 4
  }

  function MessageTokens(content: string): nat { EstimateTokens(content) + 4 }

  function TotalTokens(messages: seq<string>): nat
  {
    if messages == [] then 0 else MessageTokens(messages[0]) + TotalTokens(messages[1..])
  }

  /** What messages cost: four tokens each, and one for every four characters of content, rounded
      down, but at least one if there is any. */
  lemma TotalIs(content: string, rest: seq<string>, quarters: nat)
    requires 4 * quarters <= |content| < 4 * quarters + 4
    ensures TotalTokens([]) == 0
    ensures TotalTokens([content] + rest)
      == 4 + (if content == "" then 0 else if quarters == 0 then 1 else quarters) + TotalTokens(rest)
  {
    assert ([content] + rest)[1..] == rest;
  }

  /** The longest suffix that fits: it fits, and no longer suffix does. */
  ghost predicate LongestFitting(messages: seq<string>, maxTokens: int, start: nat)
  {
    && start <= |messages|
    && (start < |messages| ==> TotalTokens(messages[start..]) <= maxTokens)
    && forall s: nat :: s < start ==> TotalTokens(messages[s..]) > maxTokens
  }

  lemma {:induction false} LongerCostsMore(messages: seq<string>, s: nat, t: nat)
    requires s < t <= |messages|
    ensures TotalTokens(messages[s..]) >= TotalTokens(messages[t..]) + 4 * (t - s)
    decreases t - s
  {
    assert messages[s..][1..] == messages[s + 1..];
    if s + 1 < t {
      LongerCostsMore(messages, s + 1, t);
    }
  }

  /** `truncate_history_by_tokens`: the greedy scan from the newest message back keeps the
      longest suffix that fits, and reports its exact total. */
  method TruncateHistory(messages: seq<string>, maxTokens: int)
    returns (kept: seq<string>, total: nat, ghost start: nat)
    ensures LongestFitting(messages, maxTokens, start)
    ensures kept == messages[start..] && total == TotalTokens(kept)
  {
    if messages == [] {
      return [], 0, 0;
    }
    total := 0;
    var keepStart := |messages|;
    var i := |messages| - 1;
    while i >= 0
      invariant -1 <= i < |messages| && keepStart == i + 1
      invariant total == TotalTokens(messages[keepStart..])
      invariant keepStart < |messages| ==> total <= maxTokens
    {
      var tokens := MessageTokens(messages[i]);
      assert messages[i..][1..] == messages[i + 1..];
      if total + tokens > maxTokens {
        forall s: nat | s < keepStart
          ensures TotalTokens(messages[s..]) > maxTokens
        {
          if s < i {
            LongerCostsMore(messages, s, i);
          }
        }
        break;
      }
      total := total + tokens;
      keepStart := i;
      i := i - 1;
    }
    kept, start := messages[keepStart..], keepStart;
  }

  /** A larger window keeps everything the smaller one keeps, one window has one result, and
      truncating what was kept keeps all of it. */
  lemma WindowLaws(messages: seq<string>, small: int, large: int, s: nat, t: nat, again: nat)
    requires small <= large && LongestFitting(messages, small, s) && LongestFitting(messages, large, t)
    requires LongestFitting(messages[s..], small, again)
    ensures t <= s && (small == large ==> s == t)
    ensures messages[s..][again..] == messages[s..]
  {
    assert messages[s..][0..] == messages[s..];
  }
}
