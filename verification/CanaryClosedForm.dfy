/**
 * How many prefixes canary redaction leaves in front of a marker, read off the response
 * (src/core/canary.py:192-210): each round that finds its token takes one from every marker.
 */
module CanaryClosedForm {
  import opened Canary
  import opened CanaryResidue
  import opened CanaryPrefixes

  // ----- what becomes of the other tokens -----

  /** Matches of the two patterns overlap. */
  ghost predicate OverlapAt(q: Pattern, r: Pattern, text: string, p: nat, e: nat, i: nat, f: nat)
  {
    OccursAt(q, text, p, e) && OccursAt(r, text, i, f) && p < f && i < e
  }

  ghost predicate Overlap(q: Pattern, r: Pattern, text: string)
  {
    exists p: nat, e: nat, i: nat, f: nat :: OverlapAt(q, r, text, p, e, i, f)
  }

  /** No match of the pattern reaches into text[s..t]. */
  ghost predicate Misses(pattern: Pattern, text: string, s: nat, t: nat)
  {
    forall p: nat, e: nat :: OccursAt(pattern, text, p, e) ==> e <= s || t <= p
  }

  lemma FoundAround(pattern: Pattern, text: string, s: nat, t: nat, k: nat)
    requires s <= t <= |text| && Misses(pattern, text, s, t) && Stops(text[..t], text[t..])
    ensures FoundWith(pattern, text, k) <==> FoundWith(pattern, text[..s], k) || FoundWith(pattern, text[t..], k)
  {
    if p: nat, e: nat :| FoundAt(pattern, text, p, e, k) {
      FoundOnOneSide(pattern, text, s, t, p, e, k);
    }
    FoundOnAnySide(pattern, text, s, t, k);
  }

  lemma FoundOnAnySide(pattern: Pattern, text: string, s: nat, t: nat, k: nat)
    requires s <= t <= |text| && Stops(text[..t], text[t..])
    ensures FoundWith(pattern, text[..s], k) || FoundWith(pattern, text[t..], k) ==> FoundWith(pattern, text, k)
  {
    if p: nat, e: nat :| FoundAt(pattern, text[..s], p, e, k) {
      FoundBefore(pattern, text, s, p, e, k);
      assert FoundAt(pattern, text, p, e, k);
    }
    if p: nat, e: nat :| FoundAt(pattern, text[t..], p, e, k) {
      FoundBehind(pattern, text, t, p + t, e + t, k);
      assert FoundAt(pattern, text, p + t, e + t, k);
    }
  }

  lemma FoundOnOneSide(pattern: Pattern, text: string, s: nat, t: nat, p: nat, e: nat, k: nat)
    requires s <= t <= |text| && Misses(pattern, text, s, t) && Stops(text[..t], text[t..])
    requires FoundAt(pattern, text, p, e, k)
    ensures FoundWith(pattern, text[..s], k) || FoundWith(pattern, text[t..], k)
  {
    if e <= s {
      FoundBefore(pattern, text, s, p, e, k);
      assert FoundAt(pattern, text[..s], p, e, k);
    } else {
      FoundBehind(pattern, text, t, p, e, k);
      assert FoundAt(pattern, text[t..], p - t, e - t, k);
    }
  }

  /** A fresh marker between two texts, and the place where it stands. */
  lemma MarkerBetween(left: string, rest: string)
    ensures var text := left + MARKER + rest; var n := |left|;
      && MarkAt(text, n) && text[..n] == left && text[n + 10..] == rest && Stops(text[..n + 10], text[n + 10..])
  {
    var text, n := left + MARKER + rest, |left|;
    assert text[n..n + 10] == MARKER && text[..n + 10] == left + MARKER;
    StopsAtBracket(left + MARKER, rest);
  }

  lemma TokensMissMarker(hex: string, left: string, rest: string)
    requires IsHexString(hex) && |hex| >= 5
    ensures Misses(FuzzyPattern(hex), left + MARKER + rest, |left|, |left| + 10)
  {
    var text := left + MARKER + rest;
    MarkerBetween(left, rest);
    forall p: nat, e: nat | OccursAt(FuzzyPattern(hex), text, p, e)
      ensures e <= |left| || |left| + 10 <= p
    {
      MarkMissesToken(hex, text, p, e, |left|);
    }
  }

  lemma FoundAroundMarker(hex: string, left: string, rest: string, k: nat)
    requires IsHexString(hex) && |hex| >= 5
    ensures FoundWith(FuzzyPattern(hex), left + MARKER + rest, k)
      <==> FoundWith(FuzzyPattern(hex), left, k) || FoundWith(FuzzyPattern(hex), rest, k)
  {
    TokensMissMarker(hex, left, rest);
    MarkerBetween(left, rest);
    FoundAround(FuzzyPattern(hex), left + MARKER + rest, |left|, |left| + 10, k);
  }

  /** A token that is not fused does not overlap a match of the cleanup's pattern. */
  lemma TokenMissesMatch(hex: string, text: string, s: nat, t: nat, p: nat, e: nat)
    requires IsHexString(hex) && |hex| >= 5 && !Fused(FuzzyPattern(hex), text)
    requires OccursAt(PREFIX_PATTERN, text, s, t) && OccursAt(FuzzyPattern(hex), text, p, e)
    ensures e <= s || t <= p
  {
    var a, b := MatchParts(text, s, t);
    MarkMissesToken(hex, text, p, e, b);
    if s < e <= b {
      HexEnds(hex, text[p..e]);
      assert text[p..e][e - p - 1] == text[e - 1];
      if e == s + 1 {
        FusedHere(FuzzyPattern(hex), text, p, e, a);
      } else {
        LetterInside(text, s, a, b, e - 1);
      }
    }
  }

  lemma LetterInside(text: string, s: nat, a: nat, b: nat, m: nat)
    requires s <= a <= b <= |text| && InLanguage(LETTERS, text[s..a]) && Separators(text[a..b]) && s < m < b
    ensures IsLetterOrSep(text[m])
  {
    LettersWord(text[s..a]);
    if m < a {
      assert text[s..a][m - s] == text[m];
    } else {
      assert text[a..b][m - a] == text[m];
    }
  }

  lemma StopsAtMatch(text: string, s: nat, t: nat)
    requires OccursAt(PREFIX_PATTERN, text, s, t)
    ensures s < t && Stops(text[..t], text[t..])
  {
    var a, b := MatchParts(text, s, t);
    MarkBrackets(text, b, 9);
    StopsAtBracket(text[..t], text[t..]);
  }

  /** The cleanup leaves tokens as they are, with the prefixes in front of them. */
  lemma {:induction false} CleanupKeepsTokens(hex: string, text: string, k: nat)
    requires IsHexString(hex) && |hex| >= 5 && Solid(PREFIX_PATTERN) && PREFIX_PATTERN != []
    requires !Fused(FuzzyPattern(hex), text)
    ensures FoundWith(FuzzyPattern(hex), Sub(PREFIX_PATTERN, text), k) <==> FoundWith(FuzzyPattern(hex), text, k)
    decreases |text|
  {
    var hit, s, t := SubCuts(PREFIX_PATTERN, text);
    if !hit {
    } else {
      forall p: nat, e: nat | OccursAt(FuzzyPattern(hex), text, p, e)
        ensures e <= s || t <= p
      {
        TokenMissesMatch(hex, text, s, t, p, e);
      }
      StopsAtMatch(text, s, t);
      assert text[t..|text|] == text[t..];
      FusedInPart(FuzzyPattern(hex), text, t, |text|);
      CleanupKeepsTokens(hex, text[t..], k);
      FoundAroundMarker(hex, text[..s], Sub(PREFIX_PATTERN, text[t..]), k);
      FoundAround(FuzzyPattern(hex), text, s, t, k);
    }
  }

  lemma OverlapInPart(q: Pattern, r: Pattern, text: string, lo: nat, hi: nat)
    requires lo <= hi <= |text| && !Overlap(q, r, text)
    ensures !Overlap(q, r, text[lo..hi])
  {
    if p: nat, e: nat, i: nat, f: nat :| OverlapAt(q, r, text[lo..hi], p, e, i, f) {
      Within(q, text, lo, hi, lo + p, lo + e);
      Within(r, text, lo, hi, lo + i, lo + f);
      assert OverlapAt(q, r, text, lo + p, lo + e, lo + i, lo + f);
    }
  }

  lemma ApartMisses(q: Pattern, r: Pattern, text: string, s: nat, t: nat)
    requires !Overlap(q, r, text) && OccursAt(r, text, s, t)
    ensures Misses(q, text, s, t)
  {
    forall p: nat, e: nat | OccursAt(q, text, p, e)
      ensures e <= s || t <= p
    {
      assert !OverlapAt(q, r, text, p, e, s, t);
    }
  }

  /** Replacing one token leaves the others as they are, where no two overlap. */
  lemma {:induction false} RedactionKeepsTokens(hex: string, other: string, text: string, k: nat)
    requires IsHexString(hex) && |hex| >= 5 && IsHexString(other) && Solid(FuzzyPattern(other))
    requires !Fused(FuzzyPattern(other), text) && !Overlap(FuzzyPattern(hex), FuzzyPattern(other), text)
    ensures FoundWith(FuzzyPattern(hex), Sub(FuzzyPattern(other), text), k) <==> FoundWith(FuzzyPattern(hex), text, k)
    decreases |text|
  {
    var q, r := FuzzyPattern(hex), FuzzyPattern(other);
    var hit, s, t := SubCuts(r, text);
    if !hit {
    } else {
      ApartMisses(q, r, text, s, t);
      StopsAtToken(other, text, s, t, |text|);
      assert text[t..|text|] == text[t..];
      FusedInPart(r, text, t, |text|);
      OverlapInPart(q, r, text, t, |text|);
      RedactionKeepsTokens(hex, other, text[t..], k);
      FoundAroundMarker(hex, text[..s], Sub(r, text[t..]), k);
      FoundAround(q, text, s, t, k);
    }
  }

  // ----- tokens that stay apart -----

  /** A token stands wholly before or wholly behind a fresh marker. */
  lemma TokenPlaces(hex: string, left: string, rest: string, p: nat, e: nat)
    requires IsHexString(hex) && |hex| >= 5 && OccursAt(FuzzyPattern(hex), left + MARKER + rest, p, e)
    ensures e <= |left| || |left| + 10 <= p
    ensures e <= |left| ==> OccursAt(FuzzyPattern(hex), left, p, e)
    ensures e > |left| ==> OccursAt(FuzzyPattern(hex), rest, p - |left| - 10, e - |left| - 10)
  {
    var text, n := left + MARKER + rest, |left|;
    TokensMissMarker(hex, left, rest);
    assert text[0..n] == left && text[n + 10..|text|] == rest;
    if e <= n {
      Within(FuzzyPattern(hex), text, 0, n, p, e);
    } else {
      Within(FuzzyPattern(hex), text, n + 10, |text|, p, e);
    }
  }

  /** A prefix that begins before a fresh marker ends before it. */
  lemma PrefixBeforeMarker(left: string, rest: string, i: nat, f: nat)
    requires i < |left| && OccursAt(LETTERS, left + MARKER + rest, i, f)
    ensures OccursAt(LETTERS, left, i, f)
  {
    var text, n := left + MARKER + rest, |left|;
    if f > n {
      assert text[i..f][n - i] == text[n] == '[';
      LettersWord(text[i..f]);
    }
    assert text[0..n] == left;
    Within(LETTERS, text, 0, n, i, f);
  }

  lemma FusedAroundMarker(hex: string, left: string, rest: string)
    requires IsHexString(hex) && |hex| >= 5
    requires !Fused(FuzzyPattern(hex), left) && !Fused(FuzzyPattern(hex), rest)
    ensures !Fused(FuzzyPattern(hex), left + MARKER + rest)
  {
    var q, text, n := FuzzyPattern(hex), left + MARKER + rest, |left|;
    if p: nat, e: nat :| FusedAt(q, text, p, e) {
      var f: nat :| OccursAt(LETTERS, text, e - 1, f);
      WordIsLong(q, text[p..e]);
      TokenPlaces(hex, left, rest, p, e);
      if e <= n {
        PrefixBeforeMarker(left, rest, e - 1, f);
        FusedHere(q, left, p, e, f);
      } else {
        assert text[n + 10..|text|] == rest;
        Within(LETTERS, text, n + 10, |text|, e - 1, f);
        FusedHere(q, rest, p - n - 10, e - n - 10, f - n - 10);
      }
    }
  }

  lemma OverlapOnOneSide(hex: string, other: string, left: string, rest: string, p: nat, e: nat, i: nat, f: nat)
    requires IsHexString(hex) && |hex| >= 5 && IsHexString(other) && |other| >= 5
    requires OverlapAt(FuzzyPattern(hex), FuzzyPattern(other), left + MARKER + rest, p, e, i, f)
    ensures Overlap(FuzzyPattern(hex), FuzzyPattern(other), left)
      || Overlap(FuzzyPattern(hex), FuzzyPattern(other), rest)
  {
    var q, r, n := FuzzyPattern(hex), FuzzyPattern(other), |left| + 10;
    TokenPlaces(hex, left, rest, p, e);
    TokenPlaces(other, left, rest, i, f);
    if e <= |left| {
      assert OverlapAt(q, r, left, p, e, i, f);
    } else {
      assert OverlapAt(q, r, rest, p - n, e - n, i - n, f - n);
    }
  }

  lemma OverlapAroundMarker(hex: string, other: string, left: string, rest: string)
    requires IsHexString(hex) && |hex| >= 5 && IsHexString(other) && |other| >= 5
    requires !Overlap(FuzzyPattern(hex), FuzzyPattern(other), left)
    requires !Overlap(FuzzyPattern(hex), FuzzyPattern(other), rest)
    ensures !Overlap(FuzzyPattern(hex), FuzzyPattern(other), left + MARKER + rest)
  {
    if p: nat, e: nat, i: nat, f: nat :|
      OverlapAt(FuzzyPattern(hex), FuzzyPattern(other), left + MARKER + rest, p, e, i, f) {
      OverlapOnOneSide(hex, other, left, rest, p, e, i, f);
    }
  }

  lemma {:induction false} SubKeepsUnfused(pattern: Pattern, hex: string, text: string)
    requires Solid(pattern) && pattern != [] && IsHexString(hex) && |hex| >= 5 && !Fused(FuzzyPattern(hex), text)
    ensures !Fused(FuzzyPattern(hex), Sub(pattern, text))
    decreases |text|
  {
    var hit, s, t := SubCuts(pattern, text);
    if !hit {
    } else {
      assert text[t..|text|] == text[t..] && text[0..s] == text[..s];
      FusedInPart(FuzzyPattern(hex), text, 0, s);
      FusedInPart(FuzzyPattern(hex), text, t, |text|);
      SubKeepsUnfused(pattern, hex, text[t..]);
      FusedAroundMarker(hex, text[..s], Sub(pattern, text[t..]));
    }
  }

  lemma {:induction false} SubKeepsApart(pattern: Pattern, hex: string, other: string, text: string)
    requires Solid(pattern) && pattern != []
    requires IsHexString(hex) && |hex| >= 5 && IsHexString(other) && |other| >= 5
    requires !Overlap(FuzzyPattern(hex), FuzzyPattern(other), text)
    ensures !Overlap(FuzzyPattern(hex), FuzzyPattern(other), Sub(pattern, text))
    decreases |text|
  {
    var hit, s, t := SubCuts(pattern, text);
    if !hit {
    } else {
      assert text[t..|text|] == text[t..] && text[0..s] == text[..s];
      OverlapInPart(FuzzyPattern(hex), FuzzyPattern(other), text, 0, s);
      OverlapInPart(FuzzyPattern(hex), FuzzyPattern(other), text, t, |text|);
      SubKeepsApart(pattern, hex, other, text[t..]);
      OverlapAroundMarker(hex, other, text[..s], Sub(pattern, text[t..]));
    }
  }

  // ----- one round -----

  /** No token's last digit is the first letter of a prefix, and no two tokens share a digit. */
  ghost predicate Separate(text: string, tokens: seq<string>)
    requires forall t :: t in tokens ==> IsToken(t)
  {
    && (forall i :: 0 <= i < |tokens| ==> !Fused(TokenPattern(tokens[i]), text))
    && (forall i, j :: 0 <= i < |tokens| && 0 <= j < |tokens| && i != j ==>
          !Overlap(TokenPattern(tokens[i]), TokenPattern(tokens[j]), text))
  }

  lemma RoundIs(text: string, token: string)
    requires IsToken(token)
    ensures Solid(PREFIX_PATTERN) && PREFIX_PATTERN != [] && Solid(TokenPattern(token))
    ensures Round(text, token) ==
      if Occurs(TokenPattern(token), text) then Sub(PREFIX_PATTERN, Sub(TokenPattern(token), text)) else text
  {
    TokenFacts(token);
    PrefixPatternIsSolid();
    SearchFindsOccurrence(token, text);
  }

  lemma RoundKeepsUnfused(text: string, token: string, other: string)
    requires IsToken(token) && IsToken(other) && !Fused(TokenPattern(other), text)
    ensures !Fused(TokenPattern(other), Round(text, token))
  {
    RoundIs(text, token);
    var hex := other[|PREFIX|..];
    SubKeepsUnfused(TokenPattern(token), hex, text);
    SubKeepsUnfused(PREFIX_PATTERN, hex, Sub(TokenPattern(token), text));
  }

  lemma RoundKeepsApart(text: string, token: string, one: string, other: string)
    requires IsToken(token) && IsToken(one) && IsToken(other)
    requires !Overlap(TokenPattern(one), TokenPattern(other), text)
    ensures !Overlap(TokenPattern(one), TokenPattern(other), Round(text, token))
  {
    RoundIs(text, token);
    var hex, hex' := one[|PREFIX|..], other[|PREFIX|..];
    SubKeepsApart(TokenPattern(token), hex, hex', text);
    SubKeepsApart(PREFIX_PATTERN, hex, hex', Sub(TokenPattern(token), text));
  }

  lemma RoundKeepsSeparate(text: string, token: string, tokens: seq<string>)
    requires IsToken(token) && (forall t :: t in tokens ==> IsToken(t)) && Separate(text, tokens)
    ensures Separate(Round(text, token), tokens)
  {
    forall i | 0 <= i < |tokens|
      ensures !Fused(TokenPattern(tokens[i]), Round(text, token))
    {
      RoundKeepsUnfused(text, token, tokens[i]);
    }
    forall i, j | 0 <= i < |tokens| && 0 <= j < |tokens| && i != j
      ensures !Overlap(TokenPattern(tokens[i]), TokenPattern(tokens[j]), Round(text, token))
    {
      RoundKeepsApart(text, token, tokens[i], tokens[j]);
    }
  }

  lemma RedactedAndCleaned(hex: string, text: string, k: nat)
    requires IsHexString(hex) && |hex| >= 5 && Solid(FuzzyPattern(hex)) && !Fused(FuzzyPattern(hex), text) && k >= 1
    requires Solid(PREFIX_PATTERN) && PREFIX_PATTERN != []
    ensures MarkedBy(Sub(PREFIX_PATTERN, Sub(FuzzyPattern(hex), text)), k) <==>
      MarkedBy(text, k + 1) || FoundWith(FuzzyPattern(hex), text, k + 1)
  {
    CleanupTakesOne(Sub(FuzzyPattern(hex), text), k);
    RedactionMoves(hex, text, k + 1);
  }

  /** A round that fires takes one prefix from every marker, old or new. */
  lemma RoundTakesOne(text: string, token: string, k: nat)
    requires IsToken(token) && Occurs(TokenPattern(token), text) && !Fused(TokenPattern(token), text) && k >= 1
    ensures MarkedBy(Round(text, token), k) <==>
      MarkedBy(text, k + 1) || FoundWith(TokenPattern(token), text, k + 1)
  {
    RoundIs(text, token);
    RedactedAndCleaned(token[|PREFIX|..], text, k);
  }

  /** A round leaves the tokens of the other rounds, with the prefixes in front of them. */
  lemma RoundKeepsTokens(text: string, token: string, other: string, k: nat)
    requires IsToken(token) && IsToken(other)
    requires !Fused(TokenPattern(token), text) && !Fused(TokenPattern(other), text)
    requires !Overlap(TokenPattern(other), TokenPattern(token), text)
    ensures FoundWith(TokenPattern(other), Round(text, token), k) <==> FoundWith(TokenPattern(other), text, k)
  {
    RoundIs(text, token);
    var hex := other[|PREFIX|..];
    SubKeepsUnfused(TokenPattern(token), hex, text);
    CleanupKeepsTokens(hex, Sub(TokenPattern(token), text), k);
    RedactionKeepsTokens(hex, token[|PREFIX|..], text, k);
  }

  // ----- all rounds -----

  lemma {:induction false} RoundsKeepSeparate(response: string, tokens: seq<string>, n: nat)
    requires (forall t :: t in tokens ==> IsToken(t)) && n <= |tokens| && Separate(response, tokens)
    ensures Separate(Rounds(response, tokens[..n]), tokens)
  {
    if n == 0 {
      assert tokens[..0] == [];
    } else {
      RoundsKeepSeparate(response, tokens, n - 1);
      assert tokens[..n][..n - 1] == tokens[..n - 1];
      RoundKeepsSeparate(Rounds(response, tokens[..n - 1]), tokens[n - 1], tokens);
    }
  }

  /** Before its round a token stands as it stood in the response. */
  lemma {:induction false} RoundsKeepToken(response: string, tokens: seq<string>, n: nat, i: nat, k: nat)
    requires (forall t :: t in tokens ==> IsToken(t)) && n <= i < |tokens| && Separate(response, tokens)
    ensures FoundWith(TokenPattern(tokens[i]), Rounds(response, tokens[..n]), k) <==>
      FoundWith(TokenPattern(tokens[i]), response, k)
  {
    if n == 0 {
      assert tokens[..0] == [];
    } else {
      RoundsKeepToken(response, tokens, n - 1, i, k);
      RoundsKeepSeparate(response, tokens, n - 1);
      assert tokens[..n][..n - 1] == tokens[..n - 1];
      RoundKeepsTokens(Rounds(response, tokens[..n - 1]), tokens[n - 1], tokens[i], k);
    }
  }

  lemma FoundAtAll(pattern: Pattern, text: string)
    ensures Occurs(pattern, text) <==> FoundWith(pattern, text, 0)
  {
    if i: nat, e: nat :| OccursAt(pattern, text, i, e) {
      assert FoundAt(pattern, text, i, e, 0);
    }
  }

  /** A round fires exactly if its token is in the response. */
  lemma FiresIfLeaked(response: string, tokens: seq<string>, i: nat)
    requires (forall t :: t in tokens ==> IsToken(t)) && i < |tokens| && Separate(response, tokens)
    ensures Fires(response, tokens, i) <==> Occurs(TokenPattern(tokens[i]), response)
  {
    RoundsKeepToken(response, tokens, i, i, 0);
    FoundAtAll(TokenPattern(tokens[i]), response);
    FoundAtAll(TokenPattern(tokens[i]), Rounds(response, tokens[..i]));
  }

  /** How many of the tokens tokens[i..n] are in the response. */
  ghost function LeakedIn(response: string, tokens: seq<string>, i: nat, n: nat): nat
    requires i <= n <= |tokens| && forall t :: t in tokens ==> IsToken(t)
    decreases n
  {
    if i == n then 0
    else LeakedIn(response, tokens, i, n - 1) + if Occurs(TokenPattern(tokens[n - 1]), response) then 1 else 0
  }

  /** Some token among the first `n` has `k` prefixes in front of it, and one more for each token
      from its own on that leaked. */
  ghost predicate SomeFound(response: string, tokens: seq<string>, n: nat, k: nat)
    requires n <= |tokens| && forall t :: t in tokens ==> IsToken(t)
  {
    exists i: nat :: FoundUnder(response, tokens, i, n, k)
  }

  ghost predicate FoundUnder(response: string, tokens: seq<string>, i: nat, n: nat, k: nat)
    requires n <= |tokens| && forall t :: t in tokens ==> IsToken(t)
  {
    i < n && FoundWith(TokenPattern(tokens[i]), response, k + LeakedIn(response, tokens, i, n))
  }

  lemma UnderOneMore(response: string, tokens: seq<string>, i: nat, n: nat, k: nat)
    requires (forall t :: t in tokens ==> IsToken(t)) && i <= n < |tokens|
    requires Occurs(TokenPattern(tokens[n]), response)
    ensures FoundUnder(response, tokens, i, n + 1, k) <==>
      if i < n then FoundUnder(response, tokens, i, n, k + 1) else FoundWith(TokenPattern(tokens[n]), response, k + 1)
  {
    assert LeakedIn(response, tokens, i, n + 1) == LeakedIn(response, tokens, i, n) + 1;
  }

  lemma OneMoreFires(response: string, tokens: seq<string>, n: nat, k: nat)
    requires (forall t :: t in tokens ==> IsToken(t)) && n < |tokens|
    requires Occurs(TokenPattern(tokens[n]), response)
    ensures LeakedIn(response, tokens, 0, n + 1) == LeakedIn(response, tokens, 0, n) + 1
    ensures SomeFound(response, tokens, n + 1, k) <==>
      SomeFound(response, tokens, n, k + 1) || FoundWith(TokenPattern(tokens[n]), response, k + 1)
  {
    var m, more := n + 1, k + 1;
    if i: nat :| FoundUnder(response, tokens, i, m, k) {
      UnderOneMore(response, tokens, i, n, k);
    }
    if i: nat :| FoundUnder(response, tokens, i, n, more) {
      UnderOneMore(response, tokens, i, n, k);
      assert FoundUnder(response, tokens, i, m, k);
    }
    if FoundWith(TokenPattern(tokens[n]), response, more) {
      UnderOneMore(response, tokens, n, n, k);
      assert FoundUnder(response, tokens, n, m, k);
    }
  }

  lemma OneMoreSilent(response: string, tokens: seq<string>, n: nat, k: nat)
    requires (forall t :: t in tokens ==> IsToken(t)) && n < |tokens|
    requires !Occurs(TokenPattern(tokens[n]), response)
    ensures LeakedIn(response, tokens, 0, n + 1) == LeakedIn(response, tokens, 0, n)
    ensures SomeFound(response, tokens, n + 1, k) <==> SomeFound(response, tokens, n, k)
  {
    var m := n + 1;
    if i: nat :| FoundUnder(response, tokens, i, m, k) {
      assert FoundUnder(response, tokens, i, n, k);
    }
    if i: nat :| FoundUnder(response, tokens, i, n, k) {
      assert FoundUnder(response, tokens, i, m, k);
    }
  }

  /** What one more round makes of the markers, told by the response. */
  lemma NextRound(response: string, tokens: seq<string>, n: nat, k: nat)
    requires (forall t :: t in tokens ==> IsToken(t)) && n < |tokens| && Separate(response, tokens) && k >= 1
    ensures var before, after := Rounds(response, tokens[..n]), Rounds(response, tokens[..n + 1]);
      MarkedBy(after, k) <==>
        if Occurs(TokenPattern(tokens[n]), response)
        then MarkedBy(before, k + 1) || FoundWith(TokenPattern(tokens[n]), response, k + 1)
        else MarkedBy(before, k)
  {
    var token, before := tokens[n], Rounds(response, tokens[..n]);
    assert tokens[..n + 1][..n] == tokens[..n];
    RoundsKeepSeparate(response, tokens, n);
    FiresIfLeaked(response, tokens, n);
    if Occurs(TokenPattern(token), response) {
      RoundTakesOne(before, token, k);
      RoundsKeepToken(response, tokens, n, n, k + 1);
    } else {
      RoundIs(before, token);
    }
  }

  /** After the first `n` rounds a marker has `k` prefixes exactly when the response shows it. */
  ghost predicate Told(response: string, tokens: seq<string>, n: nat, k: nat)
    requires n <= |tokens| && forall t :: t in tokens ==> IsToken(t)
  {
    MarkedBy(Rounds(response, tokens[..n]), k) <==>
      MarkedBy(response, k + LeakedIn(response, tokens, 0, n)) || SomeFound(response, tokens, n, k)
  }

  lemma ToldNext(response: string, tokens: seq<string>, n: nat, k: nat)
    requires (forall t :: t in tokens ==> IsToken(t)) && n < |tokens| && Separate(response, tokens) && k >= 1
    requires Told(response, tokens, n, k) && Told(response, tokens, n, k + 1)
    ensures Told(response, tokens, n + 1, k)
  {
    NextRound(response, tokens, n, k);
    if Occurs(TokenPattern(tokens[n]), response) {
      OneMoreFires(response, tokens, n, k);
    } else {
      OneMoreSilent(response, tokens, n, k);
    }
  }

  lemma ToldAtStart(response: string, tokens: seq<string>, k: nat)
    requires forall t :: t in tokens ==> IsToken(t)
    ensures Told(response, tokens, 0, k)
  {
    assert tokens[..0] == [];
  }

  lemma {:induction false} PrefixesAfter(response: string, tokens: seq<string>, n: nat, k: nat)
    requires (forall t :: t in tokens ==> IsToken(t)) && n <= |tokens| && Separate(response, tokens) && k >= 1
    ensures Told(response, tokens, n, k)
    decreases n
  {
    if n == 0 {
      ToldAtStart(response, tokens, k);
    } else {
      PrefixesAfter(response, tokens, n - 1, k);
      PrefixesAfter(response, tokens, n - 1, k + 1);
      ToldNext(response, tokens, n - 1, k);
    }
  }

  /** The residue, read off the response: a prefix is left in front of a marker exactly when a marker
      of the response itself has more prefixes than tokens leaked, or a token has more than leaked
      from its own round on. This holds where tokens keep apart from each other and from prefixes. */
  lemma ResidueInResponse(response: string, tokens: seq<string>)
    requires (forall t :: t in tokens ==> IsToken(t)) && Separate(response, tokens)
    ensures Occurs(PREFIX_PATTERN, Rounds(response, tokens)) <==>
      || MarkedBy(response, 1 + LeakedIn(response, tokens, 0, |tokens|))
      || SomeFound(response, tokens, |tokens|, 1)
  {
    assert tokens[..|tokens|] == tokens;
    PrefixesAfter(response, tokens, |tokens|, 1);
    MarkedByOne(Rounds(response, tokens));
  }

  // ----- a response whose token runs into a prefix -----

  const REST := "NRY-"

  lemma {:induction false} AnyCase(letters: string, k: nat, word: string)
    requires k <= |letters| && |word| == |letters| - k
    requires forall m :: 0 <= m < |word| ==> Lower(word[m]) == Lower(letters[k + m])
    ensures InLanguage(FuzzyPattern(letters)[k..], word)
    decreases |word|
  {
    if word == "" {
    } else {
      AnyCase(letters, k + 1, word[1..]);
      assert FuzzyPattern(letters)[k..][1..] == FuzzyPattern(letters)[k + 1..];
      assert Leads(FuzzyPattern(letters)[k..][0], word, 0);
    }
  }

  /** The letters of a prefix and a dash are one prefix more. */
  lemma PrefixAppended(front: string, letters: string, k: nat)
    requires |letters| == 4 && forall m :: 0 <= m < 4 ==> Lower(letters[m]) == Lower(PREFIX[m])
    ensures EndsIn(front + letters + "-", k + 1) <==> EndsIn(front, k)
  {
    var text, n := front + letters + "-", |front|;
    AnyCase(PREFIX[..4], 0, letters);
    assert FuzzyPattern(PREFIX[..4])[0..] == LETTERS;
    assert text[n..n + 4] == letters && text[n + 4..] == "-" && text[..n] == front;
    OneMorePrefix(text, n, n + 4, k);
  }

  predicate SpellsPrefix(letters: string)
  {
    |letters| == 4 && forall m :: 0 <= m < 4 ==> Lower(letters[m]) == Lower(PREFIX[m])
  }

  lemma TwoAppended(front: string, u: string, v: string, k: nat)
    requires SpellsPrefix(u) && SpellsPrefix(v) && EndsIn(front, k)
    ensures EndsIn(front + u + "-" + v + "-", k + 2)
  {
    PrefixAppended(front, u, k);
    PrefixAppended(front + u + "-", v, k + 1);
  }

  /** A digit and the letters that make a prefix of it. */
  function DigitSpelled(c: char): (letters: string)
    ensures Lower(c) == 'c' ==> SpellsPrefix(letters)
  {
    [c] + REST[..3]
  }

  lemma DigitAndRest(body: string, c: char)
    ensures body + DigitSpelled(c) + "-" + PREFIX[..4] + "-" == body + [c] + (REST + PREFIX)
    ensures SpellsPrefix(PREFIX[..4])
  {
    assert REST == REST[..3] + "-" && PREFIX == PREFIX[..4] + "-";
  }

  /** The last digit counts as the 'C' of a prefix as long as the token stands. */
  lemma TwoBeforeMarker(front: string, k: nat)
    requires front != "" && front[|front| - 1] == 'c' && EndsIn(front[..|front| - 1], k)
    ensures EndsIn(front + (REST + PREFIX), k + 2)
  {
    var body := front[..|front| - 1];
    DigitAndRest(body, 'c');
    TwoAppended(body, DigitSpelled('c'), PREFIX[..4], k);
    assert front == body + ['c'];
  }

  lemma NoPrefixWithoutC(text: string)
    requires forall m :: 0 <= m < |text| ==> Lower(text[m]) != 'c'
    ensures !EndsIn(text, 1)
  {
    if i: nat, e: nat :| LastPrefix(text, i, e) && EndsIn(text[..i], 0) {
      LastPrefixShape(text, i, e);
    }
  }

  /** Once the token is a marker, only one prefix is left before the next. */
  lemma OneBeforeMarker()
    ensures !EndsIn(REST + PREFIX, 2)
  {
    PrefixAppended(REST, PREFIX[..4], 1);
    assert REST + PREFIX[..4] + "-" == REST + PREFIX;
    NoPrefixWithoutC(REST);
  }

  lemma NoTokenInRest(hex: string, i: nat, e: nat)
    requires IsHexString(hex) && |hex| >= 5
    ensures !OccursAt(FuzzyPattern(hex), REST + PREFIX + MARKER, i, e)
  {
    var text := REST + PREFIX + MARKER;
    if OccursAt(FuzzyPattern(hex), text, i, e) {
      WordIsLong(FuzzyPattern(hex), text[i..e]);
      var at :=
        if i <= 2 then 2 else if i <= 5 then 5 else if i <= 9 then 9
        else if i <= 10 then 10 else if i <= 15 then 15 else 18;
      HexChars(hex, text, i, e, at);
    }
  }

  lemma StartsWithToken(hex: string, rest: string)
    requires IsHexString(hex)
    ensures OccursAt(FuzzyPattern(hex), hex + rest, 0, |hex|)
  {
    LiteralInLanguage(hex, 0);
    assert FuzzyPattern(hex)[0..] == FuzzyPattern(hex) && hex[0..] == hex && (hex + rest)[0..|hex|] == hex;
  }

  lemma RedactedFront(hex: string, rest: string)
    requires IsHexString(hex) && Solid(FuzzyPattern(hex)) && !Occurs(FuzzyPattern(hex), rest)
    ensures Sub(FuzzyPattern(hex), hex + rest) == MARKER + rest
  {
    var q, text := FuzzyPattern(hex), hex + rest;
    StartsWithToken(hex, rest);
    var hit, s, t := SubCuts(q, text);
    assert s == 0;
    MatchEndComplete(q, text, 0, |hex|);
    MatchEndComplete(q, text, 0, t);
    assert text[|hex|..] == rest && text[..0] == "";
    Untouched(q, rest);
  }

  lemma Untouched(pattern: Pattern, text: string)
    requires Solid(pattern) && pattern != [] && !Occurs(pattern, text)
    ensures Sub(pattern, text) == text
  {
    var hit, s, t := SubCuts(pattern, text);
  }

  lemma NothingMarked()
    ensures !MarkedBy(MARKER, 2) && !MarkedBy("", 2)
  {
    assert forall p: nat :: MarkAt(MARKER, p) ==> p == 0;
  }

  lemma MarkerTakesDigit()
    ensures !MarkedBy(MARKER + (REST + PREFIX) + MARKER, 2)
  {
    var u := REST + PREFIX;
    assert MARKER[0..10] == MARKER && MARKER + u + MARKER + "" == MARKER + u + MARKER;
    MarksJoin(MARKER, u, MARKER, "", 2);
    StopsAtBracket(MARKER, u);
    PrefixesBehind(MARKER, u, 2);
    OneBeforeMarker();
    NothingMarked();
  }

  lemma StandsInFront(token: string, rest: string)
    requires IsToken(token)
    ensures Occurs(TokenPattern(token), token[|PREFIX|..] + rest)
    ensures LeakedIn(token[|PREFIX|..] + rest, [token], 0, 1) == 1
  {
    var hex, response := token[|PREFIX|..], token[|PREFIX|..] + rest;
    StartsWithToken(hex, rest);
    assert OccursAt(TokenPattern(token), response, 0, |hex|);
  }

  lemma MarkedInFront(front: string, u: string, k: nat)
    requires EndsIn(front + u, k)
    ensures MarkedBy(front + (u + MARKER), k)
  {
    assert MARKER[0..10] == MARKER;
    MiddleMarker(front, u, MARKER, "", k);
    assert front + u + MARKER + "" == front + (u + MARKER);
    assert MarkedAt(front + (u + MARKER), |front + u|, k);
  }

  lemma RoundInFront(token: string, rest: string)
    requires IsToken(token) && !Occurs(TokenPattern(token), rest)
    ensures Solid(PREFIX_PATTERN) && PREFIX_PATTERN != []
    ensures Rounds(token[|PREFIX|..] + rest, [token]) == Sub(PREFIX_PATTERN, MARKER + rest)
  {
    var response := token[|PREFIX|..] + rest;
    StandsInFront(token, rest);
    RoundIs(response, token);
    RedactedFront(token[|PREFIX|..], rest);
    assert [token][..0] == [];
    assert Rounds(response, [token]) == Round(response, token);
  }

  lemma FusedRound(token: string, rest: string)
    requires IsToken(token) && rest == REST + PREFIX + MARKER
    ensures !Occurs(PREFIX_PATTERN, Rounds(token[|PREFIX|..] + rest, [token]))
  {
    if i: nat, e: nat :| OccursAt(TokenPattern(token), rest, i, e) {
      NoTokenInRest(token[|PREFIX|..], i, e);
    }
    RoundInFront(token, rest);
    assert MARKER + rest == MARKER + (REST + PREFIX) + MARKER;
    CleanupTakesOne(MARKER + rest, 1);
    MarkerTakesDigit();
    MarkedByOne(Sub(PREFIX_PATTERN, MARKER + rest));
  }

  /** So the count can fail where tokens are not separate. The response shows a marker with two
      prefixes and one leaked token, yet no prefix is left: the token's last digit, the 'C' of the
      outer prefix, goes with the token. */
  lemma FusedCountFails(token: string)
    requires IsToken(token) && token[|token| - 1] == 'c'
    ensures var response := token[|PREFIX|..] + (REST + PREFIX + MARKER);
      && MarkedBy(response, 1 + LeakedIn(response, [token], 0, 1))
      && !Occurs(PREFIX_PATTERN, Rounds(response, [token]))
  {
    TwoBeforeMarker(token[|PREFIX|..], 0);
    MarkedInFront(token[|PREFIX|..], REST + PREFIX, 2);
    StandsInFront(token, REST + PREFIX + MARKER);
    FusedRound(token, REST + PREFIX + MARKER);
  }
}
