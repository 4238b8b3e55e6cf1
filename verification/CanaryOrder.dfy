/**
 * Why the order of the tokens matters to canary redaction (src/core/canary.py:192-210): every round
 * that fires cleans the whole response once more.
 */
module CanaryOrder {
  import opened Basics
  import opened Canary
  import opened CanaryResidue

  // ----- substitution on the two sides of a character -----

  /** No word of the pattern covers the character. */
  ghost predicate Stops(pattern: Pattern, stop: char)
  {
    !IsSep(stop) && forall i :: 0 <= i < |pattern| ==> !SameLetter(stop, pattern[i])
  }

  lemma MatchesStop(pattern: Pattern, text: string, i: nat, e: nat, at: nat)
    requires OccursAt(pattern, text, i, e) && at < |text| && Stops(pattern, text[at])
    ensures e <= at || at < i
  {
    if i <= at < e {
      assert text[i..e][at - i] == text[at];
      WordLetters(pattern, text[i..e], at - i);
    }
  }

  /** A substitution works on the two sides of such a character separately. */
  lemma {:induction false} SubAcross(pattern: Pattern, left: string, stop: char, right: string)
    requires Solid(pattern) && pattern != [] && Stops(pattern, stop)
    ensures Sub(pattern, left + [stop] + right) == Sub(pattern, left) + [stop] + Sub(pattern, right)
    decreases |left|
  {
    var text, n := left + [stop] + right, |left|;
    assert text[n] == stop && text[..n] == left && text[n + 1..] == right;
    SearchIsLeftmost(pattern, text, 0);
    match Search(pattern, text, 0)
    case None =>
      NoneOnEitherSide(pattern, text, n);
    case Some((s, t)) =>
      MatchesStop(pattern, text, s, t, n);
      if t <= n {
        SubAcross(pattern, left[t..], stop, right);
        FirstOnTheLeft(pattern, left, stop, right, s, t);
      } else {
        FirstOnTheRight(pattern, text, n, s, t);
        assert text[..n + 1] == left + [stop];
      }
  }

  lemma FirstOnTheLeft(pattern: Pattern, left: string, stop: char, right: string, s: nat, t: nat)
    requires Solid(pattern) && pattern != [] && s < t <= |left|
    requires var text := left + [stop] + right;
      && Search(pattern, text, 0) == Some((s, t)) && OccursAt(pattern, text, s, t) && Unmatched(pattern, text, 0, s)
    requires Sub(pattern, left[t..] + [stop] + right) == Sub(pattern, left[t..]) + [stop] + Sub(pattern, right)
    ensures Sub(pattern, left + [stop] + right) == Sub(pattern, left) + [stop] + Sub(pattern, right)
  {
    var text := left + [stop] + right;
    LeftParts(left, stop, right, s, t);
    LeftmostOf(pattern, text, 0, |left|, s, t);
    SubOf(pattern, text, s, t);
    SubOf(pattern, left, s, t);
    Regroup(left[..s] + MARKER, Sub(pattern, left[t..]), [stop] + Sub(pattern, right));
    Regroup(Sub(pattern, left[t..]), [stop], Sub(pattern, right));
    Regroup(left[..s] + MARKER + Sub(pattern, left[t..]), [stop], Sub(pattern, right));
  }

  lemma LeftParts(left: string, stop: char, right: string, s: nat, t: nat)
    requires s <= t <= |left|
    ensures var text := left + [stop] + right;
      text[0..|left|] == left && text[t..] == left[t..] + [stop] + right && text[..s] == left[..s]
  {
  }

  lemma Regroup(a: string, b: string, c: string)
    ensures a + (b + c) == a + b + c
  {
  }

  lemma SubOf(pattern: Pattern, text: string, s: nat, t: nat)
    requires Solid(pattern) && pattern != [] && s < t <= |text| && Search(pattern, text, 0) == Some((s, t))
    ensures Sub(pattern, text) == text[..s] + MARKER + Sub(pattern, text[t..])
  {
  }

  lemma FirstOnTheRight(pattern: Pattern, text: string, n: nat, s: nat, t: nat)
    requires Solid(pattern) && pattern != [] && n < s < t <= |text| && Search(pattern, text, 0) == Some((s, t))
    requires OccursAt(pattern, text, s, t) && Unmatched(pattern, text, 0, s)
    ensures Sub(pattern, text[..n]) == text[..n]
    ensures Sub(pattern, text) == text[..n + 1] + Sub(pattern, text[n + 1..])
  {
    NoMatchBefore(pattern, text, n);
    NoSub(pattern, text[..n]);
    RightMatched(pattern, text, n + 1, s, t);
    SubOf(pattern, text, s, t);
    assert text[..s] == text[..n + 1] + text[n + 1..s];
    Assemble(Sub(pattern, text), text[..s], MARKER, text[..n + 1], text[n + 1..s], Sub(pattern, text[t..]),
             Sub(pattern, text[n + 1..]));
  }

  lemma RightMatched(pattern: Pattern, text: string, n: nat, s: nat, t: nat)
    requires Solid(pattern) && pattern != [] && n <= s < t <= |text|
    requires OccursAt(pattern, text, s, t) && Unmatched(pattern, text, 0, s)
    ensures Sub(pattern, text[n..]) == text[n..s] + MARKER + Sub(pattern, text[t..])
  {
    var right := text[n..];
    assert text[n..|text|] == right;
    LeftmostOf(pattern, text, n, |text|, s, t);
    SubOf(pattern, right, s - n, t - n);
    assert right[..s - n] == text[n..s] && right[t - n..] == text[t..];
  }

  lemma Assemble(whole: string, front: string, marker: string, u: string, r: string, rest: string, right: string)
    requires whole == front + marker + rest && front == u + r && right == r + marker + rest
    ensures whole == u + right
  {
    RegroupTwice(u, r, marker, rest);
  }

  lemma RegroupTwice(a: string, b: string, c: string, d: string)
    ensures a + b + c + d == a + (b + c + d)
  {
    Regroup(a, b, c);
    Regroup(a, b + c, d);
  }

  lemma NoSub(pattern: Pattern, text: string)
    requires Solid(pattern) && pattern != [] && !Occurs(pattern, text)
    ensures Sub(pattern, text) == text
  {
    var hit, s, t := SubSplits(pattern, text);
    assert hit ==> OccursAt(pattern, text, s, t);
  }

  lemma NoneOnEitherSide(pattern: Pattern, text: string, n: nat)
    requires Solid(pattern) && pattern != [] && n < |text| && Unmatched(pattern, text, 0, |text| + 1)
    ensures Sub(pattern, text[..n]) == text[..n] && Sub(pattern, text[n + 1..]) == text[n + 1..]
  {
    NoMatchBefore(pattern, text, n);
    NoSub(pattern, text[..n]);
    if Occurs(pattern, text[n + 1..]) {
      assert text[n + 1..|text|] == text[n + 1..];
      OccursInPart(pattern, text, n + 1, |text|);
    }
    NoSub(pattern, text[n + 1..]);
  }

  /** The leftmost match of a text, if it lies in a part of it, is the leftmost match of the part. */
  lemma LeftmostOf(pattern: Pattern, text: string, lo: nat, hi: nat, s: nat, t: nat)
    requires Solid(pattern) && pattern != [] && lo <= s < t <= hi <= |text|
    requires OccursAt(pattern, text, s, t) && Unmatched(pattern, text, 0, s)
    ensures Search(pattern, text[lo..hi], 0) == Some((s - lo, t - lo))
  {
    SliceOfSlice(text, lo, hi, s - lo, t - lo);
    assert lo + (s - lo) == s && lo + (t - lo) == t;
    forall a: nat, e: nat | a < s - lo && OccursAt(pattern, text[lo..hi], a, e)
      ensures false
    {
      SliceOfSlice(text, lo, hi, a, e);
      assert OccursAt(pattern, text, lo + a, lo + e);
    }
    OneLeftmost(pattern, text[lo..hi], s - lo, t - lo);
  }

  lemma OneLeftmost(pattern: Pattern, text: string, s: nat, t: nat)
    requires Solid(pattern) && pattern != [] && OccursAt(pattern, text, s, t) && Unmatched(pattern, text, 0, s)
    ensures Search(pattern, text, 0) == Some((s, t))
  {
    SearchIsLeftmost(pattern, text, 0);
    var (i, e) := Search(pattern, text, 0).value;
    assert i == s;
    MatchEndComplete(pattern, text, i, e);
    MatchEndComplete(pattern, text, s, t);
  }

  // ----- a round on two sides -----

  const STOP := ';'

  function Cleaned(text: string): string
  {
    PrefixPatternIsSolid();
    Sub(PREFIX_PATTERN, text)
  }

  lemma TokensStop(token: string)
    requires IsToken(token)
    ensures Stops(TokenPattern(token), STOP)
  {
  }

  lemma PrefixStops()
    ensures Stops(PREFIX_PATTERN, STOP)
  {
    var p := "CNRY[redacted]";
    assert forall i :: 0 <= i < |PREFIX_PATTERN| ==> PREFIX_PATTERN[i].c == p[i];
  }

  lemma OccursOnSomeSide(pattern: Pattern, left: string, stop: char, right: string)
    requires Stops(pattern, stop) && Solid(pattern) && pattern != []
    ensures Occurs(pattern, left + [stop] + right) <==> Occurs(pattern, left) || Occurs(pattern, right)
  {
    var text, n := left + [stop] + right, |left|;
    assert text[0..n] == left && text[n + 1..|text|] == right && text[n] == stop;
    if Occurs(pattern, left) {
      OccursInPart(pattern, text, 0, n);
    }
    if Occurs(pattern, right) {
      OccursInPart(pattern, text, n + 1, |text|);
    }
    if i: nat, e: nat :| OccursAt(pattern, text, i, e) {
      MatchesStop(pattern, text, i, e, n);
      if e <= n {
        OccursWithin(pattern, text, 0, n, i, e);
      } else {
        OccursWithin(pattern, text, n + 1, |text|, i, e);
      }
    }
  }

  /** A firing round replaces and cleans on both sides, wherever the token stands. */
  lemma RoundAcross(token: string, left: string, right: string)
    requires IsToken(token) && (Occurs(TokenPattern(token), left) || Occurs(TokenPattern(token), right))
    ensures Round(left + [STOP] + right, token)
      == Cleaned(Redacted(left, token)) + [STOP] + Cleaned(Redacted(right, token))
  {
    TokenFacts(token);
    TokensStop(token);
    PrefixPatternIsSolid();
    PrefixStops();
    OccursOnSomeSide(TokenPattern(token), left, STOP, right);
    SearchFindsOccurrence(token, left + [STOP] + right);
    SubAcross(TokenPattern(token), left, STOP, right);
    SubAcross(PREFIX_PATTERN, Redacted(left, token), STOP, Redacted(right, token));
  }

  // ----- prefixes and markers -----

  /** Where nothing is redacted and no marker stands, the cleanup changes nothing. */
  lemma CleanedWithoutMarker(text: string)
    requires '[' !in text
    ensures Cleaned(text) == text
  {
    PrefixPatternIsSolid();
    if i: nat, e: nat :| OccursAt(PREFIX_PATTERN, text, i, e) {
      PrefixWordShape(text[i..e]);
      assert text[e - 10] in text;
      Brackets(text[i..e], e - i - 10);
    }
    NoSub(PREFIX_PATTERN, text);
  }

  /** The last match of a text is the first, if the text holds one bracket. */
  lemma CleanedAtEnd(text: string, s: nat)
    requires s < |text| && InLanguage(PREFIX_PATTERN, text[s..]) && '[' !in text[..s]
    ensures Cleaned(text) == text[..s] + MARKER
  {
    PrefixPatternIsSolid();
    assert text[s..|text|] == text[s..];
    assert OccursAt(PREFIX_PATTERN, text, s, |text|);
    forall i: nat, e: nat | i < s && OccursAt(PREFIX_PATTERN, text, i, e)
      ensures false
    {
      NoEarlierMatch(text, s, i, e);
    }
    OneLeftmost(PREFIX_PATTERN, text, s, |text|);
    SubOf(PREFIX_PATTERN, text, s, |text|);
    assert text[|text|..] == "";
    var hit, s', t' := SubSplits(PREFIX_PATTERN, "");
    assert text[..s] + MARKER + "" == text[..s] + MARKER;
  }

  lemma NoEarlierMatch(text: string, s: nat, i: nat, e: nat)
    requires s < |text| && InLanguage(PREFIX_PATTERN, text[s..]) && '[' !in text[..s]
    requires OccursAt(PREFIX_PATTERN, text, i, e)
    ensures i >= s
  {
    var last, word := text[s..], text[i..e];
    PrefixWordShape(last);
    PrefixWordShape(word);
    BracketPlace(text, s, i, e);
    assert last[0] == text[s];
    if i < s {
      assert word[s - i] == text[s];
      Brackets(word, s - i);
    }
  }

  lemma BracketPlace(text: string, s: nat, i: nat, e: nat)
    requires s < |text| && '[' !in text[..s] && i < e <= |text| && Shaped(text[s..]) && Shaped(text[i..e])
    ensures e == |text|
  {
    var last, word, at := text[s..], text[i..e], e - 10;
    assert forall k :: 0 <= k < s ==> text[k] == text[..s][k] != '[';
    assert word[at - i] == text[at];
    Brackets(word, at - i);
    assert last[at - s] == text[at];
    Brackets(last, at - s);
  }

  lemma PrefixMarker()
    ensures InLanguage(PREFIX_PATTERN, PREFIX + MARKER)
  {
    var word := PREFIX + MARKER;
    PatternsByParts();
    LiteralInLanguage(PREFIX[..4], 0);
    assert LETTERS[0..] == LETTERS && PREFIX[..4][0..] == PREFIX[..4];
    LiteralWord(MARKER, MARKER);
    assert word[..4] == PREFIX[..4] && word[5..] == MARKER && word[4..5] == ['-'];
    JoinGap(LETTERS, Literal(MARKER, false), word, 4, 5);
  }

  lemma CleanedMarkers()
    ensures Cleaned(MARKER) == MARKER
    ensures Cleaned(PREFIX + MARKER) == MARKER
    ensures Cleaned(PREFIX + PREFIX + MARKER) == PREFIX + MARKER
  {
    CleanedMarker();
    CleanedBehind("", PREFIX + MARKER);
    CleanedBehind(PREFIX, PREFIX + MARKER);
    assert "" + (PREFIX + MARKER) == PREFIX + MARKER && "" + MARKER == MARKER;
    assert PREFIX + (PREFIX + MARKER) == PREFIX + PREFIX + MARKER;
  }

  lemma CleanedMarker()
    ensures Cleaned(MARKER) == MARKER
  {
    PrefixPatternIsSolid();
    if i: nat, e: nat :| OccursAt(PREFIX_PATTERN, MARKER, i, e) {
      WordIsLong(PREFIX_PATTERN, MARKER[i..e]);
    }
    NoSub(PREFIX_PATTERN, MARKER);
  }

  lemma CleanedBehind(text: string, marked: string)
    requires '[' !in text && marked == PREFIX + MARKER
    ensures Cleaned(text + marked) == text + MARKER
  {
    PrefixMarker();
    assert (text + marked)[|text|..] == marked && (text + marked)[..|text|] == text;
    CleanedAtEnd(text + marked, |text|);
  }

  // ----- two leaked tokens -----

  /** A token that starts no match in the text before its hex part is redacted there. */
  lemma RedactedTail(token: string, head: string)
    requires IsToken(token)
    requires forall i: nat, e: nat :: OccursAt(TokenPattern(token), head + token[|PREFIX|..], i, e) ==> i >= |head|
    ensures Redacted(head + token[|PREFIX|..], token) == head + MARKER
  {
    var hex, p := token[|PREFIX|..], TokenPattern(token);
    var text := head + hex;
    TokenFacts(token);
    LiteralInLanguage(hex, 0);
    assert p[0..] == p && hex[0..] == hex && text[|head|..|text|] == hex;
    assert OccursAt(p, text, |head|, |text|);
    OneLeftmost(p, text, |head|, |text|);
    SubOf(p, text, |head|, |text|);
    assert text[..|head|] == head && text[|text|..] == "";
    var hit, s, t := SubSplits(p, "");
    assert head + MARKER + "" == head + MARKER;
  }

  lemma RedactedToken(token: string)
    requires IsToken(token)
    ensures Redacted(token, token) == PREFIX + MARKER
  {
    var hex, p := token[|PREFIX|..], TokenPattern(token);
    assert token == PREFIX + hex;
    forall i: nat, e: nat | OccursAt(p, PREFIX + hex, i, e)
      ensures i >= |PREFIX|
    {
      ShiftedMatch(p, PREFIX, PREFIX + hex, i, e);
      assert PREFIX + (PREFIX + hex) == PREFIX + PREFIX + hex;
      MatchesAfterPrefixes(hex, hex, i + 5, e + 5);
    }
    RedactedTail(token, PREFIX);
  }

  lemma ShiftedMatch(pattern: Pattern, head: string, text: string, i: nat, e: nat)
    requires OccursAt(pattern, text, i, e)
    ensures OccursAt(pattern, head + text, i + |head|, e + |head|)
  {
    assert (head + text)[i + |head|..e + |head|] == text[i..e];
  }

  /** A word as long as the token, without separators, is the token. */
  lemma {:induction false} ExactWord(hex: string, k: nat, word: string)
    requires k <= |hex| && |word| == |hex| - k && InLanguage(FuzzyPattern(hex)[k..], word)
    ensures SameText(word, hex[k..])
    decreases |word|
  {
    if word == "" {
    } else {
      var p := FuzzyPattern(hex)[k..];
      var j := FirstOf(p, word);
      assert p[1..] == FuzzyPattern(hex)[k + 1..];
      WordIsLong(p[1..], word[j + 1..]);
      ExactWord(hex, k + 1, word[1..]);
      assert hex[k..][1..] == hex[k + 1..];
      assert forall m :: 1 <= m < |word| ==> word[m] == word[1..][m - 1] && hex[k..][m] == hex[k..][1..][m - 1];
    }
  }

  /** Two tokens of one length do not occur in each other's text. */
  lemma TokensApart(a: string, b: string)
    requires IsToken(a) && IsToken(b) && |a| == |b| && a != b
    ensures !Occurs(TokenPattern(a), PREFIX + b) && !Occurs(TokenPattern(a), b)
  {
    var ha, hb, text := a[|PREFIX|..], b[|PREFIX|..], PREFIX + b;
    assert text == PREFIX + PREFIX + hb && text[5..|text|] == b;
    assert ha != hb by {
      assert a == PREFIX + ha && b == PREFIX + hb;
    }
    if i: nat, e: nat :| OccursAt(TokenPattern(a), text, i, e) {
      MatchesAfterPrefixes(ha, hb, i, e);
      WordIsLong(TokenPattern(a), text[i..e]);
      assert i == 10 && e == |text| && text[i..e] == hb;
      assert FuzzyPattern(ha)[0..] == TokenPattern(a) && ha[0..] == ha;
      ExactWord(ha, 0, hb);
      assert false;
    }
    if Occurs(TokenPattern(a), b) {
      OccursInPart(TokenPattern(a), text, 5, |text|);
    }
  }

  lemma NotInEmpty(pattern: Pattern)
    requires pattern != []
    ensures !Occurs(pattern, "")
  {
  }

  /** Nor does a token occur in a marker behind a prefix. */
  lemma TokenNotInMarker(token: string)
    requires IsToken(token)
    ensures !Occurs(TokenPattern(token), PREFIX + MARKER)
  {
    var hex := token[|PREFIX|..];
    TokenFacts(token);
    if i: nat, e: nat :| OccursAt(FuzzyPattern(hex), PREFIX, i, e) {
      StopsAt(hex, PREFIX, i, e, 1);
      WordIsLong(FuzzyPattern(hex), PREFIX[i..e]);
    }
    NotInEmpty(FuzzyPattern(hex));
    SpliceKeepsClean(hex, PREFIX, "");
    assert PREFIX + MARKER + "" == PREFIX + MARKER;
  }

  lemma NoMarkerIn(token: string)
    requires IsToken(token)
    ensures Cleaned(token) == token && Cleaned(PREFIX + token) == PREFIX + token
  {
    assert token == PREFIX + token[|PREFIX|..];
    forall i | 0 <= i < |token|
      ensures token[i] != '['
    {
      if i >= |PREFIX| {
        assert token[|PREFIX|..][i - |PREFIX|] == token[i];
      }
    }
    CleanedWithoutMarker(token);
    CleanedWithoutMarker(PREFIX + token);
  }

  /** One response, two leaked tokens, the first with a second prefix: tried in one order the
      second round cleans up after the first, tried in the other a prefix is left over. */
  lemma OrderMatters(a: string, b: string)
    requires IsToken(a) && IsToken(b) && |a| == |b| && a != b
    ensures Rounds("CNRY-" + a + ";" + b, [a, b]) == "[redacted];[redacted]"
    ensures Rounds("CNRY-" + a + ";" + b, [b, a]) == "CNRY-[redacted];[redacted]"
  {
    WrittenOut(a, b);
    FirstThenSecond(a, b);
    SecondThenFirst(a, b);
  }

  lemma WrittenOut(a: string, b: string)
    ensures PREFIX + a + [STOP] + b == "CNRY-" + a + ";" + b
    ensures MARKER + [STOP] + MARKER == "[redacted];[redacted]"
    ensures PREFIX + MARKER + [STOP] + MARKER == "CNRY-[redacted];[redacted]"
  {
  }

  lemma Unredacted(token: string, text: string)
    requires IsToken(token) && !Occurs(TokenPattern(token), text)
    ensures Redacted(text, token) == text
  {
    TokenFacts(token);
    NoSub(TokenPattern(token), text);
  }

  lemma TwoRounds(response: string, a: string, b: string)
    requires IsToken(a) && IsToken(b)
    ensures Rounds(response, [a, b]) == Round(Round(response, a), b)
  {
    assert [a, b][..1] == [a] && [a][..0] == [];
    assert Rounds(response, [a]) == Round(response, a);
  }

  lemma OccursInItself(token: string)
    requires IsToken(token)
    ensures Occurs(TokenPattern(token), token) && Occurs(TokenPattern(token), PREFIX + token)
  {
    assert ContainsAt(token, token, 0) && ContainsAt(PREFIX + token, token, |PREFIX|);
    ExactIsFuzzy(token, token);
    ExactIsFuzzy(token, PREFIX + token);
  }

  lemma FirstThenSecond(a: string, b: string)
    requires IsToken(a) && IsToken(b) && |a| == |b| && a != b
    ensures Rounds(PREFIX + a + [STOP] + b, [a, b]) == MARKER + [STOP] + MARKER
  {
    TwoRounds(PREFIX + a + [STOP] + b, a, b);
    CleanedMarkers();
    OccursInItself(a);
    TokensApart(a, b);
    Unredacted(a, b);
    NoMarkerIn(b);
    RedactedAfterPrefixes(a);
    RoundAcross(a, PREFIX + a, b);
    OccursInItself(b);
    TokenNotInMarker(b);
    Unredacted(b, PREFIX + MARKER);
    RedactedToken(b);
    RoundAcross(b, PREFIX + MARKER, b);
  }

  lemma SecondThenFirst(a: string, b: string)
    requires IsToken(a) && IsToken(b) && |a| == |b| && a != b
    ensures Rounds(PREFIX + a + [STOP] + b, [b, a]) == PREFIX + MARKER + [STOP] + MARKER
  {
    TwoRounds(PREFIX + a + [STOP] + b, b, a);
    CleanedMarkers();
    OccursInItself(b);
    TokensApart(b, a);
    Unredacted(b, PREFIX + a);
    NoMarkerIn(a);
    RedactedToken(b);
    RoundAcross(b, PREFIX + a, b);
    OccursInItself(a);
    TokenFacts(a);
    Unredacted(a, MARKER);
    RedactedAfterPrefixes(a);
    RoundAcross(a, PREFIX + a, MARKER);
  }
}
