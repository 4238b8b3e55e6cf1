/**
 * When the prefix cleanup of canary redaction leaves a prefix behind (src/core/canary.py:82-91,
 * 206-210): exactly when the prefix stood there twice.
 */
module CanaryResidue {
  import opened Basics
  import opened Canary

  const LETTERS: Pattern := FuzzyPattern(PREFIX[..4])

  /** The pattern with separators allowed in front. */
  function Gapped(p: Pattern): Pattern
    requires p != []
  {
    [Atom(p[0].c, true)] + p[1..]
  }

  /** The letters of the prefix and, however spaced, a match of the cleanup's own pattern. */
  const DOUBLED_PATTERN: Pattern := LETTERS + Gapped(PREFIX_PATTERN)

  ghost predicate Separators(text: string)
  {
    forall m :: 0 <= m < |text| ==> IsSep(text[m])
  }

  predicate SameText(word: string, literal: string)
  {
    |word| == |literal| && forall m :: 0 <= m < |word| ==> Lower(word[m]) == Lower(literal[m])
  }

  /** The text ends in the letters of the prefix and separators. */
  ghost predicate EndsInPrefix(text: string)
  {
    exists i: nat, e: nat :: OccursAt(LETTERS, text, i, e) && Separators(text[e..])
  }

  // ----- words of the patterns -----

  lemma FirstAtom(p: Pattern, q: Pattern)
    requires p != []
    ensures (p + q)[0] == p[0] && (p + q)[1..] == p[1..] + q
  {
  }

  lemma WordSlices(word: string, j: nat, k: nat)
    requires j < k <= |word|
    ensures word[..k][j + 1..] == word[j + 1..][..k - j - 1] && word[j + 1..][k - j - 1..] == word[k..]
  {
  }

  lemma LeadsFurther(a: Atom, u: string, v: string, j: nat)
    requires Leads(a, u, j)
    ensures Leads(a, u + v, j) && (u + v)[j + 1..] == u[j + 1..] + v
  {
  }

  lemma {:induction false} SplitWord(p: Pattern, q: Pattern, word: string) returns (k: nat)
    requires InLanguage(p + q, word)
    ensures k <= |word| && InLanguage(p, word[..k]) && InLanguage(q, word[k..])
    decreases |p|
  {
    if p == [] {
      assert p + q == q;
      k := 0;
    } else {
      FirstAtom(p, q);
      var j := FirstOf(p + q, word);
      var rest := SplitWord(p[1..], q, word[j + 1..]);
      k := j + 1 + rest;
      WordSlices(word, j, k);
      LeadsOn(p, word[..k], j);
    }
  }

  lemma {:induction false} JoinWords(p: Pattern, q: Pattern, u: string, v: string)
    requires InLanguage(p, u) && InLanguage(q, v)
    ensures InLanguage(p + q, u + v)
    decreases |p|
  {
    if p == [] {
      assert p + q == q && u + v == v;
    } else {
      FirstAtom(p, q);
      var j := FirstOf(p, u);
      JoinWords(p[1..], q, u[j + 1..], v);
      LeadsFurther(p[0], u, v, j);
      LeadsOn(p + q, u + v, j);
    }
  }

  lemma {:induction false} LiteralWord(literal: string, word: string)
    ensures InLanguage(Literal(literal, false), word) <==> SameText(word, literal)
    decreases |literal|
  {
    if literal == "" {
    } else {
      var p := Literal(literal, false);
      assert p[1..] == Literal(literal[1..], false);
      if word != "" {
        LiteralWord(literal[1..], word[1..]);
        assert Leads(p[0], word, 0) <==> Lower(word[0]) == Lower(literal[0]);
        if SameText(word, literal) {
          assert SameText(word[1..], literal[1..]);
        }
        if SameText(word[1..], literal[1..]) && Lower(word[0]) == Lower(literal[0]) {
          assert forall m :: 1 <= m < |word| ==> word[m] == word[1..][m - 1] && literal[m] == literal[1..][m - 1];
        }
      }
    }
  }

  /** A word cut in three: a word of `p`, separators, and a word of `q`. */
  ghost predicate CutAt(p: Pattern, q: Pattern, word: string, a: nat, b: nat)
  {
    a <= b <= |word| && InLanguage(p, word[..a]) && Separators(word[a..b]) && InLanguage(q, word[b..])
  }

  lemma GappedWord(q: Pattern, word: string, j: nat)
    requires q != [] && !q[0].gap && j < |word|
    ensures Leads(Gapped(q)[0], word, j) && InLanguage(Gapped(q)[1..], word[j + 1..])
      <==> Separators(word[..j]) && InLanguage(q, word[j..])
  {
    assert Gapped(q)[1..] == q[1..];
    assert word[j..][1..] == word[j + 1..];
    assert Separators(word[..j]) <==> forall m :: 0 <= m < j ==> IsSep(word[m]);
    assert Leads(q[0], word[j..], 0) <==> SameLetter(word[j], q[0]);
  }

  lemma TakeGap(q: Pattern, word: string) returns (j: nat)
    requires q != [] && !q[0].gap && InLanguage(Gapped(q), word)
    ensures j <= |word| && Separators(word[..j]) && InLanguage(q, word[j..])
  {
    j :| Leads(Gapped(q)[0], word, j) && InLanguage(Gapped(q)[1..], word[j + 1..]);
    GappedWord(q, word, j);
  }

  lemma PutGap(q: Pattern, word: string, j: nat)
    requires q != [] && !q[0].gap
    requires j <= |word| && Separators(word[..j]) && InLanguage(q, word[j..])
    ensures InLanguage(Gapped(q), word)
  {
    WordNotEmpty(q, word[j..]);
    GappedWord(q, word, j);
  }

  lemma SplitGap(p: Pattern, q: Pattern, word: string) returns (a: nat, b: nat)
    requires q != [] && !q[0].gap && InLanguage(p + Gapped(q), word)
    ensures CutAt(p, q, word, a, b)
  {
    a := SplitWord(p, Gapped(q), word);
    var j := TakeGap(q, word[a..]);
    b := a + j;
    assert word[a..b] == word[a..][..j] && word[b..] == word[a..][j..];
  }

  lemma JoinGap(p: Pattern, q: Pattern, word: string, a: nat, b: nat)
    requires q != [] && !q[0].gap && CutAt(p, q, word, a, b)
    ensures InLanguage(p + Gapped(q), word)
  {
    assert word[a..b] == word[a..][..b - a] && word[b..] == word[a..][b - a..];
    PutGap(q, word[a..], b - a);
    JoinWords(p, Gapped(q), word[..a], word[a..]);
    assert word[..a] + word[a..] == word;
  }

  lemma PatternsByParts()
    ensures PREFIX_PATTERN == LETTERS + Gapped(Literal(MARKER, false))
    ensures PREFIX_PATTERN != [] && !PREFIX_PATTERN[0].gap
  {
  }

  lemma Cut(word: string) returns (a: nat, b: nat)
    requires InLanguage(PREFIX_PATTERN, word)
    ensures b == |word| - 10 && CutAt(LETTERS, Literal(MARKER, false), word, a, b)
  {
    PatternsByParts();
    a, b := SplitGap(LETTERS, Literal(MARKER, false), word);
    LiteralWord(MARKER, word[b..]);
  }

  // ----- where the letters and brackets of a word stand -----

  predicate IsLetterOrSep(c: char) { IsSep(c) || Lower(c) == 'n' || Lower(c) == 'r' || Lower(c) == 'y' }

  lemma LettersWord(word: string)
    requires InLanguage(LETTERS, word)
    ensures word != "" && Lower(word[0]) == 'c'
    ensures forall m :: 1 <= m < |word| ==> IsLetterOrSep(word[m])
  {
    var k: nat :| Leads(LETTERS[0], word, k) && InLanguage(LETTERS[1..], word[k + 1..]);
    forall m | 1 <= m < |word|
      ensures IsLetterOrSep(word[m])
    {
      WordLetters(LETTERS[1..], word[1..], m - 1);
      if !IsSep(word[m]) {
        var i :| 0 <= i < |LETTERS[1..]| && SameLetter(word[1..][m - 1], LETTERS[1..][i]);
        assert LETTERS[1..][i].c == PREFIX[i + 1];
      }
    }
  }

  /** The one 'C' before the marker comes first, and each bracket stands once, in the marker. */
  ghost predicate Shaped(word: string)
  {
    var n := |word|;
    && n >= 14 && Lower(word[0]) == 'c'
    && (forall m :: 1 <= m < n - 10 ==> IsLetterOrSep(word[m]))
    && SameText(word[n - 10..], MARKER)
  }

  lemma PrefixWordShape(word: string)
    requires InLanguage(PREFIX_PATTERN, word)
    ensures Shaped(word)
  {
    var a, b := Cut(word);
    LiteralWord(MARKER, word[b..]);
    LettersWord(word[..a]);
    WordIsLong(LETTERS, word[..a]);
    ShapeOf(word, a, b);
  }

  lemma ShapeOf(word: string, a: nat, b: nat)
    requires 4 <= a <= b == |word| - 10
    requires Lower(word[..a][0]) == 'c' && forall m :: 1 <= m < a ==> IsLetterOrSep(word[..a][m])
    requires Separators(word[a..b]) && SameText(word[b..], MARKER)
    ensures Shaped(word)
  {
  }

  lemma Brackets(word: string, m: nat)
    requires Shaped(word) && m < |word|
    ensures word[m] == '[' <==> m == |word| - 10
    ensures word[m] == ']' <==> m == |word| - 1
    ensures 1 <= m < |word| - 10 ==> Lower(word[m]) != 'c'
  {
  }

  // ----- a marker in a text -----

  /** A stretch without a match, a fresh marker and the rest hold a match exactly when the stretch
      ends in a prefix or the rest holds one. */
  lemma MarkerJoins(left: string, right: string)
    requires !Occurs(PREFIX_PATTERN, left)
    ensures Occurs(PREFIX_PATTERN, left + MARKER + right) <==> EndsInPrefix(left) || Occurs(PREFIX_PATTERN, right)
  {
    var text, n := left + MARKER + right, |left|;
    assert text[..n] == left && text[n + 10..] == right && text[n..n + 10] == MARKER;
    if EndsInPrefix(left) {
      PrefixMeetsMarker(left, right);
    }
    if Occurs(PREFIX_PATTERN, right) {
      assert text[n + 10..|text|] == right;
      OccursInPart(PREFIX_PATTERN, text, n + 10, |text|);
    }
    if i: nat, e: nat :| OccursAt(PREFIX_PATTERN, text, i, e) {
      MatchMeetsMarker(left, right, i, e);
    }
  }

  lemma PrefixMeetsMarker(left: string, right: string)
    requires EndsInPrefix(left)
    ensures Occurs(PREFIX_PATTERN, left + MARKER + right)
  {
    var i: nat, e: nat :| OccursAt(LETTERS, left, i, e) && Separators(left[e..]);
    PatternsByParts();
    LiteralWord(MARKER, MARKER);
    PrefixMeetsWord(LETTERS, Literal(MARKER, false), left, MARKER, right, i, e);
    assert OccursAt(PREFIX_PATTERN, left + MARKER + right, i, |left| + |MARKER|);
  }

  /** A word of `p`, separators up to the end of `left`, and a word of `q` make a match. */
  lemma PrefixMeetsWord(p: Pattern, q: Pattern, left: string, word: string, right: string, i: nat, e: nat)
    requires q != [] && !q[0].gap && InLanguage(q, word)
    requires OccursAt(p, left, i, e) && Separators(left[e..])
    ensures OccursAt(p + Gapped(q), left + word + right, i, |left| + |word|)
  {
    var found := (left + word + right)[i..|left| + |word|];
    JoinedSlices(left, word, right, i, e);
    JoinGap(p, q, found, e - i, |left| - i);
  }

  lemma JoinedSlices(left: string, word: string, right: string, i: nat, e: nat)
    requires i <= e <= |left|
    ensures var found := (left + word + right)[i..|left| + |word|];
      found[..e - i] == left[i..e] && found[e - i..|left| - i] == left[e..] && found[|left| - i..] == word
  {
  }

  /** A slice that begins in the first part of a text, cut up to the end of that part. */
  lemma LeftSlices(left: string, text: string, i: nat, e: nat, a: nat)
    requires left <= text && i + a <= |left| <= e <= |text|
    ensures text[i..e][..a] == left[i..i + a] && text[i..e][a..|left| - i] == left[i + a..]
  {
    SliceOfSlice(text, i, e, 0, a);
    SliceOfSlice(text, i, e, a, |left| - i);
    assert left == text[..|left|] && i + (|left| - i) == |left|;
    assert left[i + a..] == text[i + a..|left|];
  }

  /** No match starts inside a marker: the one 'c' in it is followed by 't'. */
  lemma StartsNowhereIn(word: string, text: string, n: nat, i: nat, e: nat)
    requires Shaped(word) && i < e <= |text| && word == text[i..e]
    requires n + 10 <= |text| && text[n..n + 10] == MARKER
    ensures !(n < i < n + 10)
  {
    if n < i < n + 10 {
      MarkerAt(text, n, i - n);
      if i < n + 9 {
        MarkerAt(text, n, i - n + 1);
      }
    }
  }

  lemma MarkerAt(text: string, n: nat, k: nat)
    requires n + 10 <= |text| && text[n..n + 10] == MARKER && k < 10
    ensures text[n + k] == MARKER[k]
  {
  }

  lemma MatchMeetsMarker(left: string, right: string, i: nat, e: nat)
    requires !Occurs(PREFIX_PATTERN, left) && OccursAt(PREFIX_PATTERN, left + MARKER + right, i, e)
    ensures EndsInPrefix(left) || Occurs(PREFIX_PATTERN, right)
  {
    var text, n := left + MARKER + right, |left|;
    var word := text[i..e];
    PrefixWordShape(word);
    if e <= n {
      assert text[0..n] == left;
      OccursWithin(PREFIX_PATTERN, text, 0, n, i, e);
    } else if i >= n + 10 {
      assert text[n + 10..|text|] == right;
      OccursWithin(PREFIX_PATTERN, text, n + 10, |text|, i, e);
    } else if i > n {
      StartsNowhereIn(word, text, n, i, e);
    } else {
      MarkerAt(text, n, 0);
      MatchCrosses(left, text, i, e);
    }
  }

  lemma MatchCrosses(left: string, text: string, i: nat, e: nat)
    requires left <= text && i <= |left| < e && OccursAt(PREFIX_PATTERN, text, i, e)
    requires Shaped(text[i..e]) && text[|left|] == '['
    ensures EndsInPrefix(left)
  {
    var n := |left|;
    assert text[i..e][n - i] == text[n];
    Brackets(text[i..e], n - i);
    var a, b := Cut(text[i..e]);
    LeftSlices(left, text, i, e, a);
    assert OccursAt(LETTERS, left, i, i + a);
  }

  // ----- doubled prefixes in a text -----

  /** A text whose leftmost match is text[s..t] holds a doubled prefix exactly when the stretch
      before the match ends in a prefix or the rest holds one. */
  lemma MatchJoins(text: string, s: nat, t: nat)
    requires s < t <= |text| && Unmatched(PREFIX_PATTERN, text, 0, s) && InLanguage(PREFIX_PATTERN, text[s..t])
    ensures Occurs(DOUBLED_PATTERN, text) <==> EndsInPrefix(text[..s]) || Occurs(DOUBLED_PATTERN, text[t..])
  {
    if i: nat, e: nat :| OccursAt(LETTERS, text[..s], i, e) && Separators(text[..s][e..]) {
      PatternsByParts();
      PrefixMeetsWord(LETTERS, PREFIX_PATTERN, text[..s], text[s..t], text[t..], i, e);
      assert text[..s] + text[s..t] + text[t..] == text;
      assert |text[..s]| + |text[s..t]| == t;
      assert OccursAt(DOUBLED_PATTERN, text, i, t);
    }
    if Occurs(DOUBLED_PATTERN, text[t..]) {
      assert text[t..|text|] == text[t..];
      OccursInPart(DOUBLED_PATTERN, text, t, |text|);
    }
    if i: nat, e: nat :| OccursAt(DOUBLED_PATTERN, text, i, e) {
      DoubledMeetsMatch(text, s, t, i, e);
    }
  }

  lemma DoubledMeetsMatch(text: string, s: nat, t: nat, i: nat, e: nat)
    requires s < t <= |text| && Unmatched(PREFIX_PATTERN, text, 0, s) && InLanguage(PREFIX_PATTERN, text[s..t])
    requires OccursAt(DOUBLED_PATTERN, text, i, e)
    ensures EndsInPrefix(text[..s]) || Occurs(DOUBLED_PATTERN, text[t..])
  {
    PatternsByParts();
    var word := text[i..e];
    var a, b := SplitGap(LETTERS, PREFIX_PATTERN, word);
    SliceOfSlice(text, i, e, b, e - i);
    assert word[b..] == text[i + b..e];
    assert OccursAt(PREFIX_PATTERN, text, i + b, e);
    MatchesApart(text, s, t, i + b, e);
    if i + b == s {
      LeftSlices(text[..s], text, i, e, a);
      assert OccursAt(LETTERS, text[..s], i, i + a);
    } else {
      StartsAfter(text, s, t, i, word, a, b);
      assert text[t..|text|] == text[t..];
      OccursWithin(DOUBLED_PATTERN, text, t, |text|, i, e);
    }
  }

  /** Two matches do not overlap: a second one is the first or lies behind it. */
  lemma MatchesApart(text: string, s: nat, t: nat, k: nat, e: nat)
    requires s < t <= |text| && Unmatched(PREFIX_PATTERN, text, 0, s) && InLanguage(PREFIX_PATTERN, text[s..t])
    requires OccursAt(PREFIX_PATTERN, text, k, e)
    ensures k == s || k >= t
  {
    assert k >= s;
    if s < k < t {
      var first, second := text[s..t], text[k..e];
      PrefixWordShape(first);
      PrefixWordShape(second);
      SameEnd(text, s, t, k, e);
      assert first[k - s] == second[0];
      Brackets(first, k - s);
      assert false;
    }
  }

  /** Overlapping matches end at the same bracket. */
  lemma SameEnd(text: string, s: nat, t: nat, k: nat, e: nat)
    requires s < k < t <= |text| && k < e <= |text| && Shaped(text[s..t]) && Shaped(text[k..e])
    ensures e == t
  {
    var first, second := text[s..t], text[k..e];
    assert first[t - 1 - s] == text[t - 1] && second[e - 1 - k] == text[e - 1];
    Brackets(first, t - 1 - s);
    Brackets(second, e - 1 - k);
    if e > t {
      assert second[t - 1 - k] == text[t - 1];
      Brackets(second, t - 1 - k);
    } else if e < t {
      assert first[e - 1 - s] == text[e - 1];
      Brackets(first, e - 1 - s);
    }
  }

  /** A doubled prefix whose inner match lies behind text[s..t] does so altogether. */
  lemma StartsAfter(text: string, s: nat, t: nat, i: nat, word: string, a: nat, b: nat)
    requires s < t <= |text| && InLanguage(PREFIX_PATTERN, text[s..t])
    requires CutAt(LETTERS, PREFIX_PATTERN, word, a, b) && i + |word| <= |text| && word == text[i..i + |word|]
    requires i + b >= t
    ensures i >= t
  {
    if i < t {
      var first := text[s..t];
      PrefixWordShape(first);
      Brackets(first, t - 1 - s);
      assert first[t - 1 - s] == text[t - 1] == word[t - 1 - i];
      FrontHasNoBracket(word, a, b, t - 1 - i);
    }
  }

  lemma FrontHasNoBracket(word: string, a: nat, b: nat, m: nat)
    requires CutAt(LETTERS, PREFIX_PATTERN, word, a, b) && m < b
    ensures word[m] != ']'
  {
    LettersWord(word[..a]);
    if m < a {
      assert word[..a][m] == word[m];
    } else {
      assert word[a..b][m - a] == word[m];
    }
  }

  // ----- the cleanup -----

  /** The prefix cleanup leaves a prefix in front of a marker exactly when the text held the
      prefix twice in front of one: it removes one prefix per marker and does not look again. */
  lemma {:induction false} CleanupResidue(text: string)
    requires Solid(PREFIX_PATTERN) && PREFIX_PATTERN != []
    ensures Occurs(PREFIX_PATTERN, Sub(PREFIX_PATTERN, text)) <==> Occurs(DOUBLED_PATTERN, text)
    decreases |text|
  {
    SearchIsLeftmost(PREFIX_PATTERN, text, 0);
    match Search(PREFIX_PATTERN, text, 0)
    case None =>
      NoMatchNoDouble(text);
    case Some((s, t)) =>
      NoMatchBefore(PREFIX_PATTERN, text, s);
      MatchJoins(text, s, t);
      MarkerJoins(text[..s], Sub(PREFIX_PATTERN, text[t..]));
      CleanupResidue(text[t..]);
  }

  lemma NoMatchNoDouble(text: string)
    requires Unmatched(PREFIX_PATTERN, text, 0, |text| + 1)
    ensures !Occurs(PREFIX_PATTERN, text) && !Occurs(DOUBLED_PATTERN, text)
  {
    if i: nat, e: nat :| OccursAt(DOUBLED_PATTERN, text, i, e) {
      PatternsByParts();
      var a, b := SplitGap(LETTERS, PREFIX_PATTERN, text[i..e]);
      SliceOfSlice(text, i, e, b, e - i);
      assert OccursAt(PREFIX_PATTERN, text, i + b, e);
    }
  }

  /** A response with a token's own matches replaced. */
  function Redacted(response: string, token: string): string
    requires IsToken(token)
  {
    TokenFacts(token);
    Sub(TokenPattern(token), response)
  }

  /** So a round over a token that leaked leaves the prefix in front of a marker exactly when it
      stood there twice after the token itself was replaced. */
  lemma RoundResidue(response: string, token: string)
    requires IsToken(token) && Occurs(TokenPattern(token), response)
    ensures Occurs(PREFIX_PATTERN, Round(response, token)) <==> Occurs(DOUBLED_PATTERN, Redacted(response, token))
  {
    SearchFindsOccurrence(token, response);
    PrefixPatternIsSolid();
    CleanupResidue(Redacted(response, token));
  }

  // ----- all rounds of the loop -----

  /** Round `k` finds its token in what the rounds before it left. */
  ghost predicate Fires(response: string, tokens: seq<string>, k: nat)
    requires k < |tokens| && forall t :: t in tokens ==> IsToken(t)
  {
    Occurs(TokenPattern(tokens[k]), Rounds(response, tokens[..k]))
  }

  ghost predicate LastToFire(response: string, tokens: seq<string>, k: nat)
    requires forall t :: t in tokens ==> IsToken(t)
  {
    k < |tokens| && Fires(response, tokens, k) && forall i :: k < i < |tokens| ==> !Fires(response, tokens, i)
  }

  /** What the loop leaves is what its last firing round left. */
  lemma {:induction false} QuietRounds(response: string, tokens: seq<string>, n: nat)
    requires n <= |tokens| && forall t :: t in tokens ==> IsToken(t)
    requires forall i :: n <= i < |tokens| ==> !Fires(response, tokens, i)
    ensures Rounds(response, tokens) == Rounds(response, tokens[..n])
    decreases |tokens|
  {
    if n == |tokens| {
      assert tokens[..n] == tokens;
    } else {
      var front, last := tokens[..|tokens| - 1], |tokens| - 1;
      forall i | n <= i < last
        ensures !Fires(response, front, i)
      {
        assert front[..i] == tokens[..i] && front[i] == tokens[i];
        assert !Fires(response, tokens, i);
      }
      QuietRounds(response, front, n);
      assert front[..n] == tokens[..n];
      assert !Fires(response, tokens, last);
      SearchFindsOccurrence(tokens[last], Rounds(response, front));
    }
  }

  lemma {:induction false} SomeRoundIsLast(response: string, tokens: seq<string>) returns (k: nat)
    requires (forall t :: t in tokens ==> IsToken(t)) && Leaked(response, tokens)
    ensures LastToFire(response, tokens, k)
  {
    k := |tokens|;
    while k > 0 && !Fires(response, tokens, k - 1)
      invariant k <= |tokens| && forall i :: k <= i < |tokens| ==> !Fires(response, tokens, i)
    {
      k := k - 1;
    }
    if k == 0 {
      QuietRounds(response, tokens, 0);
      RoundsUnchanged(response, tokens);
      assert false;
    }
    k := k - 1;
  }

  /** What the loop of `detect` leaves, for every response and every list of tokens: a prefix stands
      in front of a marker after all rounds if and only if it stood there twice after the last
      round that fired had replaced its token. Every firing round cleans once, so how many prefixes
      a marker sheds depends on how many tokens leaked and in which order they are tried. */
  lemma RoundsResidue(response: string, tokens: seq<string>, last: nat)
    requires (forall t :: t in tokens ==> IsToken(t)) && LastToFire(response, tokens, last)
    ensures Occurs(PREFIX_PATTERN, Rounds(response, tokens))
      <==> Occurs(DOUBLED_PATTERN, Redacted(Rounds(response, tokens[..last]), tokens[last]))
  {
    QuietRounds(response, tokens, last + 1);
    assert tokens[..last + 1][..last] == tokens[..last];
    RoundResidue(Rounds(response, tokens[..last]), tokens[last]);
  }

  ghost predicate ResidueAsOf(response: string, tokens: seq<string>, last: nat)
    requires forall t :: t in tokens ==> IsToken(t)
  {
    && LastToFire(response, tokens, last)
    && (Occurs(PREFIX_PATTERN, Rounds(response, tokens)) <==>
          Occurs(DOUBLED_PATTERN, Redacted(Rounds(response, tokens[..last]), tokens[last])))
  }

  /** Some round is the last to fire exactly when a token leaked; otherwise nothing is changed. */
  lemma ResidueOfLoop(response: string, tokens: seq<string>)
    requires forall t :: t in tokens ==> IsToken(t)
    ensures !Leaked(response, tokens) ==> Rounds(response, tokens) == response
    ensures Leaked(response, tokens) ==> exists last: nat :: ResidueAsOf(response, tokens, last)
  {
    RoundsUnchanged(response, tokens);
    if Leaked(response, tokens) {
      var last := SomeRoundIsLast(response, tokens);
      RoundsResidue(response, tokens, last);
      assert ResidueAsOf(response, tokens, last);
    }
  }

  // ----- a response that keeps a prefix -----

  /** No match of a token covers a character that is neither a hex digit nor a separator. */
  lemma StopsAt(hex: string, text: string, i: nat, e: nat, at: nat)
    requires IsHexString(hex) && OccursAt(FuzzyPattern(hex), text, i, e) && at < |text|
    requires !IsSep(text[at]) && !IsHex(Lower(text[at]))
    ensures at < i || e <= at
  {
    if i <= at < e {
      assert text[i..e][at - i] == text[at];
      HexWordLetters(hex, text[i..e]);
    }
  }

  /** No match of a token begins in two prefixes. */
  lemma MatchesAfterPrefixes(hex: string, tail: string, i: nat, e: nat)
    requires IsHexString(hex) && |hex| >= 5
    requires OccursAt(FuzzyPattern(hex), PREFIX + PREFIX + tail, i, e)
    ensures i >= 10
  {
    var text := PREFIX + PREFIX + tail;
    WordIsLong(FuzzyPattern(hex), text[i..e]);
    var k: nat :| Leads(FuzzyPattern(hex)[0], text[i..e], k);
    assert text[i..e][0] == text[i];
    assert i != 9;
    StopsAt(hex, text, i, e, 1);
    StopsAt(hex, text, i, e, 2);
    StopsAt(hex, text, i, e, 3);
    StopsAt(hex, text, i, e, 6);
    StopsAt(hex, text, i, e, 7);
    StopsAt(hex, text, i, e, 8);
  }

  lemma RedactedAfterPrefixes(token: string)
    requires IsToken(token)
    ensures Redacted(PREFIX + token, token) == PREFIX + PREFIX + MARKER
  {
    var hex, text, p := token[|PREFIX|..], PREFIX + token, TokenPattern(token);
    assert text == PREFIX + PREFIX + hex && text[10..|text|] == hex;
    TokenFacts(token);
    LiteralInLanguage(hex, 0);
    assert p[0..] == p && hex[0..] == hex;
    assert OccursAt(p, text, 10, |text|);
    SearchIsLeftmost(p, text, 0);
    var (s, t) := Search(p, text, 0).value;
    MatchesAfterPrefixes(hex, hex, s, t);
    assert s == 10;
    MatchEndComplete(p, text, 10, |text|);
    MatchEndComplete(p, text, s, t);
    assert text[..10] == PREFIX + PREFIX && text[|text|..] == "";
    var hit, s', t' := SubSplits(p, "");
    assert Sub(p, text) == text[..10] + MARKER + "";
  }

  /** A leaked token with a second prefix in front comes back with a prefix left over from any
      list of tokens in which it is the only one that leaked. */
  lemma SecondPrefixSurvives(token: string, tokens: seq<string>, k: nat)
    requires (forall t :: t in tokens ==> IsToken(t)) && k < |tokens| && tokens[k] == token
    requires forall i :: 0 <= i < |tokens| && i != k ==> !Occurs(TokenPattern(tokens[i]), PREFIX + token)
    ensures Occurs(PREFIX_PATTERN, Rounds(PREFIX + token, tokens))
  {
    var response := PREFIX + token;
    ExactIsFuzzy(token, response) by {
      assert ContainsAt(response, token, |PREFIX|);
    }
    RoundsUnchanged(response, tokens[..k]);
    forall i | k < i < |tokens|
      ensures !Fires(response, tokens, i)
    {
      RoundsClean(response, tokens[..i], tokens[i]);
    }
    RedactedAfterPrefixes(token);
    DoubledLiteral();
    RoundsResidue(response, tokens, k);
  }

  lemma DoubledLiteral()
    ensures Occurs(DOUBLED_PATTERN, PREFIX + PREFIX + MARKER)
  {
    var word := PREFIX + PREFIX + MARKER;
    PatternsByParts();
    LiteralInLanguage(PREFIX[..4], 0);
    assert LETTERS[0..] == LETTERS && PREFIX[..4][0..] == PREFIX[..4];
    LiteralWord(MARKER, MARKER);
    assert word[5..][..4] == PREFIX[..4] && word[5..][5..] == MARKER && word[5..][4..5] == ['-'];
    JoinGap(LETTERS, Literal(MARKER, false), word[5..], 4, 5);
    assert word[..4] == PREFIX[..4] && word[4..5] == ['-'];
    JoinGap(LETTERS, PREFIX_PATTERN, word, 4, 5);
    assert word[0..|word|] == word;
    assert OccursAt(DOUBLED_PATTERN, word, 0, |word|);
  }
}
