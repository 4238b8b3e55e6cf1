/**
 * Counting the prefixes in front of markers and tokens (src/core/canary.py:82-91, 206-210): one
 * cleanup takes one from every marker, and replacing a token hands its prefixes to the marker.
 */
module CanaryPrefixes {
  import opened Canary
  import opened CanaryResidue

  // ----- prefixes at the end of a text -----

  /** The letters of a prefix from `i` to `e`, and nothing but separators after them. */
  ghost predicate LastPrefix(text: string, i: nat, e: nat)
  {
    OccursAt(LETTERS, text, i, e) && Separators(text[e..])
  }

  /** The text ends in `k` prefixes, however spaced, and separators. */
  ghost predicate EndsIn(text: string, k: nat)
    decreases k
  {
    k == 0 || exists i: nat, e: nat :: LastPrefix(text, i, e) && EndsIn(text[..i], k - 1)
  }

  /** A match between `lo` and `hi` is one of that part of the text, and the other way round. */
  lemma Within(pattern: Pattern, text: string, lo: nat, hi: nat, i: nat, e: nat)
    requires lo <= i <= e <= hi <= |text|
    ensures OccursAt(pattern, text, i, e) <==> OccursAt(pattern, text[lo..hi], i - lo, e - lo)
  {
    SliceOfSlice(text, lo, hi, i - lo, e - lo);
  }

  /** The last prefix begins at the last 'c' of the text. */
  lemma LastPrefixShape(text: string, i: nat, e: nat)
    requires LastPrefix(text, i, e)
    ensures i < e && Lower(text[i]) == 'c' && forall m :: i < m < |text| ==> IsLetterOrSep(text[m])
  {
    LettersWord(text[i..e]);
    forall m | i < m < |text|
      ensures IsLetterOrSep(text[m])
    {
      if m < e {
        assert text[i..e][m - i] == text[m];
      } else {
        assert text[e..][m - e] == text[m];
      }
    }
  }

  lemma OneLastPrefix(text: string, i: nat, e: nat, j: nat, f: nat)
    requires LastPrefix(text, i, e) && LastPrefix(text, j, f)
    ensures i == j
  {
    LastPrefixShape(text, i, e);
    LastPrefixShape(text, j, f);
  }

  /** One more prefix at the end. */
  lemma OneMorePrefix(text: string, i: nat, e: nat, k: nat)
    requires LastPrefix(text, i, e)
    ensures EndsIn(text, k + 1) <==> EndsIn(text[..i], k)
  {
    if EndsIn(text, k + 1) {
      var j: nat, f: nat :| LastPrefix(text, j, f) && EndsIn(text[..j], k);
      OneLastPrefix(text, i, e, j, f);
    }
  }

  ghost predicate PrefixStarts(text: string, n: nat)
  {
    exists e: nat :: OccursAt(LETTERS, text, n, e)
  }

  /** No prefix reaches from `left` into `right`, or ends at the end of `left`. */
  ghost predicate Stops(left: string, right: string)
  {
    left != "" && !IsLetterOrSep(left[|left| - 1]) && !PrefixStarts(left + right, |left| - 1)
  }

  lemma StopsEarlier(left: string, right: string, n: nat)
    requires Stops(left, right) && n <= |right|
    ensures Stops(left, right[..n])
  {
    var last := |left| - 1;
    if PrefixStarts(left + right[..n], last) {
      var e: nat :| OccursAt(LETTERS, left + right[..n], last, e);
      assert (left + right)[0..|left| + n] == left + right[..n];
      Within(LETTERS, left + right, 0, |left| + n, last, e);
    }
  }

  lemma LastPrefixBehind(left: string, right: string, i: nat, e: nat)
    requires |left| <= i <= e
    ensures LastPrefix(left + right, i, e) <==> LastPrefix(right, i - |left|, e - |left|)
  {
    if e <= |left + right| {
      assert (left + right)[|left|..|left + right|] == right;
      Within(LETTERS, left + right, |left|, |left + right|, i, e);
      assert (left + right)[e..] == right[e - |left|..];
    }
  }

  lemma NotInFront(left: string, right: string, i: nat, e: nat)
    requires Stops(left, right) && LastPrefix(left + right, i, e)
    ensures i >= |left|
  {
    LastPrefixShape(left + right, i, e);
    assert (left + right)[|left| - 1] == left[|left| - 1];
  }

  /** Prefixes behind such a place are all there are. */
  lemma {:induction false} PrefixesBehind(left: string, right: string, k: nat)
    requires Stops(left, right)
    ensures EndsIn(left + right, k) <==> EndsIn(right, k)
    decreases k, 1
  {
    if k == 0 {
    } else {
      if EndsIn(left + right, k) {
        var i: nat, e: nat :| LastPrefix(left + right, i, e) && EndsIn((left + right)[..i], k - 1);
        NotInFront(left, right, i, e);
        OnePrefixBehind(left, right, i - |left|, e - |left|, k);
      }
      if EndsIn(right, k) {
        var i: nat, e: nat :| LastPrefix(right, i, e) && EndsIn(right[..i], k - 1);
        OnePrefixBehind(left, right, i, e, k);
      }
    }
  }

  lemma {:induction false} OnePrefixBehind(left: string, right: string, i: nat, e: nat, k: nat)
    requires Stops(left, right) && k >= 1 && i <= e
    requires LastPrefix(left + right, |left| + i, |left| + e) || LastPrefix(right, i, e)
    ensures EndsIn(left + right, k) <==> EndsIn(right, k)
    decreases k, 0
  {
    LastPrefixBehind(left, right, |left| + i, |left| + e);
    StopsEarlier(left, right, i);
    PrefixesBehind(left, right[..i], k - 1);
    SameBefore(left, right, i, e, k);
  }

  lemma SameBefore(left: string, right: string, i: nat, e: nat, k: nat)
    requires k >= 1 && i <= e && LastPrefix(left + right, |left| + i, |left| + e) && LastPrefix(right, i, e)
    requires EndsIn(left + right[..i], k - 1) <==> EndsIn(right[..i], k - 1)
    ensures EndsIn(left + right, k) <==> EndsIn(right, k)
  {
    assert (left + right)[..|left| + i] == left + right[..i];
    OneMorePrefix(left + right, |left| + i, |left| + e, k - 1);
    OneMorePrefix(right, i, e, k - 1);
  }

  lemma {:induction false} FewerPrefixes(text: string, k: nat)
    requires EndsIn(text, k) && k >= 1
    ensures EndsIn(text, 1)
  {
    var i: nat, e: nat :| LastPrefix(text, i, e) && EndsIn(text[..i], k - 1);
    assert EndsIn(text[..i], 0);
  }

  // ----- markers with prefixes in front -----

  /** A marker in any case. */
  predicate MarkAt(text: string, p: nat)
  {
    p + 10 <= |text| && SameText(text[p..p + 10], MARKER)
  }

  /** A marker with `k` prefixes at this place. */
  ghost predicate MarkedAt(text: string, p: nat, k: nat)
  {
    MarkAt(text, p) && EndsIn(text[..p], k)
  }

  /** Some marker has `k` prefixes in front of it. */
  ghost predicate MarkedBy(text: string, k: nat)
  {
    exists p: nat :: MarkedAt(text, p, k)
  }

  lemma MarkBrackets(text: string, p: nat, j: nat)
    requires MarkAt(text, p) && j < 10
    ensures text[p + j] == '[' <==> j == 0
    ensures text[p + j] == ']' <==> j == 9
    ensures Lower(text[p + j]) == MARKER[j]
  {
    assert text[p..p + 10][j] == text[p + j];
    assert Lower(MARKER[j]) == MARKER[j];
  }

  predicate NoBrackets(text: string)
  {
    forall m :: 0 <= m < |text| ==> text[m] != '[' && text[m] != ']'
  }

  lemma MarkWithin(text: string, lo: nat, hi: nat, p: nat)
    requires lo <= p && p + 10 <= hi <= |text|
    ensures MarkAt(text, p) <==> MarkAt(text[lo..hi], p - lo)
  {
    SliceOfSlice(text, lo, hi, p - lo, p + 10 - lo);
  }

  lemma WordParts(word: string) returns (a: nat, b: nat)
    requires InLanguage(PREFIX_PATTERN, word)
    ensures a <= b && b + 10 == |word|
    ensures InLanguage(LETTERS, word[..a]) && Separators(word[a..b]) && SameText(word[b..], MARKER)
  {
    a, b := Cut(word);
    LiteralWord(MARKER, word[b..]);
  }

  /** A match of the cleanup's pattern is a prefix, separators and a marker. */
  lemma MatchParts(text: string, i: nat, e: nat) returns (a: nat, b: nat)
    requires OccursAt(PREFIX_PATTERN, text, i, e)
    ensures i <= a <= b && b + 10 == e && InLanguage(LETTERS, text[i..a]) && Separators(text[a..b]) && MarkAt(text, b)
  {
    var u, v := WordParts(text[i..e]);
    a, b := i + u, i + v;
    ThreeSlices(text, i, e, u, v);
  }

  lemma ThreeSlices(text: string, i: nat, e: nat, u: nat, v: nat)
    requires i <= e <= |text| && u <= v <= e - i
    ensures text[i..e][..u] == text[i..i + u] && text[i..e][u..v] == text[i + u..i + v]
    ensures text[i..e][v..] == text[i + v..e]
  {
    SliceOfSlice(text, i, e, 0, u);
    SliceOfSlice(text, i, e, u, v);
    SliceOfSlice(text, i, e, v, e - i);
  }

  lemma MatchIsMarked(text: string, i: nat, e: nat)
    requires OccursAt(PREFIX_PATTERN, text, i, e)
    ensures MarkedBy(text, 1)
  {
    var a, b := MatchParts(text, i, e);
    PrefixUpTo(text, i, a, b);
    OneMorePrefix(text[..b], i, a, 0);
    assert MarkedAt(text, b, 1);
  }

  lemma PrefixUpTo(text: string, i: nat, e: nat, p: nat)
    requires i <= e <= p <= |text|
    ensures LastPrefix(text[..p], i, e) <==> InLanguage(LETTERS, text[i..e]) && Separators(text[e..p])
  {
    assert text[..p][i..e] == text[i..e] && text[..p][e..] == text[e..p];
  }

  lemma PartsMatch(word: string, a: nat, b: nat)
    requires a <= b && b + 10 == |word|
    requires InLanguage(LETTERS, word[..a]) && Separators(word[a..b]) && SameText(word[b..], MARKER)
    ensures InLanguage(PREFIX_PATTERN, word)
  {
    LiteralWord(MARKER, word[b..]);
    PatternsByParts();
    JoinGap(LETTERS, Literal(MARKER, false), word, a, b);
  }

  lemma MarkedIsMatch(text: string, i: nat, e: nat, p: nat)
    requires i <= e <= p && MarkAt(text, p) && LastPrefix(text[..p], i, e)
    ensures OccursAt(PREFIX_PATTERN, text, i, p + 10)
  {
    PrefixUpTo(text, i, e, p);
    ThreeSlices(text, i, p + 10, e - i, p - i);
    PartsMatch(text[i..p + 10], e - i, p - i);
  }

  /** The cleanup's pattern matches exactly where one prefix stands in front of a marker. */
  lemma MarkedByOne(text: string)
    ensures Occurs(PREFIX_PATTERN, text) <==> MarkedBy(text, 1)
  {
    if i: nat, e: nat :| OccursAt(PREFIX_PATTERN, text, i, e) {
      MatchIsMarked(text, i, e);
    }
    if p: nat :| MarkedAt(text, p, 1) {
      var i: nat, e: nat :| LastPrefix(text[..p], i, e) && EndsIn(text[..p][..i], 0);
      MarkedIsMatch(text, i, e, p);
    }
  }

  /** Where a marker can stand in a text put together from parts, one of which ends in a marker. */
  lemma MarkPlaces(left: string, u: string, v: string, right: string, p: nat)
    requires NoBrackets(u) && MarkAt(v, 0) && |v| == 10 && MarkAt(left + u + v + right, p)
    ensures p + 10 <= |left| || p == |left + u| || p >= |left + u + v|
  {
    var text, m := left + u + v + right, |left + u|;
    assert text[m..m + 10] == v;
    assert MarkAt(text, m);
    if p < m {
      if p + 9 >= m {
        MarkBrackets(text, m, 0);
        MarkBrackets(text, p, m - p);
      } else if p + 9 >= |left| {
        assert text[p + 9] == u[p + 9 - |left|];
        MarkBrackets(text, p, 9);
      }
    } else if m < p < m + 10 {
      MarkBrackets(text, m, p - m);
      MarkBrackets(text, p, 0);
    }
  }

  lemma StopsAtBracket(left: string, right: string)
    requires left != "" && left[|left| - 1] == ']'
    ensures Stops(left, right)
  {
    var last := |left| - 1;
    if PrefixStarts(left + right, last) {
      var e: nat :| OccursAt(LETTERS, left + right, last, e);
      LettersWord((left + right)[last..e]);
    }
  }

  lemma MarkedInLeft(left: string, rest: string, p: nat, k: nat)
    requires p + 10 <= |left|
    ensures MarkedAt(left + rest, p, k) <==> MarkedAt(left, p, k)
  {
    assert (left + rest)[0..|left|] == left;
    MarkWithin(left + rest, 0, |left|, p);
    assert (left + rest)[..p] == left[..p];
  }

  lemma MarkedInRight(left: string, right: string, p: nat, k: nat)
    requires p + 10 <= |right| && Stops(left, right)
    ensures MarkedAt(left + right, |left| + p, k) <==> MarkedAt(right, p, k)
  {
    assert (left + right)[|left|..|left + right|] == right;
    MarkWithin(left + right, |left|, |left + right|, |left| + p);
    assert (left + right)[..|left| + p] == left + right[..p];
    StopsEarlier(left, right, p);
    PrefixesBehind(left, right[..p], k);
  }

  /** The markers of a text put together from parts, one of which ends in a marker. */
  lemma MarksJoin(left: string, u: string, v: string, right: string, k: nat)
    requires NoBrackets(u) && MarkAt(v, 0) && |v| == 10
    ensures MarkedBy(left + u + v + right, k) <==> MarkedBy(left, k) || EndsIn(left + u, k) || MarkedBy(right, k)
  {
    var front := left + u + v;
    MarkBrackets(v, 0, 9);
    StopsAtBracket(front, right);
    if p: nat :| MarkedAt(front + right, p, k) {
      MarkedSomewhere(left, u, v, right, p, k);
    }
    MarkedAnyway(left, u, v, right, k);
  }

  lemma MarkedSomewhere(left: string, u: string, v: string, right: string, p: nat, k: nat)
    requires NoBrackets(u) && MarkAt(v, 0) && |v| == 10 && Stops(left + u + v, right)
    requires MarkedAt(left + u + v + right, p, k)
    ensures MarkedBy(left, k) || EndsIn(left + u, k) || MarkedBy(right, k)
  {
    var front := left + u + v;
    MarkPlaces(left, u, v, right, p);
    if p + 10 <= |left| {
      assert front + right == left + (u + v + right);
      MarkedInLeft(left, u + v + right, p, k);
      assert MarkedAt(left, p, k);
    } else if p == |left + u| {
      MiddleMarker(left, u, v, right, k);
    } else {
      MarkedInRight(front, right, p - |front|, k);
      assert MarkedAt(right, p - |front|, k);
    }
  }

  lemma MarkedAnyway(left: string, u: string, v: string, right: string, k: nat)
    requires MarkAt(v, 0) && |v| == 10 && Stops(left + u + v, right)
    ensures MarkedBy(left, k) || EndsIn(left + u, k) || MarkedBy(right, k) ==> MarkedBy(left + u + v + right, k)
  {
    var front := left + u + v;
    var text := front + right;
    MiddleMarker(left, u, v, right, k);
    if p: nat :| MarkedAt(left, p, k) {
      assert text == left + (u + v + right);
      MarkedInLeft(left, u + v + right, p, k);
      assert MarkedAt(text, p, k);
    }
    if p: nat :| MarkedAt(right, p, k) {
      MarkedInRight(front, right, p, k);
      assert MarkedAt(text, |front| + p, k);
    }
  }

  lemma MiddleMarker(left: string, u: string, v: string, right: string, k: nat)
    requires MarkAt(v, 0) && |v| == 10
    ensures MarkedAt(left + u + v + right, |left + u|, k) <==> EndsIn(left + u, k)
  {
    var text, m := left + u + v + right, |left + u|;
    assert text[m..m + 10] == v == v[0..10] && text[..m] == left + u;
  }

  lemma {:induction false} FewerMarks(text: string, k: nat)
    requires MarkedBy(text, k) && k >= 1
    ensures MarkedBy(text, 1)
  {
    var p: nat :| MarkedAt(text, p, k);
    FewerPrefixes(text[..p], k);
    assert MarkedAt(text, p, 1);
  }

  // ----- what one cleanup does -----

  /** A match at the end of the stretch before the marker adds one prefix to it. */
  lemma MatchAddsOne(text: string, s: nat, t: nat, k: nat) returns (b: nat)
    requires OccursAt(PREFIX_PATTERN, text, s, t)
    ensures s <= b && b + 10 == t && MarkAt(text[b..t], 0) && NoBrackets(text[s..b])
    ensures EndsIn(text[..s] + text[s..b], k + 1) <==> EndsIn(text[..s], k)
  {
    var a;
    a, b := MatchParts(text, s, t);
    assert text[b..t][0..10] == text[b..b + 10];
    NoBracketsBefore(text, s, a, b);
    assert text[..s] + text[s..b] == text[..b] && text[..b][..s] == text[..s];
    PrefixUpTo(text, s, a, b);
    OneMorePrefix(text[..b], s, a, k);
  }

  lemma NoBracketsBefore(text: string, s: nat, a: nat, b: nat)
    requires s <= a <= b <= |text| && InLanguage(LETTERS, text[s..a]) && Separators(text[a..b])
    ensures NoBrackets(text[s..b])
  {
    LettersWord(text[s..a]);
    forall m | 0 <= m < b - s
      ensures text[s..b][m] != '[' && text[s..b][m] != ']'
    {
      if m < a - s {
        assert text[s..a][m] == text[s..b][m];
      } else {
        assert text[a..b][m - (a - s)] == text[s..b][m];
      }
    }
  }

  /** A fresh marker takes the prefixes in front of it. */
  lemma FreshMarker(left: string, rest: string, k: nat)
    ensures MarkedBy(left + MARKER + rest, k) <==> MarkedBy(left, k) || EndsIn(left, k) || MarkedBy(rest, k)
  {
    assert MARKER[0..10] == MARKER;
    MarksJoin(left, "", MARKER, rest, k);
    assert left + "" + MARKER + rest == left + MARKER + rest && left + "" == left;
  }

  lemma MatchedMarker(text: string, s: nat, t: nat, k: nat)
    requires OccursAt(PREFIX_PATTERN, text, s, t) && !MarkedBy(text[..s], k + 1)
    ensures MarkedBy(text, k + 1) <==> EndsIn(text[..s], k) || MarkedBy(text[t..], k + 1)
  {
    var b := MatchAddsOne(text, s, t, k);
    MarksJoin(text[..s], text[s..b], text[b..t], text[t..], k + 1);
    assert text[..s] + text[s..b] + text[b..t] + text[t..] == text;
  }

  /** The cleanup takes one prefix from every marker. */
  lemma {:induction false} CleanupTakesOne(text: string, k: nat)
    requires Solid(PREFIX_PATTERN) && PREFIX_PATTERN != [] && k >= 1
    ensures MarkedBy(Sub(PREFIX_PATTERN, text), k) <==> MarkedBy(text, k + 1)
    decreases |text|
  {
    var hit, s, t := SubCuts(PREFIX_PATTERN, text);
    if !hit {
      NoneUnmarked(text, k);
    } else {
      NoneUnmarked(text[..s], k);
      CleanupTakesOne(text[t..], k);
      FreshMarker(text[..s], Sub(PREFIX_PATTERN, text[t..]), k);
      MatchedMarker(text, s, t, k);
    }
  }

  /** A substitution finds nothing, or replaces the leftmost match and goes on after it. */
  lemma SubCuts(pattern: Pattern, text: string) returns (hit: bool, s: nat, t: nat)
    requires Solid(pattern) && pattern != []
    ensures !hit ==> !Occurs(pattern, text) && Sub(pattern, text) == text
    ensures hit ==>
      && s < t && OccursAt(pattern, text, s, t) && Unmatched(pattern, text, 0, s) && !Occurs(pattern, text[..s])
      && Sub(pattern, text) == text[..s] + MARKER + Sub(pattern, text[t..])
  {
    SearchIsLeftmost(pattern, text, 0);
    match Search(pattern, text, 0)
    case None =>
      hit, s, t := false, 0, 0;
    case Some((s', t')) =>
      hit, s, t := true, s', t';
      NoMatchBefore(pattern, text, s);
  }

  lemma NoneUnmarked(text: string, k: nat)
    requires !Occurs(PREFIX_PATTERN, text) && k >= 1
    ensures !MarkedBy(text, k) && !MarkedBy(text, k + 1)
  {
    MarkedByOne(text);
    if MarkedBy(text, k) {
      FewerMarks(text, k);
    }
    if MarkedBy(text, k + 1) {
      FewerMarks(text, k + 1);
    }
  }

  // ----- what one redaction does -----

  /** A match of the pattern with `k` prefixes at this place. */
  ghost predicate FoundAt(pattern: Pattern, text: string, p: nat, e: nat, k: nat)
  {
    OccursAt(pattern, text, p, e) && EndsIn(text[..p], k)
  }

  /** Some match of the pattern has `k` prefixes in front of it. */
  ghost predicate FoundWith(pattern: Pattern, text: string, k: nat)
  {
    exists p: nat, e: nat :: FoundAt(pattern, text, p, e, k)
  }

  /** The last digit of a match is also the first letter of a prefix. */
  ghost predicate FusedAt(pattern: Pattern, text: string, p: nat, e: nat)
  {
    e >= 1 && OccursAt(pattern, text, p, e) && PrefixStarts(text, e - 1)
  }

  ghost predicate Fused(pattern: Pattern, text: string)
  {
    exists p: nat, e: nat :: FusedAt(pattern, text, p, e)
  }

  lemma FusedHere(pattern: Pattern, text: string, p: nat, e: nat, f: nat)
    requires e >= 1 && OccursAt(pattern, text, p, e) && OccursAt(LETTERS, text, e - 1, f)
    ensures Fused(pattern, text)
  {
    assert PrefixStarts(text, e - 1);
    assert FusedAt(pattern, text, p, e);
  }

  /** The ends of a word of a token's pattern are digits. */
  lemma {:induction false} LastLetter(pattern: Pattern, word: string)
    requires pattern != [] && InLanguage(pattern, word)
    ensures word != "" && SameLetter(word[|word| - 1], pattern[|pattern| - 1])
    decreases |pattern|
  {
    var j := FirstOf(pattern, word);
    if |pattern| == 1 {
    } else {
      LastLetter(pattern[1..], word[j + 1..]);
    }
  }

  lemma HexEnds(hex: string, word: string)
    requires IsHexString(hex) && InLanguage(FuzzyPattern(hex), word)
    ensures word != "" && IsHex(Lower(word[0])) && IsHex(Lower(word[|word| - 1]))
    ensures !IsLetterOrSep(word[0]) && !IsLetterOrSep(word[|word| - 1])
  {
    var p := FuzzyPattern(hex);
    LastLetter(p, word);
    var j := FirstOf(p, word);
    assert SameLetter(word[0], p[0]);
    HexIsNoLetter(word[0]);
    HexIsNoLetter(word[|word| - 1]);
  }

  lemma HexIsNoLetter(c: char)
    requires IsHex(Lower(c))
    ensures !IsLetterOrSep(c)
  {
  }

  /** Behind a token that is not fused prefixes start afresh. */
  lemma StopsAtToken(hex: string, text: string, s: nat, t: nat, n: nat)
    requires IsHexString(hex) && OccursAt(FuzzyPattern(hex), text, s, t) && !Fused(FuzzyPattern(hex), text)
    requires t <= n <= |text|
    ensures Stops(text[..t], text[t..n])
  {
    HexEnds(hex, text[s..t]);
    assert text[s..t][t - s - 1] == text[t - 1];
    assert text[..t] + text[t..n] == text[0..n];
    if PrefixStarts(text[0..n], t - 1) {
      var e: nat :| OccursAt(LETTERS, text[0..n], t - 1, e);
      Within(LETTERS, text, 0, n, t - 1, e);
      FusedHere(FuzzyPattern(hex), text, s, t, e);
    }
  }

  lemma HexChars(hex: string, text: string, s: nat, t: nat, m: nat)
    requires IsHexString(hex) && OccursAt(FuzzyPattern(hex), text, s, t) && s <= m < t
    ensures IsSep(text[m]) || IsHex(Lower(text[m]))
  {
    HexWordLetters(hex, text[s..t]);
    assert text[s..t][m - s] == text[m];
  }

  /** Markers and tokens do not overlap. */
  lemma MarkMissesToken(hex: string, text: string, s: nat, t: nat, p: nat)
    requires IsHexString(hex) && |hex| >= 5 && OccursAt(FuzzyPattern(hex), text, s, t) && MarkAt(text, p)
    ensures p + 10 <= s || t <= p
  {
    if p < t && s < p + 10 {
      WordIsLong(FuzzyPattern(hex), text[s..t]);
      var at := if s <= p then p else if t > p + 9 then p + 9 else if s == p + 1 then p + 1 else p + 6;
      MarkBrackets(text, p, at - p);
      HexChars(hex, text, s, t, at);
    }
  }

  /** A token with text on both sides adds no marker and takes no prefix from one. */
  lemma MarksAroundToken(hex: string, text: string, s: nat, t: nat, k: nat)
    requires IsHexString(hex) && |hex| >= 5 && OccursAt(FuzzyPattern(hex), text, s, t)
    requires Stops(text[..t], text[t..])
    ensures MarkedBy(text, k) <==> MarkedBy(text[..s], k) || MarkedBy(text[t..], k)
  {
    if p: nat :| MarkedAt(text, p, k) {
      MarkMissesToken(hex, text, s, t, p);
      MarkedOnOneSide(text, s, t, p, k);
    }
    if p: nat :| MarkedAt(text[..s], p, k) {
      MarkedInLeft(text[..s], text[s..], p, k);
      assert text == text[..s] + text[s..];
      assert MarkedAt(text, p, k);
    }
    if p: nat :| MarkedAt(text[t..], p, k) {
      MarkedInRight(text[..t], text[t..], p, k);
      assert text == text[..t] + text[t..];
      assert MarkedAt(text, t + p, k);
    }
  }

  lemma MarkedOnOneSide(text: string, s: nat, t: nat, p: nat, k: nat)
    requires s <= t <= |text| && Stops(text[..t], text[t..]) && MarkedAt(text, p, k) && (p + 10 <= s || t <= p)
    ensures MarkedBy(text[..s], k) || MarkedBy(text[t..], k)
  {
    if p + 10 <= s {
      assert text == text[..s] + text[s..];
      MarkedInLeft(text[..s], text[s..], p, k);
      assert MarkedAt(text[..s], p, k);
    } else {
      assert text == text[..t] + text[t..];
      MarkedInRight(text[..t], text[t..], p - t, k);
      assert MarkedAt(text[t..], p - t, k);
    }
  }

  lemma LastPrefixEnds(text: string, i: nat, e: nat)
    requires LastPrefix(text, i, e)
    ensures i < e && Lower(text[e - 1]) == 'y'
  {
    LastLetter(LETTERS, text[i..e]);
    assert text[i..e][e - i - 1] == text[e - 1];
    assert LETTERS[|LETTERS| - 1].c == 'Y';
  }

  /** No prefix ends inside a token. */
  lemma NoPrefixInside(hex: string, text: string, s: nat, t: nat, p: nat, k: nat)
    requires IsHexString(hex) && OccursAt(FuzzyPattern(hex), text, s, t) && s < p < t && k >= 1
    ensures !EndsIn(text[..p], k)
  {
    if EndsIn(text[..p], k) {
      var i: nat, e: nat :| LastPrefix(text[..p], i, e) && EndsIn(text[..p][..i], k - 1);
      NoLastPrefixInside(hex, text, s, t, p, i, e);
    }
  }

  lemma NoLastPrefixInside(hex: string, text: string, s: nat, t: nat, p: nat, i: nat, e: nat)
    requires IsHexString(hex) && OccursAt(FuzzyPattern(hex), text, s, t) && s < p < t
    ensures !LastPrefix(text[..p], i, e)
  {
    if LastPrefix(text[..p], i, e) {
      LastPrefixShape(text[..p], i, e);
      LastPrefixEnds(text[..p], i, e);
      FirstDigit(hex, text, s, t);
      HexChars(hex, text, s, t, e - 1);
    }
  }

  lemma FirstDigit(hex: string, text: string, s: nat, t: nat)
    requires IsHexString(hex) && OccursAt(FuzzyPattern(hex), text, s, t)
    ensures s < t && !IsLetterOrSep(text[s])
  {
    HexEnds(hex, text[s..t]);
    assert text[s..t][0] == text[s];
  }

  lemma FoundBehind(pattern: Pattern, text: string, t: nat, p: nat, e: nat, k: nat)
    requires t <= p <= e <= |text| && Stops(text[..t], text[t..])
    ensures FoundAt(pattern, text, p, e, k) <==> FoundAt(pattern, text[t..], p - t, e - t, k)
  {
    assert text[t..|text|] == text[t..];
    Within(pattern, text, t, |text|, p, e);
    StopsEarlier(text[..t], text[t..], p - t);
    assert text[..t] + text[t..][..p - t] == text[..p];
    PrefixesBehind(text[..t], text[t..][..p - t], k);
  }

  lemma FoundBefore(pattern: Pattern, text: string, s: nat, p: nat, e: nat, k: nat)
    requires p <= e <= s <= |text|
    ensures FoundAt(pattern, text, p, e, k) <==> FoundAt(pattern, text[..s], p, e, k)
  {
    assert text[0..s] == text[..s] && text[..s][..p] == text[..p];
    Within(pattern, text, 0, s, p, e);
  }

  /** The matches of a token with prefixes in front are the leftmost and those behind it. */
  lemma FoundFromFirst(hex: string, text: string, s: nat, t: nat, k: nat)
    requires IsHexString(hex) && OccursAt(FuzzyPattern(hex), text, s, t) && Unmatched(FuzzyPattern(hex), text, 0, s)
    requires Stops(text[..t], text[t..]) && k >= 1
    ensures FoundWith(FuzzyPattern(hex), text, k) <==>
      EndsIn(text[..s], k) || FoundWith(FuzzyPattern(hex), text[t..], k)
  {
    var q := FuzzyPattern(hex);
    if p: nat, e: nat :| FoundAt(q, text, p, e, k) {
      assert p >= s;
      if s < p < t {
        NoPrefixInside(hex, text, s, t, p, k);
      } else if p >= t {
        FoundBehind(q, text, t, p, e, k);
        assert FoundAt(q, text[t..], p - t, e - t, k);
      }
    }
    if EndsIn(text[..s], k) {
      assert FoundAt(q, text, s, t, k);
    }
    if p: nat, e: nat :| FoundAt(q, text[t..], p, e, k) {
      FoundBehind(q, text, t, p + t, e + t, k);
      assert FoundAt(q, text, p + t, e + t, k);
    }
  }

  lemma FusedInPart(pattern: Pattern, text: string, lo: nat, hi: nat)
    requires lo <= hi <= |text| && !Fused(pattern, text)
    ensures !Fused(pattern, text[lo..hi])
  {
    if p: nat, e: nat :| FusedAt(pattern, text[lo..hi], p, e) {
      var f: nat :| OccursAt(LETTERS, text[lo..hi], e - 1, f);
      Within(pattern, text, lo, hi, lo + p, lo + e);
      Within(LETTERS, text, lo, hi, lo + e - 1, lo + f);
      FusedHere(pattern, text, lo + p, lo + e, lo + f);
    }
  }

  /** Replacing a token turns its prefixes into prefixes of markers, and touches no other. */
  lemma {:induction false} RedactionMoves(hex: string, text: string, k: nat)
    requires IsHexString(hex) && |hex| >= 5 && Solid(FuzzyPattern(hex)) && k >= 1
    requires !Fused(FuzzyPattern(hex), text)
    ensures MarkedBy(Sub(FuzzyPattern(hex), text), k) <==> MarkedBy(text, k) || FoundWith(FuzzyPattern(hex), text, k)
    decreases |text|
  {
    var q := FuzzyPattern(hex);
    var hit, s, t := SubCuts(q, text);
    if !hit {
    } else {
      assert text[t..|text|] == text[t..];
      StopsAtToken(hex, text, s, t, |text|);
      FusedInPart(q, text, t, |text|);
      RedactionMoves(hex, text[t..], k);
      FreshMarker(text[..s], Sub(q, text[t..]), k);
      MarksAroundToken(hex, text, s, t, k);
      FoundFromFirst(hex, text, s, t, k);
    }
  }
}
