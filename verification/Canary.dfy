/**
 * Canary redaction (src/core/canary.py:51-91, 158-231): separator-tolerant, case-insensitive
 * patterns, the substitution of every match by a marker, and the escalation of repeated leaks.
 */
module Canary {
  import opened Basics

  // ----- characters -----

  const PREFIX := "CNRY-"
  const MARKER := "[redacted]"

  /** White space, `-`, `_`, `.` and the zero-width space. */
  predicate IsSep(c: char)
  {
    IsWhitespace(c) || c == '-' || c == '_' || c == '.' || c == '\U{200b}'
  }

  function Lower(c: char): char
  {
    if 'A' <= c <= 'Z' then c - 'A' + 'a' else c
  }

  predicate IsHex(c: char) { '0' <= c <= '9' || 'a' <= c <= 'f' }

  // ----- patterns and the language they denote -----

  /** One literal character of a pattern; `gap` allows separators in front of it. */
  datatype Atom = Atom(c: char, gap: bool)

  type Pattern = seq<Atom>

  predicate SameLetter(c: char, a: Atom) { Lower(c) == Lower(a.c) }

  /** `_fuzzy_pattern`: the hex digits with separators allowed between any two. */
  function FuzzyPattern(hex: string): Pattern
  {
    seq(|hex|, i requires 0 <= i < |hex| => Atom(hex[i], i > 0))
  }

  function Literal(text: string, gap: bool): Pattern
  {
    seq(|text|, i requires 0 <= i < |text| => Atom(text[i], gap && i == 0))
  }

  /** `_fuzzy_prefix_pattern`: "CNRY", however spaced, and then the marker. */
  const PREFIX_PATTERN: Pattern := FuzzyPattern(PREFIX[..4]) + Literal(MARKER, true)

  /** `k` separators (none without a gap) and then the letter of the atom. */
  ghost predicate Leads(a: Atom, word: string, k: nat)
  {
    && k < |word|
    && (forall m :: 0 <= m < k ==> IsSep(word[m]))
    && (!a.gap ==> k == 0)
    && SameLetter(word[k], a)
  }

  /** The regular language of a pattern. */
  ghost predicate InLanguage(pattern: Pattern, word: string)
    decreases |pattern|
  {
    if pattern == [] then word == []
    else exists k: nat :: Leads(pattern[0], word, k) && InLanguage(pattern[1..], word[k + 1..])
  }

  ghost predicate OccursAt(pattern: Pattern, text: string, i: nat, e: nat)
  {
    i <= e <= |text| && InLanguage(pattern, text[i..e])
  }

  ghost predicate Occurs(pattern: Pattern, text: string)
  {
    exists i: nat, e: nat :: OccursAt(pattern, text, i, e)
  }

  ghost predicate SolidAtom(a: Atom)
  {
    forall c :: SameLetter(c, a) ==> !IsSep(c)
  }

  /** No letter of the pattern is itself a separator. */
  ghost predicate Solid(pattern: Pattern)
  {
    forall i :: 0 <= i < |pattern| ==> SolidAtom(pattern[i])
  }

  lemma SliceOfSlice(text: string, lo: nat, hi: nat, i: nat, e: nat)
    requires lo <= hi <= |text| && i <= e <= hi - lo
    ensures text[lo..hi][i..e] == text[lo + i..lo + e]
    ensures text[lo..hi][i..] == text[lo + i..hi]
  {
    forall k | 0 <= k < e - i
      ensures text[lo..hi][i..e][k] == text[lo + i..lo + e][k]
    {
    }
  }

  // ----- the matcher -----

  function SkipSeps(text: string, i: nat): (j: nat)
    requires i <= |text|
    ensures i <= j <= |text|
    ensures forall m :: i <= m < j ==> IsSep(text[m])
    ensures j < |text| ==> !IsSep(text[j])
    decreases |text| - i
  {
    if i < |text| && IsSep(text[i]) then SkipSeps(text, i + 1) else i
  }

  /** Where the match that starts at `i` ends. */
  function MatchEnd(pattern: Pattern, text: string, i: nat): Option<nat>
    requires i <= |text|
    decreases |pattern|
  {
    if pattern == [] then Some(i)
    else
      var j := if pattern[0].gap then SkipSeps(text, i) else i;
      if j < |text| && SameLetter(text[j], pattern[0]) then MatchEnd(pattern[1..], text, j + 1) else None
  }

  lemma {:induction false} MatchEndSound(pattern: Pattern, text: string, i: nat)
    requires i <= |text| && MatchEnd(pattern, text, i).Some?
    ensures OccursAt(pattern, text, i, MatchEnd(pattern, text, i).value)
    ensures pattern != [] ==> i < MatchEnd(pattern, text, i).value
    decreases |pattern|
  {
    var e := MatchEnd(pattern, text, i).value;
    if pattern == [] {
      assert text[i..i] == [];
    } else {
      var j := if pattern[0].gap then SkipSeps(text, i) else i;
      MatchEndSound(pattern[1..], text, j + 1);
      var word := text[i..e];
      SliceOfSlice(text, i, e, j - i + 1, e - i);
      assert Leads(pattern[0], word, j - i);
    }
  }

  lemma SkipsTo(text: string, i: nat, e: nat, k: nat)
    requires i + k < e <= |text|
    requires (forall m :: 0 <= m < k ==> IsSep(text[i..e][m])) && !IsSep(text[i..e][k])
    ensures SkipSeps(text, i) == i + k
  {
  }

  /** The letter of a solid atom ends the separators in front of it. */
  lemma LetterStops(a: Atom, text: string, i: nat, e: nat, k: nat)
    requires SolidAtom(a) && i <= e <= |text| && Leads(a, text[i..e], k)
    ensures i + k < e && SameLetter(text[i + k], a)
    ensures i + k == if a.gap then SkipSeps(text, i) else i
  {
    assert text[i..e][k] == text[i + k];
    assert !IsSep(text[i + k]);
    if a.gap {
      SkipsTo(text, i, e, k);
    }
  }

  lemma LeadsOn(p: Pattern, word: string, j: nat)
    requires p != [] && Leads(p[0], word, j) && InLanguage(p[1..], word[j + 1..])
    ensures InLanguage(p, word)
  {
  }

  lemma FirstOf(p: Pattern, word: string) returns (j: nat)
    requires p != [] && InLanguage(p, word)
    ensures Leads(p[0], word, j) && InLanguage(p[1..], word[j + 1..])
  {
    j :| Leads(p[0], word, j) && InLanguage(p[1..], word[j + 1..]);
  }

  /** Where the first letter of a match stands, and what is left to match after it. */
  lemma FirstLetter(pattern: Pattern, text: string, i: nat, e: nat) returns (j: nat)
    requires Solid(pattern) && pattern != [] && OccursAt(pattern, text, i, e)
    ensures j == (if pattern[0].gap then SkipSeps(text, i) else i)
    ensures j < e && SameLetter(text[j], pattern[0])
    ensures OccursAt(pattern[1..], text, j + 1, e)
  {
    var k := FirstOf(pattern, text[i..e]);
    j := i + k;
    LetterStops(pattern[0], text, i, e, k);
    SliceOfSlice(text, i, e, k + 1, e - i);
  }

  lemma RestIsSolid(pattern: Pattern)
    requires Solid(pattern) && pattern != []
    ensures Solid(pattern[1..])
  {
  }

  /** A solid pattern has at most one match at each place, and the matcher finds it: separators
      are skipped greedily because no letter can be taken for one. */
  lemma {:induction false} MatchEndComplete(pattern: Pattern, text: string, i: nat, e: nat)
    requires Solid(pattern) && OccursAt(pattern, text, i, e)
    ensures MatchEnd(pattern, text, i) == Some(e)
    decreases |pattern|
  {
    if pattern == [] {
    } else {
      var j := FirstLetter(pattern, text, i, e);
      RestIsSolid(pattern);
      MatchEndComplete(pattern[1..], text, j + 1, e);
    }
  }

  /** The leftmost match at or after `i`. */
  function Search(pattern: Pattern, text: string, i: nat): Option<(nat, nat)>
    requires i <= |text|
    decreases |text| - i
  {
    match MatchEnd(pattern, text, i)
    case Some(e) => Some((i, e))
    case None => if i == |text| then None else Search(pattern, text, i + 1)
  }

  /** No match starts in text[lo..hi]. */
  ghost predicate Unmatched(pattern: Pattern, text: string, lo: nat, hi: nat)
  {
    forall a: nat, e: nat :: lo <= a < hi ==> !OccursAt(pattern, text, a, e)
  }

  lemma {:induction false} SearchIsLeftmost(pattern: Pattern, text: string, i: nat)
    requires Solid(pattern) && i <= |text|
    ensures Search(pattern, text, i).None? ==> Unmatched(pattern, text, i, |text| + 1)
    ensures Search(pattern, text, i).Some? ==>
      var (s, t) := Search(pattern, text, i).value;
      i <= s && OccursAt(pattern, text, s, t) && (pattern != [] ==> s < t) && Unmatched(pattern, text, i, s)
    decreases |text| - i
  {
    if MatchEnd(pattern, text, i).Some? {
      MatchEndSound(pattern, text, i);
    } else {
      forall e: nat | OccursAt(pattern, text, i, e)
        ensures false
      {
        MatchEndComplete(pattern, text, i, e);
      }
      if i < |text| {
        SearchIsLeftmost(pattern, text, i + 1);
      }
    }
  }

  /** `pattern.sub("[redacted]", text)`: leftmost, non-overlapping replacement. */
  function Sub(pattern: Pattern, text: string): string
    requires Solid(pattern) && pattern != []
    decreases |text|
  {
    SearchIsLeftmost(pattern, text, 0);
    match Search(pattern, text, 0)
    case None => text
    case Some((s, t)) => text[..s] + MARKER + Sub(pattern, text[t..])
  }

  /** A substitution either finds nothing, or replaces the leftmost match and goes on after it. */
  lemma SubSplits(pattern: Pattern, text: string) returns (hit: bool, s: nat, t: nat)
    requires Solid(pattern) && pattern != []
    ensures !hit ==> !Occurs(pattern, text) && Sub(pattern, text) == text
    ensures hit ==>
      && s < t <= |text|
      && !Occurs(pattern, text[..s]) && InLanguage(pattern, text[s..t])
      && Sub(pattern, text) == text[..s] + MARKER + Sub(pattern, text[t..])
  {
    SearchIsLeftmost(pattern, text, 0);
    match Search(pattern, text, 0)
    case None =>
      hit, s, t := false, 0, 0;
    case Some((s', t')) =>
      hit, s, t := true, s', t';
      NoMatchBefore(pattern, text, s);
  }

  lemma OccursInPart(pattern: Pattern, text: string, lo: nat, hi: nat)
    requires lo <= hi <= |text| && Occurs(pattern, text[lo..hi])
    ensures Occurs(pattern, text)
  {
    var i: nat, e: nat :| OccursAt(pattern, text[lo..hi], i, e);
    SliceOfSlice(text, lo, hi, i, e);
    assert OccursAt(pattern, text, lo + i, lo + e);
  }

  /** A match that lies between `lo` and `hi` is a match of that part of the text. */
  lemma OccursWithin(pattern: Pattern, text: string, lo: nat, hi: nat, i: nat, e: nat)
    requires lo <= i && e <= hi <= |text| && OccursAt(pattern, text, i, e)
    ensures Occurs(pattern, text[lo..hi])
  {
    SliceOfSlice(text, lo, hi, i - lo, e - lo);
    assert OccursAt(pattern, text[lo..hi], i - lo, e - lo);
  }

  // ----- what a substitution does -----

  /** Words and the stretches between them: gaps[0] words[0] gaps[1] ... gaps[n]. */
  function Interleave(gaps: seq<string>, words: seq<string>): string
    requires |gaps| == |words| + 1
  {
    if words == [] then gaps[0] else gaps[0] + words[0] + Interleave(gaps[1..], words[1..])
  }

  function Markers(n: nat): seq<string> { seq(n, _ => MARKER) }

  /** `text` is cut into words of the pattern and stretches without an occurrence of it; in
      `result` the stretches stand in order and each word has become one marker. */
  ghost predicate Redacts(pattern: Pattern, text: string, result: string, gaps: seq<string>, words: seq<string>)
  {
    && |gaps| == |words| + 1
    && text == Interleave(gaps, words)
    && result == Interleave(gaps, Markers(|words|))
    && (forall i :: 0 <= i < |gaps| ==> !Occurs(pattern, gaps[i]))
    && (forall i :: 0 <= i < |words| ==> InLanguage(pattern, words[i]))
  }

  /** Puts one more stretch and one more word in front. */
  lemma RedactsMore(pattern: Pattern, text: string, result: string, s: nat, t: nat, tail: string, gaps: seq<string>,
                    words: seq<string>)
      returns (gaps': seq<string>, words': seq<string>)
    requires s <= t <= |text| && Redacts(pattern, text[t..], tail, gaps, words)
    requires !Occurs(pattern, text[..s]) && InLanguage(pattern, text[s..t])
    requires result == text[..s] + MARKER + tail
    ensures Redacts(pattern, text, result, gaps', words')
  {
    gaps', words' := [text[..s]] + gaps, [text[s..t]] + words;
    assert gaps'[1..] == gaps && words'[1..] == words;
    assert Markers(|words'|)[1..] == Markers(|words|);
    assert text == text[..s] + text[s..t] + text[t..];
  }

  /** What a substitution does: it redacts all matches and nothing else. */
  lemma {:induction false} SubRedacts(pattern: Pattern, text: string) returns (gaps: seq<string>, words: seq<string>)
    requires Solid(pattern) && pattern != []
    ensures Redacts(pattern, text, Sub(pattern, text), gaps, words)
    decreases |text|
  {
    var hit, s, t := SubSplits(pattern, text);
    if !hit {
      gaps, words := [text], [];
      assert Markers(0) == [];
    } else {
      gaps, words := SubRedacts(pattern, text[t..]);
      gaps, words := RedactsMore(pattern, text, Sub(pattern, text), s, t, Sub(pattern, text[t..]), gaps, words);
    }
  }

  lemma NoMatchBefore(pattern: Pattern, text: string, s: nat)
    requires s <= |text| && pattern != [] && Unmatched(pattern, text, 0, s)
    ensures !Occurs(pattern, text[..s])
  {
    if Occurs(pattern, text[..s]) {
      var i: nat, e: nat :| OccursAt(pattern, text[..s], i, e);
      SliceOfSlice(text, 0, s, i, e);
      WordNotEmpty(pattern, text[..s][i..e]);
      assert OccursAt(pattern, text, i, e);
    }
  }

  lemma WordNotEmpty(pattern: Pattern, word: string)
    requires pattern != [] && InLanguage(pattern, word)
    ensures word != []
  {
  }

  // ----- hex tokens and the marker -----

  ghost predicate IsHexString(hex: string)
  {
    hex != [] && forall i :: 0 <= i < |hex| ==> IsHex(hex[i])
  }

  lemma FuzzyIsSolid(hex: string)
    requires forall i :: 0 <= i < |hex| ==> !IsSep(hex[i]) && !('A' <= hex[i] <= 'Z')
    ensures Solid(FuzzyPattern(hex))
  {
  }

  /** Every character of a word is a separator or one of the pattern's letters. */
  lemma {:induction false} WordLetters(pattern: Pattern, word: string, m: nat)
    requires InLanguage(pattern, word) && m < |word|
    ensures IsSep(word[m]) || exists i :: 0 <= i < |pattern| && SameLetter(word[m], pattern[i])
    decreases |pattern|
  {
    var k: nat :| Leads(pattern[0], word, k) && InLanguage(pattern[1..], word[k + 1..]);
    if m == k {
      assert SameLetter(word[m], pattern[0]);
    } else if m > k {
      WordLetters(pattern[1..], word[k + 1..], m - k - 1);
      if !IsSep(word[m]) {
        var i :| 0 <= i < |pattern[1..]| && SameLetter(word[m], pattern[1..][i]);
        assert pattern[i + 1] == pattern[1..][i];
      }
    }
  }

  lemma {:induction false} WordIsLong(pattern: Pattern, word: string)
    requires InLanguage(pattern, word)
    ensures |word| >= |pattern|
    decreases |pattern|
  {
    if pattern == [] {
    } else {
      var k: nat :| Leads(pattern[0], word, k) && InLanguage(pattern[1..], word[k + 1..]);
      WordIsLong(pattern[1..], word[k + 1..]);
    }
  }

  lemma HexWordLetters(hex: string, word: string)
    requires IsHexString(hex) && InLanguage(FuzzyPattern(hex), word)
    ensures forall m :: 0 <= m < |word| ==> IsSep(word[m]) || IsHex(Lower(word[m]))
  {
    forall m | 0 <= m < |word|
      ensures IsSep(word[m]) || IsHex(Lower(word[m]))
    {
      WordLetters(FuzzyPattern(hex), word, m);
    }
  }

  /** Hex tokens cannot reach across a bracket. */
  lemma BracketStops(hex: string, text: string, i: nat, e: nat, at: nat)
    requires IsHexString(hex) && OccursAt(FuzzyPattern(hex), text, i, e)
    requires at < |text| && (text[at] == '[' || text[at] == ']')
    ensures e <= at || at < i
  {
    if i <= at < e {
      assert text[i..e][at - i] == text[at];
      HexWordLetters(hex, text[i..e]);
    }
  }

  /** Putting a marker between two stretches free of a token creates no occurrence of it,
      unless the marker itself contains it. */
  lemma SpliceKeepsClean(hex: string, left: string, right: string)
    requires IsHexString(hex)
    requires !Occurs(FuzzyPattern(hex), left) && !Occurs(FuzzyPattern(hex), right)
    requires !Occurs(FuzzyPattern(hex), MARKER)
    ensures !Occurs(FuzzyPattern(hex), left + MARKER + right)
  {
    var p, text, n := FuzzyPattern(hex), left + MARKER + right, |left|;
    if Occurs(p, text) {
      var i: nat, e: nat :| OccursAt(p, text, i, e);
      assert text[n] == '[' && text[n + 9] == ']';
      BracketStops(hex, text, i, e, n);
      BracketStops(hex, text, i, e, n + 9);
      if e <= n {
        assert text[0..n] == left;
        OccursWithin(p, text, 0, n, i, e);
      } else if i > n + 9 {
        assert text[n + 10..|text|] == right;
        OccursWithin(p, text, n + 10, |text|, i, e);
      } else {
        assert text[n..n + 10] == MARKER;
        OccursWithin(p, text, n, n + 10, i, e);
      }
    }
  }

  /** A substitution of any pattern never re-creates a token. */
  lemma {:induction false} SubKeepsClean(pattern: Pattern, hex: string, text: string)
    requires Solid(pattern) && pattern != []
    requires IsHexString(hex) && !Occurs(FuzzyPattern(hex), MARKER)
    requires !Occurs(FuzzyPattern(hex), text)
    ensures !Occurs(FuzzyPattern(hex), Sub(pattern, text))
    decreases |text|
  {
    var hit, s, t := SubSplits(pattern, text);
    if !hit {
    } else {
      assert text[0..s] == text[..s] && text[t..|text|] == text[t..];
      if Occurs(FuzzyPattern(hex), text[..s]) {
        OccursInPart(FuzzyPattern(hex), text, 0, s);
      }
      if Occurs(FuzzyPattern(hex), text[t..]) {
        OccursInPart(FuzzyPattern(hex), text, t, |text|);
      }
      SubKeepsClean(pattern, hex, text[t..]);
      SpliceKeepsClean(hex, text[..s], Sub(pattern, text[t..]));
    }
  }

  /** Substituting a token's own pattern leaves no occurrence of it. */
  lemma {:induction false} SubRemoves(hex: string, text: string)
    requires IsHexString(hex) && Solid(FuzzyPattern(hex)) && !Occurs(FuzzyPattern(hex), MARKER)
    ensures !Occurs(FuzzyPattern(hex), Sub(FuzzyPattern(hex), text))
    decreases |text|
  {
    var p := FuzzyPattern(hex);
    var hit, s, t := SubSplits(p, text);
    if !hit {
    } else {
      SubRemoves(hex, text[t..]);
      SpliceKeepsClean(hex, text[..s], Sub(p, text[t..]));
    }
  }

  /** Tokens of five digits or more do not occur in the marker (it holds "edac" and "ed"). */
  lemma LongTokensMissMarker(hex: string)
    requires IsHexString(hex) && |hex| >= 5
    ensures !Occurs(FuzzyPattern(hex), MARKER)
  {
    var p := FuzzyPattern(hex);
    if Occurs(p, MARKER) {
      var i: nat, e: nat :| OccursAt(p, MARKER, i, e);
      WordIsLong(p, MARKER[i..e]);
      var at := if i <= 1 then 1 else if i <= 6 then 6 else 9;
      assert MARKER[i..e][at - i] == MARKER[at];
      HexWordLetters(hex, MARKER[i..e]);
    }
  }

  // ----- tokens and the guard -----

  /** What `_generate_token` produces, for any number of hex digits from five up. */
  ghost predicate IsToken(token: string)
  {
    && |token| >= |PREFIX| + 5 && token[..|PREFIX|] == PREFIX
    && IsHexString(token[|PREFIX|..])
  }

  function TokenPattern(token: string): Pattern
    requires IsToken(token)
  {
    FuzzyPattern(token[|PREFIX|..])
  }

  lemma TokenFacts(token: string)
    requires IsToken(token)
    ensures Solid(TokenPattern(token)) && TokenPattern(token) != []
    ensures !Occurs(TokenPattern(token), MARKER)
  {
    FuzzyIsSolid(token[|PREFIX|..]);
    LongTokensMissMarker(token[|PREFIX|..]);
  }

  lemma PrefixPatternIsSolid()
    ensures Solid(PREFIX_PATTERN) && PREFIX_PATTERN != []
  {
  }

  predicate ContainsAt(text: string, part: string, i: int)
  {
    0 <= i <= |text| - |part| && text[i..i + |part|] == part
  }

  /** Python's `part in text`. */
  predicate Contains(text: string, part: string)
  {
    exists i :: 0 <= i <= |text| && ContainsAt(text, part, i)
  }

  /** One round of the loop over tokens: both substitutions when the token is found. */
  function Round(response: string, token: string): string
    requires IsToken(token)
  {
    TokenFacts(token);
    PrefixPatternIsSolid();
    if Search(TokenPattern(token), response, 0).Some?
    then Sub(PREFIX_PATTERN, Sub(TokenPattern(token), response))
    else response
  }

  function Rounds(response: string, tokens: seq<string>): string
    requires forall t :: t in tokens ==> IsToken(t)
  {
    if tokens == [] then response else Round(Rounds(response, tokens[..|tokens| - 1]), tokens[|tokens| - 1])
  }

  /** Some injected token occurs in the model's own output. */
  ghost predicate Leaked(response: string, tokens: seq<string>)
    requires forall t :: t in tokens ==> IsToken(t)
  {
    exists t :: t in tokens && Occurs(TokenPattern(t), response)
  }

  lemma SearchFindsOccurrence(token: string, response: string)
    requires IsToken(token)
    ensures Search(TokenPattern(token), response, 0).Some? <==> Occurs(TokenPattern(token), response)
  {
    TokenFacts(token);
    SearchIsLeftmost(TokenPattern(token), response, 0);
  }

  /** The exact-match test adds nothing: an exact copy of a token is a match of its pattern. */
  lemma ExactIsFuzzy(token: string, response: string)
    requires IsToken(token) && Contains(response, token)
    ensures Occurs(TokenPattern(token), response)
  {
    var i :| 0 <= i <= |response| && ContainsAt(response, token, i);
    LiteralInLanguage(token[|PREFIX|..], 0);
    assert FuzzyPattern(token[|PREFIX|..])[0..] == TokenPattern(token);
    assert response[i + |PREFIX|..i + |token|] == token[|PREFIX|..];
    assert OccursAt(TokenPattern(token), response, i + |PREFIX|, i + |token|);
  }

  lemma {:induction false} LiteralInLanguage(hex: string, k: nat)
    requires k <= |hex|
    ensures InLanguage(FuzzyPattern(hex)[k..], hex[k..])
    decreases |hex| - k
  {
    if k >= |hex| {
    } else {
      LiteralInLanguage(hex, k + 1);
      assert hex[k..][1..] == hex[k + 1..] && FuzzyPattern(hex)[k..][1..] == FuzzyPattern(hex)[k + 1..];
      assert Leads(FuzzyPattern(hex)[k..][0], hex[k..], 0);
    }
  }

  /** A round removes its token and re-creates no other. */
  lemma RoundCleans(response: string, token: string, other: string)
    requires IsToken(token) && IsToken(other)
    ensures !Occurs(TokenPattern(token), Round(response, token))
    ensures !Occurs(TokenPattern(other), response) ==> !Occurs(TokenPattern(other), Round(response, token))
    ensures !Occurs(TokenPattern(token), response) ==> Round(response, token) == response
  {
    TokenFacts(token);
    TokenFacts(other);
    PrefixPatternIsSolid();
    SearchFindsOccurrence(token, response);
    var mid := Sub(TokenPattern(token), response);
    SubRemoves(token[|PREFIX|..], response);
    SubKeepsClean(PREFIX_PATTERN, token[|PREFIX|..], mid);
    if !Occurs(TokenPattern(other), response) {
      SubKeepsClean(TokenPattern(token), other[|PREFIX|..], response);
      SubKeepsClean(PREFIX_PATTERN, other[|PREFIX|..], mid);
    }
  }

  /** After all rounds no injected token occurs, however separated or cased: later rounds never
      undo earlier ones. */
  lemma {:induction false} RoundsClean(response: string, tokens: seq<string>, token: string)
    requires forall t :: t in tokens ==> IsToken(t)
    requires IsToken(token) && (token in tokens || !Occurs(TokenPattern(token), response))
    ensures !Occurs(TokenPattern(token), Rounds(response, tokens))
  {
    if tokens == [] {
    } else {
      var front, last := tokens[..|tokens| - 1], tokens[|tokens| - 1];
      assert tokens == front + [last];
      if token != last {
        RoundsClean(response, front, token);
      }
      RoundCleans(Rounds(response, front), last, token);
    }
  }

  /** A response without any token comes back as it is, and only such a response does. */
  lemma {:induction false} RoundsUnchanged(response: string, tokens: seq<string>)
    requires forall t :: t in tokens ==> IsToken(t)
    ensures Rounds(response, tokens) == response <==> !Leaked(response, tokens)
  {
    if Leaked(response, tokens) {
      var t :| t in tokens && Occurs(TokenPattern(t), response);
      RoundsClean(response, tokens, t);
    } else if tokens != [] {
      var front, last := tokens[..|tokens| - 1], tokens[|tokens| - 1];
      RoundsUnchanged(response, front);
      RoundCleans(response, last, last);
    }
  }

  // ----- escalation -----

  datatype Verdict = Returned(text: string) | Blocked

  /** A call of `detect` as the escalation counter sees it. */
  datatype Call = Call(session: string, leaked: bool)

  function Count(counts: map<string, nat>, session: string): nat
  {
    if session in counts then counts[session] else 0
  }

  predicate Counted(call: Call) { call.leaked && call.session != "" }

  function Logged(counts: map<string, nat>, call: Call): map<string, nat>
  {
    if Counted(call) then counts[call.session := Count(counts, call.session) + 1] else counts
  }

  predicate Refused(counts: map<string, nat>, call: Call, threshold: int)
  {
    Counted(call) && Count(counts, call.session) + 1 > threshold
  }

  /** How many leaking calls of a session get an answer, redacted but delivered. */
  function FreeProbes(counts: map<string, nat>, calls: seq<Call>, session: string, threshold: int): nat
    decreases |calls|
  {
    if calls == [] then 0
    else
      (if calls[0].session == session && Counted(calls[0]) && !Refused(counts, calls[0], threshold) then 1 else 0)
      + FreeProbes(Logged(counts, calls[0]), calls[1..], session, threshold)
  }

  function Leaks(calls: seq<Call>, session: string): nat
  {
    if calls == [] then 0
    else (if calls[0].session == session && Counted(calls[0]) then 1 else 0) + Leaks(calls[1..], session)
  }

  /** However calls of different sessions interleave, a session is answered on its first
      `threshold` leaks and on no later one. */
  lemma {:induction false} ProbesAreCapped(counts: map<string, nat>, calls: seq<Call>, session: string, threshold: int)
    ensures FreeProbes(counts, calls, session, threshold)
      == Max(0, Min(Leaks(calls, session), threshold - Count(counts, session)))
    decreases |calls|
  {
    if calls == [] {
    } else {
      ProbesAreCapped(Logged(counts, calls[0]), calls[1..], session, threshold);
    }
  }

  /** The loop of `detect`: both substitutions for each token that is found. */
  method RedactTokens(response: string, tokens: seq<string>) returns (current: string, leaked: bool)
    requires forall t :: t in tokens ==> IsToken(t)
    ensures current == Rounds(response, tokens)
    ensures leaked <==> Leaked(response, tokens)
    ensures current == response <==> !leaked
    ensures forall t :: t in tokens ==> !Occurs(TokenPattern(t), current)
  {
    leaked := false;
    current := response;
    for k := 0 to |tokens|
      invariant current == Rounds(response, tokens[..k])
      invariant leaked <==> Leaked(response, tokens[..k])
    {
      var token := tokens[k];
      NextRound(response, tokens[..k], token);
      assert tokens[..k + 1] == tokens[..k] + [token];
      TokenFacts(token);
      PrefixPatternIsSolid();
      if Contains(current, token) || Search(TokenPattern(token), current, 0).Some? {
        leaked := true;
        current := Sub(TokenPattern(token), current);
        current := Sub(PREFIX_PATTERN, current);
      }
    }
    assert tokens[..|tokens|] == tokens;
    RoundsUnchanged(response, tokens);
    forall t | t in tokens
      ensures !Occurs(TokenPattern(t), Rounds(response, tokens))
    {
      RoundsClean(response, tokens, t);
    }
  }

  /** The module-level counter and the guard's `detect`. */
  class DetectionLog {
    var counts: map<string, nat>

    constructor ()
      ensures counts == map[]
    {
      counts := map[];
    }

    method Detect(enabled: bool, threshold: int, response: string, tokens: seq<string>, sessionId: string)
      returns (verdict: Verdict)
      requires forall t :: t in tokens ==> IsToken(t)
      modifies this
      ensures var call := Call(sessionId, enabled && Leaked(response, tokens));
        && counts == Logged(old(counts), call)
        && (verdict.Blocked? <==> Refused(old(counts), call, threshold))
        && (verdict.Returned? ==> (verdict.text == response <==> !call.leaked))
      ensures var before := if sessionId in old(counts) then old(counts)[sessionId] else 0;
        if enabled && Leaked(response, tokens) && sessionId != "" then
          counts == old(counts)[sessionId := before + 1] && (verdict.Blocked? <==> before + 1 > threshold)
        else counts == old(counts) && verdict.Returned?
      ensures verdict.Returned? ==> verdict.text == if enabled then Rounds(response, tokens) else response
      ensures verdict.Returned? && enabled ==> forall t :: t in tokens ==> !Occurs(TokenPattern(t), verdict.text)
    {
      if !enabled || tokens == [] {
        return Returned(response);
      }
      var current, leaked := RedactTokens(response, tokens);
      if leaked && sessionId != "" {
        var count := Count(counts, sessionId) + 1;
        counts := counts[sessionId := count];
        if count > threshold {
          return Blocked;
        }
      }
      return Returned(current);
    }
  }

  /** Whether a leak is noticed does not depend on which token is tried first: a token still
      found after earlier rounds was in the model's output, and one destroyed by an earlier
      round was not alone. */
  lemma LeakSurvives(response: string, tokens: seq<string>, token: string)
    requires forall t :: t in tokens ==> IsToken(t)
    requires IsToken(token)
    ensures Leaked(response, tokens) || Occurs(TokenPattern(token), Rounds(response, tokens))
      <==> Leaked(response, tokens + [token])
  {
    RoundsUnchanged(response, tokens);
    if Occurs(TokenPattern(token), response) {
      assert token in tokens + [token];
    }
    if !Occurs(TokenPattern(token), response) {
      RoundsClean(response, tokens, token);
    }
  }

  /** What one turn of the loop sees and does. */
  lemma NextRound(response: string, tokens: seq<string>, token: string)
    requires forall t :: t in tokens ==> IsToken(t)
    requires IsToken(token)
    ensures var current := Rounds(response, tokens);
      && Rounds(response, tokens + [token]) == Round(current, token)
      && (Contains(current, token) ==> Search(TokenPattern(token), current, 0).Some?)
      && (Leaked(response, tokens + [token]) <==>
          Leaked(response, tokens) || Search(TokenPattern(token), current, 0).Some?)
  {
    var current := Rounds(response, tokens);
    assert (tokens + [token])[..|tokens|] == tokens;
    SearchFindsOccurrence(token, current);
    LeakSurvives(response, tokens, token);
    if Contains(current, token) {
      ExactIsFuzzy(token, current);
    }
  }
}
