/**
 * Which texts the canary matcher finds, letter by letter, and what the guard does when it finds one
 * (src/core/canary.py:44-91, 158-231).
 */
module CanaryFacts {
  import opened Basics
  import opened Canary
  import opened CanaryResidue
  import opened CanaryOrder

  // ----- characters -----

  const CASES: set<(char, char)> := {
    ('a', 'A'), ('b', 'B'), ('c', 'C'), ('d', 'D'), ('e', 'E'), ('f', 'F'),
    ('n', 'N'), ('r', 'R'), ('t', 'T'), ('y', 'Y')
  }

  predicate SameButCase(c: char, letter: char)
  {
    c == letter || (c, letter) in CASES || (letter, c) in CASES
  }

  predicate IsGap(c: char)
  {
    c in {
      '\t', '\n', '\U{0b}', '\U{0c}', '\r', '\U{1c}', '\U{1d}', '\U{1e}', '\U{1f}', ' ', '\U{85}', '\U{a0}', '\U{1680}',
      '\U{2000}', '\U{2001}', '\U{2002}', '\U{2003}', '\U{2004}', '\U{2005}', '\U{2006}', '\U{2007}', '\U{2008}',
      '\U{2009}', '\U{200a}', '\U{2028}', '\U{2029}', '\U{202f}', '\U{205f}', '\U{3000}',
      '-', '_', '.', '\U{200b}'
    }
  }

  lemma GapsAreSeparators(c: char)
    ensures IsSep(c) <==> IsGap(c)
  {
  }

  /** The letters of hex tokens, of "CNRY" and of the marker. */
  predicate InAlphabet(letter: char)
  {
    '0' <= letter <= '9' || 'a' <= letter <= 'f' || letter in {'C', 'N', 'R', 'Y', 'r', 't', '[', ']'}
  }

  lemma CasesAreIgnored(c: char, a: Atom)
    requires InAlphabet(a.c)
    ensures SameLetter(c, a) <==> SameButCase(c, a.c)
  {
  }

  // ----- places of letters -----

  /** Where the separators in front of a letter begin. */
  function After(places: seq<nat>, i: nat, m: nat): nat
    requires m <= |places|
  {
    if m == 0 then i else places[m - 1] + 1
  }

  /** The letters of a pattern stand at these places of text[i..e], with nothing but separators in
      front of a letter that allows them and nothing at all in front of another. */
  ghost predicate Placed(pattern: Pattern, text: string, i: nat, e: nat, places: seq<nat>)
  {
    && |places| == |pattern| && i <= |text|
    && (forall m: nat :: m < |places| ==> PlacedAt(pattern, text, i, places, m))
    && e == After(places, i, |places|)
  }

  ghost predicate PlacedAt(pattern: Pattern, text: string, i: nat, places: seq<nat>, m: nat)
    requires |places| == |pattern| && m < |places|
  {
    LetterAt(pattern[m], text, After(places, i, m), places[m])
  }

  ghost predicate LetterAt(a: Atom, text: string, from: nat, at: nat)
  {
    && from <= at < |text| && SameLetter(text[at], a)
    && (forall q :: from <= q < at ==> IsSep(text[q])) && (!a.gap ==> at == from)
  }

  lemma FirstAt(pattern: Pattern, text: string, i: nat, e: nat) returns (j: nat)
    requires pattern != [] && OccursAt(pattern, text, i, e)
    ensures LetterAt(pattern[0], text, i, j) && OccursAt(pattern[1..], text, j + 1, e)
  {
    var k := FirstOf(pattern, text[i..e]);
    j := i + k;
    SliceOfSlice(text, i, e, k + 1, e - i);
    assert text[i..e][k] == text[j];
    assert forall q :: i <= q < j ==> text[i..e][q - i] == text[q];
  }

  lemma FirstJoins(pattern: Pattern, text: string, i: nat, e: nat, j: nat)
    requires pattern != [] && LetterAt(pattern[0], text, i, j) && OccursAt(pattern[1..], text, j + 1, e)
    ensures OccursAt(pattern, text, i, e)
  {
    SliceOfSlice(text, i, e, j - i + 1, e - i);
    assert text[i..e][j - i] == text[j];
    LeadsOn(pattern, text[i..e], j - i);
  }

  /** The places of all letters are the place of the first and the places of the others. */
  lemma PlacedFirst(pattern: Pattern, text: string, i: nat, e: nat, j: nat, rest: seq<nat>)
    requires pattern != [] && LetterAt(pattern[0], text, i, j) && Placed(pattern[1..], text, j + 1, e, rest)
    ensures Placed(pattern, text, i, e, [j] + rest)
  {
    var places := [j] + rest;
    forall m: nat | m < |places|
      ensures PlacedAt(pattern, text, i, places, m)
    {
      if m > 0 {
        assert PlacedAt(pattern[1..], text, j + 1, rest, m - 1);
      }
    }
  }

  lemma PlacedRest(pattern: Pattern, text: string, i: nat, e: nat, places: seq<nat>)
    requires pattern != [] && Placed(pattern, text, i, e, places)
    ensures LetterAt(pattern[0], text, i, places[0]) && Placed(pattern[1..], text, places[0] + 1, e, places[1..])
  {
    var rest, others, next := places[1..], pattern[1..], places[0] + 1;
    assert PlacedAt(pattern, text, i, places, 0);
    forall m: nat | m < |rest|
      ensures PlacedAt(others, text, next, rest, m)
    {
      assert PlacedAt(pattern, text, i, places, m + 1);
    }
  }

  lemma {:induction false} PlacesOf(pattern: Pattern, text: string, i: nat, e: nat) returns (places: seq<nat>)
    requires OccursAt(pattern, text, i, e)
    ensures Placed(pattern, text, i, e, places)
    decreases |pattern|
  {
    if pattern == [] {
      places := [];
    } else {
      var j := FirstAt(pattern, text, i, e);
      var rest := PlacesOf(pattern[1..], text, j + 1, e);
      PlacedFirst(pattern, text, i, e, j, rest);
      places := [j] + rest;
    }
  }

  lemma {:induction false} OccursAtPlaces(pattern: Pattern, text: string, i: nat, e: nat, places: seq<nat>)
    requires Placed(pattern, text, i, e, places)
    ensures OccursAt(pattern, text, i, e)
    decreases |pattern|
  {
    if pattern == [] {
      assert text[i..e] == "";
    } else {
      PlacedRest(pattern, text, i, e, places);
      OccursAtPlaces(pattern[1..], text, places[0] + 1, e, places[1..]);
      FirstJoins(pattern, text, i, e, places[0]);
    }
  }

  // ----- what is found -----

  /** Letter `m`, as it is or in the other case, after letter `m - 1` with only gap characters
      between the two, and from letter `tight` on with nothing between. */
  ghost predicate SpelledAt(text: string, letters: string, tight: nat, places: seq<nat>, m: nat)
    requires |places| == |letters| && m < |places|
  {
    && places[m] < |text| && SameButCase(text[places[m]], letters[m])
    && (m > 0 ==> places[m - 1] < places[m] && forall q :: places[m - 1] < q < places[m] ==> IsGap(text[q]))
    && (m > 0 && tight <= m ==> places[m] == places[m - 1] + 1)
  }

  /** The letters stand at these places of the text. */
  ghost predicate Spelled(text: string, letters: string, tight: nat, places: seq<nat>)
  {
    |places| == |letters| && forall m: nat :: m < |places| ==> SpelledAt(text, letters, tight, places, m)
  }

  /** A pattern that spells these letters. */
  predicate Spells(pattern: Pattern, letters: string, tight: nat)
  {
    && |pattern| == |letters|
    && forall m :: 0 <= m < |pattern| ==>
      pattern[m].c == letters[m] && InAlphabet(letters[m]) && (pattern[m].gap <==> 0 < m < tight)
  }

  lemma SpelledLetter(pattern: Pattern, text: string, letters: string, tight: nat, places: seq<nat>, m: nat)
    requires Spells(pattern, letters, tight) && |places| == |letters| && m < |places|
    ensures PlacedAt(pattern, text, places[0], places, m) <==> SpelledAt(text, letters, tight, places, m)
  {
    if places[m] < |text| {
      CasesAreIgnored(text[places[m]], pattern[m]);
      forall q | 0 <= q < |text|
        ensures IsSep(text[q]) <==> IsGap(text[q])
      {
        GapsAreSeparators(text[q]);
      }
    }
  }

  lemma SpelledIsPlaced(pattern: Pattern, text: string, letters: string, tight: nat, places: seq<nat>)
    requires Spells(pattern, letters, tight) && letters != "" && |places| == |letters|
    ensures Spelled(text, letters, tight, places) <==>
      Placed(pattern, text, places[0], places[|places| - 1] + 1, places)
  {
    forall m: nat | m < |places|
      ensures PlacedAt(pattern, text, places[0], places, m) <==> SpelledAt(text, letters, tight, places, m)
    {
      SpelledLetter(pattern, text, letters, tight, places, m);
    }
    assert SpelledAt(text, letters, tight, places, 0) ==> places[0] < |text|;
  }

  lemma PlacedFromFirst(pattern: Pattern, text: string, i: nat, e: nat, places: seq<nat>)
    requires pattern != [] && !pattern[0].gap && Placed(pattern, text, i, e, places)
    ensures places[0] == i && places[|places| - 1] + 1 == e
  {
    PlacedRest(pattern, text, i, e, places);
  }

  lemma FoundIsSpelled(pattern: Pattern, text: string, letters: string, tight: nat)
    requires Spells(pattern, letters, tight) && letters != ""
    ensures Occurs(pattern, text) <==> exists places :: Spelled(text, letters, tight, places)
  {
    if i: nat, e: nat :| OccursAt(pattern, text, i, e) {
      var places := PlacesOf(pattern, text, i, e);
      PlacedFromFirst(pattern, text, i, e, places);
      SpelledIsPlaced(pattern, text, letters, tight, places);
    }
    if places :| Spelled(text, letters, tight, places) {
      SpelledIsPlaced(pattern, text, letters, tight, places);
      OccursAtPlaces(pattern, text, places[0], places[|places| - 1] + 1, places);
    }
  }

  /** What a token is. */
  lemma TokenShape(token: string)
    ensures IsToken(token) <==>
      && |token| >= 10 && token[..5] == "CNRY-"
      && forall k :: 5 <= k < |token| ==> token[k] in {
        '0', '1', '2', '3', '4', '5', '6', '7', '8', '9', 'a', 'b', 'c', 'd', 'e', 'f'
      }
  {
    if |token| >= 10 {
      assert forall k :: 5 <= k < |token| ==> token[k] == token[5..][k - 5];
    }
  }

  /** A token is found exactly where its digits, in either case, stand in order with nothing between
      them but white space, '-', '_', '.' and zero-width spaces. */
  lemma ObfuscatedIsFound(token: string, response: string)
    requires IsToken(token)
    ensures Occurs(TokenPattern(token), response) <==>
      exists places :: Spelled(response, token[5..], |token|, places)
  {
    FoundIsSpelled(TokenPattern(token), response, token[5..], |token|);
  }

  /** A prefix is found exactly where "CNRY" is spelled in the same way before a marker in one piece. */
  lemma PrefixIsSpelled(text: string)
    ensures Occurs(PREFIX_PATTERN, text) <==> exists places :: Spelled(text, "CNRY[redacted]", 5, places)
  {
    PrefixSpells();
    FoundIsSpelled(PREFIX_PATTERN, text, "CNRY[redacted]", 5);
  }

  lemma PrefixSpells()
    ensures Spells(PREFIX_PATTERN, "CNRY[redacted]", 5)
  {
    var p := "CNRY[redacted]";
    assert forall i :: 0 <= i < |PREFIX_PATTERN| ==> PREFIX_PATTERN[i].c == p[i];
  }

  // ----- what becomes of it -----

  /** A call without a session, or without a leak, is neither counted nor refused; any other adds one
      to its session's count alone and is refused when the count passes the threshold. */
  lemma CallsAreCounted(counts: map<string, nat>, session: string, leaked: bool, threshold: int)
    ensures !leaked || session == "" ==>
      Logged(counts, Call(session, leaked)) == counts && !Refused(counts, Call(session, leaked), threshold)
    ensures leaked && session != "" ==>
      var count := if session in counts then counts[session] + 1 else 1;
      && Logged(counts, Call(session, leaked)) == counts[session := count]
      && (Refused(counts, Call(session, leaked), threshold) <==> count > threshold)
  {
  }

  /** A response that is a token, or the hex digits of one, becomes the marker. */
  lemma LoneToken(token: string)
    requires IsToken(token)
    ensures Rounds(token, [token]) == Rounds(token[5..], [token]) == "[redacted]"
  {
    var hex, p := token[5..], TokenPattern(token);
    TokenFacts(token);
    assert token == PREFIX + hex && "" + hex == hex && "" + MARKER == MARKER;
    RedactedToken(token);
    RedactedTail(token, "");
    CleanedMarkers();
    LiteralInLanguage(hex, 0);
    assert p[0..] == p && hex[0..] == hex && token[5..|token|] == hex && hex[0..|hex|] == hex;
    assert OccursAt(p, token, 5, |token|) && OccursAt(p, hex, 0, |hex|);
    OneFiringRound(token, token);
    OneFiringRound(hex, token);
  }

  lemma OneFiringRound(response: string, token: string)
    requires IsToken(token) && Occurs(TokenPattern(token), response)
    ensures Rounds(response, [token]) == Cleaned(Redacted(response, token))
  {
    TokenFacts(token);
    SearchFindsOccurrence(token, response);
    assert [token][..0] == [];
  }
}
