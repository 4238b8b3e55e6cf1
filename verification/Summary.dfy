/**
 * Tool-result text: item counting, the truncation marker and the summary that replaces an old
 * result in the context (src/core/truncation.py:23-214; src/core/agentic_loop.py:575-602).
 */
module Summary {
  import opened Basics

  /** A parsed JSON value as far as the summaries look into it. */
  datatype Value = Scalar | List(items: seq<Value>) | Dict(entries: seq<(string, Value)>)

  /** `json.loads` (None where it raises) and `json.dumps`. */
  datatype Codec = Codec(loads: string -> Option<Value>, dumps: Value -> string)

  // ----- str methods -----

  function StripLeft(text: string): (r: string)
    ensures |r| <= |text|
    ensures r != [] ==> !IsWhitespace(r[0])
  {
    if text != [] && IsWhitespace(text[0]) then StripLeft(text[1..]) else text
  }

  function StripRight(text: string): (r: string)
    ensures r <= text
    ensures r != [] ==> !IsWhitespace(r[|r| - 1])
  {
    if text != [] && IsWhitespace(text[|text| - 1]) then StripRight(text[..|text| - 1]) else text
  }

  function Strip(text: string): (r: string)
    ensures |r| <= |text|
    ensures r != [] ==> !IsWhitespace(r[0])
  {
    StripRight(StripLeft(text))
  }

  /** A text that does not begin with white space keeps its first character. */
  lemma StripKeepsFirst(text: string)
    requires text != [] && !IsWhitespace(text[0])
    ensures Strip(text) != [] && Strip(text)[0] == text[0]
  {
    StripRightKeeps(text);
  }

  lemma {:induction false} StripRightKeeps(text: string)
    requires text != [] && !IsWhitespace(text[0])
    ensures StripRight(text) != []
  {
    if IsWhitespace(text[|text| - 1]) {
      StripRightKeeps(text[..|text| - 1]);
    }
  }

  predicate IsLineBreak(c: char)
  {
    '\n' <= c <= '\r' || '\U{1c}' <= c <= '\U{1e}' || c == '\U{85}' || c == '\U{2028}' || c == '\U{2029}'
  }

  /** The text cut at every character that satisfies `cut`. */
  function Pieces(text: string, cut: char -> bool): (pieces: seq<string>)
    ensures pieces != []
  {
    if text == [] then [[]]
    else
      var rest := Pieces(text[1..], cut);
      if cut(text[0]) then [[]] + rest else [[text[0]] + rest[0]] + rest[1..]
  }

  predicate Blank(line: string) { Strip(line) == [] }

  function NonBlank(pieces: seq<string>): seq<string>
  {
    if pieces == [] then []
    else (if Blank(pieces[0]) then [] else [pieces[0]]) + NonBlank(pieces[1..])
  }

  /** The lines of a text that hold more than white space. */
  function Lines(text: string): seq<string> { NonBlank(Pieces(text, c => IsLineBreak(c))) }

  /** `text.split()`. */
  function Tokens(text: string): seq<string> { NonBlank(Pieces(text, c => IsWhitespace(c))) }

  function TotalLength(pieces: seq<string>): nat
  {
    if pieces == [] then 0 else |pieces[0]| + TotalLength(pieces[1..])
  }

  lemma {:induction false} PiecesFit(text: string, cut: char -> bool)
    ensures TotalLength(Pieces(text, cut)) <= |text|
  {
    if text == [] {
    } else {
      PiecesFit(text[1..], cut);
    }
  }

  lemma {:induction false} NonBlankFit(pieces: seq<string>)
    ensures |NonBlank(pieces)| <= TotalLength(pieces)
  {
    if pieces == [] {
    } else {
      NonBlankFit(pieces[1..]);
      if pieces[0] == [] {
        assert Blank(pieces[0]);
      }
    }
  }

  function Join(separator: string, parts: seq<string>): string
  {
    if parts == [] then ""
    else if |parts| == 1 then parts[0]
    else parts[0] + separator + Join(separator, parts[1..])
  }

  /** `text[:hi]` for a bound of any sign. */
  function Head(text: string, hi: int): (r: string)
    ensures r <= text && (hi >= 0 ==> |r| <= hi)
  {
    if hi >= |text| then text else if hi >= 0 then text[..hi] else if |text| + hi >= 0 then text[..|text| + hi] else ""
  }

  /** Cut to `limit` characters, the last three of them dots. */
  function Ellipsis(text: string, limit: nat): (r: string)
    requires limit >= 3
    ensures |r| <= limit
    ensures |text| <= limit ==> r == text
  {
    if |text| > limit then text[..limit - 3] + "..." else text
  }

  predicate StartsWith(text: string, c: char) { text != [] && text[0] == c }

  // ----- counting items -----

  predicate IsUpperToken(token: string)
  {
    token != [] && 'A' <= token[0] <= 'Z'
    && forall i :: 0 < i < |token| ==> 'A' <= token[i] <= 'Z' || '0' <= token[i] <= '9' || token[i] in "_/-"
  }

  predicate IsTableHeader(line: string)
  {
    var tokens := Tokens(line);
    |tokens| >= 2
    && ((forall t :: t in tokens ==> IsUpperToken(t))
        || tokens[0] in {"NAME", "NAMESPACE", "STATUS", "READY", "AGE", "NODE"})
  }

  function Lookup(entries: seq<(string, Value)>, key: string): Option<Value>
  {
    if entries == [] then None else if entries[0].0 == key then Some(entries[0].1) else Lookup(entries[1..], key)
  }

  const COLLECTION_KEYS := ["items", "pods", "results", "data", "nodes", "records"]

  /** The list under the first well-known collection key that holds one. */
  function KnownCollection(entries: seq<(string, Value)>, keys: seq<string>): Option<nat>
  {
    if keys == [] then None
    else match Lookup(entries, keys[0])
      case Some(List(items)) => Some(|items|)
      case _ => KnownCollection(entries, keys[1..])
  }

  function LargestList(entries: seq<(string, Value)>): Option<nat>
  {
    if entries == [] then None
    else
      var rest := LargestList(entries[1..]);
      match entries[0].1
      case List(items) => if rest.None? || |items| >= rest.value then Some(|items|) else rest
      case _ => rest
  }

  function DictCount(entries: seq<(string, Value)>): Option<nat>
  {
    var known := KnownCollection(entries, COLLECTION_KEYS);
    if known.Some? then known else LargestList(entries)
  }

  /** Rows of a text with two lines or more; a table header is not a row. */
  function LineCount(text: string): (count: Option<nat>)
    ensures count.Some? ==> count.value <= |Lines(text)|
  {
    var lines := Lines(text);
    if |lines| <= 1 then None
    else Some(|lines| - if IsTableHeader(Strip(lines[0])) then 1 else 0)
  }

  /** The size of a parsed array, or of the collection inside a parsed object. */
  function JsonCount(parsed: Option<Value>, isArray: bool): Option<nat>
  {
    match parsed
    case Some(List(items)) => if isArray then Some(|items|) else None
    case Some(Dict(entries)) =>
      var n := DictCount(entries);
      if !isArray && n.Some? && n.value > 0 then n else None
    case _ => None
  }

  /** `json.loads` of a stripped text that begins like an array or an object. */
  function Parsed(codec: Codec, stripped: string): Option<Value>
  {
    if StartsWith(stripped, '[') || StartsWith(stripped, '{') then codec.loads(stripped) else None
  }

  /** `count_items`. */
  function CountItems(codec: Codec, text: string): Option<nat>
  {
    var stripped := Strip(text);
    if stripped == [] then None
    else
      var count := JsonCount(Parsed(codec, stripped), StartsWith(stripped, '['));
      if count.Some? then count else LineCount(text)
  }

  // ----- what is counted -----

  predicate HasBreak(row: string, cut: char -> bool) { exists c :: c in row && cut(c) }

  lemma {:induction false} PiecesOfRow(row: string, rest: string, cut: char -> bool)
    requires !HasBreak(row, cut)
    ensures Pieces(row + rest, cut) == [row + Pieces(rest, cut)[0]] + Pieces(rest, cut)[1..]
  {
    if row == "" {
      assert row + rest == rest && row + Pieces(rest, cut)[0] == Pieces(rest, cut)[0];
    } else {
      assert row[0] in row && (row + rest)[1..] == row[1..] + rest;
      assert !HasBreak(row[1..], cut);
      PiecesOfRow(row[1..], rest, cut);
      assert [row[0]] + (row[1..] + Pieces(rest, cut)[0]) == row + Pieces(rest, cut)[0];
    }
  }

  lemma {:induction false} RowsAreCut(rows: seq<string>, separator: char, cut: char -> bool)
    requires rows != [] && cut(separator) && forall i :: 0 <= i < |rows| ==> !HasBreak(rows[i], cut)
    ensures Pieces(Join([separator], rows), cut) == rows
  {
    if |rows| == 1 {
      PiecesOfRow(rows[0], "", cut);
      assert rows[0] + "" == rows[0];
    } else {
      var rest := Join([separator], rows[1..]);
      RowsAreCut(rows[1..], separator, cut);
      assert Pieces([separator] + rest, cut) == [[]] + Pieces(rest, cut) by {
        assert ([separator] + rest)[1..] == rest;
      }
      PiecesOfRow(rows[0], [separator] + rest, cut);
      assert rows[0] + [separator] + rest == rows[0] + ([separator] + rest);
      assert rows[0] + [] == rows[0];
    }
  }

  lemma {:induction false} AllNonBlank(rows: seq<string>)
    requires forall i :: 0 <= i < |rows| ==> !Blank(rows[i])
    ensures NonBlank(rows) == rows
  {
    if rows == [] {
    } else {
      AllNonBlank(rows[1..]);
    }
  }

  lemma RowsAreLines(rows: seq<string>)
    requires rows != [] && forall i :: 0 <= i < |rows| ==> !Blank(rows[i]) && !HasBreak(rows[i], c => IsLineBreak(c))
    ensures Lines(Join(['\n'], rows)) == rows
  {
    RowsAreCut(rows, '\n', c => IsLineBreak(c));
    AllNonBlank(rows);
  }

  lemma NotJsonCountsLines(codec: Codec, text: string)
    requires Strip(text) != [] && !StartsWith(Strip(text), '[') && !StartsWith(Strip(text), '{')
    ensures CountItems(codec, text) == LineCount(text)
  {
  }

  lemma LinesAreCounted(text: string, rows: seq<string>, headers: nat)
    requires Lines(text) == rows && |rows| >= 2
    requires headers == if IsTableHeader(Strip(rows[0])) then 1 else 0
    ensures LineCount(text) == Some(|rows| - headers)
  {
  }

  /** A table printed row by row is counted by its rows, without its header if it has one. */
  lemma TableIsCounted(codec: Codec, rows: seq<string>, text: string, headers: nat)
    requires |rows| >= 2 && forall i :: 0 <= i < |rows| ==> !Blank(rows[i]) && !HasBreak(rows[i], c => IsLineBreak(c))
    requires headers == if IsTableHeader(Strip(rows[0])) then 1 else 0
    requires text == Join(['\n'], rows)
    requires Strip(text) != [] && !StartsWith(Strip(text), '[') && !StartsWith(Strip(text), '{')
    ensures CountItems(codec, text) == Some(|rows| - headers)
  {
    RowsAreLines(rows);
    LinesAreCounted(text, rows, headers);
    NotJsonCountsLines(codec, text);
  }

  // ----- the summary of a trimmed result -----

  function Samples(codec: Codec, items: seq<Value>): seq<string>
  {
    seq(Min(3, |items|), i requires 0 <= i < Min(3, |items|) => Ellipsis(codec.dumps(items[i]), 80))
  }

  function FirstFullList(entries: seq<(string, Value)>): Option<seq<Value>>
  {
    if entries == [] then None
    else match entries[0].1
      case List(items) => if items != [] then Some(items) else FirstFullList(entries[1..])
      case _ => FirstFullList(entries[1..])
  }

  function SampleLines(text: string): string
  {
    var lines := Lines(text);
    var stripped := seq(|lines|, i requires 0 <= i < |lines| => Strip(lines[i]));
    Ellipsis(Join("; ", stripped[..Min(3, |stripped|)]), 240)
  }

  /** `_extract_sample`; the argument is stripped. */
  function ExtractSample(codec: Codec, text: string): string
  {
    if text == [] then ""
    else
      match Parsed(codec, text)
      case Some(List(items)) =>
        if StartsWith(text, '[') && items != [] then Join("; ", Samples(codec, items)) else SampleLines(text)
      case Some(Dict(entries)) =>
        if StartsWith(text, '{') && FirstFullList(entries).Some?
        then Join("; ", Samples(codec, FirstFullList(entries).value))
        else SampleLines(text)
      case _ => SampleLines(text)
  }

  /** `_extract_top_keys`. */
  function ExtractTopKeys(codec: Codec, text: string): string
  {
    if !StartsWith(text, '{') then ""
    else match codec.loads(text)
      case Some(Dict(entries)) =>
        Join(",", seq(Min(5, |entries|), i requires 0 <= i < Min(5, |entries|) => entries[i].0))
      case _ => ""
  }

  function Shape(count: Option<nat>, length: nat): string
  {
    match count
    case Some(n) => "shape:" + Decimal(n) + " items"
    case None => "shape:" + Decimal(length) + " chars"
  }

  function SummaryText(toolName: string, args: string, shape: string, sample: string, keys: string): string
  {
    "[context-trimmed] " + toolName
    + " | args:" + Ellipsis(args, 200)
    + " | " + shape
    + (if sample != "" then " | sample:" + sample else "")
    + (if keys != "" then " | keys:" + keys else "")
  }

  /** `_summarize_for_context`; `args` is the JSON rendering of the tool's arguments. */
  function Summarize(codec: Codec, toolName: string, args: string, text: string): string
  {
    var stripped := Strip(text);
    SummaryText(toolName, args, Shape(CountItems(codec, text), |stripped|), ExtractSample(codec, stripped),
                ExtractTopKeys(codec, stripped))
  }

  function Marker(count: Option<nat>, length: nat, maxChars: int): string
  {
    "[truncated: showing first " + SignedDecimal(maxChars) + " chars of "
    + (match count
       case Some(n) => Decimal(n) + " items total]\n"
       case None => Decimal(length) + " chars total]\n")
  }

  /** `_truncate_with_marker`. */
  function TruncateWithMarker(codec: Codec, text: string, maxChars: int): string
  {
    if |text| <= maxChars then text else Marked(CountItems(codec, text), text, maxChars)
  }

  function Marked(count: Option<nat>, text: string, maxChars: int): string
  {
    Marker(count, |text|, maxChars) + Head(text, maxChars)
  }

  function SignedDecimal(n: int): string
  {
    if n < 0 then "-" + Decimal(-n) else Decimal(n)
  }

  // ----- length bounds -----

  ghost predicate ValueFits(value: Value, bound: nat)
  {
    match value
    case Scalar => true
    case List(items) => |items| <= bound
    case Dict(entries) => forall i :: 0 <= i < |entries| && entries[i].1.List? ==> |entries[i].1.items| <= bound
  }

  /** A JSON list has at most as many elements as its text has characters. */
  ghost predicate Sane(codec: Codec)
  {
    forall text :: codec.loads(text).Some? ==> ValueFits(codec.loads(text).value, |text|)
  }

  lemma {:induction false} LookupFinds(entries: seq<(string, Value)>, key: string)
    requires Lookup(entries, key).Some?
    ensures exists i :: 0 <= i < |entries| && entries[i].1 == Lookup(entries, key).value
  {
    if entries[0].0 != key {
      LookupFinds(entries[1..], key);
      var i :| 0 <= i < |entries[1..]| && entries[1..][i].1 == Lookup(entries[1..], key).value;
      assert entries[i + 1] == entries[1..][i];
    } else {
      assert entries[0].1 == Lookup(entries, key).value;
    }
  }

  lemma {:induction false} KnownFits(entries: seq<(string, Value)>, keys: seq<string>, bound: nat)
    requires forall i :: 0 <= i < |entries| && entries[i].1.List? ==> |entries[i].1.items| <= bound
    ensures KnownCollection(entries, keys).Some? ==> KnownCollection(entries, keys).value <= bound
  {
    if keys == [] {
    } else {
      KnownFits(entries, keys[1..], bound);
      if Lookup(entries, keys[0]).Some? {
        LookupFinds(entries, keys[0]);
      }
    }
  }

  lemma {:induction false} LargestFits(entries: seq<(string, Value)>, bound: nat)
    requires forall i :: 0 <= i < |entries| && entries[i].1.List? ==> |entries[i].1.items| <= bound
    ensures LargestList(entries).Some? ==> LargestList(entries).value <= bound
  {
    if entries == [] {
    } else {
      LargestFits(entries[1..], bound);
    }
  }

  lemma LinesFit(text: string)
    ensures |Lines(text)| <= |text|
  {
    PiecesFit(text, c => IsLineBreak(c));
    NonBlankFit(Pieces(text, c => IsLineBreak(c)));
  }

  lemma DictCountFits(entries: seq<(string, Value)>, bound: nat)
    requires forall i :: 0 <= i < |entries| && entries[i].1.List? ==> |entries[i].1.items| <= bound
    ensures DictCount(entries).Some? ==> DictCount(entries).value <= bound
  {
    KnownFits(entries, COLLECTION_KEYS, bound);
    LargestFits(entries, bound);
  }

  lemma JsonCountFits(parsed: Option<Value>, isArray: bool, bound: nat)
    requires parsed.Some? ==> ValueFits(parsed.value, bound)
    ensures JsonCount(parsed, isArray).Some? ==> JsonCount(parsed, isArray).value <= bound
  {
    match parsed
    case Some(Dict(entries)) => DictCountFits(entries, bound);
    case _ =>
  }

  /** An item count never exceeds the length of the text. */
  lemma CountFits(codec: Codec, text: string)
    requires Sane(codec)
    ensures CountItems(codec, text).Some? ==> CountItems(codec, text).value <= |text|
  {
    LinesFit(text);
    JsonCountFits(Parsed(codec, Strip(text)), StartsWith(Strip(text), '['), |Strip(text)|);
  }

  lemma SamplesFit(codec: Codec, items: seq<Value>)
    ensures |Join("; ", Samples(codec, items))| <= 244
  {
    var s := Samples(codec, items);
    assert |s| <= 3;
    if |s| == 2 {
      assert Join("; ", s[1..]) == s[1];
    }
    if |s| == 3 {
      assert s[1..][1..] == [s[2]];
      assert Join("; ", s[1..]) == s[1] + "; " + s[2];
    }
  }

  lemma SampleFits(codec: Codec, text: string)
    ensures |ExtractSample(codec, text)| <= 244
  {
    match Parsed(codec, text)
    case Some(List(items)) => SamplesFit(codec, items);
    case Some(Dict(entries)) =>
      if FirstFullList(entries).Some? {
        SamplesFit(codec, FirstFullList(entries).value);
      }
    case _ =>
  }

  lemma ShapeFits(count: Option<nat>, length: nat, bound: nat)
    requires length <= bound && (count.Some? ==> count.value <= bound)
    ensures |Shape(count, length)| <= 12 + |Decimal(bound)|
  {
    DecimalGrows(if count.Some? then count.value else length, bound);
  }

  lemma MarkerFits(count: Option<nat>, length: nat, maxChars: nat, bound: nat)
    requires length <= bound && (count.Some? ==> count.value <= bound)
    ensures |Marker(count, length, maxChars)| <= 50 + |Decimal(maxChars)| + |Decimal(bound)|
  {
    DecimalGrows(if count.Some? then count.value else length, bound);
  }

  lemma SummaryTextFits(toolName: string, args: string, shape: string, sample: string)
    requires |sample| <= 244
    ensures |SummaryText(toolName, args, shape, sample, "")| <= 483 + |toolName| + |shape|
    ensures StartsWith(SummaryText(toolName, args, shape, sample, ""), '[')
  {
  }

  /** A summary has a fixed size up to the tool's name and the digits of one count, unless the
      text looks like a JSON object, whose keys are copied in full. */
  lemma SummaryFits(codec: Codec, toolName: string, args: string, text: string, bound: nat)
    requires Sane(codec) && |text| <= bound
    requires !StartsWith(Strip(text), '{')
    ensures |Summarize(codec, toolName, args, text)| <= 495 + |toolName| + |Decimal(bound)|
    ensures StartsWith(Summarize(codec, toolName, args, text), '[')
  {
    var stripped := Strip(text);
    SampleFits(codec, stripped);
    CountFits(codec, text);
    var count := CountItems(codec, text);
    ShapeFits(count, |stripped|, bound);
    SummaryTextFits(toolName, args, Shape(count, |stripped|), ExtractSample(codec, stripped));
  }

  lemma MarkedFits(count: Option<nat>, text: string, maxChars: nat, bound: nat)
    requires |text| <= bound && (count.Some? ==> count.value <= bound)
    ensures |Marked(count, text, maxChars)| <= 50 + maxChars + |Decimal(maxChars)| + |Decimal(bound)|
  {
    MarkerFits(count, |text|, maxChars, bound);
  }

  lemma TruncateFits(codec: Codec, text: string, maxChars: nat, bound: nat)
    requires Sane(codec) && |text| <= bound
    ensures |TruncateWithMarker(codec, text, maxChars)| <= 50 + maxChars + |Decimal(maxChars)| + |Decimal(bound)|
  {
    if |text| > maxChars {
      CountFits(codec, text);
      var count := CountItems(codec, text);
      MarkedFits(count, text, maxChars, bound);
      assert TruncateWithMarker(codec, text, maxChars) == Marked(count, text, maxChars);
    }
  }
}
