/**
 * The texts that stand for tool results, written out (src/core/truncation.py:23-214;
 * src/core/agentic_loop.py:575-602).
 */
module SummaryFacts {
  import opened Basics
  import opened Summary

  ghost predicate IsBlank(text: string) { forall c :: c in text ==> IsWhitespace(c) }

  lemma {:induction false} StripLeftIs(before: string, text: string)
    requires IsBlank(before) && (text == "" || !IsWhitespace(text[0]))
    ensures StripLeft(before + text) == text
  {
    if before == "" {
      assert before + text == text;
    } else {
      assert before[0] in before && (before + text)[1..] == before[1..] + text;
      StripLeftIs(before[1..], text);
    }
  }

  lemma {:induction false} StripRightIs(text: string, after: string)
    requires IsBlank(after) && (text == "" || !IsWhitespace(text[|text| - 1]))
    ensures StripRight(text + after) == text
  {
    if after == "" {
      assert text + after == text;
    } else {
      var n := |after| - 1;
      assert after[n] in after && (text + after)[..|text| + n] == text + after[..n];
      StripRightIs(text, after[..n]);
    }
  }

  /** Stripping takes the white space off both ends and nothing else. */
  lemma StripIs(before: string, text: string, after: string)
    requires IsBlank(before) && IsBlank(after)
    requires text == "" || (!IsWhitespace(text[0]) && !IsWhitespace(text[|text| - 1]))
    ensures Strip(before + text + after) == text
  {
    if text == "" {
      assert before + text + after == before + after + "";
      StripLeftIs(before + after, "");
    } else {
      StripLeftIs(before, text + after);
      assert before + text + after == before + (text + after);
      StripRightIs(text, after);
    }
  }

  // ----- the summary and the marker -----

  /** The summary of a trimmed result: tool, arguments in at most 200 characters, the number of items
      or else of characters, and a sample and the keys where there are any. */
  lemma SummaryIs(codec: Codec, tool: string, args: string, text: string, shape: string, sample: string, keys: string)
    requires sample == ExtractSample(codec, Strip(text)) && keys == ExtractTopKeys(codec, Strip(text))
    requires shape == match CountItems(codec, text)
      case Some(n) => Decimal(n) + " items"
      case None => Decimal(|Strip(text)|) + " chars"
    ensures Summarize(codec, tool, args, text) ==
      "[context-trimmed] " + tool + " | args:" + (if |args| <= 200 then args else args[..197] + "...")
      + " | " + "shape:" + shape
      + (if sample == "" then "" else " | sample:" + sample) + (if keys == "" then "" else " | keys:" + keys)
  {
    ShapeIs(CountItems(codec, text), |Strip(text)|, shape);
    TextIs(tool, args, "shape:" + shape, sample, keys);
    var cut := if |args| <= 200 then args else args[..197] + "...";
    var front := "[context-trimmed] " + tool + " | args:" + cut + " | ";
    assert front + ("shape:" + shape) == front + "shape:" + shape;
  }

  lemma ShapeIs(count: Option<nat>, length: nat, shape: string)
    requires shape == match count case Some(n) => Decimal(n) + " items" case None => Decimal(length) + " chars"
    ensures Shape(count, length) == "shape:" + shape
  {
    match count
    case Some(n) => assert "shape:" + Decimal(n) + " items" == "shape:" + shape;
    case None => assert "shape:" + Decimal(length) + " chars" == "shape:" + shape;
  }

  lemma TextIs(tool: string, args: string, shape: string, sample: string, keys: string)
    ensures SummaryText(tool, args, shape, sample, keys) ==
      "[context-trimmed] " + tool + " | args:" + (if |args| <= 200 then args else args[..197] + "...")
      + " | " + shape
      + (if sample == "" then "" else " | sample:" + sample) + (if keys == "" then "" else " | keys:" + keys)
  {
  }

  /** A text within the limit stays; of a longer one the first characters are kept, behind a line that
      says how many and of what. */
  lemma TruncatedIs(codec: Codec, text: string, maxChars: nat)
    ensures |text| <= maxChars ==> TruncateWithMarker(codec, text, maxChars) == text
    ensures |text| > maxChars && CountItems(codec, text).Some? ==>
      TruncateWithMarker(codec, text, maxChars) ==
        "[truncated: showing first " + Decimal(maxChars) + " chars of "
        + (Decimal(CountItems(codec, text).value) + " items total]\n") + text[..maxChars]
    ensures |text| > maxChars && CountItems(codec, text).None? ==>
      TruncateWithMarker(codec, text, maxChars) ==
        "[truncated: showing first " + Decimal(maxChars) + " chars of "
        + (Decimal(|text|) + " chars total]\n") + text[..maxChars]
  {
  }

  // ----- what is counted -----

  /** An array is counted by its elements, an object by the collection in it. */
  lemma JsonIsCounted(codec: Codec, text: string, items: seq<Value>, entries: seq<(string, Value)>)
    requires Strip(text) != ""
    ensures Strip(text)[0] == '[' && codec.loads(Strip(text)) == Some(List(items)) ==>
      CountItems(codec, text) == Some(|items|)
    ensures Strip(text)[0] == '{' && codec.loads(Strip(text)) == Some(Dict(entries)) && DictCount(entries).Some? ==>
      CountItems(codec, text) == if DictCount(entries).value > 0 then DictCount(entries) else LineCount(text)
  {
  }

  lemma {:induction false} LookupIs(entries: seq<(string, Value)>, key: string, i: nat)
    requires i < |entries| && entries[i].0 == key && forall m :: 0 <= m < i ==> entries[m].0 != key
    ensures Lookup(entries, key) == Some(entries[i].1)
  {
    if i > 0 {
      LookupIs(entries[1..], key, i - 1);
    }
  }

  /** No list stands under the name. */
  ghost predicate NoListUnder(entries: seq<(string, Value)>, key: string)
  {
    forall m :: 0 <= m < |entries| && entries[m].0 == key ==> !entries[m].1.List?
  }

  lemma {:induction false} NothingLookedUp(entries: seq<(string, Value)>, key: string)
    requires NoListUnder(entries, key)
    ensures Lookup(entries, key).Some? ==> !Lookup(entries, key).value.List?
  {
    if entries != [] && entries[0].0 != key {
      assert NoListUnder(entries[1..], key);
      NothingLookedUp(entries[1..], key);
    }
  }

  lemma {:induction false} KnownIs(entries: seq<(string, Value)>, keys: seq<string>, k: nat, items: seq<Value>)
    requires k < |keys| && Lookup(entries, keys[k]) == Some(List(items))
    requires forall j :: 0 <= j < k ==> NoListUnder(entries, keys[j])
    ensures KnownCollection(entries, keys) == Some(|items|)
  {
    if k > 0 {
      NothingLookedUp(entries, keys[0]);
      KnownIs(entries, keys[1..], k - 1, items);
    }
  }

  lemma {:induction false} NoneKnown(entries: seq<(string, Value)>, keys: seq<string>)
    requires forall k :: k in keys ==> NoListUnder(entries, k)
    ensures KnownCollection(entries, keys) == None
  {
    if keys == [] {
    } else {
      assert keys[0] in keys;
      NothingLookedUp(entries, keys[0]);
      NoneKnown(entries, keys[1..]);
    }
  }

  /** The collection is the list under the first of six names that holds one. */
  lemma CollectionIs(entries: seq<(string, Value)>, keys: seq<string>, k: nat, i: nat)
    requires keys == ["items", "pods", "results", "data", "nodes", "records"]
    requires k < |keys| && forall j :: 0 <= j < k ==> NoListUnder(entries, keys[j])
    requires i < |entries| && entries[i].0 == keys[k] && entries[i].1.List?
    requires forall m :: 0 <= m < i ==> entries[m].0 != keys[k]
    ensures DictCount(entries) == Some(|entries[i].1.items|)
  {
    LookupIs(entries, keys[k], i);
    KnownIs(entries, keys, k, entries[i].1.items);
  }

  /** Without one it is the largest list there is. */
  lemma LargestIs(entries: seq<(string, Value)>, n: nat)
    requires forall k :: k in ["items", "pods", "results", "data", "nodes", "records"] ==> NoListUnder(entries, k)
    requires exists i :: 0 <= i < |entries| && entries[i].1.List? && |entries[i].1.items| == n
    requires forall i :: 0 <= i < |entries| && entries[i].1.List? ==> |entries[i].1.items| <= n
    ensures DictCount(entries) == Some(n)
  {
    NoneKnown(entries, COLLECTION_KEYS);
    LargestOf(entries, n);
  }

  lemma {:induction false} LargestOf(entries: seq<(string, Value)>, n: nat)
    requires forall i :: 0 <= i < |entries| && entries[i].1.List? ==> |entries[i].1.items| <= n
    ensures LargestList(entries).Some? ==> LargestList(entries).value <= n
    ensures (exists i :: 0 <= i < |entries| && entries[i].1.List? && |entries[i].1.items| == n) ==>
      LargestList(entries) == Some(n)
  {
    if entries == [] {
    } else {
      LargestOf(entries[1..], n);
      if i :| 0 < i < |entries| && entries[i].1.List? && |entries[i].1.items| == n {
        assert entries[1..][i - 1] == entries[i];
      }
    }
  }

  /** Words with a space between them are what a line is split into. */
  lemma TokensAre(words: seq<string>)
    requires words != []
    requires forall i :: 0 <= i < |words| ==> !Blank(words[i]) && !HasBreak(words[i], c => IsWhitespace(c))
    ensures Tokens(Join([' '], words)) == words
  {
    RowsAreCut(words, ' ', c => IsWhitespace(c));
    AllNonBlank(words);
  }

  /** A header has at least two words, and all are in capitals or the first is one of six. In capitals:
      a capital letter, and then capital letters, digits, '_', '/' and '-'. */
  lemma HeaderIs(line: string, words: seq<string>, capitals: bool)
    requires words == Tokens(line)
    requires capitals <==> forall w :: w in words ==>
      w != "" && 'A' <= w[0] <= 'Z'
      && forall i :: 1 <= i < |w| ==>
        'A' <= w[i] <= 'Z' || '0' <= w[i] <= '9' || w[i] == '_' || w[i] == '/' || w[i] == '-'
    ensures IsTableHeader(line) <==>
      |words| >= 2 && (capitals || words[0] in {"NAME", "NAMESPACE", "STATUS", "READY", "AGE", "NODE"})
  {
    forall w | w in words
      ensures IsUpperToken(w) <==>
        w != "" && 'A' <= w[0] <= 'Z'
        && forall i :: 1 <= i < |w| ==>
          'A' <= w[i] <= 'Z' || '0' <= w[i] <= '9' || w[i] == '_' || w[i] == '/' || w[i] == '-'
    {
    }
  }

  /** What ends a line. */
  lemma LineBreaksAre(c: char)
    ensures IsLineBreak(c) <==>
      c in {'\n', '\U{0b}', '\U{0c}', '\r', '\U{1c}', '\U{1d}', '\U{1e}', '\U{85}', '\U{2028}', '\U{2029}'}
  {
  }

  // ----- samples and keys -----

  /** The first three elements, each in at most 80 characters. */
  lemma SamplesAre(codec: Codec, items: seq<Value>, i: nat)
    ensures |Samples(codec, items)| == if |items| < 3 then |items| else 3
    ensures i < 3 && i < |items| ==>
      Samples(codec, items)[i] ==
        var written := codec.dumps(items[i]); if |written| <= 80 then written else written[..77] + "..."
  {
  }

  lemma {:induction false} FirstFullIs(entries: seq<(string, Value)>, k: nat)
    requires k < |entries| && entries[k].1.List? && entries[k].1.items != []
    requires forall j :: 0 <= j < k ==> !entries[j].1.List? || entries[j].1.items == []
    ensures FirstFullList(entries) == Some(entries[k].1.items)
  {
    if k > 0 {
      FirstFullIs(entries[1..], k - 1);
    }
  }

  /** A sample is taken from an array, or from the first list of an object that is not empty. */
  lemma SampleIs(codec: Codec, text: string, items: seq<Value>, entries: seq<(string, Value)>, k: nat)
    requires text != "" && items != [] && k < |entries| && entries[k].1 == List(items)
    requires forall j :: 0 <= j < k ==> !entries[j].1.List? || entries[j].1.items == []
    ensures text[0] == '[' && codec.loads(text) == Some(List(items)) ==>
      ExtractSample(codec, text) == Join("; ", Samples(codec, items))
    ensures text[0] == '{' && codec.loads(text) == Some(Dict(entries)) ==>
      ExtractSample(codec, text) == Join("; ", Samples(codec, items))
    ensures text[0] != '[' && text[0] != '{' ==> ExtractSample(codec, text) == SampleLines(text)
  {
    FirstFullIs(entries, k);
  }

  /** Any other text is sampled by its first three lines, stripped, in at most 240 characters. */
  lemma LinesAreSampled(text: string, rows: seq<string>, joined: string)
    requires |rows| == |Lines(text)| && forall i :: 0 <= i < |rows| ==> rows[i] == Strip(Lines(text)[i])
    requires joined == Join("; ", if |rows| <= 3 then rows else rows[..3])
    ensures SampleLines(text) == if |joined| <= 240 then joined else joined[..237] + "..."
  {
    var lines := Lines(text);
    assert seq(|lines|, i requires 0 <= i < |lines| => Strip(lines[i])) == rows;
    assert |rows| <= 3 ==> rows[..|rows|] == rows;
  }

  /** The keys of an object are its first five. */
  lemma KeysAre(codec: Codec, text: string, entries: seq<(string, Value)>, names: seq<string>)
    requires text != "" && text[0] == '{' && codec.loads(text) == Some(Dict(entries))
    requires |names| == (if |entries| < 5 then |entries| else 5)
    requires forall i :: 0 <= i < |names| ==> names[i] == entries[i].0
    ensures ExtractTopKeys(codec, text) == Join(",", names)
  {
    assert seq(Min(5, |entries|), i requires 0 <= i < Min(5, |entries|) => entries[i].0) == names;
  }
}
