/**
 * What a reference in a tool's JSON Schema stands for: in the document, as RFC 6901 reads a pointer
 * in a URI fragment, and for the schema compiler, which looks it up by name in the merged
 * definitions (src/core/tool_schema.py:95-108, 227-230).
 */
module SchemaReferences {
  import opened Basics
  import opened ToolSchema

  /** What the references of a document stand for, each written out as under `$ref`. One that is
      not listed stands for nothing. */
  type Refs = map<string, Json>

  // ----- pointers into the document -----

  function FirstSlash(text: string): (n: nat)
    ensures n <= |text| && (n < |text| ==> text[n] == '/') && forall i :: 0 <= i < n ==> text[i] != '/'
  {
    if text == "" || text[0] == '/' then 0 else 1 + FirstSlash(text[1..])
  }

  /** A reference token with its escapes undone: section 4 of RFC 6901. */
  function Unescape(token: string): string
  {
    if token == "" then ""
    else if token[0] == '~' && |token| > 1 && token[1] == '1' then ['/'] + Unescape(token[2..])
    else if token[0] == '~' && |token| > 1 && token[1] == '0' then ['~'] + Unescape(token[2..])
    else [token[0]] + Unescape(token[1..])
  }

  /** The element that an array index names among the first `n`. */
  function Element(elements: seq<Json>, token: string, n: nat): Option<Json>
    requires n <= |elements|
  {
    if n == 0 then None
    else if Decimal(n - 1) == token then Some(elements[n - 1])
    else Element(elements, token, n - 1)
  }

  function Member(value: Json, token: string): Option<Json>
  {
    match value
    case Obj(fields) => if Unquote(token) in fields then Some(fields[Unquote(token)]) else None
    case Arr(elements) => Element(elements, token, |elements|)
    case _ => None
  }

  /** The value at a pointer, given without its leading slash. */
  function Walk(value: Json, pointer: string): Option<Json>
    decreases |pointer|
  {
    var n := FirstSlash(pointer);
    match Member(value, Unescape(pointer[..n]))
    case None => None
    case Some(member) => if n == |pointer| then Some(member) else Walk(member, pointer[n + 1..])
  }

  /** A reference that is a pointer into the document itself, written without percent signs. */
  predicate IsPointer(path: string)
  {
    path == "#" || ("#/" <= path && '%' !in path)
  }

  function Lookup(root: Json, path: string): Option<Json>
    requires IsPointer(path)
  {
    if path == "#" then Some(root) else Walk(root, path[2..])
  }

  /** `refs` is right about the pointers of the document with these fields. What it says of other
      documents, of anchors and of percent-encoded pointers is not looked at. */
  ghost predicate InDocument(fields: map<Key, Json>, refs: Refs)
  {
    forall path :: IsPointer(path) && path in refs ==> Lookup(Obj(fields), path) == Some(refs[path])
  }

  // ----- names in the definitions tables -----

  /** A name that is its own reference token. */
  predicate Plain(name: string)
  {
    forall i :: 0 <= i < |name| ==> name[i] != '/' && name[i] != '~' && name[i] != '%'
  }

  /** The reference names an entry of the very table it mentions, and the compiler, to which
      `definitions` comes last, reads the name from that table too. */
  predicate IsLocal(path: string, first: map<Key, Json>, second: map<Key, Json>)
  {
    || ("#/$defs/" <= path && Plain(path[8..]) && Unquote(path[8..]) in first && Unquote(path[8..]) !in second)
    || ("#/definitions/" <= path && Plain(path[14..]) && Unquote(path[14..]) in second)
  }

  lemma {:induction false} PlainIsUnescaped(name: string)
    requires Plain(name)
    ensures Unescape(name) == name
  {
    if name == "" {
    } else {
      PlainIsUnescaped(name[1..]);
      assert name == [name[0]] + name[1..];
    }
  }

  lemma EntryIsFound(fields: map<Key, Json>, table: string, name: string)
    requires Plain(table) && Plain(name)
    requires Unquote(table) in fields && fields[Unquote(table)].Obj?
    requires Unquote(name) in fields[Unquote(table)].fields
    ensures Walk(Obj(fields), table + ['/'] + name) == Some(fields[Unquote(table)].fields[Unquote(name)])
  {
    var pointer, n := table + ['/'] + name, |table|;
    assert FirstSlash(pointer) == n by {
      assert pointer[n] == '/' && forall i :: 0 <= i < n ==> pointer[i] == table[i];
    }
    assert pointer[..n] == table && pointer[n + 1..] == name;
    PlainIsUnescaped(table);
    PlainIsUnescaped(name);
    assert FirstSlash(name) == |name| && name[..|name|] == name;
  }

  lemma NoPercent(path: string, prefix: string)
    requires prefix <= path && '%' !in prefix && Plain(path[|prefix|..])
    ensures '%' !in path
  {
    forall i | 0 <= i < |path|
      ensures path[i] != '%'
    {
      if i < |prefix| {
        assert path[i] == prefix[i] && prefix[i] in prefix;
      } else {
        assert path[i] == path[|prefix|..][i - |prefix|];
      }
    }
  }

  /** A reference into a table of the document. */
  lemma TableEntry(fields: map<Key, Json>, table: string, path: string)
    requires Plain(table) && ['#', '/'] + table + ['/'] <= path && Plain(path[|table| + 3..])
    requires Unquote(table) in fields && fields[Unquote(table)].Obj?
    requires Unquote(path[|table| + 3..]) in fields[Unquote(table)].fields
    ensures IsPointer(path)
    ensures Lookup(Obj(fields), path) == Some(fields[Unquote(table)].fields[Unquote(path[|table| + 3..])])
  {
    var prefix, name := ['#', '/'] + table + ['/'], path[|table| + 3..];
    NoPercent(path, prefix);
    assert path == prefix + name && path[0] == '#' && path[1] == '/';
    assert path[2..] == table + ['/'] + name;
    EntryIsFound(fields, table, name);
  }

  lemma InTable(fields: map<Key, Json>, key: Key, table: map<Key, Json>, name: Key)
    requires PopDefs(fields, key) == Some(table) && name in table
    ensures key in fields && fields[key] == Obj(table)
  {
  }

  lemma DefsAgrees(fields: map<Key, Json>, first: map<Key, Json>, path: string)
    requires PopDefs(fields, Defs) == Some(first)
    requires "#/$defs/" <= path && Plain(path[8..]) && Unquote(path[8..]) in first
    ensures IsPointer(path) && Lookup(Obj(fields), path) == Some(first[Unquote(path[8..])])
  {
    InTable(fields, Defs, first, Unquote(path[8..]));
    TableEntry(fields, "$defs", path);
  }

  lemma DefinitionsAgrees(fields: map<Key, Json>, second: map<Key, Json>, path: string)
    requires PopDefs(fields, Definitions) == Some(second)
    requires "#/definitions/" <= path && Plain(path[14..]) && Unquote(path[14..]) in second
    ensures IsPointer(path) && Lookup(Obj(fields), path) == Some(second[Unquote(path[14..])])
  {
    InTable(fields, Definitions, second, Unquote(path[14..]));
    TableEntry(fields, "definitions", path);
  }

  /** What the document and the compiler make of a reference into `$defs`: the compiler reads a name
      that both tables define from `definitions`. */
  lemma DefsReference(fields: map<Key, Json>, first: map<Key, Json>, second: map<Key, Json>, path: string)
    requires PopDefs(fields, Defs) == Some(first)
    requires "#/$defs/" <= path && Plain(path[8..]) && Unquote(path[8..]) in first
    ensures IsPointer(path) && Lookup(Obj(fields), path) == Some(first[Unquote(path[8..])])
    ensures var name := Unquote(path[8..]);
      Target(path, first + second) == Some(if name in second then second[name] else first[name])
  {
    DefsAgrees(fields, first, path);
  }

  lemma DefinitionsReference(fields: map<Key, Json>, first: map<Key, Json>, second: map<Key, Json>, path: string)
    requires PopDefs(fields, Definitions) == Some(second)
    requires "#/definitions/" <= path && Plain(path[14..]) && Unquote(path[14..]) in second
    ensures IsPointer(path) && Lookup(Obj(fields), path) == Some(second[Unquote(path[14..])])
    ensures Target(path, first + second) == Some(second[Unquote(path[14..])])
  {
    DefinitionsAgrees(fields, second, path);
  }

  /** Where a reference is local, the compiler inlines what the document says. */
  lemma LocalAgrees(fields: map<Key, Json>, first: map<Key, Json>, second: map<Key, Json>, path: string)
    requires PopDefs(fields, Defs) == Some(first) && PopDefs(fields, Definitions) == Some(second)
    requires IsLocal(path, first, second)
    ensures IsPointer(path) && Lookup(Obj(fields), path).Some?
    ensures Lookup(Obj(fields), path) == Target(path, first + second)
  {
    if "#/$defs/" <= path && Plain(path[8..]) && Unquote(path[8..]) in first && Unquote(path[8..]) !in second {
      DefsReference(fields, first, second, path);
    } else {
      DefinitionsReference(fields, first, second, path);
    }
  }
}
