/**
 * Inputs at which the schema compiler (src/core/tool_schema.py:77-242) changes what a schema accepts,
 * under a plain meaning of a few keywords that the general results allow.
 */
module SchemaWitness {
  import opened Basics
  import opened ToolSchema
  import opened SchemaReferences
  import opened SchemaMeaning
  import opened SchemaLoosening

  /** Whether a name matches a pattern. */
  type Matcher = (Key, Key) -> bool

  function TypeOf(j: Json): Json
  {
    match j
    case Null => Str("null")
    case Bool(_) => Str("boolean")
    case Number(_) => Str("number")
    case Str(_) => Str("string")
    case Arr(_) => Str("array")
    case Obj(_) => Str("object")
  }

  predicate HasType(name: Json, j: Json)
  {
    name == TypeOf(j) || (name == Str("integer") && j.Number? && j.n.Floor as real == j.n)
  }

  /** The assertions of `type`, `maxLength`, `additionalProperties: false` and `prefixItems` of plain
      types; other keywords, and other values of these, assert nothing here. */
  predicate Asserted(matches: Matcher, key: Key, value: Json, context: Context, j: Json)
  {
    match key
    case Type => value.Str? ==> HasType(value, j)
    case MaxLength => value.Number? && j.Str? ==> |j.s| as real <= value.n
    case AdditionalProperties =>
      value == Bool(false) && j.Obj? ==>
        forall p :: p in j.fields ==> p in context.declared || exists q :: q in Patterns(context) && matches(q, p)
    case PrefixItems =>
      value.Arr? && j.Arr? ==>
        forall i :: 0 <= i < |value.elements| && i < |j.elements| ==> PlainTyped(value.elements[i], j.elements[i])
    case _ => true
  }

  predicate PlainTyped(schema: Json, j: Json)
  {
    schema.Obj? && Type in schema.fields && schema.fields[Type].Str? ==> HasType(schema.fields[Type], j)
  }

  function Usual(matches: Matcher): Meaning
  {
    (key, value, context, refs, j) => Asserted(matches, key, value, context, j)
  }

  lemma UsualIsStandard(matches: Matcher)
    ensures Standard(Usual(matches))
  {
    var m := Usual(matches);
    forall k, v, c: Context, d: Context, refs, j
      ensures DependsLittle(m, k, v, c, d, refs, j)
    {
    }
    forall k, v, c, refs, others, j
      ensures IsClosed(m, k, v, c, refs, others, j)
    {
    }
  }

  // ----- schemas without sub-schemas -----

  predicate Flat(fields: map<Key, Json>)
  {
    forall k :: k in fields ==> !IsRewritten(k)
  }

  function Stripped(fields: map<Key, Json>): map<Key, Json>
  {
    map k | k in fields && Allowed(k) :: fields[k]
  }

  lemma FlatResolves(fields: map<Key, Json>, defs: map<Key, Json>, hops: nat)
    requires Flat(fields)
    ensures Resolve(Obj(fields), defs, hops) == Some(Obj(fields))
  {
    forall k | k in fields
      ensures ResolveField(k, fields[k], defs, hops) == Some(fields[k])
    {
      OtherKept(k, fields[k], defs, hops);
    }
    CollectKeeps(fields, ResolveMembers(Obj(fields), defs, hops));
  }

  lemma FlatPasses(fields: map<Key, Json>, depth: nat)
    requires Flat(fields) && depth < MAX_NESTING_DEPTH
    ensures Simplify(Obj(fields)) == Some(Obj(fields))
    ensures Cap(Obj(fields), depth) == Obj(fields)
    ensures Strip(Obj(fields)) == Obj(Stripped(fields))
  {
    FlatSimplifies(fields);
    FlatCaps(fields, depth);
    FlatStrips(fields);
  }

  lemma FlatSimplifies(fields: map<Key, Json>)
    requires Flat(fields)
    ensures Simplify(Obj(fields)) == Some(Obj(fields))
  {
    CollectKeeps(fields, map k | k in fields :: SimplifyField(k, fields[k]));
  }

  lemma FlatCaps(fields: map<Key, Json>, depth: nat)
    requires Flat(fields) && depth < MAX_NESTING_DEPTH
    ensures Cap(Obj(fields), depth) == Obj(fields)
  {
    assert (map k | k in fields :: CapField(k, fields[k], depth)) == fields;
  }

  lemma FlatStrips(fields: map<Key, Json>)
    requires Flat(fields)
    ensures Strip(Obj(fields)) == Obj(Stripped(fields))
  {
    assert forall k :: k in fields && Allowed(k) ==> StripField(k, fields[k]) == fields[k];
  }

  /** What the compiler makes of a flat object schema, with definitions or without. */
  lemma FlatNormalizes(fields: map<Key, Json>, flat: map<Key, Json>)
    requires flat == fields - {Defs, Definitions} && Flat(flat) && IsObjectSchema(Obj(flat))
    requires PopDefs(fields, Defs).Some? && PopDefs(fields, Definitions).Some?
    ensures Normalize(Some(fields)) == Some(Obj(Stripped(flat)))
  {
    assert Type in fields && fields != map[];
    FlatResolves(flat, PopDefs(fields, Defs).value + PopDefs(fields, Definitions).value, MAX_NESTING_DEPTH);
    FlatPasses(flat, 0);
  }

  lemma FlatCompiles(fields: map<Key, Json>)
    requires Flat(fields) && IsObjectSchema(Obj(fields))
    ensures Normalize(Some(fields)) == Some(Obj(Stripped(fields)))
  {
    assert Defs !in fields && Definitions !in fields;
    assert fields - {Defs, Definitions} == fields;
    FlatNormalizes(fields, fields);
  }

  lemma Refuses(law: Law, fields: map<Key, Json>, key: Key, refs: Refs, n: nat, j: Json)
    requires key in fields && Asserts(law.reading, key)
      && !AcceptsField(law, key, fields[key], ContextOf(fields), refs, n, j)
    ensures !Accepts(law, Obj(fields), refs, n, j)
  {
  }

  lemma AcceptsWhen(law: Law, fields: map<Key, Json>, refs: Refs, n: nat, j: Json)
    requires Flat(fields)
    requires forall k :: k in fields ==> law.m(k, fields[k], ContextOf(fields), refs, j)
    ensures Accepts(law, Obj(fields), refs, n, j)
  {
  }

  // ----- siblings that stripping takes away -----

  function WithPatterns(pattern: Key): map<Key, Json>
  {
    map[Type := Str("object"), PatternProperties := Obj(map[pattern := Obj(map[])]),
        AdditionalProperties := Bool(false)]
  }

  function NothingElse(): map<Key, Json>
  {
    map[Type := Str("object"), AdditionalProperties := Bool(false)]
  }

  lemma StripsPatterns(pattern: Key)
    ensures Flat(WithPatterns(pattern)) && IsObjectSchema(Obj(WithPatterns(pattern)))
    ensures Stripped(WithPatterns(pattern)) == NothingElse()
  {
  }

  lemma PatternsAreStripped(pattern: Key)
    ensures Normalize(Some(WithPatterns(pattern))) == Some(Obj(NothingElse()))
  {
    StripsPatterns(pattern);
    FlatCompiles(WithPatterns(pattern));
  }

  /** A name that only `patternProperties` allows is refused once that keyword is stripped. */
  lemma PatternsAreForgotten(matches: Matcher, pattern: Key, name: Key, value: Json)
    requires matches(pattern, name)
    ensures var law, j := Law(Usual(matches), Full), Obj(map[name := value]);
      && Accepts(law, Obj(WithPatterns(pattern)), map[], 0, j)
      && Normalize(Some(WithPatterns(pattern))) == Some(Obj(NothingElse()))
      && !Accepts(law, Obj(NothingElse()), map[], 0, j)
  {
    AllowsPatterned(matches, pattern, name, value);
    PatternsAreStripped(pattern);
    RefusesOther(matches, name, value);
  }

  lemma AllowsPatterned(matches: Matcher, pattern: Key, name: Key, value: Json)
    requires matches(pattern, name)
    ensures Accepts(Law(Usual(matches), Full), Obj(WithPatterns(pattern)), map[], 0, Obj(map[name := value]))
  {
    var fields, j := WithPatterns(pattern), Obj(map[name := value]);
    var context := ContextOf(fields);
    assert pattern in Patterns(context);
    assert Asserted(matches, AdditionalProperties, Bool(false), context, j);
    assert Asserted(matches, Type, Str("object"), context, j);
    assert Asserted(matches, PatternProperties, fields[PatternProperties], context, j);
    AcceptsWhen(Law(Usual(matches), Full), fields, map[], 0, j);
  }

  lemma RefusesOther(matches: Matcher, name: Key, value: Json)
    ensures !Accepts(Law(Usual(matches), Full), Obj(NothingElse()), map[], 0, Obj(map[name := value]))
  {
    var context, j := ContextOf(NothingElse()), Obj(map[name := value]);
    assert name in j.fields && name !in context.declared && Patterns(context) == {};
    assert !Asserted(matches, AdditionalProperties, Bool(false), context, j);
    Refuses(Law(Usual(matches), Full), NothingElse(), AdditionalProperties, map[], 0, j);
  }

  function Typed(name: string): Json { Obj(map[Type := Str(name)]) }

  lemma OneKeyword(law: Law, key: Key, value: Json, refs: Refs, n: nat, j: Json)
    requires Asserts(law.reading, key)
    ensures var fields := map[key := value];
      Accepts(law, Obj(fields), refs, n, j) <==> AcceptsField(law, key, value, ContextOf(fields), refs, n, j)
  {
    var fields := map[key := value];
    assert key in fields;
  }

  lemma TypedMeans(matches: Matcher, name: string, refs: Refs, n: nat, j: Json)
    ensures Accepts(Law(Usual(matches), Full), Typed(name), refs, n, j) <==> HasType(Str(name), j)
  {
    OneKeyword(Law(Usual(matches), Full), Type, Str(name), refs, n, j);
  }

  function WithPrefix(first: Json, others: Json): map<Key, Json>
  {
    map[PrefixItems := Arr([first]), Items := others]
  }

  lemma StripsTo(fields: map<Key, Json>, result: map<Key, Json>)
    requires forall k :: k in result <==> k in fields && Allowed(k)
    requires forall k :: k in result ==> StripField(k, fields[k]) == result[k]
    ensures Strip(Obj(fields)) == Obj(result)
  {
    assert Strip(Obj(fields)).fields == result;
  }

  lemma PrefixIsStripped(first: Json, others: Json)
    requires others.Obj? && Strip(others) == others
    ensures Strip(Obj(WithPrefix(first, others))) == Obj(map[Items := others])
  {
    StripsTo(WithPrefix(first, others), map[Items := others]);
  }

  /** An element that `prefixItems` takes care of is left to `items` once that keyword is stripped:
      the schema then refuses every array whose first element `items` refuses. */
  lemma ItemsTakeOver(matches: Matcher, first: Json, others: Json, j: Json)
    requires others.Obj? && Strip(others) == others && j.Arr? && |j.elements| == 2 && PlainTyped(first, j.elements[0])
    requires Accepts(Law(Usual(matches), Full), others, map[], 0, j.elements[1])
    requires !Accepts(Law(Usual(matches), Full), others, map[], 0, j.elements[0])
    ensures var law := Law(Usual(matches), Full);
      && Accepts(law, Obj(WithPrefix(first, others)), map[], 0, j)
      && !Accepts(law, Strip(Obj(WithPrefix(first, others))), map[], 0, j)
  {
    PrefixIsStripped(first, others);
    ItemsRefuse(Law(Usual(matches), Full), others, j);
    PrefixedMeans(matches, first, others, j);
  }

  lemma ItemsRefuse(law: Law, others: Json, j: Json)
    requires others.Obj? && j.Arr? && j.elements != [] && !Accepts(law, others, map[], 0, j.elements[0])
    ensures !Accepts(law, Obj(map[Items := others]), map[], 0, j)
  {
    OneKeyword(law, Items, others, map[], 0, j);
    assert Prefix(ContextOf(map[Items := others])) == 0;
  }

  /** One element under `prefixItems`, the others under `items`. */
  lemma PrefixedMeans(matches: Matcher, first: Json, others: Json, j: Json)
    requires others.Obj? && j.Arr? && |j.elements| == 2 && PlainTyped(first, j.elements[0])
    requires Accepts(Law(Usual(matches), Full), others, map[], 0, j.elements[1])
    ensures Accepts(Law(Usual(matches), Full), Obj(WithPrefix(first, others)), map[], 0, j)
  {
    var law, fields, context :=
      Law(Usual(matches), Full), WithPrefix(first, others), ContextOf(WithPrefix(first, others));
    assert Prefix(context) == 1;
    ItemsAfterPrefix(law, others, context, j);
    assert Asserted(matches, PrefixItems, Arr([first]), context, j);
    assert AcceptsField(law, PrefixItems, Arr([first]), context, map[], 0, j);
    TwoKeywords(law, PrefixItems, Arr([first]), Items, others, j);
  }

  lemma ItemsAfterPrefix(law: Law, others: Json, context: Context, j: Json)
    requires others.Obj? && j.Arr? && |j.elements| == 2 && Prefix(context) == 1
      && Accepts(law, others, map[], 0, j.elements[1])
    ensures AcceptsField(law, Items, others, context, map[], 0, j)
  {
  }

  lemma TwoKeywords(law: Law, key: Key, value: Json, other: Key, second: Json, j: Json)
    requires key != other && key != Ref && other != Ref
    requires var context := ContextOf(map[key := value, other := second]);
      AcceptsField(law, key, value, context, map[], 0, j) && AcceptsField(law, other, second, context, map[], 0, j)
    ensures Accepts(law, Obj(map[key := value, other := second]), map[], 0, j)
  {
    var fields := map[key := value, other := second];
    assert forall k :: k in fields ==> k == key || k == other;
  }

  lemma TypedStrips(name: string)
    ensures Strip(Typed(name)) == Typed(name)
  {
    FlatStrips(Typed(name).fields);
    assert Stripped(Typed(name).fields) == Typed(name).fields;
  }

  /** Such as a text under `prefixItems` before an integer under `items`. */
  lemma PrefixIsForgotten(matches: Matcher, text: string, number: int)
    ensures var law, j := Law(Usual(matches), Full), Arr([Str(text), Number(number as real)]);
      var schema := Obj(WithPrefix(Typed("string"), Typed("integer")));
      Accepts(law, schema, map[], 0, j) && !Accepts(law, Strip(schema), map[], 0, j)
  {
    var j := Arr([Str(text), Number(number as real)]);
    TypedMeans(matches, "integer", map[], 0, j.elements[0]);
    TypedMeans(matches, "integer", map[], 0, j.elements[1]);
    TypedStrips("integer");
    ItemsTakeOver(matches, Typed("string"), Typed("integer"), j);
  }

  // ----- references -----

  /** A keyword beside a reference is asserted, and lost when the reference is inlined: what it
      refuses and the definition accepts is accepted afterwards. */
  lemma SiblingsAreLost(law: Law, path: string, key: Key, value: Json, definition: map<Key, Json>, refs: Refs,
                        defs: map<Key, Json>, j: Json)
    requires Target(path, defs) == Some(Obj(definition)) && Flat(definition) && law.reading == Full
    requires !IsRewritten(key) && Accepts(law, Obj(definition), map[], 0, j)
    requires !law.m(key, value, ContextOf(map[Ref := Str(path), key := value]), refs, j)
    ensures var schema := Obj(map[Ref := Str(path), key := value]);
      && !Accepts(law, schema, refs, 1, j)
      && Resolve(schema, defs, 1).Some? && Accepts(law, Resolve(schema, defs, 1).value, map[], 0, j)
  {
    Refuses(law, map[Ref := Str(path), key := value], key, refs, 1, j);
    FlatResolves(definition, defs, 0);
  }

  lemma LengthBesideReference(matches: Matcher, path: string, refs: Refs, defs: map<Key, Json>, limit: real,
                              text: string)
    requires Target(path, defs) == Some(Typed("string")) && |text| as real > limit
    ensures LosesLength(Law(Usual(matches), Full), path, refs, defs, limit, text)
  {
    TypedMeans(matches, "string", map[], 0, Str(text));
    SiblingsAreLost(Law(Usual(matches), Full), path, MaxLength, Number(limit), Typed("string").fields, refs, defs,
                    Str(text));
  }

  ghost predicate LosesLength(law: Law, path: string, refs: Refs, defs: map<Key, Json>, limit: real, text: string)
  {
    var schema := Obj(map[Ref := Str(path), MaxLength := Number(limit)]);
    && !Accepts(law, schema, refs, 1, Str(text))
    && Resolve(schema, defs, 1).Some? && Accepts(law, Resolve(schema, defs, 1).value, map[], 0, Str(text))
  }

  /** A reference of the kind the compiler follows. */
  lemma LocalReference(definition: Json)
    ensures Target("#/$defs/S", map[Name("S") := definition]) == Some(definition)
  {
    assert "#/$defs/S"[8..] == "S";
  }

  /** Such as a text longer than `maxLength` beside a reference to a definition of texts. */
  lemma LengthIsLost(matches: Matcher, refs: Refs, limit: real, text: string)
    requires |text| as real > limit
    ensures LosesLength(Law(Usual(matches), Full), "#/$defs/S", refs, map[Name("S") := Typed("string")], limit, text)
  {
    LocalReference(Typed("string"));
    LengthBesideReference(matches, "#/$defs/S", refs, map[Name("S") := Typed("string")], limit, text);
  }

  /** Below oneOf a lost sibling can make two variants accept where one did. */
  lemma OneOfLosesExactness(law: Law, a: Json, b: Json, refs: Refs, defs: map<Key, Json>, x: Json, y: Json, j: Json)
    requires law.reading == Full && Resolve(a, defs, 1) == Some(x) && Resolve(b, defs, 1) == Some(y)
    requires !Accepts(law, a, refs, 1, j) && Accepts(law, b, refs, 1, j)
    requires Accepts(law, x, map[], 0, j) && Accepts(law, y, map[], 0, j)
    ensures var schema := Obj(map[OneOf := Arr([a, b])]);
      && Accepts(law, schema, refs, 1, j)
      && Resolve(schema, defs, 1).Some? && !Accepts(law, Resolve(schema, defs, 1).value, map[], 0, j)
  {
    OneOfMeans(law, a, b, refs, 1, j);
    OneOfMeans(law, x, y, map[], 0, j);
    OneOfResolves(a, b, defs, x, y);
  }

  /** Such as a text of two characters, at most one beside a reference or at most two. */
  lemma OneOfTwoLengths(matches: Matcher, path: string, refs: Refs, defs: map<Key, Json>, text: string)
    requires Target(path, defs) == Some(Obj(map[])) && |text| == 2
    ensures var law, schema :=
      Law(Usual(matches), Full), Obj(map[OneOf := Arr([Short(path), Obj(map[MaxLength := Number(2.0)])])]);
      && Accepts(law, schema, refs, 1, Str(text))
      && Resolve(schema, defs, 1).Some? && !Accepts(law, Resolve(schema, defs, 1).value, map[], 0, Str(text))
  {
    var law, j, limited := Law(Usual(matches), Full), Str(text), Obj(map[MaxLength := Number(2.0)]);
    OneKeyword(law, MaxLength, Number(2.0), refs, 1, j);
    OneKeyword(law, MaxLength, Number(2.0), map[], 0, j);
    SiblingsAreLost(law, path, MaxLength, Number(1.0), map[], refs, defs, j);
    FlatResolves(map[], defs, 0);
    FlatResolves(limited.fields, defs, 1);
    OneOfLosesExactness(law, Short(path), limited, refs, defs, Obj(map[]), limited, j);
  }

  /** At most one character, and what the definition asks for. */
  function Short(path: string): Json { Obj(map[Ref := Str(path), MaxLength := Number(1.0)]) }

  lemma OneOfTwo(law: Law, value: Json, a: Json, b: Json, refs: Refs, n: nat, j: Json)
    requires law.reading == Full && value == Arr([a, b])
    ensures AcceptsUnion(law, OneOf, value, refs, n, j) <==>
      (Accepts(law, a, refs, n, j) != Accepts(law, b, refs, n, j))
  {
    assert value.elements[0] == a && value.elements[1] == b;
  }

  lemma OneOfMeans(law: Law, a: Json, b: Json, refs: Refs, n: nat, j: Json)
    requires law.reading == Full
    ensures Accepts(law, Obj(map[OneOf := Arr([a, b])]), refs, n, j) <==>
      (Accepts(law, a, refs, n, j) != Accepts(law, b, refs, n, j))
  {
    OneKeyword(law, OneOf, Arr([a, b]), refs, n, j);
    OneOfTwo(law, Arr([a, b]), a, b, refs, n, j);
  }

  lemma OneOfResolves(a: Json, b: Json, defs: map<Key, Json>, x: Json, y: Json)
    requires Resolve(a, defs, 1) == Some(x) && Resolve(b, defs, 1) == Some(y)
    ensures Resolve(Obj(map[OneOf := Arr([a, b])]), defs, 1) == Some(Obj(map[OneOf := Arr([x, y])]))
  {
    var value := Arr([a, b]);
    var parts := seq(2, i requires 0 <= i < 2 => Resolve(value.elements[i], defs, 1));
    assert CollectArr(parts).value.elements == [x, y];
    assert ResolveField(OneOf, value, defs, 1) == Some(Arr([x, y]));
    CollectKeeps(map[OneOf := Arr([x, y])], ResolveMembers(Obj(map[OneOf := value]), defs, 1));
  }

  /** A reference under `additionalProperties` is not inlined, and its definition is gone. */
  lemma ReferenceStays(path: string, table: map<Key, Json>)
    ensures var referring := Obj(map[Ref := Str(path)]);
      Normalize(Some(map[Type := Str("object"), AdditionalProperties := referring, Defs := Obj(table)]))
        == Some(Obj(map[Type := Str("object"), AdditionalProperties := referring]))
  {
    var referring := Obj(map[Ref := Str(path)]);
    var fields := map[Type := Str("object"), AdditionalProperties := referring, Defs := Obj(table)];
    var flat: map<Key, Json> := map[Type := Str("object"), AdditionalProperties := referring];
    assert fields - {Defs, Definitions} == flat && Stripped(flat) == flat;
    FlatNormalizes(fields, flat);
  }

  // ----- references that the compiler reads otherwise than the document -----

  /** Whatever a reference outside the definitions tables stands for, the compiler makes it accept
      exactly the objects. */
  lemma OutsideAcceptsObjects(law: Law, fields: map<Key, Json>, path: string, defs: map<Key, Json>, hops: nat, j: Json)
    requires Standard(law.m) && Ref in fields && fields[Ref] == Str(path) && Target(path, defs).None?
    ensures Resolve(Obj(fields), defs, hops).Some?
    ensures Accepts(law, Resolve(Obj(fields), defs, hops).value, map[], 0, j) <==> j.Obj?
  {
    GenericMeans(law.m, law.reading, None, j);
  }

  /** A schema that is a reference and nothing else. */
  function Referring(path: string): Json { Obj(map[Ref := Str(path)]) }

  lemma ReferringMeans(law: Law, path: string, refs: Refs, n: nat, j: Json)
    ensures Accepts(law, Referring(path), refs, n, j) <==>
      path in refs && n > 0 && Accepts(law, refs[path], refs, n - 1, j)
  {
  }

  const ONE := Name("a")
  const OTHER := Name("b")

  /** An object with two properties. */
  function Pair(a: Json, b: Json): map<Key, Json>
  {
    map[Type := Str("object"), Properties := Obj(map[ONE := a, OTHER := b])]
  }

  lemma PairMeans(law: Law, a: Json, b: Json, refs: Refs, n: nat, j: Json)
    requires Standard(law.m)
    ensures Accepts(law, Obj(Pair(a, b)), refs, n, Obj(map[OTHER := j])) <==> Accepts(law, b, refs, n, j)
  {
    var fields, instance := Pair(a, b), Obj(map[OTHER := j]);
    assert AcceptsField(law, Type, fields[Type], ContextOf(fields), refs, n, instance);
    SecondMeans(law, fields[Properties], a, b, ContextOf(fields), refs, n, j);
  }

  lemma SecondMeans(law: Law, names: Json, a: Json, b: Json, context: Context, refs: Refs, n: nat, j: Json)
    requires names == Obj(map[ONE := a, OTHER := b])
    ensures AcceptsField(law, Properties, names, context, refs, n, Obj(map[OTHER := j])) <==>
      Accepts(law, b, refs, n, j)
  {
    assert OTHER in names.fields && names.fields[OTHER] == b;
  }

  lemma NamesResolve(a: Json, b: Json, x: Json, y: Json, defs: map<Key, Json>, hops: nat)
    requires Resolve(a, defs, hops) == Some(x) && Resolve(b, defs, hops) == Some(y)
    ensures ResolveField(Properties, Pair(a, b)[Properties], defs, hops) == Some(Pair(x, y)[Properties])
  {
    var names, after := Pair(a, b)[Properties].fields, Pair(x, y)[Properties].fields;
    CollectKeeps(after, map p | p in names :: Resolve(names[p], defs, hops));
  }

  lemma MembersResolve(fields: map<Key, Json>, result: map<Key, Json>, defs: map<Key, Json>, hops: nat)
    requires Ref !in fields && Defs !in fields && Definitions !in fields && fields.Keys == result.Keys
    requires forall k :: k in fields ==> ResolveField(k, fields[k], defs, hops) == Some(result[k])
    ensures Resolve(Obj(fields), defs, hops) == Some(Obj(result))
  {
    CollectKeeps(result, ResolveMembers(Obj(fields), defs, hops));
  }

  lemma PairResolves(a: Json, b: Json, x: Json, y: Json, defs: map<Key, Json>, hops: nat)
    requires Resolve(a, defs, hops) == Some(x) && Resolve(b, defs, hops) == Some(y)
    ensures Resolve(Obj(Pair(a, b)), defs, hops) == Some(Obj(Pair(x, y)))
  {
    NamesResolve(a, b, x, y, defs, hops);
    OtherKept(Type, Str("object"), defs, hops);
    MembersResolve(Pair(a, b), Pair(x, y), defs, hops);
  }

  lemma PairIsReady(a: Json, b: Json)
    requires Clean(a, 1) && Clean(b, 1)
    ensures Ready(Obj(Pair(a, b)))
  {
    assert CleanField(Properties, Pair(a, b)[Properties], 0);
  }

  /** What the compiler makes of two properties. */
  lemma PairCompiles(fields: map<Key, Json>, first: map<Key, Json>, second: map<Key, Json>,
                     a: Json, b: Json, x: Json, y: Json)
    requires fields - {Defs, Definitions} == Pair(a, b)
    requires PopDefs(fields, Defs) == Some(first) && PopDefs(fields, Definitions) == Some(second)
    requires Resolve(a, first + second, MAX_NESTING_DEPTH) == Some(x) && Clean(x, 1)
    requires Resolve(b, first + second, MAX_NESTING_DEPTH) == Some(y) && Clean(y, 1)
    ensures Normalize(Some(fields)) == Some(Obj(Pair(x, y)))
  {
    PairResolves(a, b, x, y, first + second, MAX_NESTING_DEPTH);
    PairIsReady(x, y);
    SimplifyKeeps(Obj(Pair(x, y)), 0);
    CapKeeps(Obj(Pair(x, y)), 0);
    StripKeeps(Obj(Pair(x, y)), 0);
    assert Type in Pair(a, b) && Type in fields;
  }

  /** The instance with this value under the second of the two properties is refused. */
  ghost predicate LosesSecond(law: Law, fields: map<Key, Json>, refs: Refs, a: Json, b: Json, x: Json, y: Json, j: Json)
  {
    var instance := Obj(map[OTHER := j]);
    && InDocument(fields, refs) && fields - {Defs, Definitions} == Pair(a, b)
    && Accepts(law, Obj(Pair(a, b)), refs, 1, instance)
    && Normalize(Some(fields)) == Some(Obj(Pair(x, y)))
    && !Accepts(law, Obj(Pair(x, y)), map[], 0, instance)
  }

  lemma OneReference(law: Law, fields: map<Key, Json>, first: map<Key, Json>, second: map<Key, Json>,
                     path: string, a: Json, y: Json, j: Json)
    requires fields - {Defs, Definitions} == Pair(a, Referring(path)) && InDocument(fields, map[path := a])
    requires PopDefs(fields, Defs) == Some(first) && PopDefs(fields, Definitions) == Some(second)
    requires Resolve(a, first + second, MAX_NESTING_DEPTH) == Some(a) && Clean(a, 1)
    requires Resolve(Referring(path), first + second, MAX_NESTING_DEPTH) == Some(y) && Clean(y, 1)
    requires Standard(law.m) && Accepts(law, a, map[path := a], 0, j) && !Accepts(law, y, map[], 0, j)
    ensures LosesSecond(law, fields, map[path := a], a, Referring(path), a, y, j)
  {
    PairCompiles(fields, first, second, a, Referring(path), a, y);
    PairMeans(law, a, Referring(path), map[path := a], 1, j);
    ReferringMeans(law, path, map[path := a], 1, j);
    PairMeans(law, a, y, map[], 0, j);
  }

  lemma PairStandsAlone(a: Json, b: Json)
    ensures var fields := Pair(a, b);
      && fields - {Defs, Definitions} == fields
      && PopDefs(fields, Defs) == Some(map[]) && PopDefs(fields, Definitions) == Some(map[])
  {
  }

  lemma GenericIsClean(path: string)
    ensures Clean(GENERIC, 1) && Resolve(Referring(path), map[] + map[], MAX_NESTING_DEPTH) == Some(GENERIC)
  {
  }

  /** An instance of the first property's schema, no object, under the second, which refers to the
      first: the compiler asks for an object. */
  lemma PointerIsLost(law: Law, path: string, a: Json, j: Json)
    requires InDocument(Pair(a, Referring(path)), map[path := a])
    requires Resolve(a, map[] + map[], MAX_NESTING_DEPTH) == Some(a) && Clean(a, 1)
    requires Standard(law.m) && Accepts(law, a, map[path := a], 0, j) && !j.Obj?
    ensures LosesSecond(law, Pair(a, Referring(path)), map[path := a], a, Referring(path), a, GENERIC, j)
  {
    PairStandsAlone(a, Referring(path));
    GenericIsClean(path);
    GenericMeans(law.m, law.reading, None, j);
    OneReference(law, Pair(a, Referring(path)), map[], map[], path, a, GENERIC, j);
  }

  /** An instance of the schema that `$defs` gives to a name, where a property refers to it: the
      compiler asks for what `definitions` gives to the same name. */
  lemma SharedNameIsLost(law: Law, fields: map<Key, Json>, first: map<Key, Json>, second: map<Key, Json>,
                         path: string, a: Json, y: Json, j: Json)
    requires fields - {Defs, Definitions} == Pair(a, Referring(path))
    requires PopDefs(fields, Defs) == Some(first) && PopDefs(fields, Definitions) == Some(second)
    requires "#/$defs/" <= path && Plain(path[8..])
    requires Unquote(path[8..]) in first && first[Unquote(path[8..])] == a
    requires Unquote(path[8..]) in second && second[Unquote(path[8..])] == y
    requires Resolve(a, first + second, MAX_NESTING_DEPTH) == Some(a) && Clean(a, 1)
    requires Resolve(y, first + second, MAX_NESTING_DEPTH - 1) == Some(y) && Clean(y, 1)
    requires Standard(law.m) && Accepts(law, a, map[path := a], 0, j) && !Accepts(law, y, map[], 0, j)
    ensures LosesSecond(law, fields, map[path := a], a, Referring(path), a, y, j)
  {
    DefsReference(fields, first, second, path);
    OneReference(law, fields, first, second, path, a, y, j);
  }

  lemma TypedIsPlain(name: string, defs: map<Key, Json>, hops: nat)
    ensures Resolve(Typed(name), defs, hops) == Some(Typed(name)) && Clean(Typed(name), 1)
  {
    FlatResolves(Typed(name).fields, defs, hops);
  }

  lemma PropertyPath(fields: map<Key, Json>, table: string, name: string)
    requires Plain(table) && Plain(name) && Unquote(table) in fields && fields[Unquote(table)].Obj?
    requires Unquote(name) in fields[Unquote(table)].fields
    ensures InDocument(fields, map[['#', '/'] + table + ['/'] + name := fields[Unquote(table)].fields[Unquote(name)]])
  {
    var path := ['#', '/'] + table + ['/'] + name;
    assert path[|table| + 3..] == name;
    TableEntry(fields, table, path);
  }

  lemma TextByPointer(matches: Matcher, path: string, a: Json, text: string)
    requires a == Typed("string") && InDocument(Pair(a, Referring(path)), map[path := a])
    ensures LosesSecond(Law(Usual(matches), Full), Pair(a, Referring(path)), map[path := a],
                        a, Referring(path), a, GENERIC, Str(text))
  {
    TypedIsPlain("string", map[] + map[], MAX_NESTING_DEPTH);
    TypedMeans(matches, "string", map[path := a], 0, Str(text));
    UsualIsStandard(matches);
    PointerIsLost(Law(Usual(matches), Full), path, a, Str(text));
  }

  lemma FirstProperty(a: Json, b: Json, path: string)
    requires path == ['#', '/'] + "properties" + ['/'] + "a"
    ensures InDocument(Pair(a, b), map[path := a])
  {
    PropertyPath(Pair(a, b), "properties", "a");
  }

  /** Such as a text under a property `b` that refers to "#/properties/a", a property of texts. */
  lemma TextByPointerIsLost(matches: Matcher, path: string, a: Json, text: string)
    requires path == ['#', '/'] + "properties" + ['/'] + "a" && a == Typed("string")
    ensures LosesSecond(Law(Usual(matches), Full), Pair(a, Referring(path)), map[path := a],
                        a, Referring(path), a, GENERIC, Str(text))
  {
    FirstProperty(a, Referring(path), path);
    TextByPointer(matches, path, a, text);
  }

  function WithTables(fields: map<Key, Json>, name: Key, first: Json, second: Json): map<Key, Json>
  {
    fields[Defs := Obj(map[name := first])][Definitions := Obj(map[name := second])]
  }

  lemma TablesApart(a: Json, b: Json, name: Key, first: Json, second: Json)
    ensures var fields := WithTables(Pair(a, b), name, first, second);
      && fields - {Defs, Definitions} == Pair(a, b)
      && PopDefs(fields, Defs) == Some(map[name := first]) && PopDefs(fields, Definitions) == Some(map[name := second])
  {
  }

  /** Such as a text where `$defs` gives a name to texts and `definitions` gives it to integers. */
  lemma TextBySharedNameIsLost(matches: Matcher, path: string, text: string)
    requires "#/$defs/" <= path && Plain(path[8..])
    ensures var a, y := Typed("string"), Typed("integer");
      LosesSecond(Law(Usual(matches), Full), WithTables(Pair(a, Referring(path)), Unquote(path[8..]), a, y),
                  map[path := a], a, Referring(path), a, y, Str(text))
  {
    var a, y, name := Typed("string"), Typed("integer"), Unquote(path[8..]);
    var first, second := map[name := a], map[name := y];
    TablesApart(a, Referring(path), name, a, y);
    TypedIsPlain("string", first + second, MAX_NESTING_DEPTH);
    TypedIsPlain("integer", first + second, MAX_NESTING_DEPTH - 1);
    TypedMeans(matches, "string", map[path := a], 0, Str(text));
    TypedMeans(matches, "integer", map[], 0, Str(text));
    UsualIsStandard(matches);
    SharedNameIsLost(Law(Usual(matches), Full), WithTables(Pair(a, Referring(path)), name, a, y), first, second,
                     path, a, y, Str(text));
  }

  // ----- unions and depth -----

  function Either(a: Json, b: Json): Json { Obj(map[AnyOf := Arr([a, b])]) }

  lemma EitherMeans(law: Law, a: Json, b: Json, j: Json)
    ensures Accepts(law, Either(a, b), map[], 0, j) <==> Accepts(law, a, map[], 0, j) || Accepts(law, b, map[], 0, j)
  {
    var value := Arr([a, b]);
    OneKeyword(law, AnyOf, value, map[], 0, j);
    assert value.elements[0] == a && value.elements[1] == b;
  }

  lemma NullableSimplifies(a: Json, b: Json)
    requires IsNullType(a) && b.Obj? && !IsNullType(b) && Simplify(b) == Some(b)
    ensures Simplify(Either(a, b)) == Some(b)
  {
    OneIsKept([a, b], 1);
  }

  lemma TwoTypesCollapse(a: Json, b: Json)
    requires a.Obj? && b.Obj? && !IsNullType(a) && !IsNullType(b)
    ensures Simplify(Either(a, b)) == Some(GENERIC)
  {
    assert [a, b][1..] == [b] && [b][1..] == [];
    assert NonNull([b]) == [b] && NonNull([a, b]) == [a, b];
  }

  /** A nullable union no longer accepts null. */
  lemma NullIsRefused(matches: Matcher)
    ensures var law, schema := Law(Usual(matches), Full), Either(Typed("null"), Typed("string"));
      && Accepts(law, schema, map[], 0, Null)
      && Simplify(schema) == Some(Typed("string")) && !Accepts(law, Typed("string"), map[], 0, Null)
  {
    var law, a, b := Law(Usual(matches), Full), Typed("null"), Typed("string");
    EitherMeans(law, a, b, Null);
    TypedMeans(matches, "null", map[], 0, Null);
    TypedMeans(matches, "string", map[], 0, Null);
    FlatPasses(b.fields, 0);
    NullableSimplifies(a, b);
  }

  /** A union of two types no longer accepts what one of them accepts, unless it is an object. */
  lemma VariantIsRefused(law: Law, a: Json, b: Json, j: Json)
    requires Standard(law.m) && a.Obj? && b.Obj? && !IsNullType(a) && !IsNullType(b)
    requires Accepts(law, a, map[], 0, j) && !j.Obj?
    ensures Accepts(law, Either(a, b), map[], 0, j)
    ensures Simplify(Either(a, b)).Some? && !Accepts(law, Simplify(Either(a, b)).value, map[], 0, j)
  {
    EitherMeans(law, a, b, j);
    TwoTypesCollapse(a, b);
    GenericMeans(law.m, law.reading, None, j);
  }

  /** Such as a text under a union of texts and integers. */
  lemma TextIsRefused(matches: Matcher, text: string)
    ensures var law, schema := Law(Usual(matches), Full), Either(Typed("string"), Typed("integer"));
      && Accepts(law, schema, map[], 0, Str(text))
      && Simplify(schema).Some? && !Accepts(law, Simplify(schema).value, map[], 0, Str(text))
  {
    TypedMeans(matches, "string", map[], 0, Str(text));
    UsualIsStandard(matches);
    VariantIsRefused(Law(Usual(matches), Full), Typed("string"), Typed("integer"), Str(text));
  }

  /** A string at the depth limit no longer accepts strings. */
  lemma DeepTextIsRefused(matches: Matcher, text: string)
    ensures var law := Law(Usual(matches), Full);
      Accepts(law, Typed("string"), map[], 0, Str(text))
        && !Accepts(law, Cap(Typed("string"), MAX_NESTING_DEPTH), map[], 0, Str(text))
  {
    TypedMeans(matches, "string", map[], 0, Str(text));
    UsualIsStandard(matches);
    CutAcceptsObjects(Law(Usual(matches), Full), Typed("string"), MAX_NESTING_DEPTH, Str(text));
  }
}
