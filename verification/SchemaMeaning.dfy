/**
 * What the schema compiler does to the meaning of a schema (src/core/tool_schema.py:77-242): which
 * tool arguments a schema accepts, before and after. References stand for what the document says;
 * properties, items and the three unions are read as JSON Schema 2020-12 reads them; every other
 * keyword has whatever meaning the caller supplies.
 */
module SchemaMeaning {
  import opened Basics
  import opened ToolSchema
  import opened SchemaReferences

  /** What a keyword sees of its siblings: the names under `properties`, and the keywords that no
      pass rewrites. */
  datatype Context = Context(declared: set<Key>, rest: map<Key, Json>)

  /** Whether an instance satisfies a keyword with this value among these siblings, where references
      stand for this. */
  type Meaning = (Key, Json, Context, Refs, Json) -> bool

  /** All of a schema, or the part that decides in the end: the keywords Converse accepts and the
      unions that are simplified, with oneOf read as anyOf. */
  datatype Reading = Full | Kept

  datatype Law = Law(m: Meaning, reading: Reading)

  /** Schemas are objects and booleans. */
  predicate IsSchema(j: Json) { j.Obj? || j.Bool? }

  predicate IsObjectSchema(j: Json)
  {
    j.Obj? && Type in j.fields && j.fields[Type] == Str("object")
  }

  /** Keywords that some pass reads into. */
  predicate IsRewritten(key: Key)
  {
    key.Ref? || key.Defs? || key.Definitions? || key.Properties? || key.Items? || IsUnion(key)
  }

  function Declared(fields: map<Key, Json>): set<Key>
  {
    if Properties in fields && fields[Properties].Obj? then fields[Properties].fields.Keys else {}
  }

  function ContextOf(fields: map<Key, Json>): Context
  {
    Context(Declared(fields), map k | k in fields && !IsRewritten(k) :: fields[k])
  }

  /** The patterns under `patternProperties`. */
  function Patterns(context: Context): set<Key>
  {
    if PatternProperties in context.rest && context.rest[PatternProperties].Obj?
    then context.rest[PatternProperties].fields.Keys else {}
  }

  /** How many elements of an array `prefixItems` takes care of. */
  function Prefix(context: Context): nat
  {
    if PrefixItems in context.rest && context.rest[PrefixItems].Arr? then |context.rest[PrefixItems].elements| else 0
  }

  predicate Asserts(reading: Reading, key: Key)
  {
    !key.Ref? && !key.Defs? && !key.Definitions? && (reading.Full? || Allowed(key) || key.AnyOf? || key.OneOf?)
  }

  /** `schema` accepts the instance, following at most `hops` references on a path; the keywords
      beside a reference count too. */
  ghost predicate Accepts(law: Law, schema: Json, refs: Refs, hops: nat, j: Json)
    decreases hops, schema, 2
  {
    match schema
    case Bool(b) => b
    case Obj(fields) =>
      && (Ref in fields ==>
            && fields[Ref].Str? && fields[Ref].s in refs
            && hops > 0 && Accepts(law, refs[fields[Ref].s], refs, hops - 1, j))
      && forall k :: k in fields && Asserts(law.reading, k) ==>
        AcceptsField(law, k, fields[k], ContextOf(fields), refs, hops, j)
    case _ => true
  }

  ghost predicate AcceptsField(law: Law, key: Key, value: Json, context: Context, refs: Refs, hops: nat,
                               j: Json)
    decreases hops, value, 3
  {
    if key == Properties && value.Obj? then
      j.Obj? ==> forall p :: p in value.fields && p in j.fields ==>
        Accepts(law, value.fields[p], refs, hops, j.fields[p])
    else if key == Items && IsSchema(value) then
      j.Arr? ==> forall i :: Prefix(context) <= i < |j.elements| ==> Accepts(law, value, refs, hops, j.elements[i])
    else if IsUnion(key) && value.Arr? then
      AcceptsUnion(law, key, value, refs, hops, j)
    else law.m(key, value, context, refs, j)
  }

  ghost predicate AcceptsUnion(law: Law, key: Key, value: Json, refs: Refs, hops: nat, j: Json)
    requires IsUnion(key) && value.Arr?
    decreases hops, value, 2
  {
    var some := exists i :: 0 <= i < |value.elements| && Accepts(law, value.elements[i], refs, hops, j);
    match key
    case AllOf => forall i :: 0 <= i < |value.elements| ==> Accepts(law, value.elements[i], refs, hops, j)
    case AnyOf => some
    case OneOf =>
      some && (law.reading.Full? ==> forall i, k :: 0 <= i < k < |value.elements| ==>
        !(Accepts(law, value.elements[i], refs, hops, j) && Accepts(law, value.elements[k], refs, hops, j)))
  }

  // ----- what is assumed of the other keywords -----

  /** Keywords that ask for nothing. */
  predicate Annotation(key: Key) { key.Description? || key.Title? || key.Default? }

  /** Keywords whose value is data, not schemas, and which look at no sibling. */
  predicate Data(key: Key)
  {
    Allowed(key) && !key.Properties? && !key.Items? && !key.AdditionalProperties?
  }

  /** No `$ref` anywhere in the value. */
  ghost predicate RefFree(value: Json)
  {
    match value
    case Arr(xs) => forall i :: 0 <= i < |xs| ==> RefFree(xs[i])
    case Obj(fields) => forall k :: k in fields ==> k != Ref && RefFree(fields[k])
    case _ => true
  }

  ghost predicate RefFreeRest(context: Context)
  {
    forall k :: k in context.rest ==> Data(k) || RefFree(context.rest[k])
  }

  /** An accepted keyword depends on no sibling, but for `additionalProperties` on the declared
      names and the patterns. */
  ghost predicate DependsLittle(m: Meaning, key: Key, value: Json, c: Context, d: Context, refs: Refs, j: Json)
  {
    Asserts(Kept, key)
      && (Data(key) || (c.declared == d.declared && (key.AdditionalProperties? ==> Patterns(c) == Patterns(d)))) ==>
      m(key, value, c, refs, j) == m(key, value, d, refs, j)
  }

  /** A keyword depends on definitions only through references in its value and, if it is not an
      accepted one, in its siblings. */
  ghost predicate IsClosed(m: Meaning, key: Key, value: Json, c: Context, refs: Refs, others: Refs,
                           j: Json)
  {
    Data(key) || (RefFree(value) && (Asserts(Kept, key) || RefFreeRest(c))) ==>
      m(key, value, c, refs, j) == m(key, value, c, others, j)
  }

  ghost predicate Standard(m: Meaning)
  {
    && (forall k, v, c, d, j :: Annotation(k) ==> m(k, v, c, d, j))
    && (forall c, d, j :: m(Type, Str("null"), c, d, j) <==> j.Null?)
    && (forall c, d, j :: m(Type, Str("object"), c, d, j) <==> j.Obj?)
    && (forall k, v, c, d, refs, j {:trigger DependsLittle(m, k, v, c, d, refs, j)} ::
        DependsLittle(m, k, v, c, d, refs, j))
    && (forall k, v, c, refs, others, j {:trigger IsClosed(m, k, v, c, refs, others, j)} ::
        IsClosed(m, k, v, c, refs, others, j))
  }

  // ----- the full reading implies the kept one -----

  lemma {:induction false} KeptIsWeaker(m: Meaning, schema: Json, refs: Refs, hops: nat, j: Json)
    requires Accepts(Law(m, Full), schema, refs, hops, j)
    ensures Accepts(Law(m, Kept), schema, refs, hops, j)
    decreases hops, schema, 2
  {
    if !schema.Obj? {
    } else {
      var fields := schema.fields;
      if Ref in fields {
        KeptIsWeaker(m, refs[fields[Ref].s], refs, hops - 1, j);
      }
      forall k | k in fields && Asserts(Kept, k)
        ensures AcceptsField(Law(m, Kept), k, fields[k], ContextOf(fields), refs, hops, j)
      {
        KeptFieldIsWeaker(m, k, fields[k], ContextOf(fields), refs, hops, j);
      }
    }
  }

  lemma {:induction false} KeptFieldIsWeaker(m: Meaning, key: Key, value: Json, context: Context, refs: Refs,
                                             hops: nat, j: Json)
    requires AcceptsField(Law(m, Full), key, value, context, refs, hops, j)
    ensures AcceptsField(Law(m, Kept), key, value, context, refs, hops, j)
    decreases hops, value, 3
  {
    if key == Properties && value.Obj? {
      if j.Obj? {
        forall p | p in value.fields && p in j.fields
          ensures Accepts(Law(m, Kept), value.fields[p], refs, hops, j.fields[p])
        {
          KeptIsWeaker(m, value.fields[p], refs, hops, j.fields[p]);
        }
      }
    } else if key == Items && IsSchema(value) {
      if j.Arr? {
        forall i | Prefix(context) <= i < |j.elements|
          ensures Accepts(Law(m, Kept), value, refs, hops, j.elements[i])
        {
          KeptIsWeaker(m, value, refs, hops, j.elements[i]);
        }
      }
    } else if IsUnion(key) && value.Arr? {
      forall i | 0 <= i < |value.elements| && Accepts(Law(m, Full), value.elements[i], refs, hops, j)
        ensures Accepts(Law(m, Kept), value.elements[i], refs, hops, j)
      {
        KeptIsWeaker(m, value.elements[i], refs, hops, j);
      }
    }
  }

  // ----- inlining references -----

  /** The compiler's lookup by name finds what the document says, or finds nothing where the
      document says any schema of objects. */
  predicate Agrees(path: string, refs: Refs, defs: map<Key, Json>)
  {
    match Target(path, defs)
    case Some(definition) => path in refs && refs[path] == definition && IsSchema(definition)
    case None => path in refs ==> IsObjectSchema(refs[path])
  }

  /** References to schemas in the definitions tables agree, when each names an entry of the table
      it mentions and `definitions` does not define a name of `$defs` again. */
  lemma LocalReferencesAgree(fields: map<Key, Json>, first: map<Key, Json>, second: map<Key, Json>, path: string,
                             refs: Refs)
    requires PopDefs(fields, Defs) == Some(first) && PopDefs(fields, Definitions) == Some(second)
    requires IsLocal(path, first, second) && InDocument(fields, refs) && path in refs
    ensures Agrees(path, refs, first + second) <==> IsSchema(refs[path])
  {
    LocalAgrees(fields, first, second, path);
  }

  /** The compiler follows every reference to where the document leads, or replaces one to objects;
      past the hop limit there are only objects; values that no pass reads into hold no reference.
      If `exact`, references are followed to the end and only annotations stand beside them, as they
      do below oneOf in a full reading anyway. */
  ghost predicate Sound(reading: Reading, exact: bool, schema: Json, refs: Refs, defs: map<Key, Json>, hops: nat)
    decreases hops, schema, 0
  {
    schema.Obj? ==>
      var fields := schema.fields;
      if Ref in fields then
        && fields[Ref].Str? && Agrees(fields[Ref].s, refs, defs)
        && (exact ==>
            && Target(fields[Ref].s, defs).Some? && hops > 0
            && forall k :: k in fields && Asserts(Full, k) ==> Annotation(k))
        && (Target(fields[Ref].s, defs).Some? ==>
              if hops == 0 then IsObjectSchema(refs[fields[Ref].s])
              else Sound(reading, exact, refs[fields[Ref].s], refs, defs, hops - 1))
      else
        && (reading.Full? ==> RefFreeRest(ContextOf(fields)))
        && forall k :: k in fields && k != Defs && k != Definitions ==>
          FieldSound(reading, exact, k, fields[k], refs, defs, hops)
  }

  ghost predicate FieldSound(reading: Reading, exact: bool, key: Key, value: Json, refs: Refs, defs: map<Key, Json>,
                             hops: nat)
    decreases hops, value, 1
  {
    if key == Properties && value.Obj? then
      forall k :: k in value.fields ==> Sound(reading, exact, value.fields[k], refs, defs, hops)
    else if key == Items && IsSchema(value) then Sound(reading, exact, value, refs, defs, hops)
    else if IsUnion(key) && value.Arr? then
      forall i :: 0 <= i < |value.elements| ==>
        Sound(reading, exact || (key.OneOf? && reading.Full?), value.elements[i], refs, defs, hops)
    else Asserts(reading, key) && !Data(key) ==> RefFree(value)
  }

  lemma {:induction false} SoundResolves(reading: Reading, exact: bool, schema: Json, refs: Refs, defs: map<Key, Json>,
                                         hops: nat)
    requires Sound(reading, exact, schema, refs, defs, hops)
    ensures Resolve(schema, defs, hops).Some?
    ensures IsSchema(schema) ==> IsSchema(Resolve(schema, defs, hops).value)
    decreases hops, schema, 0
  {
    if !schema.Obj? {
    } else if Ref in schema.fields {
      if hops > 0 && Target(schema.fields[Ref].s, defs).Some? {
        SoundResolves(reading, exact, refs[schema.fields[Ref].s], refs, defs, hops - 1);
      }
    } else {
      var parts := ResolveMembers(schema, defs, hops);
      forall k | k in parts
        ensures parts[k].Some?
      {
        FieldSoundResolves(reading, exact, k, schema.fields[k], refs, defs, hops);
      }
    }
  }

  lemma {:induction false} FieldSoundResolves(reading: Reading, exact: bool, key: Key, value: Json,
                                              refs: Refs, defs: map<Key, Json>, hops: nat)
    requires FieldSound(reading, exact, key, value, refs, defs, hops)
    ensures ResolveField(key, value, defs, hops).Some?
    decreases hops, value, 1
  {
    if key == Properties && value.Obj? {
      forall k | k in value.fields
        ensures Resolve(value.fields[k], defs, hops).Some?
      {
        SoundResolves(reading, exact, value.fields[k], refs, defs, hops);
      }
    } else if key == Items && value.Obj? {
      SoundResolves(reading, exact, value, refs, defs, hops);
    } else if IsUnion(key) && value.Arr? {
      forall i | 0 <= i < |value.elements|
        ensures Resolve(value.elements[i], defs, hops).Some?
      {
        SoundResolves(reading, exact || (key.OneOf? && reading.Full?), value.elements[i], refs, defs, hops);
      }
    }
  }

  lemma PropertyNamesUnchanged(value: Json, defs: map<Key, Json>, hops: nat)
    requires ResolveField(Properties, value, defs, hops).Some?
    ensures var result := ResolveField(Properties, value, defs, hops).value;
      (result.Obj? <==> value.Obj?) && (value.Obj? ==> result.fields.Keys == value.fields.Keys)
  {
  }

  lemma OtherKept(key: Key, value: Json, defs: map<Key, Json>, hops: nat)
    requires !IsRewritten(key)
    ensures ResolveField(key, value, defs, hops) == Some(value)
  {
  }

  /** Inlining leaves the siblings as every keyword sees them. */
  lemma ContextUnchanged(schema: Json, defs: map<Key, Json>, hops: nat)
    requires schema.Obj? && Ref !in schema.fields && Resolve(schema, defs, hops).Some?
    ensures Resolve(schema, defs, hops).value.Obj?
    ensures ContextOf(Resolve(schema, defs, hops).value.fields) == ContextOf(schema.fields)
  {
    var parts, result := ResolveMembers(schema, defs, hops), Resolve(schema, defs, hops).value;
    assert result.fields.Keys == parts.Keys;
    if Properties in schema.fields {
      assert Properties in parts && parts[Properties].Some? && result.fields[Properties] == parts[Properties].value;
      PropertyNamesUnchanged(schema.fields[Properties], defs, hops);
    }
    assert Declared(result.fields) == Declared(schema.fields);
    forall k | k in schema.fields && !IsRewritten(k)
      ensures k in result.fields && result.fields[k] == schema.fields[k]
    {
      assert k in parts && parts[k] == ResolveField(k, schema.fields[k], defs, hops);
      OtherKept(k, schema.fields[k], defs, hops);
    }
    assert ContextOf(result.fields).rest == ContextOf(schema.fields).rest;
  }

  lemma GenericMeans(m: Meaning, reading: Reading, description: Option<Json>, j: Json)
    requires Standard(m)
    ensures Accepts(Law(m, reading), Describe(GENERIC, description), map[], 0, j) <==> j.Obj?
  {
    ObjectsMean(Law(m, reading), Describe(GENERIC, description).fields, j);
  }

  /** A schema that says "object" and no more. */
  lemma ObjectsMean(law: Law, fields: map<Key, Json>, j: Json)
    requires Standard(law.m) && Type in fields && fields[Type] == Str("object")
    requires forall k :: k in fields ==> k == Type || k == Description
    ensures Accepts(law, Obj(fields), map[], 0, j) <==> j.Obj?
  {
    assert AcceptsField(law, Type, fields[Type], ContextOf(fields), map[], 0, j) <==> j.Obj?;
    assert Description in fields ==>
      AcceptsField(law, Description, fields[Description], ContextOf(fields), map[], 0, j);
  }

  lemma ObjectSchemaMeans(law: Law, schema: Json, refs: Refs, n: nat, j: Json)
    requires Standard(law.m) && IsObjectSchema(schema) && Accepts(law, schema, refs, n, j)
    ensures j.Obj?
  {
    assert AcceptsField(law, Type, schema.fields[Type], ContextOf(schema.fields), refs, n, j);
  }

  /** The inlined schema accepts whatever the schema with its definitions accepts; where only
      annotations stand beside references and references end, it accepts exactly that. */
  lemma {:induction false} ResolveKeepsMeaning(law: Law, exact: bool, schema: Json, refs: Refs, defs: map<Key, Json>,
                                               hops: nat, n: nat, j: Json)
    requires law.reading.Full? ==> n >= hops
    requires Standard(law.m) && Sound(law.reading, exact, schema, refs, defs, hops) && Resolve(schema, defs, hops).Some?
    ensures Accepts(law, schema, refs, n, j) ==> Accepts(law, Resolve(schema, defs, hops).value, map[], 0, j)
    ensures exact && n >= hops && Accepts(law, Resolve(schema, defs, hops).value, map[], 0, j) ==>
      Accepts(law, schema, refs, n, j)
    decreases hops, schema, 2
  {
    if !schema.Obj? {
    } else if Ref in schema.fields {
      ReferenceKeepsMeaning(law, exact, schema, refs, defs, hops, n, j);
    } else {
      MembersKeepMeaning(law, exact, schema, refs, defs, hops, n, j);
    }
  }

  /** A reference to a schema of objects may as well be one to any object. */
  lemma ObjectsLoosen(law: Law, schema: Json, refs: Refs, n: nat, j: Json)
    requires Standard(law.m) && schema.Obj? && Ref in schema.fields && schema.fields[Ref].Str?
    requires schema.fields[Ref].s in refs ==> IsObjectSchema(refs[schema.fields[Ref].s])
    ensures Accepts(law, schema, refs, n, j) ==> Accepts(law, GENERIC, map[], 0, j)
  {
    if Accepts(law, schema, refs, n, j) {
      ObjectSchemaMeans(law, refs[schema.fields[Ref].s], refs, n - 1, j);
      GenericMeans(law.m, law.reading, None, j);
    }
  }

  lemma {:induction false} ReferenceKeepsMeaning(law: Law, exact: bool, schema: Json, refs: Refs, defs: map<Key, Json>,
                                                 hops: nat, n: nat, j: Json)
    requires law.reading.Full? ==> n >= hops
    requires Standard(law.m) && Sound(law.reading, exact, schema, refs, defs, hops) && Resolve(schema, defs, hops).Some?
    requires schema.Obj? && Ref in schema.fields
    ensures Follows(law, schema, refs, n, Resolve(schema, defs, hops).value, exact && n >= hops, j)
    decreases hops, schema, 1
  {
    var path := schema.fields[Ref].s;
    ReferenceCases(law.reading, exact, schema, refs, defs, hops);
    if Target(path, defs).None? || hops == 0 {
      ObjectsLoosen(law, schema, refs, n, j);
    } else if n == 0 {
      NoHopsLeft(law, schema, refs, j);
    } else {
      ResolveKeepsMeaning(law, exact, refs[path], refs, defs, hops - 1, n - 1, j);
      ReferenceFollows(law, schema.fields, refs, n, Resolve(refs[path], defs, hops - 1).value, exact,
                       exact && n >= hops, j);
    }
  }

  /** What is known of a reference: it is replaced by objects, or followed. */
  lemma ReferenceCases(reading: Reading, exact: bool, schema: Json, refs: Refs, defs: map<Key, Json>, hops: nat)
    requires Sound(reading, exact, schema, refs, defs, hops) && schema.Obj? && Ref in schema.fields
    ensures schema.fields[Ref].Str?
    ensures exact ==> hops > 0 && forall k :: k in schema.fields && Asserts(Full, k) ==> Annotation(k)
    ensures var path := schema.fields[Ref].s;
      if Target(path, defs).None? || hops == 0 then
        && !exact && Resolve(schema, defs, hops) == Some(GENERIC)
        && (path in refs ==> IsObjectSchema(refs[path]))
      else
        && path in refs && Resolve(schema, defs, hops) == Resolve(refs[path], defs, hops - 1)
        && Sound(reading, exact, refs[path], refs, defs, hops - 1)
  {
  }

  lemma NoHopsLeft(law: Law, schema: Json, refs: Refs, j: Json)
    requires schema.Obj? && Ref in schema.fields
    ensures !Accepts(law, schema, refs, 0, j)
  {
  }

  /** Annotations beside a reference do not change what it accepts. */
  lemma ReferenceFollows(law: Law, fields: map<Key, Json>, refs: Refs, n: nat, after: Json, exact: bool, both: bool,
                         j: Json)
    requires Standard(law.m) && n > 0 && Ref in fields && fields[Ref].Str? && fields[Ref].s in refs
    requires both ==> exact
    requires exact ==> forall k :: k in fields && Asserts(Full, k) ==> Annotation(k)
    requires Accepts(law, refs[fields[Ref].s], refs, n - 1, j) ==> Accepts(law, after, map[], 0, j)
    requires both && Accepts(law, after, map[], 0, j) ==> Accepts(law, refs[fields[Ref].s], refs, n - 1, j)
    ensures Follows(law, Obj(fields), refs, n, after, both, j)
  {
    assert forall k :: k in fields && Annotation(k) ==> AcceptsField(law, k, fields[k], ContextOf(fields), refs, n, j);
  }

  lemma {:induction false} MembersKeepMeaning(law: Law, exact: bool, schema: Json, refs: Refs, defs: map<Key, Json>,
                                              hops: nat, n: nat, j: Json)
    requires law.reading.Full? ==> n >= hops
    requires Standard(law.m) && Sound(law.reading, exact, schema, refs, defs, hops) && Resolve(schema, defs, hops).Some?
    requires schema.Obj? && Ref !in schema.fields
    ensures Accepts(law, schema, refs, n, j) ==> Accepts(law, Resolve(schema, defs, hops).value, map[], 0, j)
    ensures exact && n >= hops && Accepts(law, Resolve(schema, defs, hops).value, map[], 0, j) ==>
      Accepts(law, schema, refs, n, j)
    decreases hops, schema, 1
  {
    var parts, result := ResolveMembers(schema, defs, hops), Resolve(schema, defs, hops).value.fields;
    var context := ContextOf(schema.fields);
    ContextUnchanged(schema, defs, hops);
    assert result.Keys == parts.Keys;
    forall k | k in parts && Asserts(law.reading, k)
      ensures FieldFollows(law, k, schema.fields[k], result[k], context, refs, n, exact && n >= hops, j)
    {
      assert parts[k].Some? && result[k] == parts[k].value && parts[k] == ResolveField(k, schema.fields[k], defs, hops);
      FieldKeepsMeaning(law, exact, k, schema.fields[k], context, refs, defs, hops, n, j);
    }
    NodeFollows(law, schema.fields, result, refs, n, exact && n >= hops, j);
  }

  /** What the one keyword accepts the other does; if `both`, also the other way round. */
  ghost predicate FieldFollows(law: Law, key: Key, before: Json, after: Json, context: Context,
                               refs: Refs, n: nat, both: bool, j: Json)
  {
    && (AcceptsField(law, key, before, context, refs, n, j) ==> AcceptsField(law, key, after, context, map[], 0, j))
    && (both && AcceptsField(law, key, after, context, map[], 0, j) ==>
        AcceptsField(law, key, before, context, refs, n, j))
  }

  lemma NodeFollows(law: Law, fields: map<Key, Json>, result: map<Key, Json>, refs: Refs, n: nat, both: bool,
                    j: Json)
    requires Ref !in fields && Ref !in result && ContextOf(result) == ContextOf(fields)
    requires forall k :: k in result ==> k in fields
    requires forall k :: k in fields && Asserts(law.reading, k) ==>
      k in result && FieldFollows(law, k, fields[k], result[k], ContextOf(fields), refs, n, both, j)
    ensures Follows(law, Obj(fields), refs, n, Obj(result), both, j)
  {
  }

  lemma {:induction false} FieldKeepsMeaning(law: Law, exact: bool, key: Key, value: Json, context: Context,
                                             refs: Refs, defs: map<Key, Json>, hops: nat, n: nat, j: Json)
    requires law.reading.Full? ==> n >= hops
    requires Standard(law.m) && FieldSound(law.reading, exact, key, value, refs, defs, hops)
      && ResolveField(key, value, defs, hops).Some?
    requires Asserts(law.reading, key) && (law.reading.Full? ==> RefFreeRest(context))
    ensures FieldFollows(law, key, value, ResolveField(key, value, defs, hops).value, context, refs, n,
                         exact && n >= hops, j)
    decreases hops, value, 4
  {
    if key == Properties && value.Obj? {
      PropertiesKeepMeaning(law, exact, value, context, refs, defs, hops, n, j);
    } else if key == Items && IsSchema(value) {
      ItemsKeepMeaning(law, exact, value, context, refs, defs, hops, n, j);
    } else if IsUnion(key) && value.Arr? {
      UnionKeepsMeaning(law, exact, key, value, context, refs, defs, hops, n, j);
    } else {
      assert ResolveField(key, value, defs, hops) == Some(value);
      OtherIsClosed(law, key, value, context, refs, j);
      OtherKeepsMeaning(law, key, value, context, refs, n, exact && n >= hops, j);
    }
  }

  /** A keyword that no pass reads into does not miss the definitions. */
  lemma OtherIsClosed(law: Law, key: Key, value: Json, context: Context, refs: Refs, j: Json)
    requires Standard(law.m) && Asserts(law.reading, key) && (Data(key) || RefFree(value))
    requires law.reading.Full? ==> RefFreeRest(context)
    ensures law.m(key, value, context, refs, j) == law.m(key, value, context, map[], j)
  {
    assert IsClosed(law.m, key, value, context, refs, map[], j);
  }

  lemma OtherKeepsMeaning(law: Law, key: Key, value: Json, context: Context, refs: Refs, n: nat, both: bool, j: Json)
    requires law.m(key, value, context, refs, j) == law.m(key, value, context, map[], j)
    requires !(key == Properties && value.Obj?) && !(key == Items && IsSchema(value)) && !(IsUnion(key) && value.Arr?)
    ensures FieldFollows(law, key, value, value, context, refs, n, both, j)
  {
  }

  lemma {:induction false} PropertiesKeepMeaning(law: Law, exact: bool, value: Json, context: Context,
                                                 refs: Refs, defs: map<Key, Json>, hops: nat, n: nat, j: Json)
    requires law.reading.Full? ==> n >= hops
    requires Standard(law.m) && value.Obj? && FieldSound(law.reading, exact, Properties, value, refs, defs, hops)
    requires ResolveField(Properties, value, defs, hops).Some?
    ensures FieldFollows(law, Properties, value, ResolveField(Properties, value, defs, hops).value, context, refs, n,
                         exact && n >= hops, j)
    decreases hops, value, 3
  {
    var parts := map k | k in value.fields :: Resolve(value.fields[k], defs, hops);
    PropertyNamesUnchanged(value, defs, hops);
    if j.Obj? {
      forall p | p in value.fields && p in j.fields
        ensures var before, after :=
          Accepts(law, value.fields[p], refs, n, j.fields[p]), Accepts(law, parts[p].value, map[], 0, j.fields[p]);
          (before ==> after) && (exact && n >= hops && after ==> before)
      {
        assert parts[p].Some?;
        ResolveKeepsMeaning(law, exact, value.fields[p], refs, defs, hops, n, j.fields[p]);
      }
    }
  }

  lemma {:induction false} ItemsKeepMeaning(law: Law, exact: bool, value: Json, context: Context,
                                            refs: Refs, defs: map<Key, Json>, hops: nat, n: nat, j: Json)
    requires law.reading.Full? ==> n >= hops
    requires Standard(law.m) && IsSchema(value) && Sound(law.reading, exact, value, refs, defs, hops)
    ensures ResolveField(Items, value, defs, hops) == Resolve(value, defs, hops) && Resolve(value, defs, hops).Some?
    ensures FieldFollows(law, Items, value, ResolveField(Items, value, defs, hops).value, context, refs, n,
                         exact && n >= hops, j)
    decreases hops, value, 3
  {
    SoundResolves(law.reading, exact, value, refs, defs, hops);
    if j.Arr? {
      forall i | Prefix(context) <= i < |j.elements|
        ensures var before, after := Accepts(law, value, refs, n, j.elements[i]),
          Accepts(law, Resolve(value, defs, hops).value, map[], 0, j.elements[i]);
          (before ==> after) && (exact && n >= hops && after ==> before)
      {
        ResolveKeepsMeaning(law, exact, value, refs, defs, hops, n, j.elements[i]);
      }
    }
  }

  lemma {:induction false} UnionKeepsMeaning(law: Law, exact: bool, key: Key, value: Json, context: Context,
                                             refs: Refs, defs: map<Key, Json>, hops: nat, n: nat, j: Json)
    requires law.reading.Full? ==> n >= hops
    requires Standard(law.m) && IsUnion(key) && value.Arr?
      && FieldSound(law.reading, exact, key, value, refs, defs, hops)
    requires ResolveField(key, value, defs, hops).Some?
    ensures FieldFollows(law, key, value, ResolveField(key, value, defs, hops).value, context, refs, n,
                         exact && n >= hops, j)
    decreases hops, value, 3
  {
    var deep := exact || (key.OneOf? && law.reading.Full?);
    var after := ResolveField(key, value, defs, hops).value;
    forall i: nat | i < |value.elements|
      ensures after.Arr? && |after.elements| == |value.elements|
      ensures Follows(law, value.elements[i], refs, n, after.elements[i], deep && n >= hops, j)
    {
      ResolvedElement(key, value, defs, hops, i);
      ResolveKeepsMeaning(law, deep, value.elements[i], refs, defs, hops, n, j);
    }
    UnionFollows(law, key, value, context, refs, n, after, exact && n >= hops, deep && n >= hops, j);
  }

  lemma ResolvedElement(key: Key, value: Json, defs: map<Key, Json>, hops: nat, i: nat)
    requires IsUnion(key) && value.Arr? && i < |value.elements| && ResolveField(key, value, defs, hops).Some?
    ensures var after := ResolveField(key, value, defs, hops).value;
      after.Arr? && |after.elements| == |value.elements|
        && Some(after.elements[i]) == Resolve(value.elements[i], defs, hops)
  {
    var parts := seq(|value.elements|, i requires 0 <= i < |value.elements| => Resolve(value.elements[i], defs, hops));
    assert parts[i].Some?;
  }

  /** Whatever the one accepts the other does; if `both`, also the other way round. */
  ghost predicate Follows(law: Law, before: Json, refs: Refs, n: nat, after: Json, both: bool, j: Json)
  {
    && (Accepts(law, before, refs, n, j) ==> Accepts(law, after, map[], 0, j))
    && (both && Accepts(law, after, map[], 0, j) ==> Accepts(law, before, refs, n, j))
  }

  /** A union follows its variants; oneOf in a full reading asks them to agree. */
  lemma UnionFollows(law: Law, key: Key, before: Json, context: Context, refs: Refs, n: nat, after: Json,
                     both: bool, deep: bool, j: Json)
    requires IsUnion(key) && before.Arr? && after.Arr? && |before.elements| == |after.elements|
    requires forall i :: 0 <= i < |before.elements| ==>
      Follows(law, before.elements[i], refs, n, after.elements[i], deep, j)
    requires (both ==> deep) && (key.OneOf? && law.reading.Full? ==> deep)
    ensures FieldFollows(law, key, before, after, context, refs, n, both, j)
  {
    assert AcceptsUnion(law, key, before, refs, n, j) ==> AcceptsUnion(law, key, after, map[], 0, j);
    assert both && AcceptsUnion(law, key, after, map[], 0, j) ==> AcceptsUnion(law, key, before, refs, n, j);
  }
}
