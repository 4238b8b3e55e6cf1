/**
 * What simplifying unions, capping depth and stripping keywords do to the meaning of a schema, and
 * when the whole schema compiler refuses nothing that the server accepts
 * (src/core/tool_schema.py:120-242).
 */
module SchemaLoosening {
  import opened Basics
  import opened ToolSchema
  import opened SchemaReferences
  import opened SchemaMeaning

  // ----- unions: conditions on the input, and what they become -----

  /** Stripping would take from a kept keyword the sibling it depends on. */
  predicate Entangled(fields: map<Key, Json>)
  {
    (PatternProperties in fields && AdditionalProperties in fields) || (PrefixItems in fields && Items in fields)
  }

  /** The node at which the references that start in `schema` end. */
  function Landing(schema: Json, defs: map<Key, Json>, hops: nat): Json
    decreases hops
  {
    if !schema.Obj? || Ref !in schema.fields then schema
    else if hops == 0 || !schema.fields[Ref].Str? then GENERIC
    else match Target(schema.fields[Ref].s, defs)
      case Some(target) => Landing(target, defs, hops - 1)
      case None => GENERIC
  }

  predicate IsNullType(schema: Json)
  {
    schema.Obj? && Type in schema.fields && schema.fields[Type] == Str("null")
  }

  /** The one variant of a union, references followed, that is not null. */
  ghost predicate OnlyVariant(variants: seq<Json>, defs: map<Key, Json>, hops: nat, i: nat)
  {
    && i < |variants|
    && (forall k :: 0 <= k < |variants| ==> Landing(variants[k], defs, hops).Obj?)
    && (forall k :: 0 <= k < |variants| ==> (IsNullType(Landing(variants[k], defs, hops)) <==> k != i))
  }

  /** In the schema as the server sends it, wherever properties, items, references and unwrapped
      unions lead: every union is one schema or null, no kept keyword depends on a stripped
      sibling, and at the depth limit there are only objects. */
  ghost predicate Tractable(schema: Json, defs: map<Key, Json>, hops: nat, depth: nat)
    decreases hops, schema, 0
  {
    schema.Obj? ==>
      var fields := schema.fields;
      if Ref in fields then
        fields[Ref].Str? && Target(fields[Ref].s, defs).Some? && hops > 0 ==>
          Tractable(Target(fields[Ref].s, defs).value, defs, hops - 1, depth)
      else match UnionKey(fields)
        case Some(key) =>
          fields[key].Arr? && exists i: nat ::
            OnlyVariant(fields[key].elements, defs, hops, i) && Tractable(fields[key].elements[i], defs, hops, depth)
        case None =>
          && !Entangled(fields) && (depth >= MAX_NESTING_DEPTH ==> IsObjectSchema(schema))
          && forall k :: k in fields ==> FieldTractable(k, fields[k], defs, hops, depth)
  }

  ghost predicate FieldTractable(key: Key, value: Json, defs: map<Key, Json>, hops: nat, depth: nat)
    decreases hops, value, 1
  {
    && (key == Properties && value.Obj? ==>
          forall k :: k in value.fields ==> Tractable(value.fields[k], defs, hops, depth + 1))
    && (key == Items && value.Obj? ==> Tractable(value, defs, hops, depth + 1))
  }

  /** The same of a schema without references. */
  ghost predicate Good(schema: Json, depth: nat)
    decreases schema, 0
  {
    schema.Obj? ==>
      var fields := schema.fields;
      match UnionKey(fields)
      case Some(key) =>
        && fields[key].Arr? && Variants(fields[key]).Some?
        && var kept := NonNull(fields[key].elements);
          |kept| == 1 && (assert kept[0] in kept && kept[0] in fields[key].elements; Good(kept[0], depth))
      case None =>
        && !Entangled(fields) && (depth >= MAX_NESTING_DEPTH ==> IsObjectSchema(schema))
        && forall k :: k in fields ==> FieldGood(k, fields[k], depth)
  }

  ghost predicate FieldGood(key: Key, value: Json, depth: nat)
    decreases value, 1
  {
    && (key == Properties && value.Obj? ==> forall k :: k in value.fields ==> Good(value.fields[k], depth + 1))
    && (key == Items && value.Obj? ==> Good(value, depth + 1))
  }

  lemma {:induction false} LandingResolves(schema: Json, defs: map<Key, Json>, hops: nat)
    requires Resolve(schema, defs, hops).Some?
    ensures var resolved, landing := Resolve(schema, defs, hops).value, Landing(schema, defs, hops);
      (resolved.Obj? <==> landing.Obj?) && (IsNullType(resolved) <==> IsNullType(landing))
    decreases hops
  {
    if !schema.Obj? {
    } else if Ref in schema.fields {
      if hops > 0 && Target(schema.fields[Ref].s, defs).Some? {
        LandingResolves(Target(schema.fields[Ref].s, defs).value, defs, hops - 1);
      }
    } else {
      var parts := ResolveMembers(schema, defs, hops);
      if Type in schema.fields {
        assert parts[Type] == ResolveField(Type, schema.fields[Type], defs, hops);
      }
      assert Type in parts <==> Type in schema.fields;
    }
  }

  lemma {:induction false} OneIsKept(variants: seq<Json>, i: nat)
    requires i < |variants| && forall k :: 0 <= k < |variants| ==>
      variants[k].Obj? && (IsNullType(variants[k]) <==> k != i)
    ensures NonNull(variants) == [variants[i]]
  {
    var rest := variants[1..];
    if i == 0 {
      NoneIsKept(rest);
    } else {
      OneIsKept(rest, i - 1);
    }
  }

  lemma {:induction false} NoneIsKept(variants: seq<Json>)
    requires forall k :: 0 <= k < |variants| ==> variants[k].Obj? && IsNullType(variants[k])
    ensures NonNull(variants) == []
  {
    if variants == [] {
    } else {
      NoneIsKept(variants[1..]);
    }
  }

  lemma {:induction false} TractableResolves(schema: Json, defs: map<Key, Json>, hops: nat, depth: nat)
    requires Tractable(schema, defs, hops, depth) && Resolve(schema, defs, hops).Some?
    ensures Good(Resolve(schema, defs, hops).value, depth)
    decreases hops, schema, 2
  {
    if !schema.Obj? {
    } else if Ref in schema.fields {
      if hops > 0 && Target(schema.fields[Ref].s, defs).Some? {
        TractableResolves(Target(schema.fields[Ref].s, defs).value, defs, hops - 1, depth);
      }
    } else if UnionKey(schema.fields).Some? {
      UnionResolves(schema, defs, hops, depth);
    } else {
      NodeResolves(schema, defs, hops, depth);
    }
  }

  lemma {:induction false} UnionResolves(schema: Json, defs: map<Key, Json>, hops: nat, depth: nat)
    requires Tractable(schema, defs, hops, depth) && Resolve(schema, defs, hops).Some?
    requires schema.Obj? && Ref !in schema.fields && UnionKey(schema.fields).Some?
    ensures Good(Resolve(schema, defs, hops).value, depth)
    decreases hops, schema, 1
  {
    var key, fields := UnionKey(schema.fields).value, schema.fields;
    var variants := fields[key].elements;
    var i: nat :| OnlyVariant(variants, defs, hops, i) && Tractable(variants[i], defs, hops, depth);
    var parts, result := ResolveMembers(schema, defs, hops), Resolve(schema, defs, hops).value.fields;
    assert parts[key] == ResolveField(key, fields[key], defs, hops) && parts[key].Some?
      && result[key] == parts[key].value;
    assert UnionKey(result) == Some(key) by {
      assert AnyOf in result <==> AnyOf in fields;
    }
    forall k | 0 <= k < |variants|
      ensures result[key].Arr? && |result[key].elements| == |variants|
      ensures result[key].elements[k].Obj? && (IsNullType(result[key].elements[k]) <==> k != i)
    {
      ResolvedElement(key, fields[key], defs, hops, k);
      LandingResolves(variants[k], defs, hops);
    }
    OneIsKept(result[key].elements, i);
    ResolvedElement(key, fields[key], defs, hops, i);
    TractableResolves(variants[i], defs, hops, depth);
  }

  lemma {:induction false} NodeResolves(schema: Json, defs: map<Key, Json>, hops: nat, depth: nat)
    requires Tractable(schema, defs, hops, depth) && Resolve(schema, defs, hops).Some?
    requires schema.Obj? && Ref !in schema.fields && UnionKey(schema.fields).None?
    ensures Good(Resolve(schema, defs, hops).value, depth)
    decreases hops, schema, 1
  {
    var parts, result := ResolveMembers(schema, defs, hops), Resolve(schema, defs, hops).value.fields;
    assert result.Keys == parts.Keys;
    if Type in schema.fields {
      assert parts[Type] == ResolveField(Type, schema.fields[Type], defs, hops);
    }
    forall k | k in result
      ensures FieldGood(k, result[k], depth)
    {
      assert parts[k] == ResolveField(k, schema.fields[k], defs, hops) && parts[k].Some?;
      FieldResolvesGood(k, schema.fields[k], defs, hops, depth);
    }
  }

  lemma {:induction false} FieldResolvesGood(key: Key, value: Json, defs: map<Key, Json>, hops: nat, depth: nat)
    requires FieldTractable(key, value, defs, hops, depth) && ResolveField(key, value, defs, hops).Some?
    ensures FieldGood(key, ResolveField(key, value, defs, hops).value, depth)
    decreases hops, value, 3
  {
    if key == Properties && value.Obj? {
      var parts := map k | k in value.fields :: Resolve(value.fields[k], defs, hops);
      forall k | k in value.fields
        ensures Good(parts[k].value, depth + 1)
      {
        assert parts[k].Some?;
        TractableResolves(value.fields[k], defs, hops, depth + 1);
      }
    } else if key == Items && value.Obj? {
      TractableResolves(value, defs, hops, depth + 1);
    }
  }

  // ----- unwrapping nullable unions, for instances without nulls -----

  predicate NoNulls(j: Json)
  {
    match j
    case Null => false
    case Arr(xs) => forall i :: 0 <= i < |xs| ==> NoNulls(xs[i])
    case Obj(fields) => forall k :: k in fields ==> NoNulls(fields[k])
    case _ => true
  }

  /** No kept keyword depends on a stripped sibling, and only objects are cut by the cap. */
  ghost predicate Fine(schema: Json, depth: nat)
    decreases schema, 0
  {
    schema.Obj? ==>
      && !Entangled(schema.fields) && (depth >= MAX_NESTING_DEPTH ==> IsObjectSchema(schema))
      && forall k :: k in schema.fields ==> FieldFine(k, schema.fields[k], depth)
  }

  ghost predicate FieldFine(key: Key, value: Json, depth: nat)
    decreases value, 1
  {
    && (key == Properties && value.Obj? ==> forall k :: k in value.fields ==> Fine(value.fields[k], depth + 1))
    && (key == Items && value.Obj? ==> Fine(value, depth + 1))
  }

  lemma {:induction false} GoodSimplifies(schema: Json, depth: nat)
    requires Good(schema, depth)
    ensures Simplify(schema).Some? && Fine(Simplify(schema).value, depth)
    decreases schema, 0
  {
    if !schema.Obj? {
    } else if UnionKey(schema.fields).Some? {
      var kept := NonNull(schema.fields[UnionKey(schema.fields).value].elements);
      assert kept[0] in kept && kept[0] in schema.fields[UnionKey(schema.fields).value].elements;
      GoodSimplifies(kept[0], depth);
    } else {
      var parts := map k | k in schema.fields :: SimplifyField(k, schema.fields[k]);
      forall k | k in schema.fields
        ensures parts[k].Some? && FieldFine(k, parts[k].value, depth)
      {
        FieldSimplifiesFine(k, schema.fields[k], depth);
      }
      if Type in schema.fields {
        assert parts[Type] == SimplifyField(Type, schema.fields[Type]);
      }
    }
  }

  lemma {:induction false} FieldSimplifiesFine(key: Key, value: Json, depth: nat)
    requires FieldGood(key, value, depth)
    ensures SimplifyField(key, value).Some? && FieldFine(key, SimplifyField(key, value).value, depth)
    decreases value, 1
  {
    if key == Properties && value.Obj? {
      var parts := map p | p in value.fields :: Simplify(value.fields[p]);
      forall p | p in value.fields
        ensures parts[p].Some? && Fine(parts[p].value, depth + 1)
      {
        GoodSimplifies(value.fields[p], depth + 1);
      }
    } else if key == Items && value.Obj? {
      GoodSimplifies(value, depth + 1);
    }
  }

  lemma {:induction false} NonNullKeeps(variants: seq<Json>, i: nat)
    requires (forall i :: 0 <= i < |variants| ==> variants[i].Obj?) && i < |variants| && !IsNullType(variants[i])
    ensures variants[i] in NonNull(variants)
  {
    if i == 0 {
    } else {
      NonNullKeeps(variants[1..], i - 1);
    }
  }

  /** A variant that accepts an instance other than null is kept. */
  lemma AcceptingIsKept(law: Law, variants: seq<Json>, i: nat, j: Json)
    requires Standard(law.m) && !j.Null? && i < |variants|
    requires forall k :: 0 <= k < |variants| ==> variants[k].Obj?
    requires Accepts(law, variants[i], map[], 0, j)
    ensures variants[i] in NonNull(variants)
  {
    var fields := variants[i].fields;
    if Type in fields {
      assert AcceptsField(law, Type, fields[Type], ContextOf(fields), map[], 0, j);
    }
    NonNullKeeps(variants, i);
  }

  lemma KeptAccepts(law: Law, key: Key, value: Json, j: Json)
    requires Standard(law.m) && (key == AnyOf || key == OneOf) && !j.Null?
    requires value.Arr? && (forall k :: 0 <= k < |value.elements| ==> value.elements[k].Obj?)
    requires |NonNull(value.elements)| == 1 && AcceptsUnion(law, key, value, map[], 0, j)
    ensures Accepts(law, NonNull(value.elements)[0], map[], 0, j)
  {
    var i := AcceptingVariant(law, key, value, j);
    AcceptingIsKept(law, value.elements, i, j);
  }

  lemma AcceptingVariant(law: Law, key: Key, value: Json, j: Json) returns (i: nat)
    requires (key == AnyOf || key == OneOf) && value.Arr? && AcceptsUnion(law, key, value, map[], 0, j)
    ensures i < |value.elements| && Accepts(law, value.elements[i], map[], 0, j)
  {
    i :| i < |value.elements| && Accepts(law, value.elements[i], map[], 0, j);
  }

  /** Siblings that look alike to every accepted keyword. */
  ghost predicate Alike(c: Context, d: Context)
  {
    c.declared == d.declared && Patterns(c) == Patterns(d) && Prefix(c) == Prefix(d)
  }

  lemma AlikeAccepts(m: Meaning, key: Key, value: Json, c: Context, d: Context, j: Json)
    requires Standard(m) && Asserts(Kept, key) && Alike(c, d)
    ensures AcceptsField(Law(m, Kept), key, value, c, map[], 0, j) <==>
      AcceptsField(Law(m, Kept), key, value, d, map[], 0, j)
  {
    assert DependsLittle(m, key, value, c, d, map[], j);
  }

  lemma DescribeLoosens(m: Meaning, schema: Json, description: Option<Json>, j: Json)
    requires Standard(m) && schema.Obj? && Description !in schema.fields && Accepts(Law(m, Kept), schema, map[], 0, j)
    ensures Accepts(Law(m, Kept), Describe(schema, description), map[], 0, j)
  {
    var result := Describe(schema, description).fields;
    assert Alike(ContextOf(schema.fields), ContextOf(result));
    forall k | k in result && Asserts(Kept, k)
      ensures AcceptsField(Law(m, Kept), k, result[k], ContextOf(result), map[], 0, j)
    {
      if k in schema.fields {
        AlikeAccepts(m, k, schema.fields[k], ContextOf(schema.fields), ContextOf(result), j);
      }
    }
  }

  /** Unwrapping nullable unions refuses no instance without nulls. */
  lemma {:induction false} SimplifyLoosens(m: Meaning, schema: Json, depth: nat, j: Json)
    requires Standard(m) && Good(schema, depth) && NoNulls(j) && Accepts(Law(m, Kept), schema, map[], 0, j)
    ensures Simplify(schema).Some? && Accepts(Law(m, Kept), Simplify(schema).value, map[], 0, j)
    decreases schema, 1
  {
    GoodSimplifies(schema, depth);
    if !schema.Obj? {
    } else if UnionKey(schema.fields).Some? {
      UnwrappingLoosens(m, schema, UnionKey(schema.fields).value, depth, j);
    } else {
      MembersLoosen(m, schema, depth, j);
    }
  }

  lemma {:induction false} UnwrappingLoosens(m: Meaning, schema: Json, key: Key, depth: nat, j: Json)
    requires schema.Obj? && UnionKey(schema.fields) == Some(key) && Simplify(schema).Some?
    requires Standard(m) && Good(schema, depth) && NoNulls(j) && Accepts(Law(m, Kept), schema, map[], 0, j)
    ensures Accepts(Law(m, Kept), Simplify(schema).value, map[], 0, j)
    decreases schema, 0
  {
    var fields := schema.fields;
    var kept := NonNull(fields[key].elements);
    assert kept[0] in kept && kept[0] in fields[key].elements;
    assert AcceptsField(Law(m, Kept), key, fields[key], ContextOf(fields), map[], 0, j);
    KeptAccepts(Law(m, Kept), key, fields[key], j);
    SimplifyLoosens(m, kept[0], depth, j);
    var merged := Simplify(kept[0]).value;
    if Description !in merged.fields {
      DescribeLoosens(m, merged, DescriptionOf(fields), j);
    }
  }

  lemma {:induction false} MembersLoosen(m: Meaning, schema: Json, depth: nat, j: Json)
    requires schema.Obj? && UnionKey(schema.fields).None? && Simplify(schema).Some?
    requires Standard(m) && Good(schema, depth) && NoNulls(j) && Accepts(Law(m, Kept), schema, map[], 0, j)
    ensures Accepts(Law(m, Kept), Simplify(schema).value, map[], 0, j)
    decreases schema, 0
  {
    var parts, fields := map k | k in schema.fields :: SimplifyField(k, schema.fields[k]), schema.fields;
    var result := Simplify(schema).value.fields;
    assert Simplify(schema) == CollectObj(parts) && result.Keys == fields.Keys;
    forall k | k in fields
      ensures parts[k].Some? && result[k] == parts[k].value && parts[k] == SimplifyField(k, fields[k])
    {
    }
    SimplifiedContext(fields, result);
    forall k | k in fields && Asserts(Kept, k)
      ensures AcceptsField(Law(m, Kept), k, result[k], ContextOf(result), map[], 0, j)
    {
      FieldLoosens(m, k, fields[k], ContextOf(fields), depth, j);
      AlikeAccepts(m, k, result[k], ContextOf(fields), ContextOf(result), j);
    }
  }

  lemma SimplifiedContext(fields: map<Key, Json>, result: map<Key, Json>)
    requires result.Keys == fields.Keys && forall k :: k in fields ==> SimplifyField(k, fields[k]) == Some(result[k])
    ensures Alike(ContextOf(fields), ContextOf(result))
  {
    if Properties in fields && fields[Properties].Obj? {
      var names := fields[Properties].fields;
      var parts := map p | p in names :: Simplify(names[p]);
      assert SimplifyField(Properties, fields[Properties]) == CollectObj(parts);
    }
    assert Declared(result) == Declared(fields);
    forall k | k in fields && !IsRewritten(k)
      ensures result[k] == fields[k]
    {
      assert SimplifyField(k, fields[k]) == Some(fields[k]);
    }
  }

  lemma {:induction false} FieldLoosens(m: Meaning, key: Key, value: Json, context: Context, depth: nat, j: Json)
    requires Standard(m) && FieldGood(key, value, depth) && NoNulls(j) && SimplifyField(key, value).Some?
    requires AcceptsField(Law(m, Kept), key, value, context, map[], 0, j)
    ensures AcceptsField(Law(m, Kept), key, SimplifyField(key, value).value, context, map[], 0, j)
    decreases value, 2
  {
    if key == Properties && value.Obj? {
      var parts := map p | p in value.fields :: Simplify(value.fields[p]);
      if j.Obj? {
        forall p | p in value.fields && p in j.fields
          ensures parts[p].Some? && Accepts(Law(m, Kept), parts[p].value, map[], 0, j.fields[p])
        {
          SimplifyLoosens(m, value.fields[p], depth + 1, j.fields[p]);
        }
      }
    } else if key == Items && value.Obj? {
      if j.Arr? {
        forall i | Prefix(context) <= i < |j.elements|
          ensures Accepts(Law(m, Kept), Simplify(value).value, map[], 0, j.elements[i])
        {
          SimplifyLoosens(m, value, depth + 1, j.elements[i]);
        }
      }
    }
  }

  // ----- capping, where it cuts only objects -----

  lemma {:induction false} CapLoosens(m: Meaning, schema: Json, depth: nat, j: Json)
    requires Standard(m) && Fine(schema, depth) && Accepts(Law(m, Kept), schema, map[], 0, j)
    ensures Accepts(Law(m, Kept), Cap(schema, depth), map[], 0, j)
    decreases schema, 1
  {
    if !schema.Obj? {
    } else if depth >= MAX_NESTING_DEPTH {
      ObjectSchemaMeans(Law(m, Kept), schema, map[], 0, j);
      GenericMeans(m, Kept, DescriptionOf(schema.fields), j);
    } else {
      var fields, result := schema.fields, Cap(schema, depth).fields;
      assert forall k :: k in fields ==> result[k] == CapField(k, fields[k], depth);
      CappedContext(fields, result, depth);
      forall k | k in result && Asserts(Kept, k)
        ensures AcceptsField(Law(m, Kept), k, result[k], ContextOf(result), map[], 0, j)
      {
        CapFieldLoosens(m, k, fields[k], ContextOf(fields), depth, j);
        AlikeAccepts(m, k, result[k], ContextOf(fields), ContextOf(result), j);
      }
    }
  }

  lemma CappedContext(fields: map<Key, Json>, result: map<Key, Json>, depth: nat)
    requires result.Keys == fields.Keys && forall k :: k in fields ==> result[k] == CapField(k, fields[k], depth)
    ensures Alike(ContextOf(fields), ContextOf(result))
  {
    assert Declared(result) == Declared(fields);
    assert forall k :: k in fields && !IsRewritten(k) ==> result[k] == fields[k];
  }

  lemma {:induction false} CapFieldLoosens(m: Meaning, key: Key, value: Json, context: Context, depth: nat, j: Json)
    requires Standard(m) && FieldFine(key, value, depth) && AcceptsField(Law(m, Kept), key, value, context, map[], 0, j)
    ensures AcceptsField(Law(m, Kept), key, CapField(key, value, depth), context, map[], 0, j)
    decreases value, 3
  {
    if key == Properties && value.Obj? {
      CapPropertiesLoosens(m, value, context, depth, j);
    } else if key == Items && value.Obj? {
      CapItemsLoosens(m, value, context, depth, j);
    }
  }

  lemma {:induction false} CapPropertiesLoosens(m: Meaning, value: Json, context: Context, depth: nat, j: Json)
    requires Standard(m) && value.Obj? && FieldFine(Properties, value, depth)
    requires AcceptsField(Law(m, Kept), Properties, value, context, map[], 0, j)
    ensures AcceptsField(Law(m, Kept), Properties, CapField(Properties, value, depth), context, map[], 0, j)
    decreases value, 1
  {
    if j.Obj? {
      forall p | p in value.fields && p in j.fields
        ensures Accepts(Law(m, Kept), Cap(value.fields[p], depth + 1), map[], 0, j.fields[p])
      {
        CapLoosens(m, value.fields[p], depth + 1, j.fields[p]);
      }
    }
  }

  lemma {:induction false} CapItemsLoosens(m: Meaning, value: Json, context: Context, depth: nat, j: Json)
    requires Standard(m) && value.Obj? && Fine(value, depth + 1)
    requires AcceptsField(Law(m, Kept), Items, value, context, map[], 0, j)
    ensures AcceptsField(Law(m, Kept), Items, Cap(value, depth + 1), context, map[], 0, j)
    decreases value, 2
  {
    if j.Arr? {
      forall i | Prefix(context) <= i < |j.elements|
        ensures Accepts(Law(m, Kept), Cap(value, depth + 1), map[], 0, j.elements[i])
      {
        CapLoosens(m, value, depth + 1, j.elements[i]);
      }
    }
  }

  // ----- stripping, where no kept keyword depends on a stripped sibling -----

  ghost predicate Separable(schema: Json)
    decreases schema, 0
  {
    schema.Obj? ==> !Entangled(schema.fields) && forall k :: k in schema.fields ==> FieldSeparable(k, schema.fields[k])
  }

  ghost predicate FieldSeparable(key: Key, value: Json)
    decreases value, 1
  {
    && (key == Properties && value.Obj? ==> forall k :: k in value.fields ==> Separable(value.fields[k]))
    && (key == Items && value.Obj? ==> Separable(value))
  }

  lemma {:induction false} CapSeparates(schema: Json, depth: nat)
    requires Fine(schema, depth)
    ensures Separable(Cap(schema, depth))
    decreases schema, 0
  {
    if schema.Obj? && depth < MAX_NESTING_DEPTH {
      var fields, result := schema.fields, Cap(schema, depth).fields;
      forall k | k in result
        ensures FieldSeparable(k, result[k])
      {
        assert result[k] == CapField(k, fields[k], depth);
        FieldCapSeparates(k, fields[k], depth);
      }
    }
  }

  lemma {:induction false} FieldCapSeparates(key: Key, value: Json, depth: nat)
    requires FieldFine(key, value, depth)
    ensures FieldSeparable(key, CapField(key, value, depth))
    decreases value, 1
  {
    if key == Properties && value.Obj? {
      forall p | p in value.fields
        ensures Separable(Cap(value.fields[p], depth + 1))
      {
        CapSeparates(value.fields[p], depth + 1);
      }
    } else if key == Items && value.Obj? {
      CapSeparates(value, depth + 1);
    }
  }

  /** Stripping refuses nothing that the kept keywords accept together with their siblings. */
  lemma {:induction false} StripLoosens(m: Meaning, schema: Json, j: Json)
    requires Standard(m) && Separable(schema) && Accepts(Law(m, Kept), schema, map[], 0, j)
    ensures Accepts(Law(m, Full), Strip(schema), map[], 0, j)
    decreases schema, 1
  {
    if schema.Obj? {
      var fields, result := schema.fields, Strip(schema).fields;
      assert Declared(result) == Declared(fields) by {
        assert Properties in fields ==> result[Properties] == StripField(Properties, fields[Properties]);
      }
      forall k | k in result
        ensures AcceptsField(Law(m, Full), k, result[k], ContextOf(result), map[], 0, j)
      {
        assert result[k] == StripField(k, fields[k]);
        StripFieldLoosens(m, k, fields, result, j);
      }
    }
  }

  lemma {:induction false} StripFieldLoosens(m: Meaning, key: Key, fields: map<Key, Json>, result: map<Key, Json>,
                                             j: Json)
    requires key in fields && Allowed(key) && Standard(m) && FieldSeparable(key, fields[key]) && !Entangled(fields)
    requires Declared(result) == Declared(fields) && forall k :: k in result ==> k in fields && Allowed(k)
    requires AcceptsField(Law(m, Kept), key, fields[key], ContextOf(fields), map[], 0, j)
    ensures AcceptsField(Law(m, Full), key, StripField(key, fields[key]), ContextOf(result), map[], 0, j)
    decreases fields[key], 2
  {
    var value := fields[key];
    if key == Properties && value.Obj? {
      if j.Obj? {
        forall p | p in value.fields && p in j.fields
          ensures Accepts(Law(m, Full), Strip(value.fields[p]), map[], 0, j.fields[p])
        {
          StripLoosens(m, value.fields[p], j.fields[p]);
        }
      }
    } else if key == Items && IsSchema(value) {
      assert Prefix(ContextOf(fields)) == 0;
      if j.Arr? && value.Obj? {
        forall i | 0 <= i < |j.elements|
          ensures Accepts(Law(m, Full), Strip(value), map[], 0, j.elements[i])
        {
          StripLoosens(m, value, j.elements[i]);
        }
      }
    } else {
      assert key.AdditionalProperties? ==> Patterns(ContextOf(fields)) == Patterns(ContextOf(result));
      assert DependsLittle(m, key, value, ContextOf(fields), ContextOf(result), map[], j);
    }
  }

  // ----- the whole compiler -----

  lemma PassesLoosen(m: Meaning, root: Json, refs: Refs, defs: map<Key, Json>, n: nat, j: Json)
    requires Standard(m) && NoNulls(j) && Accepts(Law(m, Full), root, refs, n, j)
    requires Sound(Kept, false, root, refs, defs, MAX_NESTING_DEPTH) && Tractable(root, defs, MAX_NESTING_DEPTH, 0)
    requires Landing(root, defs, MAX_NESTING_DEPTH).Obj?
    ensures var resolved := Resolve(root, defs, MAX_NESTING_DEPTH);
      && resolved.Some? && Simplify(resolved.value).Some? && Simplify(resolved.value).value.Obj?
      && Accepts(Law(m, Full), Strip(Cap(Simplify(resolved.value).value, 0)), map[], 0, j)
  {
    SoundResolves(Kept, false, root, refs, defs, MAX_NESTING_DEPTH);
    var resolved := Resolve(root, defs, MAX_NESTING_DEPTH).value;
    LandingResolves(root, defs, MAX_NESTING_DEPTH);
    KeptIsWeaker(m, root, refs, n, j);
    ResolveKeepsMeaning(Law(m, Kept), false, root, refs, defs, MAX_NESTING_DEPTH, n, j);
    TractableResolves(root, defs, MAX_NESTING_DEPTH, 0);
    GoodSimplifies(resolved, 0);
    SimplifyLoosens(m, resolved, 0, j);
    var simple := Simplify(resolved).value;
    CapLoosens(m, simple, 0, j);
    CapSeparates(simple, 0);
    StripLoosens(m, Cap(simple, 0), j);
  }

  /** The compiler's result when no pass fails. */
  lemma CompiledIs(fields: map<Key, Json>, defs: map<Key, Json>)
    requires PopDefs(fields, Defs).Some? && PopDefs(fields, Definitions).Some?
    requires defs == PopDefs(fields, Defs).value + PopDefs(fields, Definitions).value
    requires var resolved := Resolve(Obj(fields - {Defs, Definitions}), defs, MAX_NESTING_DEPTH);
      resolved.Some? && Simplify(resolved.value).Some? && Simplify(resolved.value).value.Obj?
    ensures var schema :=
      Strip(Cap(Simplify(Resolve(Obj(fields - {Defs, Definitions}), defs, MAX_NESTING_DEPTH).value).value, 0));
      Normalize(Some(fields)) == Some(schema) || Normalize(Some(fields)) == Some(PERMISSIVE)
  {
  }

  lemma PermissiveAccepts(law: Law, j: Json)
    requires Standard(law.m) && j.Obj?
    ensures Accepts(law, PERMISSIVE, map[], 0, j)
  {
  }

  /** Whatever arguments without nulls the server's schema accepts, however deep its references
      run, the compiled schema accepts too, if the server's schema meets these conditions: the
      compiler finds references where the document leads, or the document leads to objects; past
      the hop limit and at the depth limit there are only objects; every union is one schema or
      null; no accepted keyword depends on one that is stripped; and the root is an object. */
  lemma NormalizeOnlyLoosens(m: Meaning, fields: map<Key, Json>, refs: Refs, defs: map<Key, Json>, n: nat, j: Json)
    requires Standard(m) && j.Obj? && NoNulls(j)
    requires PopDefs(fields, Defs).Some? && PopDefs(fields, Definitions).Some?
    requires defs == PopDefs(fields, Defs).value + PopDefs(fields, Definitions).value
    requires var root := Obj(fields - {Defs, Definitions});
      && Sound(Kept, false, root, refs, defs, MAX_NESTING_DEPTH) && Tractable(root, defs, MAX_NESTING_DEPTH, 0)
      && Landing(root, defs, MAX_NESTING_DEPTH).Obj?
      && Accepts(Law(m, Full), root, refs, n, j)
    ensures Normalize(Some(fields)).Some? && Accepts(Law(m, Full), Normalize(Some(fields)).value, map[], 0, j)
  {
    PassesLoosen(m, Obj(fields - {Defs, Definitions}), refs, defs, n, j);
    CompiledIs(fields, defs);
    PermissiveAccepts(Law(m, Full), j);
  }

  // ----- what the conditions rule out -----

  /** A union of several types, or of none but null, turns into "any object", whatever it
      accepted before. */
  lemma CollapseAcceptsObjects(law: Law, schema: Json, key: Key, j: Json)
    requires Standard(law.m) && schema.Obj? && UnionKey(schema.fields) == Some(key)
    requires Variants(schema.fields[key]).Some? && |NonNull(Variants(schema.fields[key]).value)| != 1
    ensures Simplify(schema).Some? && (Accepts(law, Simplify(schema).value, map[], 0, j) <==> j.Obj?)
  {
    GenericMeans(law.m, law.reading, None, j);
    GenericMeans(law.m, law.reading, DescriptionOf(schema.fields), j);
  }

  /** So does everything at the depth limit, be it a string or a number. */
  lemma CutAcceptsObjects(law: Law, schema: Json, depth: nat, j: Json)
    requires Standard(law.m) && schema.Obj? && depth >= MAX_NESTING_DEPTH
    ensures Accepts(law, Cap(schema, depth), map[], 0, j) <==> j.Obj?
  {
    GenericMeans(law.m, law.reading, DescriptionOf(schema.fields), j);
  }
}
