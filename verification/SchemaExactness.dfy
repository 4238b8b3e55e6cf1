/**
 * When the schema compiler adds nothing either: where nothing but annotations stands beside a union
 * or a reference, and only "object" is asked at the depth limit, the compiled schema accepts exactly
 * what the kept keywords of the server's schema accept (src/core/tool_schema.py:77-242).
 */
module SchemaExactness {
  import opened Basics
  import opened ToolSchema
  import opened SchemaReferences
  import opened SchemaMeaning
  import opened SchemaLoosening
  import opened SchemaPasses

  // ----- conditions on the input -----

  /** Of the keywords that count, only this one asks for anything. */
  predicate OnlyAsks(reading: Reading, fields: map<Key, Json>, key: Key)
  {
    forall k :: k in fields && k != key && Asserts(reading, k) ==> Annotation(k)
  }

  /** The root says "object", every keyword that counts is kept, and nothing but "object" is asked at
      the depth limit. */
  predicate NodeSnug(reading: Reading, fields: map<Key, Json>, depth: nat)
  {
    && (depth == 0 ==> IsObjectSchema(Obj(fields)))
    && (forall k :: k in fields && Asserts(reading, k) ==> Asserts(Kept, k))
    && (depth >= MAX_NESTING_DEPTH ==> OnlyAsks(reading, fields, Type))
  }

  /** Wherever properties, items, references and variants other than null lead: only annotations
      stand beside a union, and each node is as above. */
  ghost predicate Snug(reading: Reading, schema: Json, defs: map<Key, Json>, hops: nat, depth: nat)
    decreases hops, schema, 0
  {
    schema.Obj? ==>
      var fields := schema.fields;
      if Ref in fields then
        fields[Ref].Str? && Target(fields[Ref].s, defs).Some? && hops > 0 ==>
          Snug(reading, Target(fields[Ref].s, defs).value, defs, hops - 1, depth)
      else match UnionKey(fields)
        case Some(key) =>
          && OnlyAsks(reading, fields, key)
          && (fields[key].Arr? ==> forall i :: 0 <= i < |fields[key].elements| ==>
            IsNullType(Landing(fields[key].elements[i], defs, hops))
            || Snug(reading, fields[key].elements[i], defs, hops, depth))
        case None =>
          NodeSnug(reading, fields, depth) && forall k :: k in fields ==>
            FieldSnug(reading, k, fields[k], defs, hops, depth)
  }

  ghost predicate FieldSnug(reading: Reading, key: Key, value: Json, defs: map<Key, Json>, hops: nat, depth: nat)
    decreases hops, value, 1
  {
    && (key == Properties && value.Obj? ==>
          forall k :: k in value.fields ==> Snug(reading, value.fields[k], defs, hops, depth + 1))
    && (key == Items && value.Obj? ==> Snug(reading, value, defs, hops, depth + 1))
  }

  /** The same of a schema without references. */
  ghost predicate Tight(reading: Reading, schema: Json, depth: nat)
    decreases schema, 0
  {
    schema.Obj? ==>
      var fields := schema.fields;
      match UnionKey(fields)
      case Some(key) =>
        && OnlyAsks(reading, fields, key)
        && (fields[key].Arr? ==> forall i :: 0 <= i < |fields[key].elements| ==>
          IsNullType(fields[key].elements[i]) || Tight(reading, fields[key].elements[i], depth))
      case None =>
        NodeSnug(reading, fields, depth) && forall k :: k in fields ==> FieldTight(reading, k, fields[k], depth)
  }

  ghost predicate FieldTight(reading: Reading, key: Key, value: Json, depth: nat)
    decreases value, 1
  {
    && (key == Properties && value.Obj? ==>
          forall k :: k in value.fields ==> Tight(reading, value.fields[k], depth + 1))
    && (key == Items && value.Obj? ==> Tight(reading, value, depth + 1))
  }

  // ----- inlining keeps the conditions -----

  lemma ResolvedFields(fields: map<Key, Json>, defs: map<Key, Json>, hops: nat) returns (result: map<Key, Json>)
    requires Ref !in fields && Resolve(Obj(fields), defs, hops).Some?
    ensures Resolve(Obj(fields), defs, hops) == Some(Obj(result)) && result.Keys == fields.Keys - {Defs, Definitions}
    ensures forall k :: k in result ==> ResolveField(k, fields[k], defs, hops) == Some(result[k])
    ensures UnionKey(result) == UnionKey(fields)
  {
    var parts := ResolveMembers(Obj(fields), defs, hops);
    CollectedKeys(parts);
    result := Resolve(Obj(fields), defs, hops).value.fields;
    assert AnyOf in parts <==> AnyOf in fields;
  }

  lemma {:induction false} SnugResolves(reading: Reading, schema: Json, defs: map<Key, Json>, hops: nat, depth: nat)
    requires Snug(reading, schema, defs, hops, depth) && Resolve(schema, defs, hops).Some?
    ensures Tight(reading, Resolve(schema, defs, hops).value, depth)
    decreases hops, schema, 3
  {
    if !schema.Obj? {
    } else if Ref in schema.fields {
      if hops > 0 && Target(schema.fields[Ref].s, defs).Some? {
        SnugResolves(reading, Target(schema.fields[Ref].s, defs).value, defs, hops - 1, depth);
      }
    } else {
      var result := ResolvedFields(schema.fields, defs, hops);
      if UnionKey(schema.fields).Some? {
        UnionSnugResolves(reading, schema, UnionKey(schema.fields).value, result, defs, hops, depth);
      } else {
        NodeSnugResolves(reading, schema, result, defs, hops, depth);
      }
    }
  }

  lemma {:induction false} UnionSnugResolves(reading: Reading, schema: Json, key: Key, result: map<Key, Json>,
                                             defs: map<Key, Json>, hops: nat, depth: nat)
    requires schema.Obj? && Ref !in schema.fields && Snug(reading, schema, defs, hops, depth)
    requires UnionKey(schema.fields) == Some(key) && UnionKey(result) == Some(key)
    requires forall k :: k in result ==>
      k in schema.fields && ResolveField(k, schema.fields[k], defs, hops) == Some(result[k])
    ensures Tight(reading, Obj(result), depth)
    decreases hops, schema, 2
  {
    VariantsResolve(reading, key, schema.fields[key], result[key], defs, hops, depth);
  }

  lemma {:induction false} NodeSnugResolves(reading: Reading, schema: Json, result: map<Key, Json>,
                                            defs: map<Key, Json>, hops: nat, depth: nat)
    requires schema.Obj? && Ref !in schema.fields && Snug(reading, schema, defs, hops, depth)
    requires UnionKey(schema.fields).None? && UnionKey(result).None?
    requires result.Keys == schema.fields.Keys - {Defs, Definitions}
    requires forall k :: k in result ==> ResolveField(k, schema.fields[k], defs, hops) == Some(result[k])
    ensures Tight(reading, Obj(result), depth)
    decreases hops, schema, 2
  {
    SameNode(reading, schema.fields, result, depth) by {
      assert Type in schema.fields ==> ResolveField(Type, schema.fields[Type], defs, hops) == Some(result[Type]);
    }
    forall k | k in result
      ensures FieldTight(reading, k, result[k], depth)
    {
      FieldSnugResolves(reading, k, schema.fields[k], result[k], defs, hops, depth);
    }
  }

  lemma SameNode(reading: Reading, fields: map<Key, Json>, result: map<Key, Json>, depth: nat)
    requires NodeSnug(reading, fields, depth)
    requires forall k :: k in result ==> k in fields
    requires Type in fields ==> Type in result && result[Type] == fields[Type]
    ensures NodeSnug(reading, result, depth)
  {
  }

  lemma {:induction false} VariantsResolve(reading: Reading, key: Key, value: Json, after: Json, defs: map<Key, Json>,
                                           hops: nat, depth: nat)
    requires IsUnion(key) && ResolveField(key, value, defs, hops) == Some(after)
    requires value.Arr? ==> forall i :: 0 <= i < |value.elements| ==>
      IsNullType(Landing(value.elements[i], defs, hops)) || Snug(reading, value.elements[i], defs, hops, depth)
    ensures after.Arr? ==> forall i :: 0 <= i < |after.elements| ==>
      IsNullType(after.elements[i]) || Tight(reading, after.elements[i], depth)
    decreases hops, value, 3
  {
    if value.Arr? {
      forall i: nat | i < |value.elements|
        ensures after.Arr? && |after.elements| == |value.elements|
        ensures IsNullType(after.elements[i]) || Tight(reading, after.elements[i], depth)
      {
        ResolvedElement(key, value, defs, hops, i);
        LandingResolves(value.elements[i], defs, hops);
        if !IsNullType(after.elements[i]) {
          SnugResolves(reading, value.elements[i], defs, hops, depth);
        }
      }
      if value.elements == [] {
        assert after.elements == [];
      }
    }
  }

  lemma ResolvedNames(names: map<Key, Json>, after: Json, defs: map<Key, Json>, hops: nat)
    requires ResolveField(Properties, Obj(names), defs, hops) == Some(after)
    ensures after.Obj? && after.fields.Keys == names.Keys
    ensures forall p :: p in names ==> Resolve(names[p], defs, hops) == Some(after.fields[p])
  {
    CollectedKeys(map p | p in names :: Resolve(names[p], defs, hops));
  }

  lemma {:induction false} FieldSnugResolves(reading: Reading, key: Key, value: Json, after: Json, defs: map<Key, Json>,
                                             hops: nat, depth: nat)
    requires FieldSnug(reading, key, value, defs, hops, depth) && ResolveField(key, value, defs, hops) == Some(after)
    ensures FieldTight(reading, key, after, depth)
    decreases hops, value, 5
  {
    if key == Properties && value.Obj? {
      PropertiesSnugResolve(reading, value, after, defs, hops, depth + 1);
    } else if key == Items && value.Obj? {
      SnugResolves(reading, value, defs, hops, depth + 1);
    }
  }

  lemma {:induction false} PropertiesSnugResolve(reading: Reading, value: Json, after: Json, defs: map<Key, Json>,
                                                 hops: nat, depth: nat)
    requires value.Obj? && ResolveField(Properties, value, defs, hops) == Some(after)
    requires forall k :: k in value.fields ==> Snug(reading, value.fields[k], defs, hops, depth)
    ensures after.Obj? && forall k :: k in after.fields ==> Tight(reading, after.fields[k], depth)
    decreases hops, value, 4
  {
    ResolvedNames(value.fields, after, defs, hops);
    NamesSnugResolve(reading, value, after.fields, defs, hops, depth);
  }

  lemma {:induction false} NamesSnugResolve(reading: Reading, value: Json, result: map<Key, Json>,
                                            defs: map<Key, Json>, hops: nat, depth: nat)
    requires value.Obj? && result.Keys == value.fields.Keys
    requires forall k :: k in result ==> Resolve(value.fields[k], defs, hops) == Some(result[k])
    requires forall k :: k in result ==> Snug(reading, value.fields[k], defs, hops, depth)
    ensures forall k :: k in result ==> Tight(reading, result[k], depth)
    decreases hops, value, 3
  {
    forall k | k in result
      ensures Tight(reading, result[k], depth)
    {
      SnugResolves(reading, value.fields[k], defs, hops, depth);
    }
  }

  // ----- unwrapping keeps the conditions -----

  lemma SimplifiedFields(fields: map<Key, Json>) returns (result: map<Key, Json>)
    requires UnionKey(fields).None? && Simplify(Obj(fields)).Some?
    ensures Simplify(Obj(fields)) == Some(Obj(result)) && result.Keys == fields.Keys
    ensures forall k :: k in result ==> SimplifyField(k, fields[k]) == Some(result[k])
  {
    CollectedKeys(map k | k in fields :: SimplifyField(k, fields[k]));
    result := Simplify(Obj(fields)).value.fields;
  }

  lemma SimplifiedNames(names: map<Key, Json>, after: Json)
    requires SimplifyField(Properties, Obj(names)) == Some(after)
    ensures after.Obj? && after.fields.Keys == names.Keys
    ensures forall p :: p in names ==> Simplify(names[p]) == Some(after.fields[p])
  {
    CollectedKeys(map p | p in names :: Simplify(names[p]));
  }

  /** The one variant that is not null. */
  lemma {:induction false} OneKept(variants: seq<Json>) returns (i: nat)
    requires (forall k :: 0 <= k < |variants| ==> variants[k].Obj?) && |NonNull(variants)| == 1
    ensures i < |variants| && NonNull(variants) == [variants[i]]
    ensures forall k :: 0 <= k < |variants| ==> (IsNullType(variants[k]) <==> k != i)
  {
    if IsNullType(variants[0]) {
      var k := OneKept(variants[1..]);
      i := k + 1;
    } else {
      i := 0;
      forall k: nat | 0 < k < |variants|
        ensures IsNullType(variants[k])
      {
        if !IsNullType(variants[k]) {
          NonNullKeeps(variants[1..], k - 1);
        }
      }
    }
  }

  /** The one with a description added. */
  predicate Describes(merged: map<Key, Json>, result: map<Key, Json>)
  {
    Description !in merged && Description in result && result == merged[Description := result[Description]]
  }

  /** A union that becomes this variant. */
  ghost predicate Becomes(fields: map<Key, Json>, key: Key, i: nat, result: map<Key, Json>)
  {
    && UnionKey(fields) == Some(key) && fields[key].Arr? && i < |fields[key].elements|
    && (forall k :: 0 <= k < |fields[key].elements| ==>
        fields[key].elements[k].Obj? && (IsNullType(fields[key].elements[k]) <==> k != i))
    && Simplify(fields[key].elements[i]).Some? && Simplify(fields[key].elements[i]).value.Obj?
    && var merged := Simplify(fields[key].elements[i]).value.fields;
      (result == merged || Describes(merged, result))
  }

  lemma GoodUnion(fields: map<Key, Json>, key: Key, depth: nat) returns (i: nat)
    requires UnionKey(fields) == Some(key) && Good(Obj(fields), depth)
    ensures fields[key].Arr? && i < |fields[key].elements| && Good(fields[key].elements[i], depth)
    ensures forall k :: 0 <= k < |fields[key].elements| ==>
      fields[key].elements[k].Obj? && (IsNullType(fields[key].elements[k]) <==> k != i)
  {
    i := OneKept(fields[key].elements);
  }

  lemma UnwrapBecomes(fields: map<Key, Json>, key: Key, i: nat) returns (result: map<Key, Json>)
    requires UnionKey(fields) == Some(key) && fields[key].Arr? && i < |fields[key].elements|
    requires forall k :: 0 <= k < |fields[key].elements| ==>
      fields[key].elements[k].Obj? && (IsNullType(fields[key].elements[k]) <==> k != i)
    requires Simplify(fields[key].elements[i]).Some?
    ensures Simplify(Obj(fields)) == Some(Obj(result)) && Becomes(fields, key, i, result)
  {
    UnwrappedUnion(fields, key, i);
    result := Simplify(Obj(fields)).value.fields;
  }

  lemma UnionBecomes(fields: map<Key, Json>, key: Key, depth: nat) returns (i: nat, result: map<Key, Json>)
    requires UnionKey(fields) == Some(key) && Good(Obj(fields), depth)
    ensures Simplify(Obj(fields)) == Some(Obj(result)) && Becomes(fields, key, i, result)
    ensures Good(fields[key].elements[i], depth)
  {
    i := GoodUnion(fields, key, depth);
    GoodSimplifies(fields[key].elements[i], depth);
    result := UnwrapBecomes(fields, key, i);
  }

  lemma {:induction false} TightSimplifies(reading: Reading, schema: Json, depth: nat)
    requires Tight(reading, schema, depth) && Good(schema, depth) && Inlined(schema)
    ensures Simplify(schema).Some? && Tight(reading, Simplify(schema).value, depth) && Simple(Simplify(schema).value)
    decreases schema, 1
  {
    GoodSimplifies(schema, depth);
    SimplifyLeavesNoUnion(schema);
    if !schema.Obj? {
    } else if UnionKey(schema.fields).Some? {
      var key := UnionKey(schema.fields).value;
      var i, result := UnionBecomes(schema.fields, key, depth);
      TightSimplifies(reading, schema.fields[key].elements[i], depth);
      DescribedIsTight(reading, Simplify(schema.fields[key].elements[i]).value.fields, result, depth);
    } else {
      var result := SimplifiedFields(schema.fields);
      NodeTightSimplifies(reading, schema, result, depth);
    }
  }

  lemma DescribedIsTight(reading: Reading, merged: map<Key, Json>, result: map<Key, Json>, depth: nat)
    requires Tight(reading, Obj(merged), depth) && Simple(Obj(merged)) && Simple(Obj(result))
    requires result == merged || Describes(merged, result)
    ensures Tight(reading, Obj(result), depth)
  {
    assert UnionKey(merged).None? && UnionKey(result).None?;
  }

  lemma {:induction false} NodeTightSimplifies(reading: Reading, schema: Json, result: map<Key, Json>, depth: nat)
    requires schema.Obj? && Tight(reading, schema, depth) && Good(schema, depth) && Inlined(schema)
    requires UnionKey(schema.fields).None? && result.Keys == schema.fields.Keys
    requires forall k :: k in result ==> SimplifyField(k, schema.fields[k]) == Some(result[k])
    ensures Tight(reading, Obj(result), depth)
    decreases schema, 0
  {
    SameNode(reading, schema.fields, result, depth) by {
      assert Type in schema.fields ==> SimplifyField(Type, schema.fields[Type]) == Some(result[Type]);
    }
    forall k | k in result
      ensures FieldTight(reading, k, result[k], depth)
    {
      FieldTightSimplifies(reading, k, schema.fields[k], result[k], depth);
    }
  }

  lemma {:induction false} FieldTightSimplifies(reading: Reading, key: Key, value: Json, after: Json, depth: nat)
    requires FieldTight(reading, key, value, depth) && FieldGood(key, value, depth) && FieldInlined(key, value)
    requires SimplifyField(key, value) == Some(after)
    ensures FieldTight(reading, key, after, depth)
    decreases value, 2
  {
    if key == Properties && value.Obj? {
      SimplifiedNames(value.fields, after);
      forall k | k in value.fields
        ensures Tight(reading, after.fields[k], depth + 1)
      {
        TightSimplifies(reading, value.fields[k], depth + 1);
      }
    } else if key == Items && value.Obj? {
      TightSimplifies(reading, value, depth + 1);
    }
  }

  // ----- unwrapping adds nothing -----

  /** An accepted keyword sees siblings that look alike as the same, in either reading. */
  lemma AlikeReads(law: Law, key: Key, value: Json, c: Context, d: Context, j: Json)
    requires Standard(law.m) && Asserts(Kept, key) && Alike(c, d)
    ensures AcceptsField(law, key, value, c, map[], 0, j) <==> AcceptsField(law, key, value, d, map[], 0, j)
  {
    assert DependsLittle(law.m, key, value, c, d, map[], j);
  }

  /** A description asks for nothing. */
  lemma DescribedMeans(law: Law, merged: map<Key, Json>, result: map<Key, Json>, j: Json)
    requires Standard(law.m) && Describes(merged, result)
    requires forall k :: k in merged && Asserts(law.reading, k) ==> Asserts(Kept, k)
    ensures Accepts(law, Obj(result), map[], 0, j) <==> Accepts(law, Obj(merged), map[], 0, j)
  {
    assert Alike(ContextOf(merged), ContextOf(result));
    forall k | k in merged && Asserts(law.reading, k)
      ensures AcceptsField(law, k, result[k], ContextOf(result), map[], 0, j)
        <==> AcceptsField(law, k, merged[k], ContextOf(merged), map[], 0, j)
    {
      AlikeReads(law, k, merged[k], ContextOf(merged), ContextOf(result), j);
    }
    AnnotationHolds(law, Description, result[Description], ContextOf(result), j);
    SameAnswers(law, merged, result, j);
  }

  lemma AnnotationHolds(law: Law, key: Key, value: Json, context: Context, j: Json)
    requires Standard(law.m) && Annotation(key)
    ensures AcceptsField(law, key, value, context, map[], 0, j)
  {
  }

  lemma SameAnswers(law: Law, merged: map<Key, Json>, result: map<Key, Json>, j: Json)
    requires Ref in merged <==> Ref in result
    requires forall k :: k in merged ==> k in result
    requires forall k :: k in result && k !in merged ==> AcceptsField(law, k, result[k], ContextOf(result), map[], 0, j)
    requires forall k :: k in merged && Asserts(law.reading, k) ==>
      (AcceptsField(law, k, result[k], ContextOf(result), map[], 0, j)
       <==> AcceptsField(law, k, merged[k], ContextOf(merged), map[], 0, j))
    ensures Accepts(law, Obj(result), map[], 0, j) <==> Accepts(law, Obj(merged), map[], 0, j)
  {
  }

  lemma NullRefuses(law: Law, variant: Json, j: Json)
    requires Standard(law.m) && IsNullType(variant) && !j.Null?
    ensures !Accepts(law, variant, map[], 0, j)
  {
    assert !AcceptsField(law, Type, variant.fields[Type], ContextOf(variant.fields), map[], 0, j);
  }

  /** Where only annotations stand beside a keyword, the keyword decides. */
  lemma OneDecides(law: Law, fields: map<Key, Json>, key: Key, j: Json)
    requires Standard(law.m) && key in fields && Asserts(law.reading, key) && Ref !in fields
    requires OnlyAsks(law.reading, fields, key)
    ensures Accepts(law, Obj(fields), map[], 0, j) <==>
      AcceptsField(law, key, fields[key], ContextOf(fields), map[], 0, j)
  {
    forall k | k in fields && Annotation(k)
      ensures AcceptsField(law, k, fields[k], ContextOf(fields), map[], 0, j)
    {
      AnnotationHolds(law, k, fields[k], ContextOf(fields), j);
    }
  }

  lemma VariantDecides(law: Law, key: Key, value: Json, i: nat, j: Json)
    requires (key == AnyOf || key == OneOf) && value.Arr? && i < |value.elements|
    requires forall k :: 0 <= k < |value.elements| && k != i ==> !Accepts(law, value.elements[k], map[], 0, j)
    ensures AcceptsUnion(law, key, value, map[], 0, j) <==> Accepts(law, value.elements[i], map[], 0, j)
  {
  }

  /** A union of one variant and nulls accepts, of all but null, what the variant accepts. */
  lemma UnionMeans(law: Law, fields: map<Key, Json>, key: Key, i: nat, j: Json)
    requires Standard(law.m) && key in fields && (key == AnyOf || key == OneOf) && fields[key].Arr? && Ref !in fields
    requires i < |fields[key].elements| && forall k :: 0 <= k < |fields[key].elements| ==>
      (IsNullType(fields[key].elements[k]) <==> k != i)
    requires OnlyAsks(law.reading, fields, key) && !j.Null?
    ensures Accepts(law, Obj(fields), map[], 0, j) <==> Accepts(law, fields[key].elements[i], map[], 0, j)
  {
    var variants := fields[key].elements;
    forall k | 0 <= k < |variants| && k != i
      ensures !Accepts(law, variants[k], map[], 0, j)
    {
      NullRefuses(law, variants[k], j);
    }
    VariantDecides(law, key, fields[key], i, j);
    OneDecides(law, fields, key, j);
  }

  /** For every instance but null: a union with one variant that is not null, in any place, accepts
      what the variant accepts, and the unwrapped schema what the simplified variant accepts. */
  lemma UnwrapMeans(law: Law, fields: map<Key, Json>, key: Key, i: nat, result: map<Key, Json>, j: Json)
    requires Standard(law.m) && Ref !in fields && OnlyAsks(law.reading, fields, key) && !j.Null?
    requires Simplify(Obj(fields)) == Some(Obj(result)) && Becomes(fields, key, i, result)
    requires forall k :: k in result && Asserts(law.reading, k) ==> Asserts(Kept, k)
    ensures Accepts(law, Obj(fields), map[], 0, j) <==> Accepts(law, fields[key].elements[i], map[], 0, j)
    ensures Accepts(law, Obj(result), map[], 0, j) <==>
      Accepts(law, Simplify(fields[key].elements[i]).value, map[], 0, j)
  {
    UnionMeans(law, fields, key, i, j);
    var merged := Simplify(fields[key].elements[i]).value.fields;
    if Describes(merged, result) {
      DescribedMeans(law, merged, result, j);
    }
  }

  /** What the simplified schema accepts the schema accepts. */
  lemma {:induction false} SimplifyAddsNothing(law: Law, schema: Json, depth: nat, j: Json)
    requires Standard(law.m) && NoNulls(j)
    requires Tight(law.reading, schema, depth) && Good(schema, depth) && Inlined(schema)
    requires Simplify(schema).Some? && Accepts(law, Simplify(schema).value, map[], 0, j)
    ensures Accepts(law, schema, map[], 0, j)
    decreases schema, 2
  {
    if !schema.Obj? {
    } else if UnionKey(schema.fields).Some? {
      UnwrapAddsNothing(law, schema, UnionKey(schema.fields).value, depth, j);
    } else {
      NodeAddsNothing(law, schema, depth, j);
    }
  }

  lemma UnionIsTight(reading: Reading, fields: map<Key, Json>, key: Key, depth: nat)
    returns (i: nat, result: map<Key, Json>)
    requires UnionKey(fields) == Some(key)
    requires Tight(reading, Obj(fields), depth) && Good(Obj(fields), depth) && Inlined(Obj(fields))
    ensures Simplify(Obj(fields)) == Some(Obj(result)) && Becomes(fields, key, i, result)
    ensures Tight(reading, Obj(result), depth) && Simple(Obj(result))
    ensures var variant := fields[key].elements[i];
      Tight(reading, variant, depth) && Good(variant, depth) && Inlined(variant)
    ensures OnlyAsks(reading, fields, key) && Ref !in fields
  {
    i, result := UnionBecomes(fields, key, depth);
    TightSimplifies(reading, Obj(fields), depth);
    VariantIsTight(reading, fields, key, i, depth);
    VariantIsInlined(fields, key, i);
  }

  lemma VariantIsTight(reading: Reading, fields: map<Key, Json>, key: Key, i: nat, depth: nat)
    requires UnionKey(fields) == Some(key) && Tight(reading, Obj(fields), depth)
    requires fields[key].Arr? && i < |fields[key].elements| && !IsNullType(fields[key].elements[i])
    ensures Tight(reading, fields[key].elements[i], depth) && OnlyAsks(reading, fields, key)
  {
  }

  lemma VariantIsInlined(fields: map<Key, Json>, key: Key, i: nat)
    requires UnionKey(fields) == Some(key) && Inlined(Obj(fields))
    requires fields[key].Arr? && i < |fields[key].elements|
    ensures Inlined(fields[key].elements[i]) && Ref !in fields
  {
    assert FieldInlined(key, fields[key]);
  }

  lemma TightCounts(reading: Reading, fields: map<Key, Json>, depth: nat)
    requires Tight(reading, Obj(fields), depth) && Simple(Obj(fields))
    ensures forall k :: k in fields && Asserts(reading, k) ==> Asserts(Kept, k)
  {
    assert UnionKey(fields).None?;
  }

  lemma {:induction false} UnwrapAddsNothing(law: Law, schema: Json, key: Key, depth: nat, j: Json)
    requires Standard(law.m) && NoNulls(j) && schema.Obj? && UnionKey(schema.fields) == Some(key)
    requires Tight(law.reading, schema, depth) && Good(schema, depth) && Inlined(schema)
    requires Simplify(schema).Some? && Accepts(law, Simplify(schema).value, map[], 0, j)
    ensures Accepts(law, schema, map[], 0, j)
    decreases schema, 1
  {
    var i, result := UnionIsTight(law.reading, schema.fields, key, depth);
    TightCounts(law.reading, result, depth);
    UnwrapMeans(law, schema.fields, key, i, result, j);
    SimplifyAddsNothing(law, schema.fields[key].elements[i], depth, j);
  }

  lemma {:induction false} NodeAddsNothing(law: Law, schema: Json, depth: nat, j: Json)
    requires Standard(law.m) && NoNulls(j) && schema.Obj? && UnionKey(schema.fields).None?
    requires Tight(law.reading, schema, depth) && Good(schema, depth) && Inlined(schema)
    requires Simplify(schema).Some? && Accepts(law, Simplify(schema).value, map[], 0, j)
    ensures Accepts(law, schema, map[], 0, j)
    decreases schema, 1
  {
    var fields := schema.fields;
    var result := SimplifiedFields(fields);
    SimplifiedContext(fields, result);
    forall k | k in fields && Asserts(law.reading, k)
      ensures AcceptsField(law, k, fields[k], ContextOf(fields), map[], 0, j)
    {
      AlikeReads(law, k, result[k], ContextOf(fields), ContextOf(result), j);
      FieldAddsNothing(law, k, fields[k], result[k], ContextOf(fields), depth, j);
    }
  }

  lemma {:induction false} FieldAddsNothing(law: Law, key: Key, value: Json, after: Json, context: Context, depth: nat,
                                            j: Json)
    requires Standard(law.m) && NoNulls(j) && SimplifyField(key, value) == Some(after)
    requires FieldTight(law.reading, key, value, depth) && FieldGood(key, value, depth) && FieldInlined(key, value)
    requires AcceptsField(law, key, after, context, map[], 0, j)
    ensures AcceptsField(law, key, value, context, map[], 0, j)
    decreases value, 5
  {
    if key == Properties && value.Obj? {
      NamesAddNothing(law, value, after, context, depth, j);
    } else if key == Items && value.Obj? {
      NoNullInstances(j, InstancesOf(j));
      ItemsAddNothing(law, value, after, context, depth + 1, j, InstancesOf(j));
    } else {
      OtherSimplifies(key, value);
    }
  }

  lemma OtherSimplifies(key: Key, value: Json)
    requires !(key == Properties && value.Obj?) && !(key == Items && value.Obj?)
    ensures SimplifyField(key, value) == Some(value)
  {
  }

  lemma {:induction false} NamesAddNothing(law: Law, value: Json, after: Json, context: Context, depth: nat, j: Json)
    requires Standard(law.m) && NoNulls(j) && value.Obj? && SimplifyField(Properties, value) == Some(after)
    requires forall k :: k in value.fields ==>
      var s := value.fields[k];
      Tight(law.reading, s, depth + 1) && Good(s, depth + 1) && Inlined(s)
    requires AcceptsField(law, Properties, after, context, map[], 0, j)
    ensures AcceptsField(law, Properties, value, context, map[], 0, j)
    decreases value, 3
  {
    SimplifiedNames(value.fields, after);
    if j.Obj? {
      forall p | p in value.fields && p in j.fields
        ensures Accepts(law, value.fields[p], map[], 0, j.fields[p])
      {
        SimplifyAddsNothing(law, value.fields[p], depth + 1, j.fields[p]);
      }
    }
  }

  function InstancesOf(j: Json): seq<Json> { if j.Arr? then j.elements else [] }

  lemma NoNullInstances(j: Json, instances: seq<Json>)
    requires NoNulls(j) && instances == InstancesOf(j)
    ensures forall e :: e in instances ==> NoNulls(e)
  {
  }

  lemma {:induction false} ItemsAddNothing(law: Law, value: Json, after: Json, context: Context, depth: nat, j: Json,
                                           instances: seq<Json>)
    requires Standard(law.m) && value.Obj? && Simplify(value) == Some(after)
    requires instances == InstancesOf(j) && forall e :: e in instances ==> NoNulls(e)
    requires Tight(law.reading, value, depth) && Good(value, depth) && Inlined(value)
    requires AcceptsField(law, Items, after, context, map[], 0, j)
    ensures AcceptsField(law, Items, value, context, map[], 0, j)
    decreases value, 4
  {
    EachAddsNothing(law, value, depth, instances);
    ItemsTransfer(law, value, context, law, after, context, j);
  }

  lemma {:induction false} EachAddsNothing(law: Law, schema: Json, depth: nat, instances: seq<Json>)
    requires Standard(law.m) && (forall e :: e in instances ==> NoNulls(e)) && Simplify(schema).Some?
    requires Tight(law.reading, schema, depth) && Good(schema, depth) && Inlined(schema)
    ensures CoversAll(law, schema, law, Simplify(schema).value, instances)
    decreases schema, 3
  {
    forall e | e in instances && Accepts(law, Simplify(schema).value, map[], 0, e)
      ensures Accepts(law, schema, map[], 0, e)
    {
      SimplifyAddsNothing(law, schema, depth, e);
    }
  }

  /** Whichever of the instances one schema accepts the other does. */
  ghost predicate CoversAll(law: Law, schema: Json, strict: Law, after: Json, instances: seq<Json>)
  {
    forall e :: e in instances && Accepts(strict, after, map[], 0, e) ==> Accepts(law, schema, map[], 0, e)
  }

  lemma ItemsTransfer(law: Law, value: Json, c: Context, strict: Law, after: Json, d: Context, j: Json)
    requires IsSchema(value) && IsSchema(after) && Prefix(c) == Prefix(d)
    requires j.Arr? ==> CoversAll(law, value, strict, after, j.elements)
    requires AcceptsField(strict, Items, after, d, map[], 0, j)
    ensures AcceptsField(law, Items, value, c, map[], 0, j)
  {
  }

  // ----- cutting and stripping add nothing -----

  lemma StrippedFields(fields: map<Key, Json>, depth: nat) returns (result: map<Key, Json>)
    requires depth < MAX_NESTING_DEPTH
    ensures Strip(Cap(Obj(fields), depth)) == Obj(result)
    ensures forall k :: k in result <==> k in fields && Allowed(k)
    ensures forall k :: k in result ==> result[k] == StripField(k, CapField(k, fields[k], depth))
    ensures Declared(result) == Declared(fields)
  {
    result := Strip(Cap(Obj(fields), depth)).fields;
    assert Properties in fields ==>
      result[Properties] == StripField(Properties, CapField(Properties, fields[Properties], depth));
  }

  /** At the depth limit, "object" is all that is asked. */
  lemma CutMeans(law: Law, fields: map<Key, Json>, depth: nat, j: Json)
    requires Standard(law.m) && depth >= MAX_NESTING_DEPTH && Ref !in fields
    requires IsObjectSchema(Obj(fields)) && OnlyAsks(law.reading, fields, Type)
    ensures Accepts(Law(law.m, Full), Strip(Cap(Obj(fields), depth)), map[], 0, j) <==>
      Accepts(law, Obj(fields), map[], 0, j)
  {
    OneDecides(law, fields, Type, j);
    assert Cap(Obj(fields), depth) == Describe(GENERIC, DescriptionOf(fields));
    assert Strip(Describe(GENERIC, DescriptionOf(fields))) == Describe(GENERIC, DescriptionOf(fields)) by {
      DescribeIsClean(fields);
      StripKeeps(Describe(GENERIC, DescriptionOf(fields)), MAX_NESTING_DEPTH);
    }
    GenericMeans(law.m, Full, DescriptionOf(fields), j);
  }

  lemma DescribeIsClean(fields: map<Key, Json>)
    ensures Clean(Describe(GENERIC, DescriptionOf(fields)), MAX_NESTING_DEPTH)
  {
  }

  /** What the cut and stripped schema accepts the schema accepts. */
  lemma {:induction false} StripAddsNothing(law: Law, schema: Json, depth: nat, j: Json)
    requires Standard(law.m) && Tight(law.reading, schema, depth) && Fine(schema, depth) && Simple(schema)
    requires Accepts(Law(law.m, Full), Strip(Cap(schema, depth)), map[], 0, j)
    ensures Accepts(law, schema, map[], 0, j)
    decreases schema, 1
  {
    if !schema.Obj? {
    } else if depth >= MAX_NESTING_DEPTH {
      assert UnionKey(schema.fields).None?;
      CutMeans(law, schema.fields, depth, j);
    } else {
      NodeStripAddsNothing(law, schema, depth, j);
    }
  }

  lemma {:induction false} NodeStripAddsNothing(law: Law, schema: Json, depth: nat, j: Json)
    requires Standard(law.m) && Tight(law.reading, schema, depth) && Fine(schema, depth) && Simple(schema)
    requires schema.Obj? && depth < MAX_NESTING_DEPTH
    requires Accepts(Law(law.m, Full), Strip(Cap(schema, depth)), map[], 0, j)
    ensures Accepts(law, schema, map[], 0, j)
    decreases schema, 0
  {
    var fields := schema.fields;
    var result := StrippedFields(fields, depth);
    TightCounts(law.reading, fields, depth);
    assert UnionKey(fields).None?;
    forall k | k in fields && Asserts(law.reading, k)
      ensures AcceptsField(law, k, fields[k], ContextOf(fields), map[], 0, j)
    {
      assert Asserts(Kept, k) && Allowed(k);
      assert AcceptsField(Law(law.m, Full), k, result[k], ContextOf(result), map[], 0, j);
      FieldStripAddsNothing(law, k, fields[k], result[k], ContextOf(fields), ContextOf(result), depth, j);
    }
  }

  lemma StrippedItems(value: Json, depth: nat)
    requires value.Obj?
    ensures StripField(Items, CapField(Items, value, depth)) == Strip(Cap(value, depth + 1))
    ensures Strip(Cap(value, depth + 1)).Obj?
  {
  }

  lemma {:induction false} FieldStripAddsNothing(law: Law, key: Key, value: Json, after: Json, c: Context, d: Context,
                                                 depth: nat, j: Json)
    requires Standard(law.m) && Allowed(key) && after == StripField(key, CapField(key, value, depth))
    requires FieldTight(law.reading, key, value, depth) && FieldFine(key, value, depth) && FieldSimple(key, value)
    requires c.declared == d.declared
    requires key.AdditionalProperties? ==> Patterns(c) == Patterns(d)
    requires key.Items? ==> Prefix(c) == Prefix(d)
    requires AcceptsField(Law(law.m, Full), key, after, d, map[], 0, j)
    ensures AcceptsField(law, key, value, c, map[], 0, j)
    decreases value, 4
  {
    if key == Properties && value.Obj? {
      NamesStripAddNothing(law, value, c, d, depth, j);
    } else if key == Items && value.Obj? {
      StrippedItems(value, depth);
      ItemsStripAddNothing(law, value, after, c, d, depth + 1, j);
    } else {
      OtherStripAddsNothing(law, key, value, c, d, depth, j);
    }
  }

  lemma OtherStripAddsNothing(law: Law, key: Key, value: Json, c: Context, d: Context, depth: nat, j: Json)
    requires Standard(law.m) && Allowed(key) && !(key == Properties && value.Obj?) && !(key == Items && value.Obj?)
    requires c.declared == d.declared && (key.AdditionalProperties? ==> Patterns(c) == Patterns(d))
    requires key.Items? ==> Prefix(c) == Prefix(d)
    requires AcceptsField(Law(law.m, Full), key, StripField(key, CapField(key, value, depth)), d, map[], 0, j)
    ensures AcceptsField(law, key, value, c, map[], 0, j)
  {
    assert StripField(key, CapField(key, value, depth)) == value;
    assert DependsLittle(law.m, key, value, c, d, map[], j);
  }

  lemma {:induction false} NamesStripAddNothing(law: Law, value: Json, c: Context, d: Context, depth: nat, j: Json)
    requires Standard(law.m) && value.Obj?
    requires forall k :: k in value.fields ==>
      var s := value.fields[k];
      Tight(law.reading, s, depth + 1) && Fine(s, depth + 1) && Simple(s)
    requires AcceptsField(Law(law.m, Full), Properties, StripField(Properties, CapField(Properties, value, depth)), d,
                          map[], 0, j)
    ensures AcceptsField(law, Properties, value, c, map[], 0, j)
    decreases value, 2
  {
    var after := StripField(Properties, CapField(Properties, value, depth));
    assert forall p :: p in value.fields ==> after.fields[p] == Strip(Cap(value.fields[p], depth + 1));
    if j.Obj? {
      forall p | p in value.fields && p in j.fields
        ensures Accepts(law, value.fields[p], map[], 0, j.fields[p])
      {
        assert Accepts(Law(law.m, Full), after.fields[p], map[], 0, j.fields[p]);
        StripAddsNothing(law, value.fields[p], depth + 1, j.fields[p]);
      }
    }
  }

  lemma {:induction false} ItemsStripAddNothing(law: Law, value: Json, after: Json, c: Context, d: Context, depth: nat,
                                                j: Json)
    requires Standard(law.m) && value.Obj? && after.Obj? && after == Strip(Cap(value, depth)) && Prefix(c) == Prefix(d)
    requires Tight(law.reading, value, depth) && Fine(value, depth) && Simple(value)
    requires AcceptsField(Law(law.m, Full), Items, after, d, map[], 0, j)
    ensures AcceptsField(law, Items, value, c, map[], 0, j)
    decreases value, 3
  {
    EachStripAddsNothing(law, value, after, depth, if j.Arr? then j.elements else []);
    ItemsTransfer(law, value, c, Law(law.m, Full), after, d, j);
  }

  lemma {:induction false} EachStripAddsNothing(law: Law, schema: Json, after: Json, depth: nat,
                                                instances: seq<Json>)
    requires Standard(law.m) && Tight(law.reading, schema, depth) && Fine(schema, depth) && Simple(schema)
    requires after == Strip(Cap(schema, depth))
    ensures CoversAll(law, schema, Law(law.m, Full), after, instances)
    decreases schema, 2
  {
    forall e | e in instances && Accepts(Law(law.m, Full), after, map[], 0, e)
      ensures Accepts(law, schema, map[], 0, e)
    {
      StripAddsNothing(law, schema, depth, e);
    }
  }

  // ----- the whole compiler -----

  /** A schema that says "object" keeps saying so. */
  lemma RootStays(reading: Reading, simple: Json)
    requires Tight(reading, simple, 0) && Simple(simple) && simple.Obj?
    ensures IsObjectSchema(Strip(Cap(simple, 0)))
  {
    var result := StrippedFields(simple.fields, 0);
    assert UnionKey(simple.fields).None?;
  }

  /** The passes after inlining accept what the inlined schema accepts, and nothing else. */
  lemma PassesAreExact(law: Law, resolved: Json, j: Json)
    requires Standard(law.m) && NoNulls(j) && resolved.Obj?
    requires Tight(law.reading, resolved, 0) && Good(resolved, 0) && Inlined(resolved)
    ensures Simplify(resolved).Some? && IsObjectSchema(Strip(Cap(Simplify(resolved).value, 0)))
    ensures Accepts(Law(law.m, Full), Strip(Cap(Simplify(resolved).value, 0)), map[], 0, j) <==>
      Accepts(law, resolved, map[], 0, j)
  {
    GoodSimplifies(resolved, 0);
    TightSimplifies(law.reading, resolved, 0);
    RootStays(law.reading, Simplify(resolved).value);
    if Accepts(Law(law.m, Full), Strip(Cap(Simplify(resolved).value, 0)), map[], 0, j) {
      StripAddsNothing(law, Simplify(resolved).value, 0, j);
      SimplifyAddsNothing(law, resolved, 0, j);
    }
    if Accepts(law, resolved, map[], 0, j) {
      PassesKeep(law, resolved, Simplify(resolved).value, j);
    }
  }

  lemma PassesKeep(law: Law, resolved: Json, simple: Json, j: Json)
    requires Standard(law.m) && NoNulls(j) && Good(resolved, 0) && Simplify(resolved) == Some(simple)
    requires Accepts(law, resolved, map[], 0, j)
    ensures Accepts(Law(law.m, Full), Strip(Cap(simple, 0)), map[], 0, j)
  {
    if law.reading.Full? {
      KeptIsWeaker(law.m, resolved, map[], 0, j);
    }
    assert law.reading.Kept? ==> law == Law(law.m, Kept);
    GoodSimplifies(resolved, 0);
    SimplifyLoosens(law.m, resolved, 0, j);
    CapLoosens(law.m, simple, 0, j);
    CapSeparates(simple, 0);
    StripLoosens(law.m, Cap(simple, 0), j);
  }

  /** Under these conditions inlining is exact and leaves a schema for the other passes. */
  lemma InliningIsExact(law: Law, root: Json, refs: Refs, defs: map<Key, Json>, hops: nat, n: nat, j: Json)
    returns (resolved: Json)
    requires Standard(law.m) && n >= hops && Sound(law.reading, true, root, refs, defs, hops)
    requires Tractable(root, defs, hops, 0) && Snug(law.reading, root, defs, hops, 0) && Landing(root, defs, hops).Obj?
    ensures Resolve(root, defs, hops) == Some(resolved) && resolved.Obj?
    ensures Tight(law.reading, resolved, 0) && Good(resolved, 0) && Inlined(resolved)
    ensures Accepts(law, resolved, map[], 0, j) <==> Accepts(law, root, refs, n, j)
  {
    SoundResolves(law.reading, true, root, refs, defs, hops);
    resolved := Resolve(root, defs, hops).value;
    LandingResolves(root, defs, hops);
    ResolveInlines(root, defs, hops);
    ResolveKeepsMeaning(law, true, root, refs, defs, hops, n, j);
    TractableResolves(root, defs, hops, 0);
    SnugResolves(law.reading, root, defs, hops, 0);
  }

  lemma CompiledIsObject(fields: map<Key, Json>, defs: map<Key, Json>, resolved: Json, schema: Json)
    requires PopDefs(fields, Defs).Some? && PopDefs(fields, Definitions).Some? && fields != map[]
    requires defs == PopDefs(fields, Defs).value + PopDefs(fields, Definitions).value
    requires Resolve(Obj(fields - {Defs, Definitions}), defs, MAX_NESTING_DEPTH) == Some(resolved)
    requires Simplify(resolved).Some? && schema == Strip(Cap(Simplify(resolved).value, 0)) && IsObjectSchema(schema)
    ensures Normalize(Some(fields)) == Some(schema)
  {
  }

  lemma NoKeywords(reading: Reading, defs: map<Key, Json>, hops: nat)
    ensures !Snug(reading, Obj(map[]), defs, hops, 0)
  {
  }

  /** Of arguments without nulls, the compiled schema accepts exactly those that the server's schema
      accepts, read in full if nothing is stripped from it and else by its kept keywords: where
      references are followed to the end, every union is one schema or null, only annotations stand
      beside references and unions, only "object" is asked at the depth limit, and the root says
      "object". */
  lemma NormalizeIsExact(law: Law, fields: map<Key, Json>, refs: Refs, defs: map<Key, Json>, n: nat, j: Json)
    requires Standard(law.m) && NoNulls(j) && n >= MAX_NESTING_DEPTH
    requires PopDefs(fields, Defs).Some? && PopDefs(fields, Definitions).Some?
    requires defs == PopDefs(fields, Defs).value + PopDefs(fields, Definitions).value
    requires var root := Obj(fields - {Defs, Definitions});
      && Sound(law.reading, true, root, refs, defs, MAX_NESTING_DEPTH)
      && Tractable(root, defs, MAX_NESTING_DEPTH, 0) && Snug(law.reading, root, defs, MAX_NESTING_DEPTH, 0)
      && Landing(root, defs, MAX_NESTING_DEPTH).Obj?
    ensures Normalize(Some(fields)).Some?
    ensures Accepts(Law(law.m, Full), Normalize(Some(fields)).value, map[], 0, j) <==>
      Accepts(law, Obj(fields - {Defs, Definitions}), refs, n, j)
  {
    var root := Obj(fields - {Defs, Definitions});
    var resolved := InliningIsExact(law, root, refs, defs, MAX_NESTING_DEPTH, n, j);
    PassesAreExact(law, resolved, j);
    NoKeywords(law.reading, defs, MAX_NESTING_DEPTH);
    CompiledIsObject(fields, defs, resolved, Strip(Cap(Simplify(resolved).value, 0)));
  }
}
