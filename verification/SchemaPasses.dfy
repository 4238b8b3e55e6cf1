/**
 * What each pass of the schema compiler makes of one schema, keyword by keyword
 * (src/core/tool_schema.py:22-23, 77-212).
 */
module SchemaPasses {
  import opened Basics
  import opened ToolSchema
  import opened SchemaMeaning
  import opened SchemaLoosening

  /** The keywords that survive. */
  lemma AllowedKeywords(key: Key)
    ensures Allowed(key) <==>
      key in {Type, Properties, Required, Items, Description, Enum, Default, Minimum, Maximum, MinLength, MaxLength,
              Pattern, AdditionalProperties, Title}
  {
  }

  lemma CollectedKeys(parts: map<Key, Option<Json>>)
    requires CollectObj(parts).Some?
    ensures CollectObj(parts).value.Obj? && CollectObj(parts).value.fields.Keys == parts.Keys
    ensures forall k :: k in parts ==> parts[k] == Some(CollectObj(parts).value.fields[k])
  {
  }

  /** What Python takes for false. */
  lemma FalseValues(j: Json)
    ensures !Truthy(j) <==> j in {Null, Bool(false), Number(0.0), Str(""), Arr([]), Obj(map[])}
  {
  }

  /** A keyword is the reading of its own name, and any other name reads as itself. */
  lemma KeywordNames(name: string)
    ensures match Unquote(name)
      case Ref => name == "$ref"
      case Defs => name == "$defs"
      case Definitions => name == "definitions"
      case AllOf => name == "allOf"
      case AnyOf => name == "anyOf"
      case OneOf => name == "oneOf"
      case PatternProperties => name == "patternProperties"
      case PrefixItems => name == "prefixItems"
      case Type => name == "type"
      case Properties => name == "properties"
      case Required => name == "required"
      case Items => name == "items"
      case Description => name == "description"
      case Enum => name == "enum"
      case Default => name == "default"
      case Minimum => name == "minimum"
      case Maximum => name == "maximum"
      case MinLength => name == "minLength"
      case MaxLength => name == "maxLength"
      case Pattern => name == "pattern"
      case AdditionalProperties => name == "additionalProperties"
      case Title => name == "title"
      case Name(n) =>
        && n == name
        && name !in {
          "$ref", "$defs", "definitions", "allOf", "anyOf", "oneOf", "patternProperties", "prefixItems",
          "type", "properties", "required", "items", "description", "enum", "default", "minimum", "maximum",
          "minLength", "maxLength", "pattern", "additionalProperties", "title"
        }
  {
  }

  // ----- references -----

  /** A reference finds an entry of the merged tables by its name, under either prefix, and any other
      path finds nothing. */
  lemma TargetOf(name: string, path: string, defs: map<Key, Json>)
    ensures Target("#/$defs/" + name, defs) == if Unquote(name) in defs then Some(defs[Unquote(name)]) else None
    ensures Target("#/definitions/" + name, defs) == if Unquote(name) in defs then Some(defs[Unquote(name)]) else None
    ensures !("#/$defs/" <= path) && !("#/definitions/" <= path) ==> Target(path, defs).None?
  {
    var first, second := "#/$defs/" + name, "#/definitions/" + name;
    assert first[8..] == name && second[14..] == name && second[2] != "#/$defs/"[2];
  }

  /** A definitions table that is missing or empty defines nothing; one that is no object fails the
      compilation, unless it is an empty list or text. */
  lemma DefinitionsOf(fields: map<Key, Json>, table: map<Key, Json>, key: Key)
    ensures key in fields && fields[key] == Obj(table) ==> PopDefs(fields, key) == Some(table)
    ensures key !in fields || fields[key] in {Arr([]), Str("")} ==> PopDefs(fields, key) == Some(map[])
    ensures key in fields && !fields[key].Obj? && fields[key] !in {Arr([]), Str("")} ==> PopDefs(fields, key).None?
  {
  }

  /** A schema without a reference keeps its keywords, but for the definitions tables; references
      are looked for under properties, items and unions and nowhere else. */
  lemma ResolveNode(fields: map<Key, Json>, defs: map<Key, Json>, hops: nat, k: Key)
    requires Ref !in fields && Resolve(Obj(fields), defs, hops).Some?
    ensures var result := Resolve(Obj(fields), defs, hops).value;
      && result.Obj? && (k in result.fields <==> k in fields && k != Defs && k != Definitions)
      && (k in result.fields ==>
        var v, w := fields[k], result.fields[k];
        if k == Properties && v.Obj? then
          w.Obj? && w.fields.Keys == v.fields.Keys
          && forall p :: p in v.fields ==> Resolve(v.fields[p], defs, hops) == Some(w.fields[p])
        else if k == Items && v.Obj? then Resolve(v, defs, hops) == Some(w)
        else if (k == AllOf || k == AnyOf || k == OneOf) && v.Arr? then
          w.Arr? && |w.elements| == |v.elements|
          && forall i :: 0 <= i < |v.elements| ==> Resolve(v.elements[i], defs, hops) == Some(w.elements[i])
        else w == v)
  {
    var parts := ResolveMembers(Obj(fields), defs, hops);
    CollectedKeys(parts);
    if k in parts {
      var v := fields[k];
      assert parts[k] == ResolveField(k, v, defs, hops);
      if k == Properties && v.Obj? {
        CollectedKeys(map p | p in v.fields :: Resolve(v.fields[p], defs, hops));
      } else if IsUnion(k) && v.Arr? {
        forall i: nat | i < |v.elements|
          ensures var w := ResolveField(k, v, defs, hops).value;
            w.Arr? && |w.elements| == |v.elements| && Resolve(v.elements[i], defs, hops) == Some(w.elements[i])
        {
          ResolvedElement(k, v, defs, hops, i);
        }
        if v.elements == [] {
          assert ResolveField(k, v, defs, hops).value.elements == [];
        }
      }
    }
  }

  /** A reference becomes what it names, with its own references resolved, or any object: past the
      hop limit, or when it names nothing in the tables. */
  lemma ResolveReference(fields: map<Key, Json>, path: string, defs: map<Key, Json>, hops: nat)
    requires Ref in fields && fields[Ref] == Str(path)
    ensures Resolve(Obj(fields), defs, hops) ==
      if hops > 0 && Target(path, defs).Some? then Resolve(Target(path, defs).value, defs, hops - 1)
      else Some(Obj(map[Type := Str("object")]))
  {
  }

  // ----- unions -----

  /** A union with one variant that is not null becomes that variant, simplified: exactly its
      keywords, and the description of the union if it has a true one and the variant has none. */
  lemma UnwrappedUnion(fields: map<Key, Json>, key: Key, i: nat)
    requires key == (if AnyOf in fields then AnyOf else OneOf) && key in fields && fields[key].Arr?
    requires i < |fields[key].elements| && forall v :: v in fields[key].elements ==> v.Obj?
    requires forall k :: 0 <= k < |fields[key].elements| ==>
      var variant := fields[key].elements[k].fields;
      (k != i <==> Type in variant && variant[Type] == Str("null"))
    ensures var merged := Simplify(fields[key].elements[i]);
      match Simplify(Obj(fields))
      case None => merged.None?
      case Some(result) =>
        && merged.Some? && merged.value.Obj? && result.Obj?
        && result.fields ==
          if Description in fields && Truthy(fields[Description]) && Description !in merged.value.fields
          then merged.value.fields[Description := fields[Description]] else merged.value.fields
  {
    OneIsKept(fields[key].elements, i);
  }

  /** A union of nothing but null becomes any object, and one of several types any object under the
      union's description. */
  lemma CollapsedUnion(fields: map<Key, Json>, key: Key, kept: seq<Json>)
    requires key == (if AnyOf in fields then AnyOf else OneOf) && key in fields && fields[key].Arr?
    requires forall v :: v in fields[key].elements ==> v.Obj?
    requires kept == NonNull(fields[key].elements) && |kept| != 1
    ensures Simplify(Obj(fields)) == Some(
      if kept == [] || Description !in fields then Obj(map[Type := Str("object")])
      else Obj(map[Type := Str("object"), Description := fields[Description]]))
  {
  }

  /** A union is a list of objects, or an empty text or object, which counts as an empty list; any other
      value fails the compilation. */
  lemma VariantsAre(value: Json)
    ensures value.Arr? && (forall v :: v in value.elements ==> v.Obj?) ==> Variants(value) == Some(value.elements)
    ensures value.Arr? && (exists v :: v in value.elements && !v.Obj?) ==> Variants(value).None?
    ensures value in {Str(""), Obj(map[])} ==> Variants(value) == Some([])
    ensures !value.Arr? && value !in {Str(""), Obj(map[])} ==> Variants(value).None?
  {
    if value.Arr? {
      assert forall i :: 0 <= i < |value.elements| ==> value.elements[i] in value.elements;
    }
  }

  /** Which variants are not null. */
  lemma {:induction false} NonNullInOrder(variants: seq<Json>, more: Json)
    requires (forall k :: 0 <= k < |variants| ==> variants[k].Obj?) && more.Obj?
    ensures NonNull(variants + [more]) == NonNull(variants) +
      if Type in more.fields && more.fields[Type] == Str("null") then [] else [more]
    ensures NonNull([]) == []
  {
    var whole := variants + [more];
    if variants == [] {
      assert whole == [more] && [more][1..] == [];
    } else {
      assert whole[0] == variants[0] && whole[1..] == variants[1..] + [more];
      NonNullInOrder(variants[1..], more);
    }
  }

  /** A schema without a union keeps its keywords; unions are looked for under properties and items. */
  lemma SimplifyNode(fields: map<Key, Json>, k: Key)
    requires AnyOf !in fields && OneOf !in fields && Simplify(Obj(fields)).Some?
    ensures var result := Simplify(Obj(fields)).value.fields;
      && (k in result <==> k in fields)
      && (k in result ==>
        var v, w := fields[k], result[k];
        if k == Properties && v.Obj? then
          w.Obj? && w.fields.Keys == v.fields.Keys
          && forall p :: p in v.fields ==> Simplify(v.fields[p]) == Some(w.fields[p])
        else if k == Items && v.Obj? then Simplify(v) == Some(w)
        else w == v)
  {
    var parts := map k | k in fields :: SimplifyField(k, fields[k]);
    CollectedKeys(parts);
    if k in fields {
      assert parts[k] == SimplifyField(k, fields[k]);
      if k == Properties && fields[k].Obj? {
        CollectedKeys(map p | p in fields[k].fields :: Simplify(fields[k].fields[p]));
      }
    }
  }

  // ----- depth and keywords -----

  /** At the fourth level a schema becomes any object under its description; above, it keeps its
      keywords, and properties and items are one level deeper. */
  lemma CapNode(fields: map<Key, Json>, depth: nat, k: Key)
    ensures Cap(Obj(fields), depth).Obj?
    ensures depth >= 4 && Description in fields ==>
      Cap(Obj(fields), depth) == Obj(map[Type := Str("object"), Description := fields[Description]])
    ensures depth >= 4 && Description !in fields ==> Cap(Obj(fields), depth) == Obj(map[Type := Str("object")])
    ensures depth < 4 ==>
      var result := Cap(Obj(fields), depth).fields;
      && (k in result <==> k in fields)
      && (k in result ==>
        var v, w := fields[k], result[k];
        if k == Properties && v.Obj? then
          w.Obj? && w.fields.Keys == v.fields.Keys
          && forall p :: p in v.fields ==> w.fields[p] == Cap(v.fields[p], depth + 1)
        else if k == Items && v.Obj? then w == Cap(v, depth + 1)
        else w == v)
  {
    if depth < 4 && k in fields {
      assert Cap(Obj(fields), depth).fields[k] == CapField(k, fields[k], depth);
    }
  }

  /** The surviving keywords stay, and properties and items are stripped in turn. */
  lemma StripNode(fields: map<Key, Json>, k: Key)
    ensures Strip(Obj(fields)).Obj?
    ensures var result := Strip(Obj(fields)).fields;
      && (k in result <==> k in fields && Allowed(k))
      && (k in result ==>
        var v, w := fields[k], result[k];
        if k == Properties && v.Obj? then
          w.Obj? && w.fields.Keys == v.fields.Keys && forall p :: p in v.fields ==> w.fields[p] == Strip(v.fields[p])
        else if k == Items && v.Obj? then w == Strip(v)
        else w == v)
  {
    if k in fields && Allowed(k) {
      assert Strip(Obj(fields)).fields[k] == StripField(k, fields[k]);
    }
  }

  // ----- the whole compiler -----

  /** What a tool without a schema gets, and a tool whose schema does not end up saying "object". */
  lemma CompiledOf(fields: map<Key, Json>, defs: map<Key, Json>, simple: Json, depth: nat)
    requires depth == 4 && fields != map[]
    requires PopDefs(fields, Defs).Some? && PopDefs(fields, Definitions).Some?
    requires defs == PopDefs(fields, Defs).value + PopDefs(fields, Definitions).value
    requires var resolved := Resolve(Obj(fields - {Defs, Definitions}), defs, depth);
      resolved.Some? && Simplify(resolved.value) == Some(simple) && simple.Obj?
    ensures var schema := Strip(Cap(simple, 0));
      && schema.Obj?
      && Normalize(Some(fields)) == Some(
        if Type in schema.fields && schema.fields[Type] == Str("object") then schema
        else Obj(map[Type := Str("object"), Properties := Obj(map[])]))
    ensures Normalize(None) == Normalize(Some(map[]))
      == Some(Obj(map[Type := Str("object"), Properties := Obj(map[])]))
  {
  }
}
