/**
 * The tool-schema compiler (src/core/tool_schema.py:22-23, 77-242): four passes over an MCP
 * tool's JSON Schema. `None` stands for the exception the source raises on a schema whose parts
 * have the wrong JSON type.
 */
module ToolSchema {
  import opened Basics

  const MAX_NESTING_DEPTH: nat := 4

  /** A JSON key: the keywords the passes look at, the other keywords Converse accepts, two that
      such a keyword depends on, and every other string. */
  datatype Key =
    | Ref | Defs | Definitions | AllOf | AnyOf | OneOf
    | PatternProperties | PrefixItems
    | Type | Properties | Required | Items | Description | Enum | Default | Minimum | Maximum
    | MinLength | MaxLength | Pattern | AdditionalProperties | Title
    | Name(name: string)

  datatype Json =
    | Null
    | Bool(b: bool)
    | Number(n: real)
    | Str(s: string)
    | Arr(elements: seq<Json>)
    | Obj(fields: map<Key, Json>)

  const GENERIC := Obj(map[Type := Str("object")])

  /** The fallback schema: any JSON object. */
  const PERMISSIVE := Obj(map[Type := Str("object"), Properties := Obj(map[])])

  predicate Allowed(key: Key)
  {
    !(|| key.Ref? || key.Defs? || key.Definitions? || key.AllOf? || key.AnyOf? || key.OneOf?
      || key.PatternProperties? || key.PrefixItems? || key.Name?)
  }

  predicate IsUnion(key: Key) { key.AllOf? || key.AnyOf? || key.OneOf? }

  /** Python truth of a JSON value. */
  predicate Truthy(j: Json)
  {
    match j
    case Null => false
    case Bool(b) => b
    case Number(n) => n != 0.0
    case Str(s) => s != ""
    case Arr(xs) => xs != []
    case Obj(m) => m != map[]
  }

  function Collect(parts: map<Key, Option<Json>>): Option<map<Key, Json>>
  {
    if forall k :: k in parts ==> parts[k].Some? then Some(map k | k in parts :: parts[k].value) else None
  }

  function CollectObj(parts: map<Key, Option<Json>>): Option<Json>
  {
    match Collect(parts) case Some(m) => Some(Obj(m)) case None => None
  }

  function CollectArr(parts: seq<Option<Json>>): Option<Json>
  {
    if forall i :: 0 <= i < |parts| ==> parts[i].Some?
    then Some(Arr(seq(|parts|, i requires 0 <= i < |parts| && parts[i].Some? => parts[i].value)))
    else None
  }

  // ----- references: section 8.2 of JSON Schema 2020-12 Core -----

  function Unquote(name: string): Key
  {
    if name == "$ref" then Ref else if name == "$defs" then Defs else if name == "definitions" then Definitions
    else if name == "allOf" then AllOf else if name == "anyOf" then AnyOf else if name == "oneOf" then OneOf
    else if name == "type" then Type else if name == "properties" then Properties
    else if name == "required" then Required else if name == "items" then Items
    else if name == "description" then Description else if name == "enum" then Enum
    else if name == "default" then Default else if name == "minimum" then Minimum
    else if name == "maximum" then Maximum else if name == "minLength" then MinLength
    else if name == "maxLength" then MaxLength else if name == "pattern" then Pattern
    else if name == "additionalProperties" then AdditionalProperties else if name == "title" then Title
    else if name == "patternProperties" then PatternProperties else if name == "prefixItems" then PrefixItems
    else Name(name)
  }

  /** The definition a local reference names, `#/$defs/Name` or `#/definitions/Name`. */
  function Target(path: string, defs: map<Key, Json>): Option<Json>
  {
    if "#/$defs/" <= path && Unquote(path[8..]) in defs then Some(defs[Unquote(path[8..])])
    else if "#/definitions/" <= path && Unquote(path[14..]) in defs then Some(defs[Unquote(path[14..])])
    else None
  }

  /** `_resolve_refs`, with `hops` counting down from MAX_NESTING_DEPTH. */
  function Resolve(schema: Json, defs: map<Key, Json>, hops: nat): Option<Json>
    decreases hops, schema, 1
  {
    if !schema.Obj? then Some(schema)
    else if Ref in schema.fields then
      if hops == 0 then Some(GENERIC)
      else if !schema.fields[Ref].Str? then None
      else match Target(schema.fields[Ref].s, defs)
        case Some(definition) => Resolve(definition, defs, hops - 1)
        case None => Some(GENERIC)
    else CollectObj(ResolveMembers(schema, defs, hops))
  }

  /** The members of a schema without `$ref`; its definitions table is dropped. */
  function ResolveMembers(schema: Json, defs: map<Key, Json>, hops: nat): map<Key, Option<Json>>
    requires schema.Obj?
    decreases hops, schema, 0
  {
    map k | k in schema.fields && k != Defs && k != Definitions :: ResolveField(k, schema.fields[k], defs, hops)
  }

  function ResolveField(key: Key, value: Json, defs: map<Key, Json>, hops: nat): Option<Json>
    decreases hops, value, 2
  {
    if key == Properties && value.Obj? then
      CollectObj(map k | k in value.fields :: Resolve(value.fields[k], defs, hops))
    else if key == Items && value.Obj? then
      Resolve(value, defs, hops)
    else if IsUnion(key) && value.Arr? then
      CollectArr(seq(|value.elements|, i requires 0 <= i < |value.elements| => Resolve(value.elements[i], defs, hops)))
    else Some(value)
  }

  // ----- unions -----

  /** The variants of a union in iteration order; an empty string or object has none, and
      iterating anything else that is not a list of objects raises. */
  function Variants(value: Json): Option<seq<Json>>
  {
    if value.Arr? then
      (if forall i :: 0 <= i < |value.elements| ==> value.elements[i].Obj? then Some(value.elements) else None)
    else if value == Str("") || value == Obj(map[]) then Some([])
    else None
  }

  function NonNull(variants: seq<Json>): (kept: seq<Json>)
    requires forall i :: 0 <= i < |variants| ==> variants[i].Obj?
    ensures forall v :: v in kept ==> v in variants && v.Obj?
  {
    if variants == [] then []
    else
      (if Type in variants[0].fields && variants[0].fields[Type] == Str("null") then [] else [variants[0]])
      + NonNull(variants[1..])
  }

  function UnionKey(fields: map<Key, Json>): Option<Key>
  {
    if AnyOf in fields then Some(AnyOf) else if OneOf in fields then Some(OneOf) else None
  }

  function Describe(schema: Json, description: Option<Json>): Json
    requires schema.Obj?
  {
    if description.Some? then Obj(schema.fields[Description := description.value]) else schema
  }

  function DescriptionOf(fields: map<Key, Json>): Option<Json>
  {
    if Description in fields then Some(fields[Description]) else None
  }

  function Simplify(schema: Json): (result: Option<Json>)
    ensures schema.Obj? && result.Some? ==> result.value.Obj?
    decreases schema, 0
  {
    if !schema.Obj? then Some(schema)
    else match UnionKey(schema.fields)
      case Some(key) => (
        match Variants(schema.fields[key])
        case None => None
        case Some(variants) =>
          var kept := NonNull(variants);
          if |kept| == 1 then
            assert kept[0] in kept && kept[0] in schema.fields[key].elements;
            match Simplify(kept[0])
            case None => None
            case Some(merged) =>
              var desc := DescriptionOf(schema.fields);
              Some(if desc.Some? && Truthy(desc.value) && Description !in merged.fields then Describe(merged, desc)
                  else merged)
          else if |kept| == 0 then Some(GENERIC)
          else Some(Describe(GENERIC, DescriptionOf(schema.fields)))
      )
      case None =>
        CollectObj(map k | k in schema.fields :: SimplifyField(k, schema.fields[k]))
  }

  function SimplifyField(key: Key, value: Json): Option<Json>
    decreases value, 1
  {
    if key == Properties && value.Obj? then CollectObj(map k | k in value.fields :: Simplify(value.fields[k]))
    else if key == Items && value.Obj? then Simplify(value)
    else Some(value)
  }

  // ----- depth -----

  function Cap(schema: Json, depth: nat): Json
    decreases schema, 0
  {
    if !schema.Obj? then schema
    else if depth >= MAX_NESTING_DEPTH then Describe(GENERIC, DescriptionOf(schema.fields))
    else Obj(map k | k in schema.fields :: CapField(k, schema.fields[k], depth))
  }

  function CapField(key: Key, value: Json, depth: nat): Json
    decreases value, 1
  {
    if key == Properties && value.Obj? then Obj(map k | k in value.fields :: Cap(value.fields[k], depth + 1))
    else if key == Items && value.Obj? then Cap(value, depth + 1)
    else value
  }

  // ----- keywords -----

  function Strip(schema: Json): Json
    decreases schema, 0
  {
    if !schema.Obj? then schema
    else Obj(map k | k in schema.fields && Allowed(k) :: StripField(k, schema.fields[k]))
  }

  function StripField(key: Key, value: Json): Json
    decreases value, 1
  {
    if key == Properties && value.Obj? then Obj(map k | k in value.fields :: Strip(value.fields[k]))
    else if key == Items && value.Obj? then Strip(value)
    else value
  }

  // ----- the pipeline -----

  /** `defs.update(schema.pop(key, {}))`. */
  function PopDefs(fields: map<Key, Json>, key: Key): Option<map<Key, Json>>
  {
    if key !in fields then Some(map[])
    else match fields[key]
      case Obj(m) => Some(m)
      case Arr(xs) => if xs == [] then Some(map[]) else None
      case Str(s) => if s == "" then Some(map[]) else None
      case _ => None
  }

  /** `normalize_input_schema`; the input is a JSON object or absent. */
  function Normalize(inputSchema: Option<map<Key, Json>>): Option<Json>
  {
    if inputSchema.None? || inputSchema.value == map[] then Some(PERMISSIVE)
    else
      var fields := inputSchema.value;
      match (PopDefs(fields, Defs), PopDefs(fields, Definitions))
      case (Some(d1), Some(d2)) => (
        match Resolve(Obj(fields - {Defs, Definitions}), d1 + d2, MAX_NESTING_DEPTH)
        case None => None
        case Some(resolved) =>
          match Simplify(resolved)
          case None => None
          case Some(simple) =>
            var schema := Strip(Cap(simple, 0));
            if !schema.Obj? then None
            else if Type in schema.fields && schema.fields[Type] == Str("object") then Some(schema)
            else Some(PERMISSIVE)
      )
      case _ => None
  }

  // ----- what Converse accepts -----

  /** On every properties/items path below `schema`: only accepted keywords, so no reference
      and no union, and nesting that stops at MAX_NESTING_DEPTH in a bare object. */
  predicate Clean(schema: Json, depth: nat)
    decreases schema, 0
  {
    schema.Obj? ==>
      && (forall k :: k in schema.fields ==> Allowed(k) && CleanField(k, schema.fields[k], depth))
      && (depth >= MAX_NESTING_DEPTH ==>
            && schema.fields.Keys <= {Type, Description}
            && Type in schema.fields && schema.fields[Type] == Str("object"))
  }

  predicate CleanField(key: Key, value: Json, depth: nat)
    decreases value, 1
  {
    && (key == Properties && value.Obj? ==> forall k :: k in value.fields ==> Clean(value.fields[k], depth + 1))
    && (key == Items && value.Obj? ==> Clean(value, depth + 1))
  }

  predicate Ready(schema: Json)
  {
    schema.Obj? && Type in schema.fields && schema.fields[Type] == Str("object") && Clean(schema, 0)
  }

  /** How deep properties and items nest. */
  ghost predicate NestsAtMost(schema: Json, bound: nat)
    decreases schema, 0
  {
    schema.Obj? ==> forall k :: k in schema.fields ==> FieldNestsAtMost(k, schema.fields[k], bound)
  }

  ghost predicate FieldNestsAtMost(key: Key, value: Json, bound: nat)
    decreases value, 1
  {
    && (key == Properties && value.Obj? ==>
          forall k :: k in value.fields && value.fields[k].Obj? ==>
            bound > 0 && NestsAtMost(value.fields[k], bound - 1))
    && (key == Items && value.Obj? ==> bound > 0 && NestsAtMost(value, bound - 1))
  }

  lemma {:induction false} CleanNests(schema: Json, depth: nat)
    requires depth <= MAX_NESTING_DEPTH && Clean(schema, depth)
    ensures NestsAtMost(schema, MAX_NESTING_DEPTH - depth)
    decreases schema
  {
    if !schema.Obj? {
    } else {
      forall k | k in schema.fields
        ensures FieldNestsAtMost(k, schema.fields[k], MAX_NESTING_DEPTH - depth)
      {
        var value := schema.fields[k];
        if depth < MAX_NESTING_DEPTH && value.Obj? {
          if k == Items {
            CleanNests(value, depth + 1);
          }
          if k == Properties {
            forall p | p in value.fields
              ensures NestsAtMost(value.fields[p], MAX_NESTING_DEPTH - depth - 1)
            {
              CleanNests(value.fields[p], depth + 1);
            }
          }
        }
      }
    }
  }

  // ----- the passes leave an accepted schema alone -----

  lemma {:induction false} ResolveKeeps(schema: Json, depth: nat, defs: map<Key, Json>, hops: nat)
    requires Clean(schema, depth)
    ensures Resolve(schema, defs, hops) == Some(schema)
    decreases schema
  {
    if !schema.Obj? {
    } else {
      var fields := schema.fields;
      forall k | k in fields
        ensures ResolveField(k, fields[k], defs, hops) == Some(fields[k])
      {
        var value := fields[k];
        assert Allowed(k) && CleanField(k, value, depth);
        if k == Items && value.Obj? {
          ResolveKeeps(value, depth + 1, defs, hops);
        }
        if k == Properties && value.Obj? {
          forall p | p in value.fields
            ensures Resolve(value.fields[p], defs, hops) == Some(value.fields[p])
          {
            ResolveKeeps(value.fields[p], depth + 1, defs, hops);
          }
          CollectKeeps(value.fields, map p | p in value.fields :: Resolve(value.fields[p], defs, hops));
        }
      }
      CollectKeeps(fields, ResolveMembers(schema, defs, hops));
    }
  }

  lemma CollectKeeps(fields: map<Key, Json>, parts: map<Key, Option<Json>>)
    requires parts.Keys == fields.Keys
    requires forall k :: k in fields ==> parts[k] == Some(fields[k])
    ensures CollectObj(parts) == Some(Obj(fields))
  {
    assert (map k | k in parts :: parts[k].value) == fields;
  }

  lemma {:induction false} SimplifyKeeps(schema: Json, depth: nat)
    requires Clean(schema, depth)
    ensures Simplify(schema) == Some(schema)
    decreases schema
  {
    if !schema.Obj? {
    } else {
      var fields := schema.fields;
      forall k | k in fields
        ensures SimplifyField(k, fields[k]) == Some(fields[k])
      {
        var value := fields[k];
        assert Allowed(k) && CleanField(k, value, depth);
        if k == Items && value.Obj? {
          SimplifyKeeps(value, depth + 1);
        }
        if k == Properties && value.Obj? {
          forall p | p in value.fields
            ensures Simplify(value.fields[p]) == Some(value.fields[p])
          {
            SimplifyKeeps(value.fields[p], depth + 1);
          }
          CollectKeeps(value.fields, map p | p in value.fields :: Simplify(value.fields[p]));
        }
      }
      CollectKeeps(fields, map k | k in fields :: SimplifyField(k, fields[k]));
    }
  }

  lemma {:induction false} CapKeeps(schema: Json, depth: nat)
    requires Clean(schema, depth)
    ensures Cap(schema, depth) == schema
    decreases schema
  {
    if !schema.Obj? {
    } else {
      var fields := schema.fields;
      if depth >= MAX_NESTING_DEPTH {
        assert fields == Describe(GENERIC, DescriptionOf(fields)).fields;
      } else {
        forall k | k in fields
          ensures CapField(k, fields[k], depth) == fields[k]
        {
          var value := fields[k];
          assert CleanField(k, value, depth);
          if k == Items && value.Obj? {
            CapKeeps(value, depth + 1);
          }
          if k == Properties && value.Obj? {
            forall p | p in value.fields
              ensures Cap(value.fields[p], depth + 1) == value.fields[p]
            {
              CapKeeps(value.fields[p], depth + 1);
            }
            assert (map p | p in value.fields :: Cap(value.fields[p], depth + 1)) == value.fields;
          }
        }
        assert (map k | k in fields :: CapField(k, fields[k], depth)) == fields;
      }
    }
  }

  lemma {:induction false} StripKeeps(schema: Json, depth: nat)
    requires Clean(schema, depth)
    ensures Strip(schema) == schema
    decreases schema
  {
    if !schema.Obj? {
    } else {
      var fields := schema.fields;
      forall k | k in fields
        ensures Allowed(k) && StripField(k, fields[k]) == fields[k]
      {
        var value := fields[k];
        assert CleanField(k, value, depth);
        if k == Items && value.Obj? {
          StripKeeps(value, depth + 1);
        }
        if k == Properties && value.Obj? {
          forall p | p in value.fields
            ensures Strip(value.fields[p]) == value.fields[p]
          {
            StripKeeps(value.fields[p], depth + 1);
          }
          assert (map p | p in value.fields :: Strip(value.fields[p])) == value.fields;
        }
      }
      assert (map k | k in fields && Allowed(k) :: StripField(k, fields[k])) == fields;
    }
  }

  // ----- the output is always accepted -----

  lemma {:induction false} OutputIsClean(schema: Json, depth: nat)
    ensures Clean(Strip(Cap(schema, depth)), depth)
    decreases schema, 0
  {
    if schema.Obj? && depth < MAX_NESTING_DEPTH {
      var out := Strip(Cap(schema, depth)).fields;
      forall k | k in out
        ensures Allowed(k) && CleanField(k, out[k], depth)
      {
        assert out[k] == StripField(k, CapField(k, schema.fields[k], depth));
        FieldIsClean(k, schema.fields[k], depth);
      }
    }
  }

  lemma {:induction false} FieldIsClean(key: Key, value: Json, depth: nat)
    ensures CleanField(key, StripField(key, CapField(key, value, depth)), depth)
    decreases value, 1
  {
    if key == Items && value.Obj? {
      OutputIsClean(value, depth + 1);
    }
    if key == Properties && value.Obj? {
      forall p | p in value.fields
        ensures Clean(Strip(Cap(value.fields[p], depth + 1)), depth + 1)
      {
        OutputIsClean(value.fields[p], depth + 1);
      }
    }
  }

  lemma PermissiveIsReady()
    ensures Ready(PERMISSIVE)
  {
  }

  lemma CleanObjectIsReady(simple: Json, result: Json)
    requires result == Strip(Cap(simple, 0)) && IsObject(result)
    ensures Ready(result)
  {
    OutputIsClean(simple, 0);
  }

  predicate IsObject(schema: Json)
  {
    schema.Obj? && Type in schema.fields && schema.fields[Type] == Str("object")
  }

  /** A result is the fallback, or a capped and stripped schema that says "object" at its root. */
  lemma ResultOf(inputSchema: Option<map<Key, Json>>) returns (simple: Json)
    requires Normalize(inputSchema).Some? && Normalize(inputSchema).value != PERMISSIVE
    ensures Normalize(inputSchema).value == Strip(Cap(simple, 0)) && IsObject(Normalize(inputSchema).value)
  {
    var fields := inputSchema.value;
    var d1, d2 := PopDefs(fields, Defs).value, PopDefs(fields, Definitions).value;
    simple := Simplify(Resolve(Obj(fields - {Defs, Definitions}), d1 + d2, MAX_NESTING_DEPTH).value).value;
  }

  lemma ResultIsReady(inputSchema: Option<map<Key, Json>>)
    requires Normalize(inputSchema).Some? && Normalize(inputSchema).value != PERMISSIVE
    ensures Ready(Normalize(inputSchema).value)
  {
    var simple := ResultOf(inputSchema);
    CleanObjectIsReady(simple, Normalize(inputSchema).value);
  }

  /** Whatever schema a server sends, a result is an object schema that Converse accepts. */
  lemma NormalizeIsReady(inputSchema: Option<map<Key, Json>>)
    requires Normalize(inputSchema).Some?
    ensures Ready(Normalize(inputSchema).value)
    ensures NestsAtMost(Normalize(inputSchema).value, MAX_NESTING_DEPTH)
  {
    if Normalize(inputSchema).value == PERMISSIVE {
      PermissiveIsReady();
    } else {
      ResultIsReady(inputSchema);
    }
    CleanNests(Normalize(inputSchema).value, 0);
  }

  /** The compiler's fixed points are exactly the schemas Converse accepts; with
      NormalizeIsReady, compiling twice is compiling once. */
  lemma FixedPoints(fields: map<Key, Json>)
    ensures Normalize(Some(fields)) == Some(Obj(fields)) <==> Ready(Obj(fields))
  {
    if Ready(Obj(fields)) {
      assert Type in fields;
      assert forall k :: k in fields ==> Allowed(k);
      assert fields - {Defs, Definitions} == fields;
      ResolveKeeps(Obj(fields), 0, map[] + map[], MAX_NESTING_DEPTH);
      SimplifyKeeps(Obj(fields), 0);
      CapKeeps(Obj(fields), 0);
      StripKeeps(Obj(fields), 0);
    } else if Normalize(Some(fields)).Some? {
      NormalizeIsReady(Some(fields));
    }
  }

  lemma NormalizeIsIdempotent(inputSchema: Option<map<Key, Json>>)
    requires Normalize(inputSchema).Some?
    ensures Normalize(Some(Normalize(inputSchema).value.fields)) == Normalize(inputSchema)
  {
    NormalizeIsReady(inputSchema);
    FixedPoints(Normalize(inputSchema).value.fields);
  }

  // ----- references are inlined, not just deleted -----

  /** No reference and no definitions table on any path through properties, items and unions. */
  ghost predicate Inlined(schema: Json)
    decreases schema, 0
  {
    schema.Obj? ==> forall k :: k in schema.fields ==>
      !k.Ref? && !k.Defs? && !k.Definitions? && FieldInlined(k, schema.fields[k])
  }

  ghost predicate FieldInlined(key: Key, value: Json)
    decreases value, 1
  {
    && (key == Properties && value.Obj? ==> forall k :: k in value.fields ==> Inlined(value.fields[k]))
    && (key == Items && value.Obj? ==> Inlined(value))
    && (IsUnion(key) && value.Arr? ==> forall i :: 0 <= i < |value.elements| ==> Inlined(value.elements[i]))
  }

  lemma {:induction false} ResolveInlines(schema: Json, defs: map<Key, Json>, hops: nat)
    requires Resolve(schema, defs, hops).Some?
    ensures Inlined(Resolve(schema, defs, hops).value)
    decreases hops, schema, 0
  {
    if !schema.Obj? {
    } else if Ref in schema.fields {
      if hops > 0 && Target(schema.fields[Ref].s, defs).Some? {
        ResolveInlines(Target(schema.fields[Ref].s, defs).value, defs, hops - 1);
      }
    } else {
      var parts := ResolveMembers(schema, defs, hops);
      forall k | k in parts
        ensures FieldInlined(k, parts[k].value)
      {
        FieldResolves(k, schema.fields[k], defs, hops);
      }
    }
  }

  lemma {:induction false} FieldResolves(key: Key, value: Json, defs: map<Key, Json>, hops: nat)
    requires ResolveField(key, value, defs, hops).Some?
    ensures FieldInlined(key, ResolveField(key, value, defs, hops).value)
    decreases hops, value, 1
  {
    if key == Properties && value.Obj? {
      var parts := map k | k in value.fields :: Resolve(value.fields[k], defs, hops);
      forall k | k in parts
        ensures Inlined(parts[k].value)
      {
        ResolveInlines(value.fields[k], defs, hops);
      }
    } else if key == Items && value.Obj? {
      ResolveInlines(value, defs, hops);
    } else if IsUnion(key) && value.Arr? {
      var parts :=
        seq(|value.elements|, i requires 0 <= i < |value.elements| => Resolve(value.elements[i], defs, hops));
      forall i | 0 <= i < |parts|
        ensures parts[i].Some? && Inlined(parts[i].value)
      {
        assert parts[i].Some? && parts[i] == Resolve(value.elements[i], defs, hops);
        ResolveInlines(value.elements[i], defs, hops);
      }
    }
  }

  /** No anyOf or oneOf, and no reference, on any path through properties and items. */
  ghost predicate Simple(schema: Json)
    decreases schema, 0
  {
    schema.Obj? ==> forall k :: k in schema.fields ==>
      !k.Ref? && !k.AnyOf? && !k.OneOf? && FieldSimple(k, schema.fields[k])
  }

  ghost predicate FieldSimple(key: Key, value: Json)
    decreases value, 1
  {
    && (key == Properties && value.Obj? ==> forall k :: k in value.fields ==> Simple(value.fields[k]))
    && (key == Items && value.Obj? ==> Simple(value))
  }

  /** Every union is unwrapped or collapsed before keywords are stripped. */
  lemma {:induction false} SimplifyLeavesNoUnion(schema: Json)
    requires Inlined(schema) && Simplify(schema).Some?
    ensures Simple(Simplify(schema).value)
    decreases schema, 0
  {
    if !schema.Obj? {
    } else {
      match UnionKey(schema.fields)
      case Some(key) =>
        var kept := NonNull(Variants(schema.fields[key]).value);
        if |kept| == 1 {
          assert kept[0] in kept && kept[0] in schema.fields[key].elements;
          assert FieldInlined(key, schema.fields[key]);
          SimplifyLeavesNoUnion(kept[0]);
        }
      case None =>
        var parts := map k | k in schema.fields :: SimplifyField(k, schema.fields[k]);
        forall k | k in schema.fields
          ensures FieldSimple(k, parts[k].value)
        {
          assert parts[k].Some? && FieldInlined(k, schema.fields[k]);
          FieldSimplifies(k, schema.fields[k]);
        }
    }
  }

  lemma {:induction false} FieldSimplifies(key: Key, value: Json)
    requires FieldInlined(key, value) && SimplifyField(key, value).Some?
    ensures FieldSimple(key, SimplifyField(key, value).value)
    decreases value, 1
  {
    if key == Items && value.Obj? {
      SimplifyLeavesNoUnion(value);
    }
    if key == Properties && value.Obj? {
      var parts := map p | p in value.fields :: Simplify(value.fields[p]);
      forall p | p in value.fields
        ensures Simple(parts[p].value)
      {
        assert parts[p].Some?;
        SimplifyLeavesNoUnion(value.fields[p]);
      }
    }
  }

  // ----- the cap on reference hops costs nothing on shallow schemas -----

  /** Every chain of references that starts in `schema` ends within `hops` hops. */
  ghost predicate Fits(schema: Json, defs: map<Key, Json>, hops: nat)
    decreases hops, schema, 0
  {
    schema.Obj? ==>
      if Ref in schema.fields then
        && schema.fields[Ref].Str?
        && (Target(schema.fields[Ref].s, defs).Some? ==>
              hops > 0 && Fits(Target(schema.fields[Ref].s, defs).value, defs, hops - 1))
      else
        forall k :: k in schema.fields && k != Defs && k != Definitions ==> FieldFits(k, schema.fields[k], defs, hops)
  }

  ghost predicate FieldFits(key: Key, value: Json, defs: map<Key, Json>, hops: nat)
    decreases hops, value, 1
  {
    && (key == Properties && value.Obj? ==> forall k :: k in value.fields ==> Fits(value.fields[k], defs, hops))
    && (key == Items && value.Obj? ==> Fits(value, defs, hops))
    && (IsUnion(key) && value.Arr? ==> forall i :: 0 <= i < |value.elements| ==> Fits(value.elements[i], defs, hops))
  }

  /** With enough hops the result is the full inlining: more hops would not change it. */
  lemma {:induction false} CapIsHarmless(schema: Json, defs: map<Key, Json>, hops: nat, more: nat)
    requires Fits(schema, defs, hops)
    ensures Resolve(schema, defs, hops) == Resolve(schema, defs, hops + more)
    decreases hops, schema, 1
  {
    if !schema.Obj? {
    } else if Ref in schema.fields {
      var target := Target(schema.fields[Ref].s, defs);
      if target.Some? {
        CapIsHarmless(target.value, defs, hops - 1, more);
      }
    } else {
      MembersCapIsHarmless(schema, defs, hops, more);
    }
  }

  lemma {:induction false} MembersCapIsHarmless(schema: Json, defs: map<Key, Json>, hops: nat, more: nat)
    requires schema.Obj? && Ref !in schema.fields && Fits(schema, defs, hops)
    ensures ResolveMembers(schema, defs, hops) == ResolveMembers(schema, defs, hops + more)
    decreases hops, schema, 0
  {
    forall k | k in schema.fields && k != Defs && k != Definitions
      ensures ResolveField(k, schema.fields[k], defs, hops) == ResolveField(k, schema.fields[k], defs, hops + more)
    {
      FieldCapIsHarmless(k, schema.fields[k], defs, hops, more);
    }
  }

  lemma {:induction false} FieldCapIsHarmless(key: Key, value: Json, defs: map<Key, Json>, hops: nat, more: nat)
    requires FieldFits(key, value, defs, hops)
    ensures ResolveField(key, value, defs, hops) == ResolveField(key, value, defs, hops + more)
    decreases hops, value, 2
  {
    if key == Properties && value.Obj? {
      forall k | k in value.fields
        ensures Resolve(value.fields[k], defs, hops) == Resolve(value.fields[k], defs, hops + more)
      {
        CapIsHarmless(value.fields[k], defs, hops, more);
      }
      assert (map k | k in value.fields :: Resolve(value.fields[k], defs, hops))
          == (map k | k in value.fields :: Resolve(value.fields[k], defs, hops + more));
    } else if key == Items && value.Obj? {
      CapIsHarmless(value, defs, hops, more);
    } else if IsUnion(key) && value.Arr? {
      var n := |value.elements|;
      var few := seq(n, i requires 0 <= i < n => Resolve(value.elements[i], defs, hops));
      var many := seq(n, i requires 0 <= i < n => Resolve(value.elements[i], defs, hops + more));
      forall i | 0 <= i < n
        ensures few[i] == many[i]
      {
        CapIsHarmless(value.elements[i], defs, hops, more);
      }
      assert few == many;
    }
  }
}
