/**
 The rewrite keeps the meaning of schemas. Validity follows JSON Schema Validation draft-07 (sections
 6.4 to 6.7) for the source and JSON Schema Core 2020-12 (sections 10.2 and 10.3) for the result.
 Keywords without subschemas and the matching of patterns are given an arbitrary meaning, the same in
 both drafts. Keywords that only one draft has, and references, are not part of this model.
 */
module SchemaMeaning {
  import opened SchemaCompat
  import opened SchemaLaws

  datatype Draft = Draft07 | Draft2020

  /**
   What schemas leave to their readers: whether a keyword whose value holds no subschema is met
   (keyword, value, instance), and whether a pattern matches a name.
   */
  datatype Meaning = Meaning(leaf: (string, Json, Json) -> bool, matches: (string, string) -> bool)

  // ---------------------------------------------------------------- validity

  predicate HasSchemaValue(key: string) {
    key in {"additionalItems", "not", "contains", "additionalProperties", "propertyNames", "if", "then", "else"}
  }

  predicate HasSchemaList(key: string) {
    key in {"allOf", "anyOf", "oneOf"}
  }

  predicate HasSchemaMap(key: string) {
    key in {"properties", "patternProperties", "definitions", "$defs"}
  }

  /** Keywords that are not the same in both drafts, and references, which depend on where things stand. */
  predicate IsUnshared(key: string) {
    key in {"prefixItems", "$ref", "$dynamicRef", "$recursiveRef", "dependencies", "dependentRequired",
            "dependentSchemas", "unevaluatedItems", "unevaluatedProperties", "minContains", "maxContains"}
  }

  /** How many leading elements the tuple keyword of the draft covers. */
  function TupleLength(draft: Draft, fields: seq<Field>): nat {
    var tuple := Lookup(fields, if draft.Draft07? then "items" else "prefixItems");
    if IsArray(tuple) then |tuple.value.elements| else 0
  }

  predicate Valid(draft: Draft, meaning: Meaning, schema: Json, x: Json)
    decreases schema, 2
  {
    match schema
    case Bool(b) => b
    case Obj(fields) => forall i :: 0 <= i < |fields| ==> Satisfies(draft, meaning, schema, fields[i], x)
    case _ => false
  }

  /** Element i of a list of schemas holds of the instance. */
  predicate ValidAt(draft: Draft, meaning: Meaning, schemas: Json, i: nat, x: Json)
    requires schemas.Arr? && i < |schemas.elements|
    decreases schemas, 0
  {
    Valid(draft, meaning, schemas.elements[i], x)
  }

  /** The leading elements satisfy the schemas of a tuple, one each. */
  predicate StartsAs(draft: Draft, meaning: Meaning, schemas: Json, x: Json)
    requires schemas.Arr?
    decreases schemas, 1
  {
    x.Arr? ==>
      forall i :: 0 <= i < |x.elements| && i < |schemas.elements| ==> ValidAt(draft, meaning, schemas, i, x.elements[i])
  }

  /** The elements from the n-th on satisfy the schema. */
  predicate EndsAs(draft: Draft, meaning: Meaning, n: nat, schema: Json, x: Json)
    decreases schema, 3
  {
    x.Arr? ==> forall i :: n <= i < |x.elements| ==> Valid(draft, meaning, schema, x.elements[i])
  }

  /** All, some or exactly one of the schemas hold. */
  predicate Combines(draft: Draft, meaning: Meaning, key: string, schemas: Json, x: Json)
    requires schemas.Arr?
    decreases schemas, 1
  {
    var n := |schemas.elements|;
    if key == "allOf" then forall i :: 0 <= i < n ==> ValidAt(draft, meaning, schemas, i, x)
    else
      exists i :: 0 <= i < n && ValidAt(draft, meaning, schemas, i, x) &&
                  (key == "oneOf" ==> forall k :: 0 <= k < n && ValidAt(draft, meaning, schemas, k, x) ==> k == i)
  }

  /** Every property satisfies the schemas of the entries that speak about it. */
  predicate PropertiesFit(draft: Draft, meaning: Meaning, key: string, schemas: Json, x: Json)
    requires schemas.Obj?
    decreases schemas, 1
  {
    x.Obj? ==>
      forall i, j | 0 <= i < |schemas.fields| && 0 <= j < |x.fields| ::
        Selects(meaning, key, schemas.fields[i].key, x.fields[j].key) ==>
          Valid(draft, meaning, schemas.fields[i].value, x.fields[j].value)
  }

  predicate SomeFits(draft: Draft, meaning: Meaning, schema: Json, x: Json)
    decreases schema, 3
  {
    x.Arr? ==> exists i :: 0 <= i < |x.elements| && Valid(draft, meaning, schema, x.elements[i])
  }

  predicate NamesFit(draft: Draft, meaning: Meaning, schema: Json, x: Json)
    decreases schema, 3
  {
    x.Obj? ==> forall j :: 0 <= j < |x.fields| ==> Valid(draft, meaning, schema, Text(x.fields[j].key))
  }

  /** The schema of the sibling `if`, where there is one, holds or not. */
  predicate Decides(draft: Draft, meaning: Meaning, schema: Json, holds: bool, x: Json)
    requires schema.Obj?
    decreases schema, 0
  {
    var condition := Lookup(schema.fields, "if");
    condition.Some? && Valid(draft, meaning, condition.value, x) == holds
  }

  /** Every property that no sibling keyword speaks about satisfies the schema. */
  predicate OthersFit(draft: Draft, meaning: Meaning, siblings: seq<Field>, schema: Json, x: Json)
    decreases schema, 3
  {
    x.Obj? ==> forall j :: 0 <= j < |x.fields| && !Listed(meaning, siblings, x.fields[j].key) ==>
                 Valid(draft, meaning, schema, x.fields[j].value)
  }

  predicate Satisfies(draft: Draft, meaning: Meaning, schema: Json, field: Field, x: Json)
    requires schema.Obj? && field in schema.fields
    decreases schema, 1
  {
    var value := field.value;
    var covered := TupleLength(draft, schema.fields);
    match field.key
    case "items" =>
      if value.Arr? then draft.Draft07? && StartsAs(draft, meaning, value, x)
      else EndsAs(draft, meaning, if draft.Draft07? then 0 else covered, value, x)
    case "additionalItems" =>
      draft.Draft07? && IsArray(Lookup(schema.fields, "items")) ==> EndsAs(draft, meaning, covered, value, x)
    case "not" => !Valid(draft, meaning, value, x)
    case "contains" => SomeFits(draft, meaning, value, x)
    case "propertyNames" => NamesFit(draft, meaning, value, x)
    case "additionalProperties" => OthersFit(draft, meaning, schema.fields, value, x)
    case "if" => true
    case "definitions" => true
    case "$defs" => true
    case key =>
      if key == "prefixItems" && draft.Draft2020? then value.Arr? && StartsAs(draft, meaning, value, x)
      else if HasSchemaList(key) then value.Arr? && Combines(draft, meaning, key, value, x)
      else if key in {"properties", "patternProperties"} then value.Obj? && PropertiesFit(draft, meaning, key, value, x)
      else if key in {"then", "else"} then
        Decides(draft, meaning, schema, key == "then", x) ==> Valid(draft, meaning, value, x)
      else meaning.leaf(key, value, x)
  }

  /** An entry of `properties` or `patternProperties` speaks about a property. */
  predicate Selects(meaning: Meaning, key: string, entry: string, name: string) {
    if key == "properties" then entry == name else meaning.matches(entry, name)
  }

  predicate ListedUnder(meaning: Meaning, fields: seq<Field>, key: string, name: string) {
    var entries := Lookup(fields, key);
    entries.Some? && entries.value.Obj?
    && exists i :: 0 <= i < |entries.value.fields| && Selects(meaning, key, entries.value.fields[i].key, name)
  }

  /** A sibling keyword speaks about the property. */
  predicate Listed(meaning: Meaning, fields: seq<Field>, name: string) {
    ListedUnder(meaning, fields, "properties", name) || ListedUnder(meaning, fields, "patternProperties", name)
  }

  // ---------------------------------------------------------------- schemas

  /**
   A draft-07 schema: whatever holds schemas does, and no other value has an array under `items` in it,
   like data of `const`, which the rewrite would change.
   */
  predicate IsSchema(value: Json)
    decreases value, 1
  {
    match value
    case Bool(_) => true
    case Obj(fields) => DistinctKeys(fields) && forall i :: 0 <= i < |fields| ==> IsKeyword(value, fields[i])
    case _ => false
  }

  predicate AreSchemas(value: Json)
    decreases value, 1
  {
    value.Arr? && forall i :: 0 <= i < |value.elements| ==> IsSchema(value.elements[i])
  }

  predicate IsKeyword(schema: Json, field: Field)
    requires schema.Obj? && field in schema.fields
    decreases schema, 0
  {
    if field.key == "items" then IsSchema(field.value) || AreSchemas(field.value)
    else if HasSchemaValue(field.key) then IsSchema(field.value)
    else if HasSchemaList(field.key) then AreSchemas(field.value)
    else if HasSchemaMap(field.key) then
      field.value.Obj? && DistinctKeys(field.value.fields)
      && forall i :: 0 <= i < |field.value.fields| ==> IsSchema(field.value.fields[i].value)
    else !IsUnshared(field.key) && NoTuples(field.value) && WellKeyed(field.value)
  }

  // ---------------------------------------------------------------- meaning

  /** The rewritten value means in 2020-12 what the value means in draft-07. */
  ghost predicate Same(meaning: Meaning, value: Json) {
    forall x :: Valid(Draft07, meaning, value, x) <==> Valid(Draft2020, meaning, Normalize(value), x)
  }

  ghost predicate SameBelow(meaning: Meaning, value: Json) {
    && (IsSchema(value) ==> Same(meaning, value))
    && (AreSchemas(value) ==> forall i :: 0 <= i < |value.elements| ==> Same(meaning, value.elements[i]))
  }

  ghost predicate SameInMap(meaning: Meaning, value: Json) {
    value.Obj? ==>
      forall i :: 0 <= i < |value.fields| && IsSchema(value.fields[i].value) ==> Same(meaning, value.fields[i].value)
  }

  lemma {:induction false} ListKeeps(meaning: Meaning, list: Json, i: nat, x: Json)
    requires AreSchemas(list) && SameBelow(meaning, list) && i < |list.elements|
    ensures Normalize(list).Arr? && |Normalize(list).elements| == |list.elements|
    ensures ValidAt(Draft07, meaning, list, i, x) <==> ValidAt(Draft2020, meaning, Normalize(list), i, x)
  {
    assert Same(meaning, list.elements[i]);
  }

  lemma {:induction false} MapIsPointwise(schemas: Json)
    requires schemas.Obj? && DistinctKeys(schemas.fields)
    requires forall i :: 0 <= i < |schemas.fields| ==> IsSchema(schemas.fields[i].value)
    ensures Normalize(schemas).Obj? && |Normalize(schemas).fields| == |schemas.fields|
    ensures forall i :: 0 <= i < |schemas.fields| ==>
              Normalize(schemas).fields[i] == Field(schemas.fields[i].key, Normalize(schemas.fields[i].value))
  {
    assert !Tuple(schemas) by {
      if Lookup(schemas.fields, "items").Some? {
        var i := KeyAt(schemas.fields, "items");
        assert IsSchema(schemas.fields[i].value);
      }
    }
    Pointwise(schemas, |schemas.fields|);
  }

  lemma {:induction false} NoPrefixItems(source: Json)
    requires IsSchema(source) && source.Obj?
    ensures Lookup(source.fields, "prefixItems").None?
  {
    LookupNone(source.fields, "prefixItems");
    forall i | 0 <= i < |source.fields| ensures source.fields[i].key != "prefixItems" {
      assert IsKeyword(source, source.fields[i]);
    }
  }

  lemma {:induction false} MapLookup(source: Json, key: string)
    requires IsSchema(source) && source.Obj? && HasSchemaMap(key) && Lookup(source.fields, key).Some?
    ensures var schemas := Lookup(source.fields, key).value;
            && schemas.Obj? && DistinctKeys(schemas.fields)
            && forall i :: 0 <= i < |schemas.fields| ==> IsSchema(schemas.fields[i].value)
  {
    var i := KeyAt(source.fields, key);
    assert IsKeyword(source, source.fields[i]);
  }

  lemma {:induction false} SchemaLookup(source: Json, key: string)
    requires IsSchema(source) && source.Obj?
    ensures Lookup(source.fields, "prefixItems").None?
    ensures Lookup(Normalize(source).fields, key) == Rewritten(source, source.fields, key)
    ensures DistinctKeys(Normalize(source).fields)
  {
    NoPrefixItems(source);
    hide Normalize, Rewritten, Lookup;
    NormalLookup(source, key);
  }

  lemma {:induction false} ListedUnderKeeps(meaning: Meaning, source: Json, key: string, name: string)
    requires IsSchema(source) && source.Obj? && HasSchemaMap(key)
    ensures ListedUnder(meaning, source.fields, key, name)
       <==> ListedUnder(meaning, Normalize(source).fields, key, name)
  {
    SchemaLookup(source, key);
    var schemas := Lookup(source.fields, key);
    if schemas.Some? {
      MapLookup(source, key);
      MapIsPointwise(schemas.value);
      forall i | 0 <= i < |schemas.value.fields|
        ensures Normalize(schemas.value).fields[i].key == schemas.value.fields[i].key
      {
      }
    }
  }

  lemma {:induction false} ListedKeeps(meaning: Meaning, source: Json, name: string)
    requires IsSchema(source) && source.Obj?
    ensures Listed(meaning, source.fields, name) <==> Listed(meaning, Normalize(source).fields, name)
  {
    ListedUnderKeeps(meaning, source, "properties", name);
    ListedUnderKeeps(meaning, source, "patternProperties", name);
  }

  lemma {:induction false} TupleLengthKeeps(source: Json)
    requires IsSchema(source) && source.Obj?
    ensures TupleLength(Draft2020, Normalize(source).fields) == TupleLength(Draft07, source.fields)
  {
    SchemaLookup(source, "prefixItems");
  }

  // ---------------------------------------------------------------- parts of the meaning

  lemma {:induction false} StartsKeep(meaning: Meaning, schemas: Json, x: Json)
    requires AreSchemas(schemas) && SameBelow(meaning, schemas)
    ensures Normalize(schemas).Arr?
    ensures StartsAs(Draft07, meaning, schemas, x) <==> StartsAs(Draft2020, meaning, Normalize(schemas), x)
  {
    var out := Normalize(schemas);
    assert out.Arr? && |out.elements| == |schemas.elements|;
    forall i, y | 0 <= i < |schemas.elements|
      ensures ValidAt(Draft07, meaning, schemas, i, y) <==> ValidAt(Draft2020, meaning, out, i, y)
    {
      ListKeeps(meaning, schemas, i, y);
    }
    hide ValidAt, SameBelow;
  }

  lemma {:induction false} EndsKeep(meaning: Meaning, n: nat, schema: Json, x: Json)
    requires Same(meaning, schema)
    ensures EndsAs(Draft07, meaning, n, schema, x) <==> EndsAs(Draft2020, meaning, n, Normalize(schema), x)
  {
    hide Valid;
  }

  lemma {:induction false} CombinesKeep(meaning: Meaning, key: string, schemas: Json, x: Json)
    requires AreSchemas(schemas) && SameBelow(meaning, schemas)
    ensures Normalize(schemas).Arr?
    ensures Combines(Draft07, meaning, key, schemas, x) <==> Combines(Draft2020, meaning, key, Normalize(schemas), x)
  {
    var out := Normalize(schemas);
    assert out.Arr? && |out.elements| == |schemas.elements|;
    forall i | 0 <= i < |schemas.elements|
      ensures ValidAt(Draft07, meaning, schemas, i, x) <==> ValidAt(Draft2020, meaning, out, i, x)
    {
      ListKeeps(meaning, schemas, i, x);
    }
    CombinesSame(meaning, key, schemas, out, x);
  }

  lemma {:induction false} CombinesSame(meaning: Meaning, key: string, a: Json, b: Json, x: Json)
    requires a.Arr? && b.Arr? && |a.elements| == |b.elements|
    requires forall i :: 0 <= i < |a.elements| ==>
               (ValidAt(Draft07, meaning, a, i, x) <==> ValidAt(Draft2020, meaning, b, i, x))
    ensures Combines(Draft07, meaning, key, a, x) <==> Combines(Draft2020, meaning, key, b, x)
  {
    hide ValidAt;
  }

  lemma {:induction false} PropertiesKeep(meaning: Meaning, key: string, schemas: Json, x: Json)
    requires schemas.Obj? && DistinctKeys(schemas.fields) && SameInMap(meaning, schemas)
    requires forall i :: 0 <= i < |schemas.fields| ==> IsSchema(schemas.fields[i].value)
    ensures Normalize(schemas).Obj?
    ensures PropertiesFit(Draft07, meaning, key, schemas, x)
       <==> PropertiesFit(Draft2020, meaning, key, Normalize(schemas), x)
  {
    var out := Normalize(schemas);
    MapIsPointwise(schemas);
    forall i, y | 0 <= i < |schemas.fields|
      ensures Valid(Draft07, meaning, schemas.fields[i].value, y) <==> Valid(Draft2020, meaning, out.fields[i].value, y)
      ensures out.fields[i].key == schemas.fields[i].key
    {
      assert Same(meaning, schemas.fields[i].value);
    }
    hide Valid, SameInMap, Normalize, IsSchema;
  }

  lemma {:induction false} OthersKeep(meaning: Meaning, source: Json, schema: Json, x: Json)
    requires IsSchema(source) && source.Obj? && Same(meaning, schema)
    ensures OthersFit(Draft07, meaning, source.fields, schema, x)
       <==> OthersFit(Draft2020, meaning, Normalize(source).fields, Normalize(schema), x)
  {
    forall name ensures Listed(meaning, source.fields, name) <==> Listed(meaning, Normalize(source).fields, name) {
      ListedKeeps(meaning, source, name);
    }
    hide Listed, Valid, IsSchema, Normalize;
  }

  lemma {:induction false} SomeKeep(meaning: Meaning, schema: Json, x: Json)
    requires Same(meaning, schema)
    ensures SomeFits(Draft07, meaning, schema, x) <==> SomeFits(Draft2020, meaning, Normalize(schema), x)
  {
    hide Valid;
  }

  lemma {:induction false} NamesKeep(meaning: Meaning, schema: Json, x: Json)
    requires Same(meaning, schema)
    ensures NamesFit(Draft07, meaning, schema, x) <==> NamesFit(Draft2020, meaning, Normalize(schema), x)
  {
    hide Valid;
  }

  lemma {:induction false} DecidesKeep(meaning: Meaning, source: Json, holds: bool, x: Json)
    requires IsSchema(source) && source.Obj? && SameInFields(meaning, source)
    ensures Normalize(source).Obj?
    ensures Decides(Draft07, meaning, source, holds, x) <==> Decides(Draft2020, meaning, Normalize(source), holds, x)
  {
    SchemaLookup(source, "if");
    var condition := Lookup(source.fields, "if");
    if condition.Some? {
      var i := KeyAt(source.fields, "if");
      assert IsKeyword(source, source.fields[i]);
      assert SameBelow(meaning, source.fields[i].value);
      assert Same(meaning, condition.value);
    }
  }

  // ---------------------------------------------------------------- fields keep their meaning

  /** The rewritten counterpart of a field means the same. */
  ghost predicate FieldKeeps(meaning: Meaning, source: Json, f: Field, g: Field, x: Json)
    requires source.Obj? && f in source.fields && Normalize(source).Obj? && g in Normalize(source).fields
  {
    Satisfies(Draft07, meaning, source, f, x) <==> Satisfies(Draft2020, meaning, Normalize(source), g, x)
  }

  lemma {:induction false} ItemsKeeps(meaning: Meaning, source: Json, f: Field, x: Json)
    requires IsSchema(source) && source.Obj? && f in source.fields && f.key == "items" && !Tuple(source)
    requires SameBelow(meaning, f.value) && Field(f.key, Normalize(f.value)) in Normalize(source).fields
    ensures FieldKeeps(meaning, source, f, Field(f.key, Normalize(f.value)), x)
  {
    var i :| 0 <= i < |source.fields| && source.fields[i] == f;
    LookupAt(source.fields, i);
    TupleLengthKeeps(source);
    NormalizeKeepsShape(f.value);
    assert IsKeyword(source, f);
    EndsKeep(meaning, 0, f.value, x);
    hide EndsAs, StartsAs, Normalize, IsSchema;
  }

  /** What a keyword says whose value is a schema. */
  predicate Says(draft: Draft, meaning: Meaning, schema: Json, key: string, value: Json, x: Json)
    requires schema.Obj?
  {
    match key
    case "not" => !Valid(draft, meaning, value, x)
    case "contains" => SomeFits(draft, meaning, value, x)
    case "propertyNames" => NamesFit(draft, meaning, value, x)
    case "additionalProperties" => OthersFit(draft, meaning, schema.fields, value, x)
    case "then" => Decides(draft, meaning, schema, true, x) ==> Valid(draft, meaning, value, x)
    case "else" => Decides(draft, meaning, schema, false, x) ==> Valid(draft, meaning, value, x)
    case _ => true
  }

  lemma {:induction false} ValueSays(draft: Draft, meaning: Meaning, schema: Json, f: Field, x: Json)
    requires schema.Obj? && f in schema.fields && HasSchemaValue(f.key)
    requires f.key == "additionalItems" ==> draft.Draft2020? || !Tuple(schema)
    ensures Satisfies(draft, meaning, schema, f, x) <==> Says(draft, meaning, schema, f.key, f.value, x)
  {
  }

  lemma {:induction false} SaysKeeps(meaning: Meaning, source: Json, key: string, value: Json, x: Json)
    requires IsSchema(source) && source.Obj? && SameInFields(meaning, source) && Same(meaning, value)
    ensures Normalize(source).Obj?
    ensures Says(Draft07, meaning, source, key, value, x)
       <==> Says(Draft2020, meaning, Normalize(source), key, Normalize(value), x)
  {
    assert Valid(Draft07, meaning, value, x) <==> Valid(Draft2020, meaning, Normalize(value), x);
    SomeKeep(meaning, value, x);
    NamesKeep(meaning, value, x);
    OthersKeep(meaning, source, value, x);
    DecidesKeep(meaning, source, true, x);
    DecidesKeep(meaning, source, false, x);
    hide Valid, SomeFits, NamesFit, OthersFit, Decides, IsSchema, SameInFields, Same, Normalize;
  }

  lemma {:induction false} SchemaValueKeeps(meaning: Meaning, source: Json, f: Field, x: Json)
    requires IsSchema(source) && source.Obj? && f in source.fields && HasSchemaValue(f.key)
    requires !(Tuple(source) && f.key == "additionalItems")
    requires SameInFields(meaning, source) && SameBelow(meaning, f.value)
    requires Field(f.key, Normalize(f.value)) in Normalize(source).fields
    ensures FieldKeeps(meaning, source, f, Field(f.key, Normalize(f.value)), x)
  {
    assert IsKeyword(source, f);
    assert Same(meaning, f.value);
    hide Satisfies, Says, Normalize, IsSchema, Same, SameBelow, SameInFields;
    SaysKeeps(meaning, source, f.key, f.value, x);
    ValueSays(Draft07, meaning, source, f, x);
    ValueSays(Draft2020, meaning, Normalize(source), Field(f.key, Normalize(f.value)), x);
  }

  lemma {:induction false} SchemaListKeeps(meaning: Meaning, source: Json, f: Field, x: Json)
    requires IsSchema(source) && source.Obj? && f in source.fields && HasSchemaList(f.key)
    requires SameBelow(meaning, f.value) && Field(f.key, Normalize(f.value)) in Normalize(source).fields
    ensures FieldKeeps(meaning, source, f, Field(f.key, Normalize(f.value)), x)
  {
    assert IsKeyword(source, f);
    CombinesKeep(meaning, f.key, f.value, x);
    hide Combines, SameBelow, Normalize, IsSchema;
  }

  lemma {:induction false} PropertiesKeeps(meaning: Meaning, source: Json, f: Field, x: Json)
    requires IsSchema(source) && source.Obj? && f in source.fields
    requires f.key in {"properties", "patternProperties"}
    requires SameInMap(meaning, f.value) && Field(f.key, Normalize(f.value)) in Normalize(source).fields
    ensures FieldKeeps(meaning, source, f, Field(f.key, Normalize(f.value)), x)
  {
    assert IsKeyword(source, f);
    PropertiesKeep(meaning, f.key, f.value, x);
    hide PropertiesFit, SameInMap, Normalize, IsSchema;
  }

  /** A keyword other than those of a tuple keeps its meaning under its own key. */
  lemma {:induction false} KeywordKeeps(meaning: Meaning, source: Json, f: Field, x: Json)
    requires IsSchema(source) && source.Obj? && f in source.fields
    requires SameInFields(meaning, source)
    requires Field(f.key, Normalize(f.value)) in Normalize(source).fields
    requires !(Tuple(source) && f.key in {"items", "additionalItems"})
    ensures FieldKeeps(meaning, source, f, Field(f.key, Normalize(f.value)), x)
  {
    assert SameBelow(meaning, f.value) && SameInMap(meaning, f.value);
    hide SameBelow, SameInMap, SameInFields;
    if f.key == "items" {
      ItemsKeeps(meaning, source, f, x);
    } else if HasSchemaValue(f.key) {
      SchemaValueKeeps(meaning, source, f, x);
    } else if HasSchemaList(f.key) {
      SchemaListKeeps(meaning, source, f, x);
    } else if f.key in {"properties", "patternProperties"} {
      PropertiesKeeps(meaning, source, f, x);
    } else {
      OtherKeeps(meaning, source, f, x);
    }
  }

  /** Definitions say nothing of their own, and other keywords are left as they are. */
  lemma {:induction false} OtherKeeps(meaning: Meaning, source: Json, f: Field, x: Json)
    requires IsSchema(source) && source.Obj? && f in source.fields
    requires f.key != "items" && !HasSchemaValue(f.key) && !HasSchemaList(f.key)
    requires f.key !in {"properties", "patternProperties"}
    requires Field(f.key, Normalize(f.value)) in Normalize(source).fields
    ensures FieldKeeps(meaning, source, f, Field(f.key, Normalize(f.value)), x)
  {
    assert IsKeyword(source, f);
    if !HasSchemaMap(f.key) {
      NoTuplesIsFixed(f.value);
    }
    hide NoTuples, WellKeyed, Normalize, IsSchema;
  }

  /** The tuple keyword moves to `prefixItems` and keeps its meaning. */
  lemma {:induction false} TupleKeeps(meaning: Meaning, source: Json, f: Field, g: Field, x: Json)
    requires IsSchema(source) && source.Obj? && f in source.fields && f.key == "items" && f.value.Arr?
    requires SameBelow(meaning, f.value)
    requires g == Field("prefixItems", Normalize(f.value)) && g in Normalize(source).fields
    ensures FieldKeeps(meaning, source, f, g, x)
  {
    assert IsKeyword(source, f);
    StartsKeep(meaning, f.value, x);
    hide StartsAs, Normalize, IsSchema;
  }

  /** The `additionalItems` of a tuple move to `items` and keep their meaning. */
  lemma {:induction false} AdditionalKeeps(meaning: Meaning, source: Json, f: Field, g: Field, x: Json)
    requires IsSchema(source) && source.Obj? && f in source.fields && f.key == "additionalItems" && Tuple(source)
    requires SameBelow(meaning, f.value) && g == Field("items", Normalize(f.value)) && g in Normalize(source).fields
    ensures FieldKeeps(meaning, source, f, g, x)
  {
    assert IsKeyword(source, f);
    NormalizeKeepsShape(f.value);
    TupleLengthKeeps(source);
    EndsKeep(meaning, TupleLength(Draft07, source.fields), f.value, x);
    hide EndsAs, Normalize, IsSchema;
  }

  /** The `additionalItems` that leave no trace were satisfied by everything. */
  lemma {:induction false} DroppedIsTrivial(meaning: Meaning, source: Json, f: Field, x: Json)
    requires IsSchema(source) && source.Obj? && f in source.fields && f.key == "additionalItems"
    requires f.value == Bool(true)
    ensures Satisfies(Draft07, meaning, source, f, x)
  {
  }

  ghost predicate SameInFields(meaning: Meaning, source: Json)
    requires source.Obj?
  {
    forall i :: 0 <= i < |source.fields| ==>
      SameBelow(meaning, source.fields[i].value) && SameInMap(meaning, source.fields[i].value)
  }

  lemma {:induction false} AssignedField(source: Json, i: nat) returns (j: nat)
    requires IsSchema(source) && source.Obj? && i < |source.fields|
    requires !(Tuple(source) && source.fields[i].key == "additionalItems" && source.fields[i].value == Bool(true))
    ensures j < |Normalize(source).fields|
    ensures var f, g := source.fields[i], Normalize(source).fields[j];
            && g.value == Normalize(f.value)
            && g.key == if Tuple(source) && f.key == "items" then "prefixItems"
                        else if Tuple(source) && f.key == "additionalItems" then "items" else f.key
  {
    hide NoTuples, WellKeyed;
    var f := source.fields[i];
    var key := if Tuple(source) && f.key == "items" then "prefixItems"
               else if Tuple(source) && f.key == "additionalItems" then "items" else f.key;
    assert IsKeyword(source, f);
    LookupAt(source.fields, i);
    SchemaLookup(source, key);
    if Tuple(source) && f.key == "items" {
      SchemaLookup(source, "prefixItems");
    }
    j := KeyAt(Normalize(source).fields, key);
  }

  /** Each field of the source, moved or not, keeps its meaning. */
  lemma {:induction false} MovedFieldKeeps(meaning: Meaning, source: Json, i: nat, j: nat, x: Json)
    requires IsSchema(source) && source.Obj? && i < |source.fields| && j < |Normalize(source).fields|
    requires SameInFields(meaning, source)
    requires var f, g := source.fields[i], Normalize(source).fields[j];
             && g.value == Normalize(f.value)
             && g.key == if Tuple(source) && f.key == "items" then "prefixItems"
                         else if Tuple(source) && f.key == "additionalItems" then "items" else f.key
    ensures FieldKeeps(meaning, source, source.fields[i], Normalize(source).fields[j], x)
  {
    hide NoTuples, WellKeyed, Valid, FieldKeeps, SameBelow, SameInMap;
    var f, g := source.fields[i], Normalize(source).fields[j];
    LookupAt(source.fields, i);
    if Tuple(source) && f.key == "items" {
      TupleKeeps(meaning, source, f, g, x);
    } else if Tuple(source) && f.key == "additionalItems" {
      AdditionalKeeps(meaning, source, f, g, x);
    } else {
      KeywordKeeps(meaning, source, f, x);
    }
  }

  /** A result that holds of the source carries over to the field of the rewritten object. */
  lemma {:induction false} ResultField(meaning: Meaning, source: Json, j: nat, x: Json)
    requires IsSchema(source) && source.Obj? && SameInFields(meaning, source) && Valid(Draft07, meaning, source, x)
    requires j < |Normalize(source).fields|
    ensures Satisfies(Draft2020, meaning, Normalize(source), Normalize(source).fields[j], x)
  {
    hide Satisfies, SameInFields;
    SchemaLookup(source, "items");
    var i := FieldOrigin(source, j);
    MovedFieldKeeps(meaning, source, i, j, x);
  }

  /** A result that holds of the rewritten object carries back to the field of the source. */
  lemma {:induction false} SourceField(meaning: Meaning, source: Json, i: nat, x: Json)
    requires IsSchema(source) && source.Obj? && SameInFields(meaning, source)
    requires Valid(Draft2020, meaning, Normalize(source), x) && i < |source.fields|
    ensures Satisfies(Draft07, meaning, source, source.fields[i], x)
  {
    hide Satisfies, SameInFields;
    var f := source.fields[i];
    if Tuple(source) && f.key == "additionalItems" && f.value == Bool(true) {
      DroppedIsTrivial(meaning, source, f, x);
    } else {
      var j := AssignedField(source, i);
      MovedFieldKeeps(meaning, source, i, j, x);
    }
  }

  lemma {:induction false} ObjectKeeps(meaning: Meaning, source: Json, x: Json)
    requires IsSchema(source) && source.Obj? && SameInFields(meaning, source)
    ensures Valid(Draft07, meaning, source, x) <==> Valid(Draft2020, meaning, Normalize(source), x)
  {
    hide SameInFields;
    if Valid(Draft07, meaning, source, x) {
      forall j | 0 <= j < |Normalize(source).fields|
        ensures Satisfies(Draft2020, meaning, Normalize(source), Normalize(source).fields[j], x)
      {
        ResultField(meaning, source, j, x);
      }
    }
    if Valid(Draft2020, meaning, Normalize(source), x) {
      forall i | 0 <= i < |source.fields| ensures Satisfies(Draft07, meaning, source, source.fields[i], x) {
        SourceField(meaning, source, i, x);
      }
    }
  }

  /** Every instance satisfies a draft-07 schema exactly when it satisfies the rewritten 2020-12 schema. */
  lemma {:induction false} RewriteKeepsMeaning(meaning: Meaning, schema: Json)
    requires IsSchema(schema)
    ensures forall x :: Valid(Draft07, meaning, schema, x) <==> Valid(Draft2020, meaning, Normalize(schema), x)
    decreases schema
  {
    hide NoTuples, WellKeyed, Satisfies, Valid;
    if schema.Obj? {
      forall i | 0 <= i < |schema.fields|
        ensures SameBelow(meaning, schema.fields[i].value) && SameInMap(meaning, schema.fields[i].value)
      {
        var value := schema.fields[i].value;
        if IsSchema(value) { RewriteKeepsMeaning(meaning, value); }
        if value.Arr? {
          forall k | 0 <= k < |value.elements| && IsSchema(value.elements[k]) ensures Same(meaning, value.elements[k]) {
            RewriteKeepsMeaning(meaning, value.elements[k]);
          }
        }
        if value.Obj? {
          forall k | 0 <= k < |value.fields| && IsSchema(value.fields[k].value)
            ensures Same(meaning, value.fields[k].value)
          {
            RewriteKeepsMeaning(meaning, value.fields[k].value);
          }
        }
      }
      forall x ensures Valid(Draft07, meaning, schema, x) <==> Valid(Draft2020, meaning, Normalize(schema), x) {
        ObjectKeeps(meaning, schema, x);
      }
    } else {
      BoolKeeps(meaning, schema);
    }
  }

  lemma {:induction false} BoolKeeps(meaning: Meaning, schema: Json)
    requires schema.Bool?
    ensures forall x :: Valid(Draft07, meaning, schema, x) <==> Valid(Draft2020, meaning, Normalize(schema), x)
  {
  }
}
