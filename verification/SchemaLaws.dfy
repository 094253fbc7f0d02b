/** What the rewrite leaves alone, what it changes, and when doing it twice is doing it once. */
module SchemaLaws {
  import opened Options
  import opened SchemaCompat

  // ---------------------------------------------------------------- fields

  predicate DistinctKeys(fields: seq<Field>) {
    forall i, j :: 0 <= i < j < |fields| ==> fields[i].key != fields[j].key
  }

  lemma {:induction false} LookupAt(fields: seq<Field>, i: nat)
    requires DistinctKeys(fields) && i < |fields|
    ensures Lookup(fields, fields[i].key) == Some(fields[i].value)
  {
    if i > 0 {
      LookupAt(fields[1..], i - 1);
    }
  }

  lemma {:induction false} LookupNone(fields: seq<Field>, key: string)
    ensures Lookup(fields, key).None? <==> forall i :: 0 <= i < |fields| ==> fields[i].key != key
  {
    if fields != [] && fields[0].key != key {
      LookupNone(fields[1..], key);
      assert forall i :: 0 <= i < |fields[1..]| ==> fields[1..][i] == fields[i + 1];
      assert forall i :: 1 <= i < |fields| ==> fields[i] == fields[1..][i - 1];
    }
  }

  lemma {:induction false} LookupAssign(fields: seq<Field>, key: string, value: Json, other: string)
    ensures Lookup(Assign(fields, key, value), other) == if other == key then Some(value) else Lookup(fields, other)
  {
    if fields != [] && fields[0].key != key {
      LookupAssign(fields[1..], key, value, other);
      assert Assign(fields, key, value)[1..] == Assign(fields[1..], key, value);
    } else if fields != [] {
      assert Assign(fields, key, value)[1..] == fields[1..];
    } else {
      assert Assign(fields, key, value)[1..] == [];
    }
  }

  lemma {:induction false} AssignKeepsDistinct(fields: seq<Field>, key: string, value: Json)
    requires DistinctKeys(fields)
    ensures DistinctKeys(Assign(fields, key, value))
  {
    if fields != [] && fields[0].key != key {
      AssignKeepsDistinct(fields[1..], key, value);
      LookupAssign(fields[1..], key, value, fields[0].key);
      LookupNone(Assign(fields[1..], key, value), fields[0].key);
      LookupNone(fields[1..], fields[0].key);
    }
  }

  lemma {:induction false} AssignNew(fields: seq<Field>, key: string, value: Json)
    requires Lookup(fields, key).None?
    ensures Assign(fields, key, value) == fields + [Field(key, value)]
  {
    if fields != [] {
      AssignNew(fields[1..], key, value);
    }
  }

  // ---------------------------------------------------------------- what the rewrite does to an object

  predicate Tuple(source: Json)
    requires source.Obj?
  {
    IsArray(Lookup(source.fields, "items"))
  }

  /** The value under a key of the rewritten object, once its source fields have been read. */
  function Rewritten(source: Json, read: seq<Field>, key: string): Option<Json>
    requires source.Obj?
  {
    var value := Lookup(read, key);
    if Tuple(source) && key == "prefixItems" then
      var items := Lookup(read, "items");
      if items.Some? then Some(Normalize(items.value)) else None
    else if Tuple(source) && key == "items" then
      if value.Some? then Rest(source) else None
    else if Tuple(source) && key == "additionalItems" then None
    else if value.Some? then Some(Normalize(value.value)) else None
  }

  lemma {:induction false} LookupSnoc(fields: seq<Field>, f: Field, key: string)
    requires DistinctKeys(fields + [f])
    ensures Lookup(fields + [f], key) == if key == f.key then Some(f.value) else Lookup(fields, key)
  {
    var all := fields + [f];
    if key == f.key {
      LookupAt(all, |fields|);
    } else if fields != [] {
      assert all[1..] == fields[1..] + [f];
      LookupSnoc(fields[1..], f, key);
    } else {
      assert all[1..] == [];
    }
  }

  lemma {:induction false} EntriesAreDistinct(source: Json, n: nat)
    requires source.Obj? && n <= |source.fields|
    ensures DistinctKeys(NormalizeEntries(source, n))
    decreases n
  {
    if n > 0 {
      hide DistinctKeys;
      var built, entry := NormalizeEntries(source, n - 1), source.fields[n - 1];
      EntriesAreDistinct(source, n - 1);
      AssignKeepsDistinct(built, "prefixItems", Normalize(entry.value));
      AssignKeepsDistinct(built, entry.key, Normalize(entry.value));
      if Rest(source).Some? {
        AssignKeepsDistinct(Assign(built, "prefixItems", Normalize(entry.value)), "items", Rest(source).value);
      }
    } else {
      assert NormalizeEntries(source, 0) == [];
    }
  }

  /** What reading one more entry does to the value under a key. */
  lemma {:induction false} EntryLookup(source: Json, n: nat, key: string)
    requires source.Obj? && 0 < n <= |source.fields|
    ensures var built, entry := NormalizeEntries(source, n - 1), source.fields[n - 1];
            Lookup(NormalizeEntries(source, n), key) ==
              if entry.key == "additionalItems" && Tuple(source) then Lookup(built, key)
              else if entry.key == "items" && entry.value.Arr? then
                if key == "items" && Rest(source).Some? then Rest(source)
                else if key == "prefixItems" then Some(Normalize(entry.value))
                else Lookup(built, key)
              else if key == entry.key then Some(Normalize(entry.value))
              else Lookup(built, key)
  {
    hide Assign, Lookup;
    var built, entry := NormalizeEntries(source, n - 1), source.fields[n - 1];
    if entry.key == "items" && entry.value.Arr? {
      var tuple := Assign(built, "prefixItems", Normalize(entry.value));
      LookupAssign(built, "prefixItems", Normalize(entry.value), key);
      if Rest(source).Some? {
        LookupAssign(tuple, "items", Rest(source).value, key);
      }
    } else {
      LookupAssign(built, entry.key, Normalize(entry.value), key);
    }
  }

  /** Looking up an entry while reading it. */
  lemma {:induction false} ReadLookup(source: Json, n: nat, key: string)
    requires source.Obj? && 0 < n <= |source.fields| && DistinctKeys(source.fields)
    ensures var before, entry := source.fields[..n - 1], source.fields[n - 1];
            && Lookup(source.fields[..n], key) == (if key == entry.key then Some(entry.value) else Lookup(before, key))
            && Lookup(before, entry.key).None?
            && Lookup(source.fields, entry.key) == Some(entry.value)
  {
    var before, entry := source.fields[..n - 1], source.fields[n - 1];
    assert source.fields[..n] == before + [entry];
    LookupSnoc(before, entry, key);
    LookupAt(source.fields, n - 1);
    LookupNone(before, entry.key);
  }

  /** What reading one more entry does to the rewritten value under a key. */
  lemma {:induction false} RewrittenStep(source: Json, n: nat, key: string)
    requires source.Obj? && 0 < n <= |source.fields| && DistinctKeys(source.fields)
    requires Tuple(source) ==> Lookup(source.fields, "prefixItems").None?
    ensures var before, entry := source.fields[..n - 1], source.fields[n - 1];
            Rewritten(source, source.fields[..n], key) ==
              if entry.key == "additionalItems" && Tuple(source) then Rewritten(source, before, key)
              else if entry.key == "items" && entry.value.Arr? then
                if key == "items" && Rest(source).Some? then Rest(source)
                else if key == "prefixItems" then Some(Normalize(entry.value))
                else Rewritten(source, before, key)
              else if key == entry.key then Some(Normalize(entry.value))
              else Rewritten(source, before, key)
  {
    hide DistinctKeys, Lookup, Normalize, Rest;
    var entry := source.fields[n - 1];
    ReadLookup(source, n, key);
    ReadLookup(source, n, "items");
    assert entry.key == "items" ==> (Tuple(source) <==> entry.value.Arr?);
    assert Tuple(source) ==> entry.key != "prefixItems";
  }

  /** Without a `prefixItems` of its own, the rewritten object holds exactly the rewritten values. */
  lemma {:induction false} EntriesLookup(source: Json, n: nat, key: string)
    requires source.Obj? && n <= |source.fields| && DistinctKeys(source.fields)
    requires Tuple(source) ==> Lookup(source.fields, "prefixItems").None?
    ensures Lookup(NormalizeEntries(source, n), key) == Rewritten(source, source.fields[..n], key)
    decreases n
  {
    if n == 0 {
      NothingRead(source, key);
    } else {
      hide DistinctKeys, NormalizeEntries, Lookup, Normalize, Rest, Rewritten;
      EntriesLookup(source, n - 1, key);
      EntryLookup(source, n, key);
      RewrittenStep(source, n, key);
    }
  }

  lemma {:induction false} NothingRead(source: Json, key: string)
    requires source.Obj?
    ensures Lookup(NormalizeEntries(source, 0), key) == Rewritten(source, source.fields[..0], key)
  {
  }

  lemma {:induction false} NormalLookup(source: Json, key: string)
    requires source.Obj? && DistinctKeys(source.fields)
    requires Tuple(source) ==> Lookup(source.fields, "prefixItems").None?
    ensures Normalize(source).Obj?
    ensures Lookup(Normalize(source).fields, key) == Rewritten(source, source.fields, key)
    ensures DistinctKeys(Normalize(source).fields)
  {
    EntriesLookup(source, |source.fields|, key);
    EntriesAreDistinct(source, |source.fields|);
    assert source.fields[..|source.fields|] == source.fields;
  }

  lemma {:induction false} NoEntries(source: Json)
    requires source.Obj?
    ensures NormalizeEntries(source, 0) == []
  {
  }

  lemma {:induction false} PlainEntry(source: Json, n: nat)
    requires source.Obj? && 0 < n <= |source.fields| && DistinctKeys(source.fields) && !Tuple(source)
    ensures NormalizeEntries(source, n)
         == Assign(NormalizeEntries(source, n - 1), source.fields[n - 1].key, Normalize(source.fields[n - 1].value))
  {
    LookupAt(source.fields, n - 1);
    hide Lookup, Assign, Rest;
  }

  lemma {:induction false} AppendsNew(fields: seq<Field>, built: seq<Field>, value: Json)
    requires DistinctKeys(fields) && |built| < |fields|
    requires forall i :: 0 <= i < |built| ==> built[i].key == fields[i].key
    ensures Assign(built, fields[|built|].key, value) == built + [Field(fields[|built|].key, value)]
  {
    var key := fields[|built|].key;
    LookupNone(built, key);
    hide Assign, Lookup;
    AssignNew(built, key, value);
  }

  /** An object without a tuple is rewritten field by field. */
  lemma {:induction false} Pointwise(source: Json, n: nat)
    requires source.Obj? && n <= |source.fields| && DistinctKeys(source.fields) && !Tuple(source)
    ensures var built := NormalizeEntries(source, n);
            && |built| == n
            && forall i :: 0 <= i < n ==> built[i] == Field(source.fields[i].key, Normalize(source.fields[i].value))
    decreases n
  {
    hide *;
    if n == 0 {
      NoEntries(source);
    } else {
      var built, entry := NormalizeEntries(source, n - 1), source.fields[n - 1];
      Pointwise(source, n - 1);
      PlainEntry(source, n);
      AppendsNew(source.fields, built, Normalize(entry.value));
    }
  }

  // ---------------------------------------------------------------- normal forms

  /** No object at any depth has an array under `items`. */
  predicate NoTuples(value: Json)
    decreases value
  {
    match value
    case Arr(elements) => forall i :: 0 <= i < |elements| ==> NoTuples(elements[i])
    case Obj(fields) => !IsArray(Lookup(fields, "items")) && forall i :: 0 <= i < |fields| ==> NoTuples(fields[i].value)
    case _ => true
  }

  /** JavaScript objects: keys are distinct at every depth. */
  predicate WellKeyed(value: Json)
    decreases value
  {
    match value
    case Arr(elements) => forall i :: 0 <= i < |elements| ==> WellKeyed(elements[i])
    case Obj(fields) => DistinctKeys(fields) && forall i :: 0 <= i < |fields| ==> WellKeyed(fields[i].value)
    case _ => true
  }

  /** No object at any depth mixes a tuple with a `prefixItems` of its own. */
  predicate NoMixture(value: Json)
    decreases value
  {
    match value
    case Arr(elements) => forall i :: 0 <= i < |elements| ==> NoMixture(elements[i])
    case Obj(fields) =>
      && (IsArray(Lookup(fields, "items")) ==> Lookup(fields, "prefixItems").None?)
      && forall i :: 0 <= i < |fields| ==> NoMixture(fields[i].value)
    case _ => true
  }

  /** Some object at some depth has arrays under both `items` and `additionalItems`. */
  predicate HasDoubleTuple(value: Json)
    decreases value
  {
    match value
    case Arr(elements) => exists i :: 0 <= i < |elements| && HasDoubleTuple(elements[i])
    case Obj(fields) =>
      || (IsArray(Lookup(fields, "items")) && IsArray(Lookup(fields, "additionalItems")))
      || exists i :: 0 <= i < |fields| && HasDoubleTuple(fields[i].value)
    case _ => false
  }

  /** A value without tuples is a fixed point of the rewrite. */
  lemma {:induction false} NoTuplesIsFixed(value: Json)
    requires NoTuples(value) && WellKeyed(value)
    ensures Normalize(value) == value
    decreases value
  {
    match value
    case Arr(elements) =>
      forall i | 0 <= i < |elements| ensures Normalize(elements[i]) == elements[i] {
        NoTuplesIsFixed(elements[i]);
      }
      assert Normalize(value).elements == elements;
    case Obj(fields) =>
      Pointwise(value, |fields|);
      forall i | 0 <= i < |fields| ensures Normalize(fields[i].value) == fields[i].value {
        NoTuplesIsFixed(fields[i].value);
      }
      assert Normalize(value).fields == fields;
    case _ =>
  }

  lemma {:induction false} KeyAt(fields: seq<Field>, key: string) returns (i: nat)
    requires Lookup(fields, key).Some?
    ensures i < |fields| && fields[i] == Field(key, Lookup(fields, key).value)
  {
    i :| 0 <= i < |fields| && fields[i] == Field(key, Lookup(fields, key).value);
  }

  lemma {:induction false} NormalizeKeepsShape(value: Json)
    ensures Normalize(value).Arr? <==> value.Arr?
    ensures Normalize(value).Obj? <==> value.Obj?
  {
  }

  /** The rewritten value under a key, together with the source field that it comes from. */
  lemma {:induction false} FieldOrigin(source: Json, j: nat) returns (i: nat)
    requires source.Obj? && DistinctKeys(source.fields)
    requires Tuple(source) ==> Lookup(source.fields, "prefixItems").None?
    requires j < |Normalize(source).fields|
    ensures i < |source.fields|
    ensures var out, from := Normalize(source).fields[j], source.fields[i];
            || (out == Field(from.key, Normalize(from.value))
                && !(Tuple(source) && from.key in {"items", "additionalItems", "prefixItems"}))
            || (Tuple(source) && out.key == "prefixItems" && from.key == "items" && from.value.Arr?
                && out.value == Normalize(from.value))
            || (Tuple(source) && out.key == "items" && from.key == "additionalItems"
                && out.value == Normalize(from.value)
                && (from.value == Bool(false) || from.value.Obj? || from.value.Arr?))
  {
    var out := Normalize(source).fields[j];
    NormalLookup(source, out.key);
    LookupAt(Normalize(source).fields, j);
    if Tuple(source) && out.key == "prefixItems" {
      i := KeyAt(source.fields, "items");
    } else if Tuple(source) && out.key == "items" {
      i := KeyAt(source.fields, "additionalItems");
    } else {
      i := KeyAt(source.fields, out.key);
    }
  }

  /** Where an object or array of the source ends up in the rewritten object. */
  lemma {:induction false} FieldImage(source: Json, i: nat) returns (j: nat)
    requires source.Obj? && DistinctKeys(source.fields) && i < |source.fields|
    requires Tuple(source) ==> Lookup(source.fields, "prefixItems").None?
    requires source.fields[i].value.Obj? || source.fields[i].value.Arr?
    ensures j < |Normalize(source).fields| && Normalize(source).fields[j].value == Normalize(source.fields[i].value)
  {
    var from := source.fields[i];
    var key := if Tuple(source) && from.key == "items" then "prefixItems"
               else if Tuple(source) && from.key == "additionalItems" then "items" else from.key;
    LookupAt(source.fields, i);
    NormalLookup(source, key);
    j := KeyAt(Normalize(source).fields, key);
  }

  lemma {:induction false} ArrayUnderItems(source: Json)
    requires source.Obj? && DistinctKeys(source.fields)
    requires Tuple(source) ==> Lookup(source.fields, "prefixItems").None?
    ensures IsArray(Lookup(Normalize(source).fields, "items"))
       <==> Tuple(source) && IsArray(Lookup(source.fields, "additionalItems"))
  {
    NormalLookup(source, "items");
    forall key | Lookup(source.fields, key).Some?
      ensures Normalize(Lookup(source.fields, key).value).Arr? <==> Lookup(source.fields, key).value.Arr?
    {
      NormalizeKeepsShape(Lookup(source.fields, key).value);
    }
  }

  lemma {:induction false} ObjectTuplesAreGone(source: Json)
    requires source.Obj? && WellKeyed(source) && NoMixture(source)
    requires forall i :: 0 <= i < |source.fields| ==>
               && (NoTuples(Normalize(source.fields[i].value)) <==> !HasDoubleTuple(source.fields[i].value))
               && WellKeyed(Normalize(source.fields[i].value))
    ensures NoTuples(Normalize(source)) <==> !HasDoubleTuple(source)
    ensures WellKeyed(Normalize(source))
  {
    var out := Normalize(source).fields;
    NormalLookup(source, "items");
    ArrayUnderItems(source);
    forall j | 0 <= j < |out|
      ensures WellKeyed(out[j].value) && (!HasDoubleTuple(source) ==> NoTuples(out[j].value))
    {
      var i := FieldOrigin(source, j);
      assert WellKeyed(Normalize(source.fields[i].value));
    }
    if i :| 0 <= i < |source.fields| && HasDoubleTuple(source.fields[i].value) {
      var j := FieldImage(source, i);
      assert !NoTuples(out[j].value);
    }
  }

  /**
   The result has no tuple left exactly when no object of the source puts arrays under both `items`
   and `additionalItems`.
   */
  lemma {:induction false} TuplesAreGone(value: Json)
    requires WellKeyed(value) && NoMixture(value)
    ensures NoTuples(Normalize(value)) <==> !HasDoubleTuple(value)
    ensures WellKeyed(Normalize(value))
    decreases value
  {
    match value
    case Arr(elements) =>
      forall i | 0 <= i < |elements|
        ensures NoTuples(Normalize(elements[i])) <==> !HasDoubleTuple(elements[i])
        ensures WellKeyed(Normalize(elements[i]))
      {
        TuplesAreGone(elements[i]);
      }
      var out := Normalize(value).elements;
      assert forall i :: 0 <= i < |elements| ==> out[i] == Normalize(elements[i]);
      if HasDoubleTuple(value) {
        var i :| 0 <= i < |elements| && HasDoubleTuple(elements[i]);
        assert !NoTuples(out[i]);
      }
    case Obj(fields) =>
      forall i | 0 <= i < |fields|
        ensures NoTuples(Normalize(fields[i].value)) <==> !HasDoubleTuple(fields[i].value)
        ensures WellKeyed(Normalize(fields[i].value))
      {
        TuplesAreGone(fields[i].value);
      }
      ObjectTuplesAreGone(value);
    case _ =>
  }

  /** A rewritten tuple object keeps `items` only if it had an `additionalItems`, which it loses. */
  lemma {:induction false} TupleChanges(source: Json, n: nat)
    requires source.Obj? && n <= |source.fields| && Tuple(source) && DistinctKeys(source.fields)
    ensures Lookup(NormalizeEntries(source, n), "additionalItems").None?
    ensures Rest(source).None? ==> Lookup(NormalizeEntries(source, n), "items").None?
    decreases n
  {
    if n > 0 {
      var built, entry := NormalizeEntries(source, n - 1), source.fields[n - 1];
      TupleChanges(source, n - 1);
      LookupAt(source.fields, n - 1);
      EntryLookup(source, n, "additionalItems");
      EntryLookup(source, n, "items");
    }
  }

  /** Any value with a tuple in it is changed by the rewrite. */
  lemma {:induction false} TuplesAreChanged(value: Json)
    requires WellKeyed(value) && !NoTuples(value)
    ensures Normalize(value) != value
    decreases value
  {
    match value
    case Arr(elements) =>
      var i :| 0 <= i < |elements| && !NoTuples(elements[i]);
      TuplesAreChanged(elements[i]);
      assert Normalize(value).elements[i] != elements[i];
    case Obj(fields) =>
      if Tuple(value) {
        TupleChanges(value, |fields|);
      } else {
        var i :| 0 <= i < |fields| && !NoTuples(fields[i].value);
        TuplesAreChanged(fields[i].value);
        Pointwise(value, |fields|);
        assert Normalize(value).fields[i] != fields[i];
      }
    case _ =>
  }

  /** Rewriting twice equals rewriting once exactly when the first pass leaves no tuple. */
  lemma {:induction false} RewriteIsIdempotentIff(value: Json)
    requires WellKeyed(value) && NoMixture(value)
    ensures Normalize(Normalize(value)) == Normalize(value) <==> !HasDoubleTuple(value)
  {
    TuplesAreGone(value);
    if NoTuples(Normalize(value)) {
      NoTuplesIsFixed(Normalize(value));
    } else {
      TuplesAreChanged(Normalize(value));
    }
  }

  // ---------------------------------------------------------------- limits

  /** An array under `additionalItems` becomes an array under `items`, which a second pass would change. */
  lemma {:induction false} DoubleTupleStays()
    ensures var value := Obj([Field("items", Arr([])), Field("additionalItems", Arr([]))]);
            Normalize(Normalize(value)) != Normalize(value)
  {
    var fields := [Field("items", Arr([])), Field("additionalItems", Arr([]))];
    var value := Obj(fields);
    assert fields[1..][0] == Field("additionalItems", Arr([]));
    LookupAt(fields, 0);
    LookupAt(fields, 1);
    LookupNone(fields, "prefixItems");
    RewriteIsIdempotentIff(value);
  }

  /** Data that looks like a tuple schema is rewritten too: the value of `const` changes. */
  lemma {:induction false} ConstDataIsRewritten()
    ensures var data := Obj([Field("items", Arr([]))]);
            Normalize(Obj([Field("const", data)])) == Obj([Field("const", Obj([Field("prefixItems", Arr([]))]))])
  {
    var data := Obj([Field("items", Arr([]))]);
    var schema := Obj([Field("const", data)]);
    assert schema.fields[0].value == data;
    assert NormalizeEntries(data, 1) == Assign(NormalizeEntries(data, 0), "prefixItems", Normalize(Arr([])));
    assert Normalize(Arr([])) == Arr([]);
    assert NormalizeEntries(schema, 1) == Assign(NormalizeEntries(schema, 0), "const", Normalize(data));
  }
}
