/**
 The rewriting of draft-07 tuple schemas into JSON Schema 2020-12. Objects are lists of fields in
 insertion order; assigning a key overwrites its field in place or appends one.
 */
module SchemaCompat {
  import opened Options

  datatype Json =
    | Null
    | Bool(b: bool)
    | Number(n: int)
    | Text(s: string)
    | Arr(elements: seq<Json>)
    | Obj(fields: seq<Field>)

  datatype Field = Field(key: string, value: Json)

  function Lookup(fields: seq<Field>, key: string): (value: Option<Json>)
    ensures value.Some? ==> exists i :: 0 <= i < |fields| && fields[i] == Field(key, value.value)
  {
    if fields == [] then None
    else if fields[0].key == key then Some(fields[0].value)
    else
      assert forall i :: 0 <= i < |fields[1..]| ==> fields[1..][i] == fields[i + 1];
      Lookup(fields[1..], key)
  }

  function Assign(fields: seq<Field>, key: string, value: Json): seq<Field> {
    if fields == [] then [Field(key, value)]
    else if fields[0].key == key then [Field(key, value)] + fields[1..]
    else [fields[0]] + Assign(fields[1..], key, value)
  }

  predicate IsArray(value: Option<Json>) {
    value.Some? && value.value.Arr?
  }

  // ---------------------------------------------------------------- the rewrite

  /** The `items` that a tuple's `additionalItems` turns into, if any. */
  function Rest(source: Json): Option<Json>
    requires source.Obj?
    decreases source, 0
  {
    var additional := Lookup(source.fields, "additionalItems");
    if additional == Some(Bool(false)) then Some(Bool(false))
    else if additional.Some? && (additional.value.Obj? || additional.value.Arr?) then Some(Normalize(additional.value))
    else None
  }

  /** The object built from the first n entries. */
  function NormalizeEntries(source: Json, n: nat): seq<Field>
    requires source.Obj? && n <= |source.fields|
    decreases source, 1, n
  {
    if n == 0 then [] else
    var built := NormalizeEntries(source, n - 1);
    var entry := source.fields[n - 1];
    if entry.key == "additionalItems" && IsArray(Lookup(source.fields, "items")) then built
    else if entry.key == "items" && entry.value.Arr? then
      var tuple := Assign(built, "prefixItems", Normalize(entry.value));
      var rest := Rest(source);
      if rest.Some? then Assign(tuple, "items", rest.value) else tuple
    else Assign(built, entry.key, Normalize(entry.value))
  }

  function Normalize(value: Json): Json
    decreases value, 2
  {
    match value
    case Arr(elements) => Arr(seq(|elements|, i requires 0 <= i < |elements| => Normalize(elements[i])))
    case Obj(fields) => Obj(NormalizeEntries(value, |fields|))
    case _ => value
  }

  /** The loop that fills the rewritten object. */
  method NormalizeClaudeToolSchema(value: Json) returns (normalized: Json)
    ensures normalized == Normalize(value)
    decreases value
  {
    match value {
      case Arr(elements) =>
        var mapped: seq<Json> := [];
        for i := 0 to |elements|
          invariant mapped == seq(i, k requires 0 <= k < i => Normalize(elements[k]))
        {
          var element := NormalizeClaudeToolSchema(elements[i]);
          mapped := mapped + [element];
        }
        return Arr(mapped);
      case Obj(fields) =>
        var built: seq<Field> := [];
        var items, additional := Lookup(fields, "items"), Lookup(fields, "additionalItems");
        for i := 0 to |fields|
          invariant built == NormalizeEntries(value, i)
        {
          var entry := fields[i];
          if entry.key == "additionalItems" && IsArray(items) { continue; }
          var child := NormalizeClaudeToolSchema(entry.value);
          if entry.key == "items" && entry.value.Arr? {
            built := Assign(built, "prefixItems", child);
            if additional == Some(Bool(false)) {
              built := Assign(built, "items", Bool(false));
            } else if additional.Some? && (additional.value.Obj? || additional.value.Arr?) {
              var rest := NormalizeClaudeToolSchema(additional.value);
              built := Assign(built, "items", rest);
            }
            continue;
          }
          built := Assign(built, entry.key, child);
        }
        return Obj(built);
      case _ => return value;
    }
  }
}
