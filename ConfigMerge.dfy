/** The recursive merge of configuration objects
    (javascript/config_failure/src/config/loader.js). A configuration is a
    JSON value; an object is its list of fields in property order. Values
    are immutable here, so the merge builds a new object and leaves both
    arguments as they were. */
module ConfigMerge {
  import opened Wrappers
  import opened Text

  datatype Json =
    | Null
    | Bool(b: bool)
    | Num(n: real)
    | Str(s: string)
    | Arr(items: seq<Json>)
    | Obj(fields: seq<Field>)

  datatype Field = Field(key: string, value: Json)

  /** JavaScript truthiness of a JSON value: `null`, `false`, `0` and `''`
      are falsy, arrays and objects always truthy. */
  predicate Truthy(v: Json) {
    match v
    case Null => false
    case Bool(b) => b
    case Num(n) => n != 0.0
    case Str(s) => s != ""
    case Arr(_) => true
    case Obj(_) => true
  }

  /** `Object.entries(v)`, which is also what `{ ...v }` copies: an
      object's own fields, a string's characters and an array's items
      under their indices, and nothing for the other values. A string
      spreads by code point here; JavaScript spreads it by UTF-16 code
      unit, and the two differ for characters above U+FFFF. */
  function Spread(v: Json): (fields: seq<Field>)
    ensures v.Obj? ==> fields == v.fields
    ensures v.Arr? ==> |fields| == |v.items| && forall i :: 0 <= i < |fields| ==> fields[i] == Field(NatToString(i), v.items[i])
    ensures v.Str? ==> |fields| == |v.s| && forall i :: 0 <= i < |fields| ==> fields[i] == Field(NatToString(i), Str([v.s[i]]))
    ensures v.Null? || v.Bool? || v.Num? ==> fields == []
  {
    match v
    case Obj(fs) => fs
    case Arr(items) => seq(|items|, i requires 0 <= i < |items| => Field(NatToString(i), items[i]))
    case Str(s) => seq(|s|, i requires 0 <= i < |s| => Field(NatToString(i), Str([s[i]])))
    case _ => []
  }

  /** `obj[key]`: the value of the first field with the key. */
  function Lookup(fields: seq<Field>, key: string): (r: Option<Json>)
    ensures r.None? <==> key !in Keys(fields)
  {
    if fields == [] then None
    else if fields[0].key == key then Some(fields[0].value)
    else Lookup(fields[1..], key)
  }

  /** `obj[key] = value`: replaces the field in place, or appends a new one. */
  function Assign(fields: seq<Field>, key: string, value: Json): (r: seq<Field>)
    ensures Lookup(r, key) == Some(value)
    ensures forall other :: other != key ==> Lookup(r, other) == Lookup(fields, other)
    ensures Keys(r) == Keys(fields) + {key}
  {
    if fields == [] then [Field(key, value)]
    else if fields[0].key == key then [Field(key, value)] + fields[1..]
    else [fields[0]] + Assign(fields[1..], key, value)
  }

  /** The keys of the fields. */
  function Keys(fields: seq<Field>): (keys: set<string>)
    ensures forall i :: 0 <= i < |fields| ==> fields[i].key in keys
  {
    if fields == [] then {} else {fields[0].key} + Keys(fields[1..])
  }

  /** A key of the fields is the key of one of them. */
  lemma {:induction false} KeyIndex(fields: seq<Field>, key: string) returns (i: nat)
    requires key in Keys(fields)
    ensures i < |fields| && fields[i].key == key
    decreases |fields|
  {
    if fields[0].key == key {
      i := 0;
    } else {
      var j := KeyIndex(fields[1..], key);
      i := j + 1;
    }
  }

  /** An object has no two fields with the same key. */
  predicate DistinctKeys(fields: seq<Field>) {
    forall i, j :: 0 <= i < j < |fields| ==> fields[i].key != fields[j].key
  }

  function Size(v: Json): (n: nat)
    ensures n >= 1
  {
    match v
    case Arr(items) => 1 + ItemsSize(items)
    case Obj(fields) => 1 + FieldsSize(fields)
    case _ => 1
  }

  function ItemsSize(items: seq<Json>): nat {
    if items == [] then 0 else Size(items[0]) + ItemsSize(items[1..])
  }

  function FieldsSize(fields: seq<Field>): nat {
    if fields == [] then 0 else Size(fields[0].value) + FieldsSize(fields[1..])
  }

  lemma {:induction false} ItemsSizeBound(items: seq<Json>, i: nat)
    requires i < |items|
    ensures Size(items[i]) <= ItemsSize(items)
    decreases i
  {
    if i > 0 {
      ItemsSizeBound(items[1..], i - 1);
    }
  }

  lemma {:induction false} FieldsSizeBound(fields: seq<Field>, i: nat)
    requires i < |fields|
    ensures Size(fields[i].value) <= FieldsSize(fields)
    decreases i
  {
    if i > 0 {
      FieldsSizeBound(fields[1..], i - 1);
    }
  }

  /** Every object among the entries of `v` is smaller than `v`. */
  lemma SpreadSmaller(v: Json, i: nat)
    requires i < |Spread(v)| && Spread(v)[i].value.Obj?
    ensures Size(Spread(v)[i].value) < Size(v)
  {
    match v
    case Obj(fs) => FieldsSizeBound(fs, i);
    case Arr(items) => ItemsSizeBound(items, i);
  }

  /** `result[key] || {}`: the current value when it is truthy, otherwise
      an empty object. */
  function BaseOf(current: Option<Json>): (b: Json)
    ensures current.Some? && Truthy(current.value) ==> b == current.value
    ensures current.None? || !Truthy(current.value) ==> b == Obj([])
  {
    if current.Some? && Truthy(current.value) then current.value else Obj([])
  }

  /** The value a field of the override leaves under its key: a nested
      object is merged into what the key held before, anything else
      (including arrays and `null`) replaces it. */
  function Merged(current: Option<Json>, value: Json): (r: Json)
    decreases Size(value), 0
  {
    if value.Obj? then Obj(MergeFields(Spread(BaseOf(current)), value.fields)) else value
  }

  /** The loop over `Object.entries(override)`, from a copy of the base. */
  function MergeFields(result: seq<Field>, entries: seq<Field>): (r: seq<Field>)
    decreases FieldsSize(entries), 1
  {
    if entries == [] then result
    else
      var e := entries[0];
      MergeFields(Assign(result, e.key, Merged(Lookup(result, e.key), e.value)), entries[1..])
  }

  const NullToObject := "Cannot convert undefined or null to object"

  /** `mergeConfig(base, override)`: a fresh object, or the error
      `Object.entries` raises for a `null` override. */
  function MergeSpec(base: Json, override: Json): (r: Result<Json, string>)
    ensures override.Null? <==> r.Err?
    ensures r.Ok? ==> r.value.Obj?
  {
    if override.Null? then Err(NullToObject)
    else Ok(Obj(MergeFields(Spread(base), Spread(override))))
  }

  /** The merge keeps every key of the result it starts from and adds every
      key of the entries. */
  lemma {:induction false} MergeFieldsKeys(result: seq<Field>, entries: seq<Field>)
    ensures Keys(MergeFields(result, entries)) == Keys(result) + Keys(entries)
    decreases |entries|
  {
    if entries != [] {
      var e := entries[0];
      MergeFieldsKeys(Assign(result, e.key, Merged(Lookup(result, e.key), e.value)), entries[1..]);
    }
  }

  /** With distinct keys in the override, each key of the override ends up
      with the value merged from what the base held under it, and every
      other key keeps its base value. */
  lemma {:induction false} MergeFieldsLookup(result: seq<Field>, entries: seq<Field>, key: string)
    requires DistinctKeys(entries)
    ensures key !in Keys(entries) ==> Lookup(MergeFields(result, entries), key) == Lookup(result, key)
    ensures key in Keys(entries) ==>
      Lookup(MergeFields(result, entries), key) == Some(Merged(Lookup(result, key), Lookup(entries, key).value))
    decreases |entries|
  {
    if entries != [] {
      var e := entries[0];
      var next := Assign(result, e.key, Merged(Lookup(result, e.key), e.value));
      var rest := entries[1..];
      assert DistinctKeys(rest) by {
        forall i, j | 0 <= i < j < |rest| ensures rest[i].key != rest[j].key {
          assert rest[i] == entries[i + 1] && rest[j] == entries[j + 1];
        }
      }
      if e.key in Keys(rest) {
        var j := KeyIndex(rest, e.key);
        assert false;
      }
      MergeFieldsLookup(next, rest, key);
    }
  }

  /** The properties of `mergeConfig` for an override object with distinct
      keys: the result's keys are the union of both objects' keys; a key
      only in the base keeps its value; a key of the override takes its
      value when that is not an object (a scalar, an array or `null`) and
      the recursive merge into the base's value when it is. */
  lemma MergeProperties(base: Json, fields: seq<Field>, key: string)
    requires DistinctKeys(fields)
    ensures MergeSpec(base, Obj(fields)).Ok?
    ensures var r := MergeSpec(base, Obj(fields)).value.fields;
      && Keys(r) == Keys(Spread(base)) + Keys(fields)
      && (key !in Keys(fields) ==> Lookup(r, key) == Lookup(Spread(base), key))
      && (key in Keys(fields) && !Lookup(fields, key).value.Obj? ==> Lookup(r, key) == Lookup(fields, key))
      && (key in Keys(fields) && Lookup(fields, key).value.Obj? ==>
            Lookup(r, key) == Some(Obj(MergeFields(Spread(BaseOf(Lookup(Spread(base), key))), Lookup(fields, key).value.fields))))
  {
    MergeFieldsKeys(Spread(base), fields);
    MergeFieldsLookup(Spread(base), fields, key);
  }

  /** A nested merge: `{db: {host, port}}` merged with `{db: {port}}`
      keeps the host and takes the new port. */
  lemma NestedMergeExample()
    ensures MergeSpec(
        Obj([Field("db", Obj([Field("host", Str("localhost")), Field("port", Num(5432.0))]))]),
        Obj([Field("db", Obj([Field("port", Num(6543.0))]))]))
      == Ok(Obj([Field("db", Obj([Field("host", Str("localhost")), Field("port", Num(6543.0))]))]))
  {
    var db := [Field("host", Str("localhost")), Field("port", Num(5432.0))];
    var newDb := [Field("host", Str("localhost")), Field("port", Num(6543.0))];
    var port := [Field("port", Num(6543.0))];
    assert "host" != "port" by {
      assert "host"[0] != "port"[0];
    }
    var tail := Assign(db[1..], "port", Num(6543.0));
    assert tail == [Field("port", Num(6543.0))];
    assert Assign(db, "port", Num(6543.0)) == [db[0]] + tail == newDb;
    assert Lookup(db, "port") == Some(Num(5432.0));
    assert MergeFields(db, port) == MergeFields(newDb, []) == newDb;
    var entries := [Field("db", Obj(port))];
    var base := [Field("db", Obj(db))];
    assert Merged(Some(Obj(db)), Obj(port)) == Obj(newDb);
    assert Assign(base, "db", Obj(newDb)) == [Field("db", Obj(newDb))];
    assert MergeFields(base, entries) == MergeFields([Field("db", Obj(newDb))], []);
    assert MergeSpec(Obj(base), Obj(entries)) == Ok(Obj(MergeFields(base, entries)));
  }

  /** An array in the override replaces the base's array instead of being
      merged into it. */
  lemma ArrayReplacedExample()
    ensures MergeSpec(Obj([Field("tags", Arr([Str("a")]))]), Obj([Field("tags", Arr([]))]))
      == Ok(Obj([Field("tags", Arr([]))]))
  {
    var base := [Field("tags", Arr([Str("a")]))];
    var entries := [Field("tags", Arr([]))];
    assert Assign(base, "tags", Arr([])) == [Field("tags", Arr([]))];
    assert MergeFields(base, entries) == MergeFields([Field("tags", Arr([]))], []);
  }

  /** `mergeConfig`: copies the base, then walks the override's entries in
      order, merging nested objects by a recursive call and assigning every
      other value. */
  method MergeConfig(base: Json, override: Json) returns (r: Result<Json, string>)
    ensures r == MergeSpec(base, override)
    decreases Size(override)
  {
    if override.Null? {
      return Err(NullToObject);
    }
    var result := Spread(base);
    var entries := Spread(override);
    for i := 0 to |entries|
      invariant MergeFields(result, entries[i..]) == MergeFields(Spread(base), entries)
    {
      var key, value := entries[i].key, entries[i].value;
      assert entries[i..][1..] == entries[i + 1..];
      if value.Obj? {
        SpreadSmaller(override, i);
        var nested := MergeConfig(BaseOf(Lookup(result, key)), value);
        result := Assign(result, key, nested.value);
      } else {
        result := Assign(result, key, value);
      }
    }
    assert entries[|entries|..] == [];
    return Ok(Obj(result));
  }
}
