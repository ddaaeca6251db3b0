/** The JSON-shaped values the uploader builds: Python dicts whose keys keep their
    insertion order, strings, booleans and lists of strings. */
module Json {

  datatype Option<+T> = None | Some(value: T)

  datatype Value =
    | Str(s: string)
    | Bool(b: bool)
    | StrList(items: seq<string>)
    | Object(fields: seq<Field>)

  datatype Field = Field(key: string, value: Value)

  /** `d.keys()`, in insertion order. */
  function Keys(fields: seq<Field>): (r: seq<string>)
    ensures |r| == |fields|
    ensures forall i :: 0 <= i < |fields| ==> r[i] == fields[i].key
  {
    if |fields| == 0 then [] else [fields[0].key] + Keys(fields[1..])
  }

  /** `d[key]` for a dict given by its fields, or None when the key is missing. */
  function Lookup(fields: seq<Field>, key: string): (r: Option<Value>)
    ensures r.None? <==> key !in Keys(fields)
    ensures r.Some? ==> exists i :: 0 <= i < |fields| && fields[i] == Field(key, r.value)
  {
    if |fields| == 0 then None
    else if fields[0].key == key then Some(fields[0].value)
    else Lookup(fields[1..], key)
  }

  /** The first field with a given key is the one `d[key]` finds. */
  lemma {:induction false} LookupFirst(fields: seq<Field>, i: nat)
    requires i < |fields|
    requires forall j :: 0 <= j < i ==> fields[j].key != fields[i].key
    ensures Lookup(fields, fields[i].key) == Some(fields[i].value)
  {
    if i > 0 {
      LookupFirst(fields[1..], i - 1);
    }
  }

  /** A two-key path into a nested object reaches the field the two keys name. */
  lemma GetNested(fields: seq<Field>, i: nat, inner: seq<Field>, j: nat)
    requires i < |fields| && j < |inner|
    requires forall k :: 0 <= k < i ==> fields[k].key != fields[i].key
    requires forall k :: 0 <= k < j ==> inner[k].key != inner[j].key
    requires fields[i].value == Object(inner)
    ensures Get(Object(fields), [fields[i].key, inner[j].key]) == Some(inner[j].value)
  {
    LookupFirst(fields, i);
    LookupFirst(inner, j);
    var p := [fields[i].key, inner[j].key];
    assert p[1..] == [inner[j].key];
    assert p[1..][1..] == [];
    assert Get(inner[j].value, []) == Some(inner[j].value);
    assert Get(Object(inner), p[1..]) == Some(inner[j].value);
  }

  /** Follows a path of keys through nested objects. */
  function Get(v: Value, path: seq<string>): Option<Value>
    decreases |path|
  {
    if |path| == 0 then Some(v)
    else if !v.Object? then None
    else match Lookup(v.fields, path[0])
      case None => None
      case Some(child) => Get(child, path[1..])
  }
}
