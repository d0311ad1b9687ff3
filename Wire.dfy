/** The wire shape of a message: a JSON value as a tree (not as text). */
module Wire {
  import opened Wrappers

  /** A JSON value. An object keeps its members in the order they are written. */
  datatype Json =
    | JNull
    | JString(str: string)
    | JArray(items: seq<Json>)
    | JObject(fields: seq<Field>)

  /** One `"key": value` member of a JSON object. */
  datatype Field = Field(key: string, value: Json)

  /** The object has a member with this key. */
  predicate HasKey(fields: seq<Field>, key: string) {
    exists i :: 0 <= i < |fields| && fields[i].key == key
  }

  /** The value a reader sees for `key`: that of the last member with this key, if any. */
  function Lookup(fields: seq<Field>, key: string): (v: Option<Json>)
    ensures v.Some? <==> HasKey(fields, key)
    ensures v.Some? ==> exists i :: && 0 <= i < |fields|
                                    && fields[i] == Field(key, v.value)
                                    && forall j :: i < j < |fields| ==> fields[j].key != key
  {
    if fields == [] then None
    else if fields[|fields| - 1].key == key then Some(fields[|fields| - 1].value)
    else Lookup(fields[..|fields| - 1], key)
  }
}
