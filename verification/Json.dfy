// JSON values as the sources see them after parsing. Objects are maps: the
// order of their members is not kept.
module Json {
  import opened Wrappers

  datatype Json =
    | Null
    | Bool(b: bool)
    | Num(n: int)
    | Str(s: string)
    | Arr(items: seq<Json>)
    | Obj(fields: map<string, Json>)

  /** The member `key` of an object; `None` when `value` is no object or lacks it. */
  function Member(value: Json, key: string): Option<Json> {
    if value.Obj? && key in value.fields then Some(value.fields[key]) else None
  }

  function WithMember(value: Json, key: string, member: Json): Json
    requires value.Obj?
  {
    Obj(value.fields[key := member])
  }

  function WithoutMember(value: Json, key: string): Json
    requires value.Obj?
  {
    Obj(value.fields - {key})
  }

  function StringOf(value: Option<Json>): Option<string> {
    if value.Some? && value.value.Str? then Some(value.value.s) else None
  }

  /** An object with this text under the key. */
  predicate HoldsText(value: Json, key: string, text: string) {
    value.Obj? && key in value.fields && value.fields[key] == Str(text)
  }
}
