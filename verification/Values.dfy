/** A decoded JSON value, as encoding/json reads one into `any` with UseNumber: the members
of an object are a map. */
module Values {
  datatype Value =
    | Null
    | Bool(b: bool)
    | Num(raw: string)
    | Str(s: string)
    | Arr(items: seq<Value>)
    | Obj(members: map<string, Value>)
  {
    /** object[m] of a Go map: nil when there is no such member. */
    function At(m: string): Value
      requires Obj?
    {
      if m in members then members[m] else Null
    }
  }
}
