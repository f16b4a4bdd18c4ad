/**
 The JSON values that request bodies carry and that the user store keeps in
 its records.
 */
module Json {

  datatype Option<+T> = None | Some(value: T)

  /** A decoded JSON value. Numbers are integers in this model. */
  datatype Value =
    | Null
    | Bool(b: bool)
    | Num(n: int)
    | Str(s: string)
    | Arr(items: seq<Value>)
    | Obj(fields: map<string, Value>)

  /**
   The decoded request body: a JSON object (field name to value), or `None`
   when the body decoded to JSON `null`.
   */
  type Body = Option<map<string, Value>>

  /** Python's `not data` on a body that is absent or an object: absent or empty. */
  predicate NoData(body: Body)
    ensures NoData(body) <==> body.None? || body.value.Keys == {}
    ensures !NoData(body) ==> exists k :: k in body.value
  {
    body.None? || |body.value| == 0
  }
}
