/** Python values that `json.loads` can produce, and the abstract parser itself. */
module JsonValue {

  datatype Option<+T> = None | Some(value: T) {
    function GetOr(default: T): T {
      match this
      case Some(v) => v
      case None => default
    }
  }

  /** A decoded JSON document as a Python value: `None`, `bool`, `int`,
      `float` (modelled as a real), `str`, `list` and `dict`. A dict decoded
      by `json.loads` has distinct keys, so it is a map. */
  datatype Json =
    | Null
    | Bool(b: bool)
    | Int(i: int)
    | Float(f: real)
    | Str(s: string)
    | Arr(items: seq<Json>)
    | Obj(fields: map<string, Json>)

  /** The Python literal `[]`, the fallback value of the extractor. */
  const EmptyList: Json := Arr([])

  /** `json.loads`, whose internals are not part of this model: `None`
      stands for any exception it raises, `Some(v)` for the value it returns. */
  type JsonLoads = string -> Option<Json>
}
