/** Python values as they travel through the analysis service: the JSON-like
    dictionaries returned by the model, the error markers that replace them,
    and the nested result dictionary that the HTTP layer returns. */
module Values {

  datatype Option<+T> = None | Some(value: T)

  datatype Result<+T, +E> = Ok(value: T) | Err(error: E)

  /** A Python value of the shapes the service produces: `None`, `bool`,
      `int`, `str`, `list` and `dict` with string keys. */
  datatype Value =
    | VNone
    | VBool(b: bool)
    | VInt(i: int)
    | VStr(s: string)
    | VList(items: seq<Value>)
    | VDict(entries: map<string, Value>)

  /** `isinstance(v, int)` and the integer it denotes. Python's `bool` is a
      subclass of `int`, so `True` and `False` are the integers 1 and 0. */
  function IntOf(v: Value): (r: Option<int>)
    ensures r.Some? <==> (v.VInt? || v.VBool?)
    ensures v.VInt? ==> r == Some(v.i)
    ensures v.VBool? ==> r.Some? && 0 <= r.value <= 1
  {
    match v
    case VInt(i) => Some(i)
    case VBool(b) => Some(if b then 1 else 0)
    case _ => None
  }

  /** Python truthiness: `None`, `False`, `0`, `""`, `[]` and `{}` are false. */
  predicate Truthy(v: Value) {
    match v
    case VNone => false
    case VBool(b) => b
    case VInt(i) => i != 0
    case VStr(s) => s != []
    case VList(items) => items != []
    case VDict(entries) => entries != map[]
  }

  /** `d.get(key, default)`. */
  function GetOr(d: map<string, Value>, key: string, default: Value): (r: Value)
    ensures key in d ==> r == d[key]
    ensures key !in d ==> r == default
  {
    if key in d then d[key] else default
  }
}
