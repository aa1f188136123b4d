/** Python-side values the backend reads and writes: optional attributes,
    results that may carry an exception, bytes, and the JSON-like values
    that make up a Mailjet send dict. */
module Values {

  /** An attribute that is present (`Some`) or absent / `None` (`None`). */
  datatype Option<+T> = None | Some(value: T) {
    function GetOr(default: T): T {
      match this
      case Some(v) => v
      case None => default
    }
  }

  /** A call that returns a value or raises a Python exception. */
  datatype Result<+T, +E> = Ok(value: T) | Err(error: E)

  /** One octet of a Python `bytes` object. */
  newtype byte = x: int | 0 <= x < 256

  /** The JSON-like values held by Python dicts in the payload and in the
      Mailjet API's answers (floats are not modelled). */
  datatype Value =
    | Null
    | Bool(b: bool)
    | Int(i: int)
    | Str(s: string)
    | List(items: seq<Value>)
    | Dict(entries: map<string, Value>)

  /** A Python dict with string keys, such as the send payload `msg_dict`. */
  type JsonObject = map<string, Value>

  /** Python truthiness of a value (`if v:`). */
  predicate Truthy(v: Value) {
    match v
    case Null => false
    case Bool(b) => b
    case Int(i) => i != 0
    case Str(s) => s != ""
    case List(xs) => xs != []
    case Dict(m) => |m| != 0
  }

  /** A Python list of strings as a value. */
  function StrList(xs: seq<string>): (r: Value)
    ensures r.List? && |r.items| == |xs|
    ensures forall i :: 0 <= i < |xs| ==> r.items[i] == Str(xs[i])
  {
    List(StrValues(xs))
  }

  function StrValues(xs: seq<string>): (r: seq<Value>)
    ensures |r| == |xs|
    ensures forall i :: 0 <= i < |xs| ==> r[i] == Str(xs[i])
  {
    if xs == [] then [] else [Str(xs[0])] + StrValues(xs[1..])
  }

  /** `sep.join(parts)`. */
  function Join(sep: string, parts: seq<string>): string
  {
    if |parts| == 0 then ""
    else if |parts| == 1 then parts[0]
    else parts[0] + sep + Join(sep, parts[1..])
  }
}
