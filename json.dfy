/**
 * The dictionary-shaped data that handlers, services and the request bodies
 * exchange: Python dicts and lists built from JSON, as one value type.
 */
module Json {

  datatype Value =
    | Null
    | Bool(b: bool)
    | Int(i: int)
    | Real(r: real)          // a Python float; no floating-point arithmetic is modelled
    | Date(iso: string)      // a `datetime.date`, kept as its ISO text
    | Str(s: string)
    | List(items: seq<Value>)
    | Object(fields: map<string, Value>)

  type Dict = map<string, Value>

  /** Python truthiness: `None`, `False`, `0`, `""`, `[]` and `{}` are false. */
  predicate Truthy(v: Value) {
    match v
    case Null => false
    case Bool(b) => b
    case Int(i) => i != 0
    case Real(r) => r != 0.0
    case Date(_) => true
    case Str(s) => s != ""
    case List(xs) => xs != []
    case Object(m) => m != map[]
  }

  /** The one-key dict `{k: v}`. */
  function Single(k: string, v: Value): Dict {
    map[k := v]
  }

  /** `{"error_info": message}`, the payload every failure carries. */
  function ErrorInfo(message: string): Dict {
    Single("error_info", Str(message))
  }

  /** `{"info": message}`. */
  function Info(message: string): Dict {
    Single("info", Str(message))
  }

  /** `d.get(k)`: the value under `k`, or `None`. */
  function Get(d: Dict, k: string): Value {
    if k in d then d[k] else Null
  }
}
