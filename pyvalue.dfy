/**
 * The JSON-shaped Python values that the inventory and instance-data code
 * passes around: `None`, booleans, integers, strings, lists and dicts.
 */
module PyValue {

  datatype Value =
    | Null
    | Bool(b: bool)
    | Int(i: int)
    | Str(s: string)
    | List(items: seq<Value>)
    | Dict(fields: map<string, Value>)

  /** Python truthiness: `None`, `False`, `0`, `''`, `[]` and `{}` are false. */
  predicate Truthy(v: Value)
  {
    match v
    case Null => false
    case Bool(b) => b
    case Int(i) => i != 0
    case Str(s) => s != ""
    case List(items) => items != []
    case Dict(fields) => fields != map[]
  }

  /** What `for x in v` (and `list.extend(v)`) goes through. */
  datatype Iteration =
    | Iterates(items: seq<Value>)   // a list's items, or a string's characters
    | NotIterable                   // `None`, a boolean or an integer: TypeError
    | KeysOfDict                    // a dict: its keys, in an order the model does not fix

  /** The characters of `s`, each as a one-character string. */
  function Chars(s: string): (r: seq<Value>)
    ensures |r| == |s| && forall i | 0 <= i < |s| :: r[i] == Str([s[i]])
  {
    seq(|s|, i requires 0 <= i < |s| => Str([s[i]]))
  }

  function Iterate(v: Value): Iteration
  {
    match v
    case List(items) => Iterates(items)
    case Str(s) => Iterates(Chars(s))
    case Dict(_) => KeysOfDict
    case _ => NotIterable
  }

  /** Python's `d.get(key, default)`. */
  function Get(d: map<string, Value>, key: string, default: Value): Value
  {
    if key in d then d[key] else default
  }
}
