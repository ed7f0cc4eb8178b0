/**
 * The document a YAML or JSON parser hands back, and the few Python
 * operations the validator applies to it: truthiness, `in`, subscripting
 * and `.keys()`. Each operation raises where Python raises.
 */
module Document {
  import opened Wrappers
  import opened Text

  /** A parsed YAML/JSON value. Mapping keys are strings. */
  datatype Value =
    | Null
    | Bool(b: bool)
    | Num(n: real)
    | Str(s: string)
    | Seq(items: seq<Value>)
    | Map(fields: map<string, Value>)

  /** The Python exceptions these operations can raise. */
  datatype PyError = TypeError | AttributeError | KeyError

  /** Python truthiness: None, False, zero and empty containers are falsy. */
  predicate Truthy(v: Value) {
    match v
    case Null => false
    case Bool(b) => b
    case Num(n) => n != 0.0
    case Str(s) => s != []
    case Seq(items) => items != []
    case Map(fields) => fields != map[]
  }

  /**
   * `key in v` for a string key: key membership for a dict, element
   * membership for a list, a substring test for a str; a scalar is not
   * iterable and raises.
   */
  function Contains(v: Value, key: string): (r: Result<bool, PyError>)
    ensures r.Failure? <==> v.Null? || v.Bool? || v.Num?
    ensures v.Map? ==> r == Success(key in v.fields)
    ensures v.Seq? ==> r == Success(Str(key) in v.items)
    ensures v.Str? ==> r == Success(IsSubstring(key, v.s))
  {
    match v
    case Map(fields) => Success(key in fields)
    case Seq(items) => Success(Str(key) in items)
    case Str(s) => Success(IsSubstring(key, s))
    case _ => Failure(TypeError)
  }

  /** `v[key]` for a string key: only a dict can be indexed by a string. */
  function Subscript(v: Value, key: string): (r: Result<Value, PyError>)
    ensures r.Success? <==> v.Map? && key in v.fields
    ensures r.Success? ==> r.value == v.fields[key]
  {
    match v
    case Map(fields) => if key in fields then Success(fields[key]) else Failure(KeyError)
    case _ => Failure(TypeError)
  }

  /** `v.keys()`: only a dict has the attribute. */
  function Keys(v: Value): (r: Result<set<string>, PyError>)
    ensures r.Success? <==> v.Map?
    ensures r.Success? ==> r.value == v.fields.Keys
  {
    if v.Map? then Success(v.fields.Keys) else Failure(AttributeError)
  }
}
