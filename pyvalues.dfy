/**
 * The dynamic Python values that the JSON decoder and the DMARC report parser
 * hand to the core: None, booleans, integers, strings, lists and dicts with
 * string keys. Key order of a dict is not represented.
 */
module PyValues {
  import opened Wrappers
  import Strings

  datatype Value =
    | VNone
    | VBool(b: bool)
    | VInt(i: int)
    | VStr(s: string)
    | VList(items: seq<Value>)
    | VDict(entries: map<string, Value>)

  /** The Python exceptions the core's own operators can raise on an ill-typed value. */
  datatype PyError = TypeError(message: string) | KeyError(key: string)

  /** Python truthiness (`if v:`): None, False, 0 and empty containers are false. */
  predicate Truthy(v: Value) {
    match v
    case VNone => false
    case VBool(b) => b
    case VInt(i) => i != 0
    case VStr(s) => s != ""
    case VList(items) => items != []
    case VDict(entries) => entries != map[]
  }

  /** `d.get(key, default)` on a dict. */
  function Get(d: map<string, Value>, key: string, default: Value): (r: Value)
    ensures key in d ==> r == d[key]
    ensures key !in d ==> r == default
  {
    if key in d then d[key] else default
  }

  /**
   * `key in v` for a string `key`: key membership for a dict, element
   * membership for a list, substring search for a string; any other operand
   * raises TypeError ("argument ... is not iterable").
   */
  function Contains(v: Value, key: string): (r: Result<bool, PyError>)
    ensures r.Failure? <==> !(v.VDict? || v.VList? || v.VStr?)
    ensures r.Failure? ==> r.error.TypeError?
    ensures v.VDict? ==> r == Success(key in v.entries)
    ensures v.VList? ==> r == Success(exists i :: 0 <= i < |v.items| && v.items[i] == VStr(key))
    ensures v.VStr? ==> r == Success(exists i :: Strings.OccursAt(key, v.s, i))
  {
    match v
    case VDict(entries) => Success(key in entries)
    case VList(items) => Success(VStr(key) in items)
    case VStr(s) => Strings.IsSubstringIff(key, s); Success(Strings.IsSubstring(key, s))
    case _ => Failure(TypeError("argument is not iterable"))
  }

  /**
   * `v[key]` for a string `key`: a dict lookup, which raises KeyError when
   * the key is absent; a list or string index by a string raises TypeError.
   */
  function Subscript(v: Value, key: string): (r: Result<Value, PyError>)
    ensures v.VDict? && key in v.entries ==> r == Success(v.entries[key])
    ensures v.VDict? && key !in v.entries ==> r == Failure(KeyError(key))
    ensures !v.VDict? ==> r.Failure? && r.error.TypeError?
  {
    match v
    case VDict(entries) =>
      if key in entries then Success(entries[key]) else Failure(KeyError(key))
    case VList(_) => Failure(TypeError("list indices must be integers or slices, not str"))
    case VStr(_) => Failure(TypeError("string indices must be integers, not str"))
    case _ => Failure(TypeError("object is not subscriptable"))
  }
}
