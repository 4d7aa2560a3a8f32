/**
 * The slice of Python's dynamic data model that the recap pipeline touches:
 * JSON-like values (the dicts and lists the pipeline passes around), the
 * exceptions it raises or lets escape, and the truthiness and hashing rules
 * its `if not x` and `x in seen` tests rely on.
 */
module PyValues {

  /** A Python value as it appears in the pipeline's dicts. Dict keys are strings. */
  datatype Value =
    | Str(s: string)
    | Int(i: int)
    | Bool(b: bool)
    | Null
    | List(items: seq<Value>)
    | Dict(entries: map<string, Value>)

  /** The exceptions the modelled code raises or lets escape. */
  datatype Error =
    | ValueError(msg: string)
    | TypeError(msg: string)
    | AttributeError(msg: string)
    | KeyError(key: string)
    | ValidationError(field: string)   // a pydantic model rejected a field

  datatype Option<+T> = None | Some(value: T)

  datatype Result<+T> = Ok(value: T) | Err(error: Error)

  /** Python's `bool(v)`. */
  predicate Truthy(v: Value) {
    match v
    case Str(s) => s != ""
    case Int(i) => i != 0
    case Bool(b) => b
    case Null => false
    case List(items) => items != []
    case Dict(entries) => entries != map[]
  }

  /** `type(v).__name__`. */
  function TypeName(v: Value): string {
    match v
    case Str(_) => "str"
    case Int(_) => "int"
    case Bool(_) => "bool"
    case Null => "NoneType"
    case List(_) => "list"
    case Dict(_) => "dict"
  }

  /** Lists and dicts cannot be put in a set. */
  predicate Hashable(v: Value) {
    !v.List? && !v.Dict?
  }

  /**
   * The identity a hashable value has inside a Python set: `True == 1` and
   * `False == 0` hash and compare equal, so booleans are folded onto ints.
   */
  function HashKey(v: Value): (k: Value)
    requires Hashable(v)
    ensures Hashable(k) && !k.Bool?
    ensures Truthy(k) == Truthy(v)
  {
    match v
    case Bool(b) => Int(if b then 1 else 0)
    case _ => v
  }

  /** `d.get(key)`: the value under `key`, or None when the key is missing. */
  function Get(d: map<string, Value>, key: string): Option<Value> {
    if key in d then Some(d[key]) else None
  }

  /** `d.get(key, default)`. */
  function GetOr(d: map<string, Value>, key: string, default: Value): Value {
    if key in d then d[key] else default
  }
}
