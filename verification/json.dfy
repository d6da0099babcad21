/**
 The values `json.loads` produces from the configuration text, and the two
 Python views of them the service relies on: the type name an error message
 quotes and the `str()` rendering a target name gets inside an f-string.
 */
module Json {
  import Text

  /** A decoded JSON value. Numbers are integers; an object maps each key to its (last) value. */
  datatype Value =
    | Null
    | Bool(b: bool)
    | Number(n: int)
    | Str(s: string)
    | Array(items: seq<Value>)
    | Object(fields: map<string, Value>)

  /** Python's `type(v).__name__` for what `json.loads` builds from `v`. */
  function TypeName(v: Value): string {
    match v
    case Null => "NoneType"
    case Bool(_) => "bool"
    case Number(_) => "int"
    case Str(_) => "str"
    case Array(_) => "list"
    case Object(_) => "dict"
  }

  /** Python's `str(v)` for the scalar values a target name can hold; containers get a placeholder. */
  function Show(v: Value): string {
    match v
    case Null => "None"
    case Bool(b) => if b then "True" else "False"
    case Number(n) => Text.IntToDecimal(n)
    case Str(s) => s
    case Array(_) => "[...]"
    case Object(_) => "{...}"
  }
}
