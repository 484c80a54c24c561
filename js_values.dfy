/**
 * The values a JSON request body can hold in the fields the handlers read,
 * and the three JavaScript operations applied to them: truthiness (`if (!x)`),
 * `a || b`, and `String(v)`; plus how better-sqlite3 binds a value to a `?`
 * placeholder of a TEXT column.
 */
module JsValues {
  import opened Wrappers

  /** A body field: absent (`undefined`), JSON `null`, a boolean or a string. */
  datatype JsValue = Undefined | Null | Bool(b: bool) | Str(s: string)

  /** JavaScript truthiness: `undefined`, `null`, `false` and `""` are falsy. */
  predicate Truthy(v: JsValue)
  {
    match v
    case Undefined => false
    case Null => false
    case Bool(b) => b
    case Str(s) => s != ""
  }

  /** `a || b`: the left operand when it is truthy, the right one otherwise. */
  function Or(a: JsValue, b: JsValue): JsValue
  {
    if Truthy(a) then a else b
  }

  /** `String(v)`. */
  function ToJsString(v: JsValue): string
  {
    match v
    case Undefined => "undefined"
    case Null => "null"
    case Bool(b) => if b then "true" else "false"
    case Str(s) => s
  }

  /**
   * Binding a value to a placeholder: a string is stored as it is, a boolean
   * makes better-sqlite3 throw (it binds only numbers, strings, bigints,
   * buffers and null). The handlers bind only truthy values.
   */
  function BindText(v: JsValue): (r: Option<string>)
    requires !v.Undefined? && !v.Null?
    ensures r.Some? <==> v.Str?
    ensures r.Some? ==> v == Str(r.value)
  {
    match v
    case Str(s) => Some(s)
    case Bool(_) => None
  }
}
