/** JSON values as JavaScript sees them after `request.json()`, with JavaScript's truthiness and
    `parseFloat`. */
module JsValues {
  import opened Wrappers

  /** A decoded JSON value, plus `undefined` for a property that is not there. Numbers are exact
      reals: JSON text cannot denote NaN. */
  datatype JsValue =
    | JsUndefined
    | JsNull
    | JsBool(b: bool)
    | JsNumber(n: real)
    | JsString(s: string)
    | JsObject(fields: map<string, JsValue>)

  /** `!!v`: false for undefined, null, false, 0 and the empty string; every object is truthy. */
  predicate Truthy(v: JsValue)
  {
    match v
    case JsUndefined => false
    case JsNull => false
    case JsBool(b) => b
    case JsNumber(n) => n != 0.0
    case JsString(s) => s != ""
    case JsObject(_) => true
  }

  /** The falsy values are exactly undefined, null, false, 0 and "". */
  lemma FalsyValues(v: JsValue)
    ensures !Truthy(v) <==> v in {JsUndefined, JsNull, JsBool(false), JsNumber(0.0), JsString("")}
  {
  }

  /** Destructuring `const { ... } = v` throws exactly for null and undefined. */
  predicate Destructurable(v: JsValue)
  {
    v != JsNull && v != JsUndefined
  }

  /** Reading property `key` of a value that can be destructured: an object's own field, or
      `undefined`. */
  function Property(v: JsValue, key: string): (p: JsValue)
    requires Destructurable(v)
    ensures v.JsObject? && key in v.fields ==> p == v.fields[key]
    ensures !(v.JsObject? && key in v.fields) ==> p == JsUndefined
  {
    if v.JsObject? && key in v.fields then v.fields[key] else JsUndefined
  }

  /** `parseFloat(v)`, `None` standing for NaN. A number comes back unchanged; a string goes through
      `parseText`, the engine's parser of a leading decimal literal; booleans and objects
      (`"true"`, `"[object Object]"`) do not parse. */
  function ParseFloat(v: JsValue, parseText: string -> Option<real>): (r: Option<real>)
    ensures v.JsNumber? ==> r == Some(v.n)
    ensures v.JsString? ==> r == parseText(v.s)
    ensures v.JsBool? || v.JsObject? ==> r == None
  {
    match v
    case JsNumber(n) => Some(n)
    case JsString(s) => parseText(s)
    case _ => None
  }
}
