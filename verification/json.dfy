/** JSON values as JavaScript sees them after `JSON.parse`, with JavaScript's
    notion of truthiness. Numbers are modelled as reals (no NaN or infinities,
    which JSON cannot express). */
module Json {

  datatype Value =
    | JNull
    | JBool(b: bool)
    | JNum(n: real)
    | JStr(s: string)
    | JArr(items: seq<Value>)
    | JObj(fields: map<string, Value>)

  /** Whether `if (v)` takes the then-branch: everything except null, false, 0 and ''. */
  predicate Truthy(v: Value) {
    match v
    case JNull => false
    case JBool(b) => b
    case JNum(n) => n != 0.0
    case JStr(s) => |s| > 0
    case JArr(_) => true
    case JObj(_) => true
  }
}
