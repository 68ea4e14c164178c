/**
 * JSON documents as the JavaScript code sees them: flow nodes, request and
 * response bodies, credential field values and configuration values.
 * Numbers are integers; floating point is not modelled.
 */
module Json {

  datatype Json =
    | JNull
    | JBool(b: bool)
    | JNum(n: int)
    | JStr(s: string)
    | JArr(items: seq<Json>)
    | JObj(fields: map<string, Json>)

  /** JavaScript truthiness: null, false, 0 and "" are falsy; arrays and objects are truthy. */
  predicate Truthy(j: Json)
  {
    match j
    case JNull => false
    case JBool(b) => b
    case JNum(n) => n != 0
    case JStr(s) => s != ""
    case JArr(_) => true
    case JObj(_) => true
  }

  /**
   * The property read `j.name`. A missing property (JavaScript's
   * `undefined`) and a read on a value that is not an object both give JNull.
   */
  function Get(j: Json, name: string): (r: Json)
    ensures j.JObj? && name in j.fields ==> r == j.fields[name]
    ensures !(j.JObj? && name in j.fields) ==> r == JNull
  {
    match j
    case JObj(m) => if name in m then m[name] else JNull
    case _ => JNull
  }
}
