/** Values that a JSON request body can carry into a route handler, and
    JavaScript's notion of truthiness over them. */
module JsValues {

  /** A property read from a parsed JSON body. `Undefined` is what reading an
      absent key yields; the other cases are the JSON value kinds. `Num` carries a
      number as it stands after parsing (a double, already rounded). */
  datatype JsValue =
    | Undefined
    | Null
    | Bool(b: bool)
    | Num(x: real)
    | Str(s: string)
    | Arr(items: seq<JsValue>)
    | Obj(members: seq<(string, JsValue)>)

  /** JavaScript truthiness: `undefined`, `null`, `false`, `0` and `""` are
      falsy; every other value, including every array and object, is truthy. */
  predicate Truthy(v: JsValue) {
    match v
    case Undefined => false
    case Null => false
    case Bool(b) => b
    case Num(x) => x != 0.0
    case Str(s) => s != ""
    case Arr(_) => true
    case Obj(_) => true
  }
}
