/** The JavaScript values a parsed JSON request body can hold, with the
    language's truthiness and property lookup. Numbers are integers here:
    the model does not reason about floating point, so `NaN` is not among
    the values. */
module JsValues {

  datatype JsValue =
    | Undefined
    | Null
    | Bool(b: bool)
    | Num(n: int)
    | Str(s: string)
    | Arr(elements: seq<JsValue>)
    | Obj(fields: map<string, JsValue>)

  /** JavaScript truthiness: `undefined`, `null`, `false`, `0` and `""` are
      falsy; every array and object is truthy. */
  predicate Truthy(v: JsValue)
  {
    match v
    case Undefined => false
    case Null => false
    case Bool(b) => b
    case Num(n) => n != 0
    case Str(s) => s != ""
    case Arr(_) => true
    case Obj(_) => true
  }

  /** Reading a property of a value that is neither `null` nor `undefined`:
      an object's own field, or `undefined`. Arrays, strings, numbers and
      booleans have no properties named like the request's fields. */
  function Property(v: JsValue, key: string): (r: JsValue)
    requires !v.Undefined? && !v.Null?
    ensures r != Undefined ==> v.Obj? && key in v.fields && r == v.fields[key]
    ensures v.Obj? && key in v.fields ==> r == v.fields[key]
  {
    match v
    case Obj(fields) => if key in fields then fields[key] else Undefined
    case _ => Undefined
  }
}
