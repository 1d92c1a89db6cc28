/** The JavaScript values that reach the handlers through JSON bodies and
    query strings, with the two operations the handlers apply to them. */
module JsValues {

  /** `Obj` stands for any object or array; each one parsed from JSON is a
      fresh object, so it is strictly equal to nothing else. */
  datatype JsValue =
    | Undefined
    | Null
    | Bool(b: bool)
    | Num(x: real)
    | NaN
    | Str(s: string)
    | Obj

  /** `a === b`. */
  predicate StrictEquals(a: JsValue, b: JsValue) {
    match (a, b)
    case (Undefined, Undefined) => true
    case (Null, Null) => true
    case (Bool(p), Bool(q)) => p == q
    case (Num(x), Num(y)) => x == y
    case (Str(s), Str(t)) => s == t
    case _ => false
  }

  /** A number is strictly equal to exactly the same number. */
  lemma StrictlyEqualNumber(x: real, b: JsValue)
    ensures StrictEquals(Num(x), b) <==> b == Num(x)
  {
  }

  /** NaN is strictly equal to nothing, not even NaN. */
  lemma NaNEqualsNothing(b: JsValue)
    ensures !StrictEquals(NaN, b)
  {
  }

  /** `!v`: the values that a JavaScript condition treats as false. */
  predicate Falsy(v: JsValue) {
    match v
    case Undefined => true
    case Null => true
    case Bool(b) => !b
    case Num(x) => x == 0.0
    case NaN => true
    case Str(s) => s == ""
    case Obj => false
  }
}
