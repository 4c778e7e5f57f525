/** Decoded JSON values.  Object keys are unique once decoded; numbers keep their literal. */
module Json {
  import opened Numerals

  datatype Value =
    | Null
    | Bool(truth: bool)
    | Number(numeral: Numeral)
    | Str(text: string)
    | Array(items: seq<Value>)
    | Object(fields: map<string, Value>)

  /** Being the same JSON value: numbers by what they denote, lists and objects by their parts. */
  ghost predicate SameValue(a: Value, b: Value)
    decreases a
  {
    match (a, b)
    case (Number(m), Number(n)) => Denoted(m) == Denoted(n)
    case (Array(x), Array(y)) => |x| == |y| && forall i :: 0 <= i < |x| ==> SameValue(x[i], y[i])
    case (Object(x), Object(y)) => x.Keys == y.Keys && forall k :: k in x ==> SameValue(x[k], y[k])
    case _ => a == b
  }
}
