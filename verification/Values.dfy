/** The values a JavaScript caller can hand to a validator that takes `unknown`.
    Text is a sequence of characters, of which only number and equality count; the code units of a surrogate
    pair, which `char` does not have, are two of them. */
module Values {
  datatype Number = NaN | Infinity(negative: bool) | Finite(r: real) {
    predicate IsInteger() {
      Finite? && r == r.Floor as real
    }
  }

  datatype Value =
    | Undefined
    | Null
    | Bool(b: bool)
    | Num(n: Number)
    | Text(s: string)
    | Array(items: seq<Value>)
    | Object(fields: map<string, Value>)
  {
    predicate IsIntegerNumber() {
      Num? && n.IsInteger()
    }

    predicate IsFiniteNumber() {
      Num? && n.Finite?
    }
  }
}
