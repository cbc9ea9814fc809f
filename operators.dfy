/** `ast/operator.go`: the comparison operators and their spelling. */
module Operators {

  /** Go's `type Operator int`; the six operators are the first six values. */
  newtype Operator = int {
    /** `String()`: how the operator is written, or "Unknown operator". */
    function String(): (s: string)
      ensures 0 <= this <= 5 ==> 1 <= |s| <= 2
      ensures !(0 <= this <= 5) ==> s == "Unknown operator"
    {
      if this == LT then "<"
      else if this == LE then "<="
      else if this == EQ then "=="
      else if this == NE then "!="
      else if this == GE then ">="
      else if this == GT then ">"
      else "Unknown operator"
    }
  }

  const LT: Operator := 0
  const LE: Operator := 1
  const EQ: Operator := 2
  const NE: Operator := 3
  const GE: Operator := 4
  const GT: Operator := 5

  /** The six operators. */
  const All: set<Operator> := {LT, LE, EQ, NE, GE, GT}

  /** The operators are 0..5 in the order LT, LE, EQ, NE, GE, GT, and spelled as the language writes them. */
  lemma Spellings()
    ensures [LT, LE, EQ, NE, GE, GT] == [0, 1, 2, 3, 4, 5]
    ensures LT.String() == "<" && LE.String() == "<=" && EQ.String() == "=="
    ensures NE.String() == "!=" && GE.String() == ">=" && GT.String() == ">"
  {
  }

  /** No two operators are spelled alike, and none is spelled like an unknown one. */
  lemma StringInjective(a: Operator, b: Operator)
    requires a in All
    ensures a.String() != "Unknown operator"
    ensures a.String() == b.String() ==> a == b
  {
  }
}
