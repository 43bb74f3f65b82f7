/** Values and the comparison operators handed to a where builder (src/where_clause.cpp). */
module Operators {
  import opened SqlText

  /** The value kinds whose binding the library decides on; other kinds bind the same way. */
  datatype Value = Null | Number(n: int) | Str(s: string)

  datatype Comparison = Eq | Like | IsNull | Greater | Lesser | EqGreater | EqLesser

  datatype Operator =
    | Single(lvalue: string, comparison: Comparison, negated: bool, rvalue: Value)
    | In(lvalue: string, negated: bool, rvalues: seq<Value>)
    | Between(lvalue: string, negated: bool, first: Value, second: Value)

  /** `helper::is_named`: the printed value starts with `@` or `:`.  A number prints with a digit or
      a minus sign first and null prints as NULL, so only strings can be named. */
  predicate IsNamed(v: Value) {
    v.Str? && v.s != [] && (v.s[0] == '@' || v.s[0] == ':')
  }

  function Symbol(op: Operator): string {
    match op
    case In(_, negated, _) => if negated then "NOT IN" else "IN"
    case Between(_, negated, _, _) => if negated then "NOT BETWEEN" else "BETWEEN"
    case Single(_, comparison, negated, _) =>
      match comparison
      case Eq => if negated then "!=" else "="
      case Like => if negated then "NOT LIKE" else "LIKE"
      case IsNull => if negated then "IS NOT NULL" else "IS NULL"
      case Greater => if negated then "!>" else ">"
      case Lesser => if negated then "!<" else "<"
      case EqGreater => if negated then "<" else ">="
      case EqLesser => if negated then ">" else "<="
  }

  /** `where_builder::to_sql`: one predicate with one placeholder, whatever the operator. */
  function Test(op: Operator, index: nat): Predicate {
    Compare(op.lvalue, Symbol(op), index)
  }

  /** `where_builder::bind`: the binds an operator performs, in order, as offsets from its index. */
  function Binds(op: Operator): seq<(nat, Value)> {
    match op
    case Single(_, _, _, v) => if IsNamed(v) then [] else [(0, v)]
    case In(_, _, vs) => seq(|vs|, i requires 0 <= i < |vs| => (i, vs[i]))
    case Between(_, _, lo, hi) => [(0, lo), (0, hi)]
  }

  /** An operator that binds nothing, so the query it belongs to is not told of the change. */
  predicate Quiet(op: Operator) {
    Binds(op) == []
  }

  /** An operator that binds one value for its one placeholder. */
  predicate OneValue(op: Operator) {
    |Binds(op)| == 1
  }

  /** The values that the operator's meaning takes. */
  function Needs(op: Operator): seq<Value> {
    match op
    case Single(_, comparison, _, v) => if comparison.IsNull? then [] else [v]
    case In(_, _, vs) => vs
    case Between(_, _, lo, hi) => [lo, hi]
  }

  /** The values that remain bound after its binds: both ends of a BETWEEN go to one place. */
  function Kept(op: Operator): seq<Value> {
    match op
    case Single(_, _, _, v) => if IsNamed(v) then [] else [v]
    case In(_, _, vs) => vs
    case Between(_, _, _, hi) => [hi]
  }

  /** A comparison with an operand that is not a name, or an IN of one value. */
  predicate TakesOne(op: Operator) {
    match op
    case Single(_, comparison, _, v) => !comparison.IsNull? && !IsNamed(v)
    case In(_, _, vs) => |vs| == 1
    case Between(_, _, _, _) => false
  }

  function Operand(op: Operator): Value
    requires OneValue(op)
  {
    Binds(op)[0].1
  }
}
