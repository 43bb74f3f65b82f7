/** What a comparison means on a value of a row, what the printed symbol means to a server, and when the
    two agree (src/where_clause.h:25-32, src/where_clause.cpp:450-462). */
module OperatorMeaning {
  import opened SqlText
  import opened SearchCondition
  import opened Operators

  /** How a server compares two values, neither of them null. */
  datatype Server = Server(same: (Value, Value) -> bool, less: (Value, Value) -> bool, like: (Value, Value) -> bool)

  /** Of two values exactly one is less, or they are the same. */
  ghost predicate Orders(sv: Server) {
    forall x, y | x != Null && y != Null ::
      && (sv.less(x, y) ==> !sv.same(x, y) && !sv.less(y, x))
      && (sv.same(x, y) ==> !sv.less(y, x))
      && (sv.less(x, y) || sv.same(x, y) || sv.less(y, x))
  }

  function Not3(t: Truth): Truth {
    match t
    case True => False
    case False => True
    case Unknown => Unknown
  }

  function Truly(b: bool): Truth {
    if b then True else False
  }

  /** What the operator says of a value x: the comparison with its operand, negated or not.  IS NULL is
      never unknown; every other comparison with a null is. */
  function OperatorTruth(sv: Server, comparison: Comparison, negated: bool, x: Value, operand: Value): Truth {
    var plain :=
      if comparison.IsNull? then Truly(x == Null)
      else if x == Null || operand == Null then Unknown
      else match comparison
        case Eq => Truly(sv.same(x, operand))
        case Like => Truly(sv.like(x, operand))
        case Greater => Truly(sv.less(operand, x))
        case Lesser => Truly(sv.less(x, operand))
        case EqGreater => Truly(sv.less(operand, x) || sv.same(x, operand))
        case _ => Truly(sv.less(x, operand) || sv.same(x, operand));
    if negated then Not3(plain) else plain
  }

  /** What a server makes of `x symbol y`; nothing if it knows no such comparison of two values. */
  function SymbolTruth(sv: Server, symbol: string, x: Value, y: Value): Option<Truth> {
    if symbol !in {"=", "!=", "<", ">", "<=", ">=", "LIKE", "NOT LIKE"} then None
    else if x == Null || y == Null then Some(Unknown)
    else if symbol == "=" then Some(Truly(sv.same(x, y)))
    else if symbol == "!=" then Some(Truly(!sv.same(x, y)))
    else if symbol == "<" then Some(Truly(sv.less(x, y)))
    else if symbol == ">" then Some(Truly(sv.less(y, x)))
    else if symbol == "<=" then Some(Truly(sv.less(x, y) || sv.same(x, y)))
    else if symbol == ">=" then Some(Truly(sv.less(y, x) || sv.same(x, y)))
    else if symbol == "LIKE" then Some(Truly(sv.like(x, y)))
    else Some(Truly(!sv.like(x, y)))
  }

  /** The symbols of the list operators compare no two values, and differ by NOT when negated. */
  lemma ListSymbols(sv: Server, op: Operator, x: Value, y: Value)
    requires !op.Single?
    ensures SymbolTruth(sv, Symbol(op), x, y).None?
    ensures Symbol(op) == (if op.negated then "NOT " else "") + if op.In? then "IN" else "BETWEEN"
  {
  }

  /** A negated `>` or `<` prints as `!>` or `!<`, and an IS NULL takes no second value. */
  predicate Understood(op: Operator) {
    op.Single? && !op.comparison.IsNull? && !(op.negated && (op.comparison.Greater? || op.comparison.Lesser?))
  }

  /** The printed symbol says what the operator says, on every two values and every server that orders
      its values, exactly for these operators. */
  lemma SymbolMeansIff(sv: Server, op: Operator, x: Value, y: Value)
    requires Orders(sv) && op.Single?
    ensures SymbolTruth(sv, Symbol(op), x, y) == Some(OperatorTruth(sv, op.comparison, op.negated, x, y)) <==> Understood(op)
  {
    match op.comparison
    case Eq =>
    case Like =>
    case IsNull =>
    case Greater =>
    case Lesser =>
    case EqGreater => if x != Null && y != Null { assert sv.less(x, y) || sv.same(x, y) || sv.less(y, x); }
    case EqLesser => if x != Null && y != Null { assert sv.less(x, y) || sv.same(x, y) || sv.less(y, x); }
  }

  /** The truth of a predicate on a row, by the symbol that the text has between column and placeholder;
      `taken` is what the server makes of a value compared with a column. */
  function RowTruth(sv: Server, taken: (string, Value) -> Value, row: map<string, Value>, bound: map<nat, Value>): Valuation {
    (p: Predicate) =>
      if p.Compare? && p.lvalue in row && p.index in bound then
        var t := SymbolTruth(sv, p.operator, row[p.lvalue], taken(p.lvalue, bound[p.index]));
        if t.Some? then t.value else Unknown
      else Unknown
  }

  /** What the operator says of a row. */
  function TruthOn(sv: Server, taken: (string, Value) -> Value, op: Operator, row: map<string, Value>): Truth
    requires op.Single? && op.lvalue in row
  {
    OperatorTruth(sv, op.comparison, op.negated, row[op.lvalue], taken(op.lvalue, op.rvalue))
  }

  /** The printed test, with its operand bound to its placeholder, says of a row what the operator says. */
  lemma TestSays(sv: Server, taken: (string, Value) -> Value, op: Operator, n: nat, row: map<string, Value>, bound: map<nat, Value>)
    requires Orders(sv) && Understood(op) && op.lvalue in row && n in bound && bound[n] == op.rvalue
    ensures RowTruth(sv, taken, row, bound)(Operators.Test(op, n)) == TruthOn(sv, taken, op, row)
  {
    SymbolMeansIff(sv, op, row[op.lvalue], taken(op.lvalue, op.rvalue));
  }
}
