/** From the tests of a builder to the rows that a server selects: the statement that runs, read by the
    server and evaluated with the values bound to it, is true of a row exactly when every test is
    (src/where_clause.cpp:424-499, src/query.cpp:59-79). */
module RowSelection {
  import opened SqlText
  import opened SearchCondition
  import opened WhereClause
  import opened ClauseMeaning
  import opened Operators
  import opened OperatorMeaning
  import opened QueryText
  import opened QueryMachine
  import opened StatementReuse
  import opened ParameterOrder
  import opened BuilderMeaning
  import S = SentParameters
  import R = StatementReader

  type Taken = (string, Value) -> Value

  /** Tests that a server understands, on columns that the row has, with operands that are bound. */
  predicate Askable(ops: seq<Operator>, row: map<string, Value>) {
    forall i | 0 <= i < |ops| :: Understood(ops[i]) && !IsNamed(ops[i].rvalue) && ops[i].lvalue in row
  }

  /** What the tests say of a row. */
  function Asked(sv: Server, taken: Taken, ops: seq<Operator>, row: map<string, Value>): (ts: seq<Truth>)
    requires Askable(ops, row)
    ensures |ts| == |ops| && forall i | 0 <= i < |ops| :: ts[i] == TruthOn(sv, taken, ops[i], row)
  {
    seq(|ops|, i requires 0 <= i < |ops| => TruthOn(sv, taken, ops[i], row))
  }

  lemma AskableBinds(ops: seq<Operator>, row: map<string, Value>)
    requires Askable(ops, row)
    ensures OneValueEach(ops) && forall i | 0 <= i < |ops| :: Operands(ops)[i] == ops[i].rvalue
  {
  }

  /** The operands are bound after the first `base` values. */
  predicate OperandsBound(ops: seq<Operator>, base: nat, bound: map<nat, Value>) {
    forall i | 0 <= i < |ops| :: ops[i].Single? && base + i + 1 in bound && bound[base + i + 1] == ops[i].rvalue
  }

  /** The printed tests, evaluated with the bound operands, say what was asked. */
  lemma TestsSay(sv: Server, taken: Taken, ops: seq<Operator>, row: map<string, Value>, base: nat, bound: map<nat, Value>)
    requires Orders(sv) && Askable(ops, row) && OperandsBound(ops, base, bound)
    ensures Truths(Tests(base, ops), RowTruth(sv, taken, row, bound)) == Asked(sv, taken, ops, row)
  {
    var v, ps := RowTruth(sv, taken, row, bound), Tests(base, ops);
    forall i | 0 <= i < |ops| ensures Truths(ps, v)[i] == Asked(sv, taken, ops, row)[i] {
      TestAtSays(sv, taken, ops, row, base, bound, i);
    }
  }

  lemma TestAtSays(sv: Server, taken: Taken, ops: seq<Operator>, row: map<string, Value>, base: nat, bound: map<nat, Value>, i: nat)
    requires Orders(sv) && Askable(ops, row) && OperandsBound(ops, base, bound) && i < |ops|
    ensures RowTruth(sv, taken, row, bound)(Tests(base, ops)[i]) == TruthOn(sv, taken, ops[i], row)
  {
    TestSays(sv, taken, ops[i], base + i + 1, row, bound);
  }

  lemma {:induction false} AllTrueIff(ts: seq<Truth>)
    ensures All3(ts) == True <==> forall i | 0 <= i < |ts| :: ts[i] == True
    decreases |ts|
  {
    if ts != [] {
      AllTrueIff(ts[1..]);
      assert ts == [ts[0]] + ts[1..];
    }
  }

  lemma OperandsAreBound(values: seq<Value>, ops: seq<Operator>, row: map<string, Value>)
    requires Askable(ops, row)
    ensures OneValueEach(ops) && OperandsBound(ops, |values|, Bound(values + Operands(ops)))
  {
    AskableBinds(ops, row);
    var all := values + Operands(ops);
    forall i | 0 <= i < |ops| ensures |values| + i + 1 in Bound(all) && Bound(all)[|values| + i + 1] == ops[i].rvalue {
      assert Bound(all)[|values| + i + 1] == ParamAt(all, |values| + i + 1) == all[|values| + i];
    }
  }

  /** Every condition of the query without its where clause is a search condition. */
  ghost predicate ProperFields(f: Fields) {
    !f.InsertInto? && NewFields(f) && CoherentFields(f) && Executable(f) && R.HasConditions(f)
  }

  /** The server reads the where clause that the tests make. */
  lemma ChainIsRead(f: Fields, base: nat, ops: seq<Operator>)
    requires ProperFields(f) && ops != []
    ensures var command := R.Read(FreshText(WithWhere(f, Chain(Tests(base, ops)))));
            command.Some? && !command.value.Insert? && command.value.where == Some(Fresh(Chain(Tests(base, ops))))
  {
    var c := Chain(Tests(base, ops));
    ChainParses(Tests(base, ops));
    PrintedTextParses(c);
    var g := WithWhere(f, c);
    R.ConditionsAreSimple(g);
    R.StatementReads(g);
  }

  /** The statement that the first execution of a built query runs selects a row exactly when every test
      is true of it; in general its condition has the truth value of their conjunction. */
  lemma RowsAsAsked(f: Fields, values: seq<Value>, calls: seq<Call>, ops: seq<Operator>, sv: Server, taken: Taken,
                    row: map<string, Value>)
    requires ProperFields(f) && ops != [] && Askable(ops, row) && BuilderCalls(calls, ops) && Orders(sv)
    ensures OffersAll(f, [BindAll(values)] + calls)
    ensures var e := Step(Run(Initial(f), [BindAll(values)] + calls).0, Execute).1;
            && e.Some? && R.Read(e.value.sql).Some?
            && (var command := R.Read(e.value.sql).value;
                && !command.Insert? && command.where.Some? && Parse(command.where.value).Some?
                && (var truth := Eval(Parse(command.where.value).value, RowTruth(sv, taken, row, e.value.bound));
                    && truth == All3(Asked(sv, taken, ops, row))
                    && (truth == True <==> forall i | 0 <= i < |ops| :: TruthOn(sv, taken, ops[i], row) == True)))
  {
    OperandsAreBound(values, ops, row);
    S.BuiltStatement(f, values, calls, ops);
    BuildingRun(f, values, calls, ops);
    ChainIsRead(f, |values|, ops);
    var bound := Bound(values + Operands(ops));
    BuilderMeansConjunction(Tests(|values|, ops), RowTruth(sv, taken, row, bound));
    TestsSay(sv, taken, ops, row, |values|, bound);
    AllTrueIff(Asked(sv, taken, ops, row));
  }
}
