/** Placeholders and parameters agree: while a query is built, the text holds the placeholders
    1, 2, ..., N in this order and parameter k is the value that came with placeholder k. */
module ParameterOrder {
  import opened SqlText
  import opened SearchCondition
  import opened WhereClause
  import opened ClauseMeaning
  import opened Operators
  import opened QueryText
  import opened QueryMachine

  // ----- the clause a builder makes -----

  /** The predicates of tests appended after `base` parameters were bound. */
  function Tests(base: nat, ops: seq<Operator>): (ps: seq<Predicate>)
    ensures |ps| == |ops|
  {
    seq(|ops|, i requires 0 <= i < |ops| => Operators.Test(ops[i], base + i + 1))
  }

  function Leaves(ps: seq<Predicate>): (cs: seq<Clause>)
    ensures |cs| == |ps|
  {
    seq(|ps|, i requires 0 <= i < |ps| => Leaf([Atom(ps[i])]))
  }

  /** Head and AND parts, one predicate each. */
  function Chain(ps: seq<Predicate>): Clause {
    if ps == [] then EMPTY else Clause([Atom(ps[0])], Leaves(ps[1..]), [], [])
  }

  ghost predicate OneValueEach(ops: seq<Operator>) {
    forall i | 0 <= i < |ops| :: OneValue(ops[i])
  }

  ghost function Operands(ops: seq<Operator>): (vs: seq<Value>)
    requires OneValueEach(ops)
    ensures |vs| == |ops|
  {
    seq(|ops|, i requires 0 <= i < |ops| => Operand(ops[i]))
  }

  lemma ChainGrows(ps: seq<Predicate>, p: Predicate)
    ensures Appended(Chain(ps), AndText([Atom(p)])) == Chain(ps + [p])
  {
    if ps == [] {
      assert [p][1..] == [] && ps + [p] == [p];
    } else {
      assert (ps + [p])[1..] == ps[1..] + [p];
      assert Leaves(ps[1..] + [p]) == Leaves(ps[1..]) + [Leaf([Atom(p)])];
    }
  }

  lemma PutNext(params: seq<Value>, v: Value)
    ensures Put(params, |params| + 1, v) == params + [v]
  {
    var r := Put(params, |params| + 1, v);
    assert |r| == |params| + 1;
    assert r == params + [v];
  }

  lemma OneBind(op: Operator)
    requires OneValue(op)
    ensures Binds(op) == [(0, Operand(op))]
  {
    match op
    case Single(_, _, _, v) =>
    case In(_, _, vs) => assert Binds(op)[0] == (0, vs[0]);
  }

  lemma OneBindIsPut(params: seq<Value>, op: Operator)
    requires OneValue(op)
    ensures PutAll(params, |params| + 1, Binds(op)) == params + [Operand(op)]
  {
    OneBind(op);
    PutAllOne(params, |params| + 1, Operand(op));
    PutNext(params, Operand(op));
  }

  lemma PutAllOne(params: seq<Value>, base: nat, v: Value)
    ensures PutAll(params, base, [(0, v)]) == Put(params, base, v)
  {
    var b: seq<(nat, Value)> := [(0, v)];
    assert b[1..] == [];
    assert PutAll(Put(params, base, v), base, b[1..]) == Put(params, base, v);
  }

  /** The query data after `values` were bound and the tests appended. */
  ghost function Built(f: Fields, values: seq<Value>, ops: seq<Operator>): Data
    requires OneValueEach(ops) && (f.InsertInto? ==> ops == [])
  {
    Data(if f.InsertInto? then f else WithWhere(f, Chain(Tests(|values|, ops))),
         values + Operands(ops), map[])
  }

  lemma ListsGrow(base: nat, ops: seq<Operator>, op: Operator)
    requires OneValueEach(ops + [op])
    ensures OneValueEach(ops) && OneValue(op)
    ensures Tests(base, ops + [op]) == Tests(base, ops) + [Operators.Test(op, base + |ops| + 1)]
    ensures Operands(ops + [op]) == Operands(ops) + [Operand(op)]
  {
    var all := ops + [op];
    assert forall i | 0 <= i < |ops| :: all[i] == ops[i];
    assert all[|ops|] == op;
    assert forall i | 0 <= i < |ops| :: OneValue(all[i]);
  }

  /** `&&` or `||` with the test; as first call also `where` with it. */
  predicate AppendsTest(c: Call, op: Operator, first: bool) {
    c == WhereAnd(op) || c == WhereOr(op) || (first && c == WhereIs(op))
  }

  /** Either builder operator appends one more predicate to the chain and one more parameter. */
  lemma TestGrows(f: Fields, values: seq<Value>, ops: seq<Operator>, op: Operator, c: Call)
    requires !f.InsertInto? && OneValueEach(ops) && OneValueEach(ops + [op])
    requires AppendsTest(c, op, ops == [])
    ensures Edit(Built(f, values, ops), c) == Built(f, values, ops + [op])
  {
    ListsGrow(|values|, ops, op);
    EditGrows(Built(f, values, ops), c, op, Tests(|values|, ops));
    BuiltGrows(f, values, ops, op);
  }

  lemma BuiltGrows(f: Fields, values: seq<Value>, ops: seq<Operator>, op: Operator)
    requires !f.InsertInto? && OneValueEach(ops) && OneValueEach(ops + [op])
    ensures WithTest(Built(f, values, ops), Chain(Tests(|values|, ops + [op])), op) == Built(f, values, ops + [op])
  {
    ListsGrow(|values|, ops, op);
    OneBindIsPut(values + Operands(ops), op);
    Regroup(values, Operands(ops), [Operand(op)]);
  }

  lemma EditGrows(d: Data, c: Call, op: Operator, ps: seq<Predicate>)
    requires !d.fields.InsertInto? && d.fields.where == Chain(ps) && AppendsTest(c, op, ps == [])
    ensures Edit(d, c) == WithTest(d, Chain(ps + [Operators.Test(op, |d.params| + 1)]), op)
  {
    ChainGrows(ps, Operators.Test(op, |d.params| + 1));
  }

  // ----- whole building runs -----

  /** A builder call for each test: `&&` or `||`, the first possibly `where(op)`. */
  predicate BuilderCalls(calls: seq<Call>, ops: seq<Operator>) {
    && |calls| == |ops|
    && forall i | 0 <= i < |calls| :: AppendsTest(calls[i], ops[i], i == 0)
  }

  function EditAll(d: Data, calls: seq<Call>): Data
    requires OffersAll(d.fields, calls)
    decreases |calls|
  {
    if calls == [] then d
    else
      var e := Edit(d, calls[0]);
      assert forall i | 0 <= i < |calls[1..]| :: calls[1..][i] == calls[i + 1];
      EditAll(e, calls[1..])
  }

  /** A run of edits changes the data as the edits do, whatever the caches hold. */
  lemma {:induction false} RunEdits(s: State, calls: seq<Call>)
    requires OffersAll(s.data.fields, calls)
    requires forall i | 0 <= i < |calls| :: !calls[i].Print? && !calls[i].Execute?
    ensures Run(s, calls).0.data == EditAll(s.data, calls) && Run(s, calls).1 == []
    decreases |calls|
  {
    if calls != [] {
      OffersRest(s, calls);
      RunEdits(Step(s, calls[0]).0, calls[1..]);
    }
  }

  lemma MoveOne(done: seq<Operator>, ops: seq<Operator>)
    requires ops != [] && OneValueEach(done + ops)
    ensures (done + [ops[0]]) + ops[1..] == done + ops && OneValueEach(done + [ops[0]])
  {
    var next := done + [ops[0]];
    assert next + ops[1..] == done + ops;
    assert forall i | 0 <= i < |next| :: next[i] == (done + ops)[i];
  }

  lemma {:induction false} BuilderEdits(f: Fields, values: seq<Value>, done: seq<Operator>,
                                        calls: seq<Call>, ops: seq<Operator>)
    requires !f.InsertInto? && OneValueEach(done) && OneValueEach(done + ops)
    requires |calls| == |ops|
    requires forall i | 0 <= i < |calls| :: AppendsTest(calls[i], ops[i], i == 0 && done == [])
    ensures OffersAll(Built(f, values, done).fields, calls)
    ensures EditAll(Built(f, values, done), calls) == Built(f, values, done + ops)
    decreases |calls|
  {
    if calls == [] {
      assert done + ops == done;
    } else {
      var next := done + [ops[0]];
      MoveOne(done, ops);
      TestGrows(f, values, done, ops[0], calls[0]);
      BuilderEdits(f, values, next, calls[1..], ops[1..]);
      EditAllFirst(Built(f, values, done), calls);
    }
  }

  lemma {:induction false} PutSeqAppends(params: seq<Value>, values: seq<Value>)
    ensures PutSeq(params, |params| + 1, values) == params + values
    decreases |values|
  {
    if values == [] {
      assert params + values == params;
    } else {
      PutNext(params, values[0]);
      PutSeqAppends(params + [values[0]], values[1..]);
      assert params + [values[0]] + values[1..] == params + values;
    }
  }

  /** A query as constructed, without a where clause. */
  predicate NewFields(f: Fields) {
    f.InsertInto? || f.where == EMPTY
  }

  lemma FirstBind(f: Fields, values: seq<Value>)
    requires NewFields(f)
    ensures Edit(Data(f, [], map[]), BindAll(values)) == Built(f, values, [])
  {
    PutSeqAppends([], values);
    assert [] + values == values;
    NothingBuilt(f, values);
  }

  lemma NothingBuilt(f: Fields, values: seq<Value>)
    requires NewFields(f)
    ensures Built(f, values, []) == Data(f, values, map[])
  {
    assert Operands([]) == [] && values + [] == values;
    if !f.InsertInto? {
      NoTests(f, |values|);
    }
  }

  lemma NoTests(f: Fields, n: nat)
    requires !f.InsertInto? && f.where == EMPTY
    ensures WithWhere(f, Chain(Tests(n, []))) == f
  {
    assert Tests(n, []) == [];
  }

  /** Binding the column values and then appending the tests leads to exactly this data. */
  lemma BuildingRun(f: Fields, values: seq<Value>, calls: seq<Call>, ops: seq<Operator>)
    requires NewFields(f) && OneValueEach(ops) && BuilderCalls(calls, ops) && (f.InsertInto? ==> ops == [])
    ensures OffersAll(f, [BindAll(values)] + calls)
    ensures Run(Initial(f), [BindAll(values)] + calls).0.data == Built(f, values, ops)
  {
    var all := [BindAll(values)] + calls;
    BuildingCalls(f, values, calls, ops);
    RunEdits(Initial(f), all);
    FirstBind(f, values);
    EditAllFirst(Data(f, [], map[]), all);
    assert [] + ops == ops;
    if !f.InsertInto? {
      BuilderEdits(f, values, [], calls, ops);
    }
  }

  lemma BuildingCalls(f: Fields, values: seq<Value>, calls: seq<Call>, ops: seq<Operator>)
    requires BuilderCalls(calls, ops) && (f.InsertInto? ==> ops == [])
    ensures var all := [BindAll(values)] + calls;
            && OffersAll(f, all) && all[0] == BindAll(values) && all[1..] == calls
            && forall i | 0 <= i < |all| :: !all[i].Print? && !all[i].Execute?
  {
    var all := [BindAll(values)] + calls;
    forall i | 0 <= i < |all| ensures Offers(f, all[i]) && !all[i].Print? && !all[i].Execute? {
      assert i > 0 ==> all[i] == calls[i - 1];
    }
  }

  lemma EditAllFirst(d: Data, calls: seq<Call>)
    requires OffersAll(d.fields, calls) && calls != []
    ensures OffersAll(Edit(d, calls[0]).fields, calls[1..])
    ensures EditAll(d, calls) == EditAll(Edit(d, calls[0]), calls[1..])
  {
    assert forall i | 0 <= i < |calls[1..]| :: calls[1..][i] == calls[i + 1];
  }

  // ----- the placeholders of the text -----

  /** The placeholders of such a query outside its where clause are those of its columns. */
  predicate PlainFields(f: Fields) {
    f.SelectFrom? ==> Placeholders(JoinTexts(f.joins, false)) == [] && f.union.None?
  }

  function ColumnCount(f: Fields): nat {
    if f.InsertInto? || f.UpdateOf? then |f.columns| else 0
  }

  lemma WordsOnly(ts: Text)
    requires forall i | 0 <= i < |ts| :: ts[i].Word?
    ensures Placeholders(ts) == []
  {
  }

  lemma AroundPlaceholders(before: Text, mid: Text, after: Text)
    requires Placeholders(after) == []
    ensures Placeholders(before + mid + after) == Placeholders(before) + Placeholders(mid)
  {
    PlaceholdersConcat(before + mid, after);
    PlaceholdersConcat(before, mid);
  }

  lemma UpdatePlaceholders(f: Fields)
    requires f.UpdateOf?
    ensures Placeholders(FreshText(f)) == UpTo(|f.columns|) + Placeholders(WhereText(f.where, false))
  {
    var lead := [Word("UPDATE "), Word(f.table)];
    var sets := if f.columns == [] then [] else [Word(" SET ")] + JoinParams(f.columns, "=", 0);
    WordsOnly(lead);
    WordsOnly([Word(";")]);
    AroundPlaceholders(lead + sets, WhereText(f.where, false), [Word(";")]);
    PlaceholdersConcat(lead, sets);
    if f.columns != [] {
      WordsOnly([Word(" SET ")]);
      PlaceholdersConcat([Word(" SET ")], JoinParams(f.columns, "=", 0));
      JoinParamsPlaceholders(f.columns, "=", 0);
      assert UpTo(|f.columns|)[0..] == UpTo(|f.columns|);
    }
  }

  lemma InsertPlaceholders(f: Fields)
    requires f.InsertInto?
    ensures Placeholders(FreshText(f)) == UpTo(|f.columns|)
  {
    var lead := [Word("INSERT INTO "), Word(f.table), Word("(")];
    var mid := [Word(") VALUES(")];
    var params := JoinParams(f.columns, "", 0);
    var tail := [Word(")")] + (if f.returning.Some? then [Word(" RETURNING "), Word(f.returning.value)] else []) + [Word(";")];
    WordsOnly(lead);
    WordsOnly(mid);
    WordsOnly(tail);
    CsvPlaceholders(f.columns);
    PlaceholdersConcat(lead, Csv(f.columns));
    PlaceholdersConcat(lead + Csv(f.columns), mid);
    JoinParamsPlaceholders(f.columns, "", 0);
    AroundPlaceholders(lead + Csv(f.columns) + mid, params, tail);
    assert UpTo(|f.columns|)[0..] == UpTo(|f.columns|);
    assert FreshText(f) == lead + Csv(f.columns) + mid + params + tail;
  }

  lemma DeletePlaceholders(f: Fields)
    requires f.DeleteFrom?
    ensures Placeholders(FreshText(f)) == Placeholders(WhereText(f.where, false))
  {
    var lead := [Word("DELETE FROM "), Word(f.table)];
    WordsOnly(lead);
    WordsOnly([Word(";")]);
    AroundPlaceholders(lead, WhereText(f.where, false), [Word(";")]);
  }

  lemma SelectHeadPlaceholders(f: Fields)
    requires f.SelectFrom? && PlainFields(f)
    ensures Placeholders(SelectList(f.columns) + [Word(" FROM "), Word(f.table)] + JoinTexts(f.joins, false)) == []
  {
    var list, from, joins := SelectList(f.columns), [Word(" FROM "), Word(f.table)], JoinTexts(f.joins, false);
    WordsOnly(from);
    WordsOnly([Word("*")]);
    WordsOnly([Word("SELECT ")]);
    CsvPlaceholders(f.columns);
    PlaceholdersConcat([Word("SELECT ")], if f.columns == [] then [Word("*")] else Csv(f.columns));
    PlaceholdersConcat(list, from);
    PlaceholdersConcat(list + from, joins);
  }

  lemma SelectPlaceholders(f: Fields)
    requires f.SelectFrom? && PlainFields(f)
    ensures Placeholders(FreshText(f)) == Placeholders(WhereText(f.where, false))
  {
    var head := SelectList(f.columns) + [Word(" FROM "), Word(f.table)] + JoinTexts(f.joins, false);
    var where := WhereText(f.where, false);
    var o, l, g := Optional(" ORDER BY ", f.orderBy), Optional(" LIMIT ", f.limit), Optional(" GROUP BY ", f.groupBy);
    var u := UnionText(f.union, false);
    SelectHeadPlaceholders(f);
    WordsOnly(o);
    WordsOnly(l);
    WordsOnly(g);
    WordsOnly(u);
    PlaceholdersConcat(head, SelectTail(f, false));
    PlaceholdersConcat(where + o + l + g, u);
    PlaceholdersConcat(where + o + l, g);
    PlaceholdersConcat(where + o, l);
    PlaceholdersConcat(where, o);
  }

  lemma QueryPlaceholders(f: Fields)
    requires PlainFields(f)
    ensures Placeholders(FreshText(f)) ==
            UpTo(ColumnCount(f)) + if f.InsertInto? then [] else Placeholders(WhereText(f.where, false))
  {
    match f
    case InsertInto(_, _, _) => InsertPlaceholders(f);
    case UpdateOf(_, _, _) => UpdatePlaceholders(f);
    case DeleteFrom(_, _) => DeletePlaceholders(f);
    case SelectFrom(_, _, _, _, _, _, _, _) => SelectPlaceholders(f);
  }

  lemma WherePlaceholders(w: Clause)
    ensures Placeholders(WhereText(w, false)) == if IsEmpty(w) then [] else Placeholders(Fresh(w))
  {
    if !IsEmpty(w) {
      WordsOnly([Word(" WHERE ")]);
      PlaceholdersConcat([Word(" WHERE ")], Fresh(w));
    }
  }

  lemma AtomPlaceholder(op: Operator, index: nat)
    ensures Placeholders([Atom(Operators.Test(op, index))]) == [index]
  {
    assert Placeholders([Atom(Operators.Test(op, index))][1..]) == [];
  }

  lemma FreshLeaf(c: Clause)
    requires c.ands == [] && c.ors == []
    ensures Fresh(c) == c.value
  {
    GenerateShapes(c, false);
  }

  lemma FreshConj(c: Clause)
    requires c.ands != [] && c.ors == []
    ensures Fresh(c) == c.value + [KwAnd] + Join(c.ands, KwAnd, false)
  {
    GenerateShapes(c, false);
  }

  lemma FreshAppend(w: Clause, t: Text)
    requires w.value != [] && w.ors == [] && t != []
    ensures Fresh(Appended(w, AndText(t))) == Fresh(w) + ([KwAnd] + t)
  {
    var x := Appended(w, AndText(t));
    assert x.ands == w.ands + [Leaf(t)] && x.ors == [];
    FreshConj(x);
    FreshLeaf(Leaf(t));
    if w.ands == [] {
      FreshLeaf(w);
      assert x.ands == [Leaf(t)];
    } else {
      FreshConj(w);
      JoinSnoc(w.ands, Leaf(t), KwAnd, false);
      RegroupFour(w.value + [KwAnd], Join(w.ands, KwAnd, false), [KwAnd], t);
    }
  }

  /** One more test adds its own placeholder at the end. */
  lemma AppendPlaceholders(w: Clause, op: Operator, index: nat)
    requires w.ors == [] && (w.value == [] ==> w.ands == [])
    ensures var t := [Atom(Operators.Test(op, index))];
            Placeholders(WhereText(Appended(w, AndText(t)), false)) == Placeholders(WhereText(w, false)) + [index]
  {
    var t := [Atom(Operators.Test(op, index))];
    var x := Appended(w, AndText(t));
    WherePlaceholders(w);
    WherePlaceholders(x);
    AtomPlaceholder(op, index);
    if w.value == [] {
      FreshLeaf(x);
    } else {
      FreshAppend(w, t);
      PlaceholdersConcat(Fresh(w), [KwAnd] + t);
      PlaceholdersConcat([KwAnd], t);
      assert Placeholders([KwAnd]) == [];
    }
  }

  /** The `n` numbers after `m`. */
  function Range(m: nat, n: nat): (ns: seq<nat>)
    ensures |ns| == n && (n > 0 ==> ns == Range(m, n - 1) + [m + n])
  {
    seq(n, i requires 0 <= i < n => m + i + 1)
  }

  lemma OneMoreTest(ps: seq<Predicate>, op: Operator, index: nat)
    ensures Placeholders(WhereText(Chain(ps + [Operators.Test(op, index)]), false))
         == Placeholders(WhereText(Chain(ps), false)) + [index]
  {
    ChainGrows(ps, Operators.Test(op, index));
    AppendPlaceholders(Chain(ps), op, index);
  }

  lemma TestsSnoc(base: nat, ops: seq<Operator>, last: Operator)
    ensures Tests(base, ops + [last]) == Tests(base, ops) + [Operators.Test(last, base + |ops| + 1)]
  {
  }

  lemma {:induction false} ChainPlaceholders(base: nat, ops: seq<Operator>)
    ensures Placeholders(WhereText(Chain(Tests(base, ops)), false)) == Range(base, |ops|)
    decreases |ops|
  {
    if ops != [] {
      var init, last := ops[..|ops| - 1], ops[|ops| - 1];
      assert ops == init + [last];
      TestsSnoc(base, init, last);
      calc {
        Placeholders(WhereText(Chain(Tests(base, ops)), false));
        { OneMoreTest(Tests(base, init), last, base + |ops|); }
        Placeholders(WhereText(Chain(Tests(base, init)), false)) + [base + |ops|];
        { ChainPlaceholders(base, init); }
        Range(base, |init|) + [base + |ops|];
        Range(base, |ops|);
      }
    }
  }

  /** Agreement over whole building runs: one value per column bound first, then any number of
      single-valued tests.  The text holds 1..N in order, so it reads the same whether placeholders
      are numbered or positional; parameter k is the column value or operand of placeholder k. */
  lemma PlaceholdersAgree(f: Fields, values: seq<Value>, calls: seq<Call>, ops: seq<Operator>)
    requires NewFields(f) && PlainFields(f) && |values| == ColumnCount(f)
    requires OneValueEach(ops) && BuilderCalls(calls, ops) && (f.InsertInto? ==> ops == [])
    ensures OffersAll(f, [BindAll(values)] + calls)
    ensures var d := Run(Initial(f), [BindAll(values)] + calls).0.data;
            && Placeholders(FreshText(d.fields)) == UpTo(|d.params|)
            && d.params == values + Operands(ops)
            && d.fields == if f.InsertInto? then f else WithWhere(f, Chain(Tests(|values|, ops)))
  {
    BuildingRun(f, values, calls, ops);
    BuiltPlaceholders(f, values, ops);
  }

  lemma BuiltPlaceholders(f: Fields, values: seq<Value>, ops: seq<Operator>)
    requires PlainFields(f) && |values| == ColumnCount(f)
    requires OneValueEach(ops) && (f.InsertInto? ==> ops == [])
    ensures Placeholders(FreshText(Built(f, values, ops).fields)) == UpTo(|values| + |ops|)
  {
    var g := Built(f, values, ops).fields;
    assert PlainFields(g) && ColumnCount(g) == |values|;
    QueryPlaceholders(g);
    if !f.InsertInto? {
      assert g.where == Chain(Tests(|values|, ops));
      ChainPlaceholders(|values|, ops);
      UpToSplits(|values|, |ops|);
    }
  }

  lemma UpToSplits(m: nat, n: nat)
    ensures UpTo(m) + Range(m, n) == UpTo(m + n)
  {
  }

  // ----- exactly which operators keep the agreement -----

  lemma {:induction false} PutAllInOrder(params: seq<Value>, base: nat, vs: seq<Value>, from: nat)
    requires from <= |vs| && |params| + 1 == base + from
    ensures var binds := seq(|vs|, i requires 0 <= i < |vs| => (i as nat, vs[i]));
            PutAll(params, base, binds[from..]) == params + vs[from..]
    decreases |vs| - from
  {
    var binds := seq(|vs|, i requires 0 <= i < |vs| => (i as nat, vs[i]));
    if from < |vs| {
      PutNext(params, vs[from]);
      PutAllInOrder(params + [vs[from]], base, vs, from + 1);
      assert binds[from..][0] == (from, vs[from]) && binds[from..][1..] == binds[from + 1..];
      assert params + [vs[from]] + vs[from + 1..] == params + vs[from..];
    }
  }

  lemma BetweenKeepsSecond(params: seq<Value>, op: Operator)
    requires op.Between?
    ensures PutAll(params, |params| + 1, Binds(op)) == params + [op.second]
  {
    var n := |params| + 1;
    var once := params + [op.first];
    PutNext(params, op.first);
    PutTwice(params, n, op.first, op.second);
    PutReplaces(params, op.first, op.second);
  }

  lemma PutTwice(params: seq<Value>, base: nat, v: Value, w: Value)
    ensures PutAll(params, base, [(0, v), (0, w)]) == Put(Put(params, base, v), base, w)
  {
    var binds: seq<(nat, Value)> := [(0, v), (0, w)];
    assert binds[1..] == [(0, w)];
    PutAllOne(Put(params, base, v), base, w);
  }

  lemma PutReplaces(params: seq<Value>, v: Value, w: Value)
    ensures Put(params + [v], |params| + 1, w) == params + [w]
  {
  }

  /** What a test adds to the parameters. */
  lemma KeptValues(params: seq<Value>, op: Operator)
    ensures PutAll(params, |params| + 1, Binds(op)) == params + Kept(op)
  {
    match op
    case Single(_, _, _, v) =>
      if !IsNamed(v) { OneBindIsPut(params, op); }
    case In(_, _, vs) => InKeepsAll(params, op);
    case Between(_, _, _, _) => BetweenKeepsSecond(params, op);
  }

  lemma InKeepsAll(params: seq<Value>, op: Operator)
    requires op.In?
    ensures PutAll(params, |params| + 1, Binds(op)) == params + op.rvalues
  {
    var vs := op.rvalues;
    PutAllInOrder(params, |params| + 1, vs, 0);
    assert Binds(op)[0..] == Binds(op) && vs[0..] == vs;
    assert Binds(op) == seq(|vs|, i requires 0 <= i < |vs| => (i as nat, vs[i]));
  }

  /** A query to which tests can be appended, with its placeholders in step with its parameters. */
  predicate InStep(d: Data) {
    && Appendable(d.fields)
    && Placeholders(FreshText(d.fields)) == UpTo(|d.params|)
  }

  /** The placeholders are still 1..N, and the new parameters are the values the test takes. */
  predicate Agrees(d: Data, op: Operator)
    requires !d.fields.InsertInto?
  {
    var e := Edit(d, WhereAnd(op));
    Placeholders(FreshText(e.fields)) == UpTo(|e.params|) && e.params == d.params + Needs(op)
  }

  /** From placeholders in step, an appended test agrees with its parameters exactly when it is a
      comparison other than IS NULL whose operand is not a name, or an IN of one value. */
  lemma AgreementKeptIff(d: Data, op: Operator)
    requires InStep(d)
    ensures Agrees(d, op) <==> TakesOne(op)
  {
    var e := Edit(d, WhereAnd(op));
    EditPlaceholders(d, op);
    OneMoreIff(Placeholders(FreshText(d.fields)), Placeholders(FreshText(e.fields)), |d.params|, |e.params|);
    SameTail(d.params, Kept(op), Needs(op));
  }

  lemma SameTail(params: seq<Value>, a: seq<Value>, b: seq<Value>)
    ensures params + a == params + b <==> a == b
  {
    assert (params + a)[|params|..] == a && (params + b)[|params|..] == b;
  }

  ghost predicate AlwaysAgrees(d: Data, ops: seq<Operator>)
    requires !d.fields.InsertInto?
    decreases |ops|
  {
    ops == [] || (Agrees(d, ops[0]) && AlwaysAgrees(Edit(d, WhereAnd(ops[0])), ops[1..]))
  }

  lemma AgreeingStep(d: Data, op: Operator)
    requires InStep(d) && Agrees(d, op)
    ensures InStep(Edit(d, WhereAnd(op)))
  {
  }

  /** Over whole runs of appends, every one agrees exactly when each test takes one value. */
  lemma {:induction false} AgreementOverRunsIff(d: Data, ops: seq<Operator>)
    requires InStep(d)
    ensures AlwaysAgrees(d, ops) <==> AllTakeOne(ops)
    decreases |ops|
  {
    if ops != [] {
      FirstTakesOne(ops);
      AgreementKeptIff(d, ops[0]);
      if TakesOne(ops[0]) {
        AgreeingStep(d, ops[0]);
        AgreementOverRunsIff(Edit(d, WhereAnd(ops[0])), ops[1..]);
      }
    }
  }

  predicate AllTakeOne(ops: seq<Operator>) {
    forall i | 0 <= i < |ops| :: TakesOne(ops[i])
  }

  lemma FirstTakesOne(ops: seq<Operator>)
    requires ops != []
    ensures AllTakeOne(ops) <==> TakesOne(ops[0]) && AllTakeOne(ops[1..])
  {
    assert ops == [ops[0]] + ops[1..];
  }

  /** An execution of a modifying query drops the parameters and keeps the where clause: the agreement
      survives it exactly when the text has no placeholder.  A select keeps both. */
  lemma AgreementAfterExecuteIff(s: State)
    requires CoherentFields(s.data.fields) && Executable(s.data.fields)
    requires Placeholders(FreshText(s.data.fields)) == UpTo(|s.data.params|)
    ensures var d := Step(s, Execute).0.data;
            Placeholders(FreshText(d.fields)) == UpTo(|d.params|)
            <==> s.data.fields.SelectFrom? || Placeholders(FreshText(s.data.fields)) == []
  {
    RenderedSame(s.data.fields);
    assert UpTo(0) == [];
  }

  predicate Appendable(f: Fields) {
    && !f.InsertInto? && PlainFields(f) && f.where.ors == [] && (f.where.value == [] ==> f.where.ands == [])
  }

  lemma EditPlaceholders(d: Data, op: Operator)
    requires Appendable(d.fields)
    ensures var e := Edit(d, WhereAnd(op));
            Placeholders(FreshText(e.fields)) == Placeholders(FreshText(d.fields)) + [|d.params| + 1]
            && e.params == d.params + Kept(op)
  {
    OneMorePlaceholder(d.fields, op, |d.params| + 1);
    KeptValues(d.params, op);
  }

  /** A test appended after the execution of a modifying query is numbered 1, whatever placeholders the
      where clause has kept. */
  lemma NumberedAgain(s: State, op: Operator)
    requires InStep(s.data) && Executable(s.data.fields) && !s.data.fields.SelectFrom?
    ensures var e := Edit(Step(s, Execute).0.data, WhereAnd(op));
            Placeholders(FreshText(e.fields)) == UpTo(|s.data.params|) + [1] && e.params == Kept(op)
  {
    assert Step(s, Execute).0.data == Cleared(s.data);
    EditPlaceholders(Cleared(s.data), op);
    assert [] + Kept(op) == Kept(op);
  }

  lemma OneMoreIff(before: seq<nat>, after: seq<nat>, n: nat, m: nat)
    requires before == UpTo(n) && after == before + [n + 1]
    ensures after == UpTo(m) <==> m == n + 1
  {
    assert |after| == n + 1;
    assert after == UpTo(n + 1);
  }

  lemma OneMorePlaceholder(f: Fields, op: Operator, index: nat)
    requires Appendable(f)
    ensures var g := WithWhere(f, Appended(f.where, AndText([Atom(Operators.Test(op, index))])));
            Placeholders(FreshText(g)) == Placeholders(FreshText(f)) + [index]
  {
    QueryPlaceholders(f);
    QueryPlaceholders(WithWhere(f, Appended(f.where, AndText([Atom(Operators.Test(op, index))]))));
    AppendPlaceholders(f.where, op, index);
  }
}
