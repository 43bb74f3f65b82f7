/** The query state machine of src/query.cpp, src/modify_query.cpp and the query classes: fields,
    parameters, the cached text, the dirty flag and the statement that is reused while clean.

    `Step` is what one call does.  The invariant `Sync` says that neither the cached text nor a
    statement about to be reused is stale; it is kept by every call that tells the query it changed
    something, and exactly characterised for the calls that do not. */
module QueryMachine {
  import opened SqlText
  import opened WhereClause
  import opened Operators
  import opened QueryText

  /** A prepared statement: its text and the values bound to it; also what an execution runs. */
  datatype Statement = Statement(sql: Text, bound: map<nat, Value>, named: map<string, Value>)

  /** What the caller has put into a query. */
  datatype Data = Data(fields: Fields, params: seq<Value>, named: map<string, Value>)

  datatype State = State(data: Data, cache: Text, dirty: bool, stmt: Option<Statement>)

  function Initial(f: Fields): State {
    State(Data(f, [], map[]), [], false, None)
  }

  datatype Call =
    | SetTable(table: string)
    | SetColumns(columns: seq<string>)
    | AddColumn(column: string)
    | SetOrderBy(text: string)
    | SetLimit(text: string)
    | SetGroupBy(text: string)
    | AddJoin(join: JoinClause)
    | SetUnion(all: bool, query: Fields)
    | BindIndex(index: nat, value: Value)
    | BindName(name: string, value: Value)
    | BindAll(values: seq<Value>)
    | AddValue(value: Value)
    | WhereIs(op: Operator)
    | WhereAnd(op: Operator)
    | WhereOr(op: Operator)
    | WhereCopy(clause: Clause)
    | PrintWhere
    | Print
    | Execute
    | CallerReset

  /** The calls each query class offers. */
  predicate Offers(f: Fields, c: Call) {
    match c
    case SetColumns(_) => !f.DeleteFrom?
    case AddColumn(_) => !f.DeleteFrom?
    case SetOrderBy(_) => f.SelectFrom?
    case SetLimit(_) => f.SelectFrom?
    case SetGroupBy(_) => f.SelectFrom?
    case AddJoin(_) => f.SelectFrom?
    case SetUnion(_, q) => f.SelectFrom? && q.SelectFrom?
    case AddValue(_) => f.InsertInto? || f.UpdateOf?
    case WhereIs(_) => !f.InsertInto?
    case WhereAnd(_) => !f.InsertInto?
    case WhereOr(_) => !f.InsertInto?
    case WhereCopy(_) => !f.InsertInto?
    case PrintWhere => !f.InsertInto?
    case _ => true
  }

  // ----- parameters -----

  /** `params_[assert_binding_index(index)] = value`, growing with nulls; index 0 throws. */
  function Put(params: seq<Value>, index: nat, v: Value): (r: seq<Value>)
    ensures |r| >= |params|
    ensures index >= 1 ==> |r| == (if index <= |params| then |params| else index) && r[index - 1] == v
    ensures forall i | 0 <= i < |params| && i + 1 != index :: r[i] == params[i]
    ensures forall i | |params| <= i < |r| && i + 1 != index :: r[i] == Null
  {
    if index == 0 then params
    else if index <= |params| then params[index - 1 := v]
    else params + seq(index - 1 - |params|, i => Null) + [v]
  }

  function PutAll(params: seq<Value>, base: nat, binds: seq<(nat, Value)>): seq<Value>
    decreases |binds|
  {
    if binds == [] then params
    else PutAll(Put(params, base + binds[0].0, binds[0].1), base, binds[1..])
  }

  /** Values bound from index `from` on, in order. */
  function PutSeq(params: seq<Value>, from: nat, values: seq<Value>): seq<Value>
    decreases |values|
  {
    if values == [] then params else PutSeq(Put(params, from, values[0]), from + 1, values[1..])
  }

  function ParamAt(params: seq<Value>, i: nat): Value
    requires 1 <= i <= |params|
  {
    params[i - 1]
  }

  /** The values a new statement gets, by placeholder number. */
  function Bound(params: seq<Value>): map<nat, Value> {
    map i: nat | 1 <= i <= |params| :: ParamAt(params, i)
  }

  // ----- what a call edits -----

  function WithTest(d: Data, where: Clause, op: Operator): Data
    requires !d.fields.InsertInto?
  {
    d.(fields := WithWhere(d.fields, where),
       params := PutAll(d.params, |d.params| + 1, Binds(op)))
  }

  function TestText(d: Data, op: Operator): Text {
    [Atom(Test(op, |d.params| + 1))]
  }

  function Edit(d: Data, c: Call): (r: Data)
    requires Offers(d.fields, c)
  {
    match c
    case SetTable(t) => d.(fields := WithTable(d.fields, t))
    case SetColumns(cs) => d.(fields := WithColumns(d.fields, cs))
    case AddColumn(n) => if n == "" then d else d.(fields := WithColumns(d.fields, d.fields.columns + [n]))
    case SetOrderBy(t) => d.(fields := d.fields.(orderBy := t))
    case SetLimit(t) => d.(fields := d.fields.(limit := t))
    case SetGroupBy(t) => d.(fields := d.fields.(groupBy := t))
    case AddJoin(j) => d.(fields := d.fields.(joins := d.fields.joins + [j]))
    case SetUnion(all, q) => d.(fields := d.fields.(union := Some(Union(all, q, []))))
    case BindIndex(i, v) => d.(params := Put(d.params, i, v))
    case BindName(n, v) => d.(named := d.named[n := v])
    case BindAll(vs) => d.(params := PutSeq(d.params, 1, vs))
    case AddValue(v) => d.(params := Put(d.params, |d.params| + 1, v))
    case WhereIs(op) => WithTest(d, Leaf(TestText(d, op)), op)
    // the builder's `||` appends with AND
    case WhereAnd(op) => WithTest(d, Appended(d.fields.where, AndText(TestText(d, op))), op)
    case WhereOr(op) => WithTest(d, Appended(d.fields.where, AndText(TestText(d, op))), op)
    case WhereCopy(w) => d.(fields := WithWhere(d.fields, w))
    case PrintWhere => d.(fields := WithWhere(d.fields, Next(d.fields.where, Show)))
    case Print => d
    case Execute => d
    case CallerReset => Cleared(d)
  }

  function Cleared(d: Data): Data {
    d.(params := [], named := map[])
  }

  /** A where append that binds nothing and therefore never reaches `query::set_modified`. */
  predicate Silent(c: Call) {
    (c.WhereAnd? || c.WhereOr?) && Quiet(c.op)
  }

  /** Whether the call ends in `query::set_modified`. */
  predicate Notifies(c: Call) {
    match c
    case AddColumn(n) => n != ""
    case BindIndex(i, _) => i != 0
    case PrintWhere => false
    case Print => false
    case Execute => false
    case CallerReset => false
    case _ => !Silent(c)
  }

  // ----- one call -----

  /** `to_sql()`: fill the cache if it is empty. */
  function Printing(s: State): State {
    if s.cache != [] then s
    else s.(cache := Body(s.data.fields, true), data := s.data.(fields := Rendered(s.data.fields)))
  }

  /** Whether `prepare` will make a new statement. */
  predicate MustPrepare(s: State) {
    s.stmt.None? || s.dirty
  }

  function Prepare(s: State): State {
    if MustPrepare(s) then
      s.(stmt := Some(Statement(s.cache, Bound(s.data.params), s.data.named)), dirty := false)
    else s
  }

  /** `query::reset`, called by `execute` and open to the caller. */
  function Reset(s: State): State {
    s.(data := Cleared(s.data), dirty := false)
  }

  /** `reset` by the caller.  A select also drops its statement.  `query::reset` calls the statement
      without looking whether there is one; `NullReset` says when there is none. */
  function ResetByCaller(s: State): State {
    if s.data.fields.SelectFrom? then Reset(s).(stmt := None) else Reset(s)
  }

  /** An empty table name makes `execute` of a modifying query throw before it does anything. */
  predicate Executable(f: Fields) {
    f.SelectFrom? || f.table != ""
  }

  function Step(s: State, c: Call): (r: (State, Option<Statement>))
    requires Offers(s.data.fields, c)
  {
    match c
    case Print => (Printing(s), None)
    case Execute =>
      if !Executable(s.data.fields) then (s, None)
      else
        var p := Prepare(Printing(s));
        (if s.data.fields.SelectFrom? then p else Reset(p), p.stmt)
    case CallerReset => (ResetByCaller(s), None)
    case _ =>
      var t := s.(data := Edit(s.data, c));
      (if Notifies(c) then t.(cache := [], dirty := true) else t, None)
  }

  predicate OffersAll(f: Fields, calls: seq<Call>)
  {
    forall i | 0 <= i < |calls| :: Offers(f, calls[i])
  }

  /** A call never changes which class the query is of. */
  predicate SameKind(f: Fields, g: Fields) {
    && (f.InsertInto? <==> g.InsertInto?) && (f.UpdateOf? <==> g.UpdateOf?)
    && (f.DeleteFrom? <==> g.DeleteFrom?) && (f.SelectFrom? <==> g.SelectFrom?)
  }

  lemma RenderedKind(f: Fields)
    ensures SameKind(f, Rendered(f))
  {
  }

  lemma StepKind(s: State, c: Call)
    requires Offers(s.data.fields, c)
    ensures SameKind(s.data.fields, Step(s, c).0.data.fields)
  {
    match c
    case Print => RenderedKind(s.data.fields);
    case Execute => RenderedKind(s.data.fields);
    case _ => EditKind(s.data, c);
  }

  lemma EditKind(d: Data, c: Call)
    requires Offers(d.fields, c)
    ensures SameKind(d.fields, Edit(d, c).fields)
  {
    match c
    case SetTable(_) =>
    case SetColumns(_) =>
    case AddColumn(_) =>
    case _ =>
  }

  // ----- nothing stale -----

  /** The clauses and joins a caller passes in come from runs of their own. */
  ghost predicate CoherentCall(c: Call) {
    match c
    case AddJoin(j) => CoherentJoin(j)
    case SetUnion(_, q) => CoherentFields(q)
    case WhereCopy(w) => Coherent(w)
    case _ => true
  }

  ghost predicate Sync(s: State) {
    && CoherentFields(s.data.fields)
    && (s.cache == [] || s.cache == FreshText(s.data.fields))
    && (!MustPrepare(s) ==> s.stmt.value.sql == FreshText(s.data.fields))
  }

  /** Nothing has been rendered or prepared since the last notified change. */
  predicate Pending(s: State) {
    s.cache == [] && MustPrepare(s)
  }

  /** No change is waiting that a reset by the caller could make the query forget. */
  predicate Settled(s: State) {
    s.data.fields.SelectFrom? || s.stmt.None? || !s.dirty
  }

  lemma EditCoherent(d: Data, c: Call)
    requires Offers(d.fields, c) && CoherentFields(d.fields) && CoherentCall(c)
    ensures CoherentFields(Edit(d, c).fields)
    ensures c.PrintWhere? ==> FreshText(Edit(d, c).fields) == FreshText(d.fields)
  {
    match c
    case WhereAnd(op) => NextCoherent(d.fields.where, Add(AndText(TestText(d, op))));
    case WhereOr(op) => NextCoherent(d.fields.where, Add(AndText(TestText(d, op))));
    case PrintWhere => PrintWhereCoherent(d);
    case AddJoin(j) =>
      var joins := Edit(d, c).fields.joins;
      assert forall i | 0 <= i < |joins| :: joins[i] == j || joins[i] == d.fields.joins[i];
    case _ =>
  }

  lemma PrintWhereCoherent(d: Data)
    requires !d.fields.InsertInto? && CoherentFields(d.fields)
    ensures var f := Edit(d, PrintWhere).fields; CoherentFields(f) && FreshText(f) == FreshText(d.fields)
  {
    var w := d.fields.where;
    var x := Next(w, Show);
    NextCoherent(w, Show);
    assert Generate(x, false) == Generate(w, false);
    assert WhereText(x, false) == WhereText(w, false);
    var f := Edit(d, PrintWhere).fields;
    if f.SelectFrom? {
      assert SelectTail(f, false) == SelectTail(d.fields, false);
    }
  }

  lemma PrintingSync(s: State)
    requires Sync(s)
    ensures Sync(Printing(s)) && Printing(s).cache == FreshText(s.data.fields)
    ensures FreshText(Printing(s).data.fields) == FreshText(s.data.fields)
  {
    BodyCached(s.data.fields);
    RenderedSame(s.data.fields);
  }

  lemma StepSync(s: State, c: Call)
    requires Offers(s.data.fields, c) && CoherentCall(c) && Sync(s)
    requires (Silent(c) ==> Pending(s)) && (c.CallerReset? ==> Settled(s))
    ensures Sync(Step(s, c).0)
  {
    match c
    case Print => PrintingSync(s);
    case Execute => ExecuteSync(s);
    case CallerReset =>
    case _ => EditSync(s, c);
  }

  lemma ExecuteSync(s: State)
    requires Sync(s)
    ensures Sync(Step(s, Execute).0)
  {
    PrintingSync(s);
  }

  lemma EditSync(s: State, c: Call)
    requires Offers(s.data.fields, c) && CoherentCall(c) && Sync(s)
    requires Silent(c) ==> Pending(s)
    requires !c.Print? && !c.Execute? && !c.CallerReset?
    ensures Sync(Step(s, c).0)
  {
    EditCoherent(s.data, c);
    if !Notifies(c) && !Silent(c) {
      QuietCallKeepsText(s.data, c);
    }
  }

  /** Whether the call changes what the query runs. */
  predicate Changes(c: Call) {
    Notifies(c) || Silent(c)
  }

  /** Calls that neither notify nor append leave the text alone. */
  lemma QuietCallKeepsText(d: Data, c: Call)
    requires Offers(d.fields, c) && CoherentFields(d.fields) && !Changes(c)
    ensures FreshText(Edit(d, c).fields) == FreshText(d.fields)
  {
    if c.PrintWhere? {
      PrintWhereCoherent(d);
    }
  }

  /** What a caller of `to_sql` or `execute` sees is the text of the current fields. */
  lemma ExecutesFresh(s: State)
    requires Sync(s)
    ensures Step(s, Print).0.cache == FreshText(s.data.fields)
    ensures Executable(s.data.fields) ==>
              Step(s, Execute).1.Some? && Step(s, Execute).1.value.sql == FreshText(s.data.fields)
  {
    PrintingSync(s);
  }

  /** If the text of the fields changes without the query being told, the state stays in sync
      exactly when nothing had been rendered or prepared. */
  lemma UnnoticedChange(s: State, f: Fields)
    requires Sync(s) && CoherentFields(f) && FreshText(f) != FreshText(s.data.fields)
    ensures Sync(s.(data := s.data.(fields := f))) <==> Pending(s)
  {
  }

  // ----- the silent append -----

  lemma {:induction false} JoinLength(parts: seq<Clause>, last: Clause, connective: Token)
    ensures |Join(parts + [last], connective, false)| ==
            |Join(parts, connective, false)| + |Fresh(last)| + if parts == [] then 0 else 1
  {
    if parts == [] {
      assert parts + [last] == [last];
    } else {
      JoinSnoc(parts, last, connective, false);
    }
  }

  /** Appending a non-empty text with AND makes the clause print longer. */
  lemma AppendGrows(w: Clause, t: Text)
    requires t != []
    ensures |WhereText(Appended(w, AndText(t)), false)| > |WhereText(w, false)|
  {
    var x := Appended(w, AndText(t));
    GenerateShapes(w, false);
    GenerateShapes(x, false);
    GenerateShapes(Leaf(t), false);
    JoinLength(w.ands, Leaf(t), KwAnd);
  }

  lemma TextLength(f: Fields, g: Fields)
    requires SameKind(f, g) && !f.InsertInto? && g == WithWhere(f, g.where)
    ensures |FreshText(g)| - |WhereText(g.where, false)| == |FreshText(f)| - |WhereText(f.where, false)|
  {
    if f.SelectFrom? {
      assert |SelectTail(g, false)| - |WhereText(g.where, false)| == |SelectTail(f, false)| - |WhereText(f.where, false)|;
    }
  }

  /** A where append with a named operand, or with an empty IN list, leaves the query stale exactly
      when its text was already rendered or prepared. */
  lemma SilentAppendIff(s: State, c: Call)
    requires Offers(s.data.fields, c) && Silent(c) && Sync(s)
    ensures Sync(Step(s, c).0) <==> Pending(s)
  {
    var t := Step(s, c).0;
    var f, g := s.data.fields, t.data.fields;
    EditCoherent(s.data, c);
    AppendGrows(f.where, TestText(s.data, c.op));
    TextLength(f, g);
    UnnoticedChange(s, g);
  }

  // ----- whole runs -----

  /** The states and executions of a run. */
  function Run(s: State, calls: seq<Call>): (r: (State, seq<Statement>))
    requires OffersAll(s.data.fields, calls)
    decreases |calls|
  {
    if calls == [] then (s, [])
    else
      var (t, e) := Step(s, calls[0]);
      StepKind(s, calls[0]);
      OffersRest(s, calls);
      var (u, es) := Run(t, calls[1..]);
      (u, (if e.Some? then [e.value] else []) + es)
  }

  lemma OffersRest(s: State, calls: seq<Call>)
    requires OffersAll(s.data.fields, calls) && calls != []
    ensures OffersAll(Step(s, calls[0]).0.data.fields, calls[1..])
  {
    StepKind(s, calls[0]);
    forall i | 0 <= i < |calls[1..]| ensures Offers(Step(s, calls[0]).0.data.fields, calls[1..][i]) {
      assert Offers(s.data.fields, calls[i + 1]);
    }
  }

  /** Arguments are coherent, silent appends happen only while a change is pending, and the caller
      resets only while none is. */
  ghost predicate Careful(s: State, calls: seq<Call>)
    requires OffersAll(s.data.fields, calls)
    decreases |calls|
  {
    calls == [] ||
    (&& CoherentCall(calls[0])
     && (Silent(calls[0]) ==> Pending(s)) && (calls[0].CallerReset? ==> Settled(s))
     && (OffersRest(s, calls); Careful(Step(s, calls[0]).0, calls[1..])))
  }

  /** In every reachable state of every such run the cached text is empty or current. */
  lemma {:induction false} EveryRunInSync(s: State, calls: seq<Call>)
    requires Sync(s) && OffersAll(s.data.fields, calls) && Careful(s, calls)
    ensures Sync(Run(s, calls).0)
    decreases |calls|
  {
    if calls != [] {
      StepSync(s, calls[0]);
      OffersRest(s, calls);
      EveryRunInSync(Step(s, calls[0]).0, calls[1..]);
    }
  }

  /** A run without silent appends and resets by the caller is careful wherever it starts. */
  lemma {:induction false} LoudRunsAreCareful(s: State, calls: seq<Call>)
    requires OffersAll(s.data.fields, calls)
    requires forall i | 0 <= i < |calls| :: CoherentCall(calls[i]) && !Silent(calls[i]) && !calls[i].CallerReset?
    ensures Careful(s, calls)
    decreases |calls|
  {
    if calls != [] {
      OffersRest(s, calls);
      LoudRunsAreCareful(Step(s, calls[0]).0, calls[1..]);
    }
  }
}
