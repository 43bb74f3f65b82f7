/** What a caller can read off the calls made on a query, without looking at the query: the last value
    bound to each index and name since they were last cleared, and the last argument of each setter.
    Over every run the query's data, and each statement it prepares, are exactly that. */
module CallReading {
  import opened SqlText
  import opened WhereClause
  import opened Operators
  import opened QueryText
  import opened QueryMachine
  import opened StatementReuse
  import opened ParameterOrder

  // ----- bound values -----

  /** The table name, the named values, the values by index, and the highest index. */
  datatype Reading = Reading(table: string, named: map<string, Value>, indexed: map<nat, Value>, size: nat)

  function Unread(f: Fields): Reading {
    Reading(f.table, map[], map[], 0)
  }

  function BindAt(r: Reading, i: nat, v: Value): Reading {
    r.(indexed := r.indexed[i := v], size := if i <= r.size then r.size else i)
  }

  function ListAt(vs: seq<Value>, k: nat, from: nat): Value
    requires from <= k < from + |vs|
  {
    vs[k - from]
  }

  /** The values at consecutive indexes. */
  function Listed(vs: seq<Value>, from: nat): (m: map<nat, Value>)
    ensures forall k: nat :: k in m <==> from <= k < from + |vs|
    ensures forall k: nat | k in m :: m[k] == vs[k - from]
  {
    map k: nat | from <= k < from + |vs| :: ListAt(vs, k, from)
  }

  /** Consecutive values from an index on. */
  function BindFrom(r: Reading, from: nat, vs: seq<Value>): Reading
    requires from >= 1
  {
    r.(indexed := r.indexed + Listed(vs, from),
       size := if from + |vs| - 1 <= r.size then r.size else from + |vs| - 1)
  }

  function Forget(r: Reading): Reading {
    Reading(r.table, map[], map[], 0)
  }

  /** A test binds its operand, all values of an IN, or the upper end of a BETWEEN, after the highest
      index; a name it does not bind. */
  function ReadTest(r: Reading, op: Operator): Reading {
    match op
    case Single(_, _, _, v) => if IsNamed(v) then r else BindAt(r, r.size + 1, v)
    case In(_, _, vs) => BindFrom(r, r.size + 1, vs)
    case Between(_, _, _, hi) => BindAt(r, r.size + 1, hi)
  }

  function Read(select: bool, r: Reading, c: Call): Reading {
    match c
    case SetTable(t) => r.(table := t)
    case BindName(n, v) => r.(named := r.named[n := v])
    case BindIndex(i, v) => if i == 0 then r else BindAt(r, i, v)
    case BindAll(vs) => BindFrom(r, 1, vs)
    case AddValue(v) => BindAt(r, r.size + 1, v)
    case WhereIs(op) => ReadTest(r, op)
    case WhereAnd(op) => ReadTest(r, op)
    case WhereOr(op) => ReadTest(r, op)
    case Execute => if !select && r.table != "" then Forget(r) else r
    case CallerReset => Forget(r)
    case _ => r
  }

  function ReadAll(select: bool, r: Reading, calls: seq<Call>): Reading
    decreases |calls|
  {
    if calls == [] then r else ReadAll(select, Read(select, r, calls[0]), calls[1..])
  }

  /** Parameter k as read: the last value bound there, null in a gap. */
  function ParameterRead(r: Reading, k: nat): Value {
    if k in r.indexed then r.indexed[k] else Null
  }

  function ParametersRead(r: Reading): (vs: seq<Value>)
    ensures |vs| == r.size
  {
    seq(r.size, i requires 0 <= i < r.size => ParameterRead(r, i + 1))
  }

  /** The query's data are as read. */
  ghost predicate AsRead(d: Data, r: Reading) {
    && d.fields.table == r.table && d.named == r.named && |d.params| == r.size
    && (forall k | k in r.indexed :: 1 <= k <= r.size)
    && (forall k: nat | 1 <= k <= r.size :: ParamAt(d.params, k) == ParameterRead(r, k))
  }

  lemma PutAsRead(d: Data, r: Reading, i: nat, v: Value)
    requires AsRead(d, r) && i >= 1
    ensures AsRead(d.(params := Put(d.params, i, v)), BindAt(r, i, v))
  {
    var params, q := Put(d.params, i, v), BindAt(r, i, v);
    forall k: nat | 1 <= k <= q.size ensures ParamAt(params, k) == ParameterRead(q, k) {
      if k <= r.size && k != i {
        assert ParamAt(d.params, k) == ParameterRead(r, k);
      }
    }
  }

  lemma {:induction false} PutSeqAt(params: seq<Value>, from: nat, vs: seq<Value>)
    requires from >= 1
    ensures var r := PutSeq(params, from, vs);
            && |r| == (if vs == [] || from + |vs| - 1 <= |params| then |params| else from + |vs| - 1)
            && (forall i | 0 <= i < |vs| :: r[from - 1 + i] == vs[i])
            && (forall i | 0 <= i < |params| && !(from - 1 <= i < from - 1 + |vs|) :: r[i] == params[i])
            && (forall i | |params| <= i < |r| && i < from - 1 :: r[i] == Null)
    decreases |vs|
  {
    if vs != [] {
      var p := Put(params, from, vs[0]);
      PutSeqAt(p, from + 1, vs[1..]);
      var r := PutSeq(p, from + 1, vs[1..]);
      assert r[from - 1] == p[from - 1] == vs[0];
      forall i | 0 <= i < |vs| ensures r[from - 1 + i] == vs[i] {
        if i > 0 {
          assert vs[1..][i - 1] == vs[i] && r[from + (i - 1)] == vs[1..][i - 1];
        }
      }
    }
  }

  lemma PutSeqAsRead(d: Data, r: Reading, vs: seq<Value>)
    requires AsRead(d, r)
    ensures AsRead(d.(params := PutSeq(d.params, 1, vs)), BindFrom(r, 1, vs))
  {
    PutSeqAt(d.params, 1, vs);
    var params, q := PutSeq(d.params, 1, vs), BindFrom(r, 1, vs);
    forall k: nat | 1 <= k <= q.size ensures ParamAt(params, k) == ParameterRead(q, k) {
      if k <= |vs| {
        assert params[1 - 1 + (k - 1)] == vs[k - 1];
      } else {
        assert ParamAt(d.params, k) == ParameterRead(r, k);
      }
    }
  }

  lemma AppendAsRead(d: Data, r: Reading, vs: seq<Value>)
    requires AsRead(d, r)
    ensures AsRead(d.(params := d.params + vs), BindFrom(r, r.size + 1, vs))
  {
    var params, q := d.params + vs, BindFrom(r, r.size + 1, vs);
    forall k: nat | 1 <= k <= q.size ensures ParamAt(params, k) == ParameterRead(q, k) {
      if k <= r.size {
        assert ParamAt(d.params, k) == ParameterRead(r, k);
      }
    }
  }

  lemma BindFromOne(r: Reading, v: Value)
    ensures BindFrom(r, r.size + 1, [v]) == BindAt(r, r.size + 1, v)
  {
    assert r.indexed + Listed([v], r.size + 1) == r.indexed[r.size + 1 := v];
  }

  lemma TestAsRead(d: Data, r: Reading, op: Operator)
    requires AsRead(d, r)
    ensures AsRead(d.(params := PutAll(d.params, |d.params| + 1, Binds(op))), ReadTest(r, op))
  {
    KeptValues(d.params, op);
    AppendAsRead(d, r, Kept(op));
    match op
    case Single(_, _, _, v) =>
      if IsNamed(v) {
        assert d.params + [] == d.params;
      } else {
        BindFromOne(r, v);
      }
    case In(_, _, vs) =>
    case Between(_, _, _, hi) => BindFromOne(r, hi);
  }

  lemma SameParams(d: Data, e: Data, r: Reading, q: Reading)
    requires AsRead(d, r) && e.params == d.params && q == r.(table := e.fields.table, named := e.named)
    ensures AsRead(e, q)
  {
  }

  lemma EditAsRead(d: Data, r: Reading, c: Call, select: bool)
    requires AsRead(d, r) && Offers(d.fields, c) && !c.Execute?
    ensures AsRead(Edit(d, c), Read(select, r, c))
  {
    EditTable(d, c);
    var e := Edit(d, c);
    match c
    case BindIndex(i, v) => if i > 0 { PutAsRead(d, r, i, v); }
    case AddValue(v) => PutAsRead(d, r, r.size + 1, v);
    case BindAll(vs) => PutSeqAsRead(d, r, vs);
    case WhereIs(op) => EditTestAsRead(d, r, c, op);
    case WhereAnd(op) => EditTestAsRead(d, r, c, op);
    case WhereOr(op) => EditTestAsRead(d, r, c, op);
    case CallerReset =>
    case _ => SameParams(d, e, r, Read(select, r, c));
  }

  lemma EditTestAsRead(d: Data, r: Reading, c: Call, op: Operator)
    requires AsRead(d, r) && Offers(d.fields, c) && (c == WhereIs(op) || c == WhereAnd(op) || c == WhereOr(op))
    ensures AsRead(Edit(d, c), ReadTest(r, op))
  {
    EditTable(d, c);
    TestAsRead(d, r, op);
    var e := d.(params := PutAll(d.params, |d.params| + 1, Binds(op)));
    SameParams(e, Edit(d, c), ReadTest(r, op), ReadTest(r, op));
  }

  lemma StepAsRead(s: State, r: Reading, c: Call)
    requires AsRead(s.data, r) && Offers(s.data.fields, c)
    ensures AsRead(Step(s, c).0.data, Read(s.data.fields.SelectFrom?, r, c))
  {
    RenderedTable(s.data.fields);
    if !c.Print? && !c.Execute? {
      EditAsRead(s.data, r, c, s.data.fields.SelectFrom?);
    }
  }

  lemma {:induction false} RunAsRead(s: State, r: Reading, calls: seq<Call>)
    requires AsRead(s.data, r) && OffersAll(s.data.fields, calls)
    ensures AsRead(Run(s, calls).0.data, ReadAll(s.data.fields.SelectFrom?, r, calls))
    decreases |calls|
  {
    if calls != [] {
      StepAsRead(s, r, calls[0]);
      StepKind(s, calls[0]);
      OffersRest(s, calls);
      RunAsRead(Step(s, calls[0]).0, Read(s.data.fields.SelectFrom?, r, calls[0]), calls[1..]);
    }
  }

  /** A statement that an execution prepares holds exactly the values read off the calls: for each name
      the last one bound, for each index up to the highest the last one bound or null. */
  lemma PreparedAsRead(f: Fields, calls: seq<Call>)
    requires OffersAll(f, calls)
    ensures var s, r := Run(Initial(f), calls).0, ReadAll(f.SelectFrom?, Unread(f), calls);
            && s.data.params == ParametersRead(r) && s.data.named == r.named
            && (Executable(s.data.fields) && MustPrepare(s) ==>
                  && Step(s, Execute).1.Some?
                  && Step(s, Execute).1.value.named == r.named
                  && (forall k: nat :: k in Step(s, Execute).1.value.bound <==> 1 <= k <= r.size)
                  && (forall k: nat | 1 <= k <= r.size :: Step(s, Execute).1.value.bound[k] == ParameterRead(r, k)))
  {
    RunAsRead(Initial(f), Unread(f), calls);
    var s, r := Run(Initial(f), calls).0, ReadAll(f.SelectFrom?, Unread(f), calls);
    forall i | 0 <= i < r.size ensures s.data.params[i] == ParameterRead(r, i + 1) {
      assert ParamAt(s.data.params, i + 1) == ParameterRead(r, i + 1);
    }
  }

  // ----- setters -----

  /** The argument of the last call that `pick` recognises. */
  function LastArgument<T>(calls: seq<Call>, pick: Call -> Option<T>, initial: T): T
    decreases |calls|
  {
    if calls == [] then initial
    else LastArgument(calls[1..], pick, if pick(calls[0]).Some? then pick(calls[0]).value else initial)
  }

  /** The columns: set as a whole, or one by one. */
  function ColumnsRead(calls: seq<Call>, columns: seq<string>): seq<string>
    decreases |calls|
  {
    if calls == [] then columns
    else
      match calls[0]
      case SetColumns(cs) => ColumnsRead(calls[1..], cs)
      case AddColumn(c) => ColumnsRead(calls[1..], if c == "" then columns else columns + [c])
      case _ => ColumnsRead(calls[1..], columns)
  }

  function JoinsRead(calls: seq<Call>): seq<JoinClause>
    decreases |calls|
  {
    if calls == [] then []
    else (if calls[0].AddJoin? then [calls[0].join] else []) + JoinsRead(calls[1..])
  }

  function OrderPick(c: Call): Option<string> {
    if c.SetOrderBy? then Some(c.text) else None
  }

  function LimitPick(c: Call): Option<string> {
    if c.SetLimit? then Some(c.text) else None
  }

  function GroupPick(c: Call): Option<string> {
    if c.SetGroupBy? then Some(c.text) else None
  }

  function TablePick(c: Call): Option<string> {
    if c.SetTable? then Some(c.table) else None
  }

  function UnionPick(c: Call): Option<Option<Union>> {
    if c.SetUnion? then Some(Some(Union(c.all, c.query, []))) else None
  }

  /** The fields of a select as read, but for its where clause and the texts stored in its union. */
  function SelectRead(f: Fields, where: Clause, union: Option<Union>, calls: seq<Call>): Fields
    requires f.SelectFrom?
  {
    SelectFrom(LastArgument(calls, TablePick, f.table), ColumnsRead(calls, f.columns), f.joins + JoinsRead(calls), where,
               LastArgument(calls, OrderPick, f.orderBy), LastArgument(calls, LimitPick, f.limit),
               LastArgument(calls, GroupPick, f.groupBy), union)
  }

  predicate SetBy(f: Fields, g: Fields, calls: seq<Call>)
    requires f.SelectFrom?
  {
    && g.SelectFrom? && g == SelectRead(f, g.where, g.union, calls)
    && UnionText(g.union, false) == UnionText(LastArgument(calls, UnionPick, f.union), false)
  }

  /** One call: what its setter sets, and nothing else. */
  predicate SetByOne(f: Fields, g: Fields, c: Call)
    requires f.SelectFrom?
  {
    && g.SelectFrom?
    && g.table == (if c.SetTable? then c.table else f.table)
    && g.columns == (match c
                     case SetColumns(cs) => cs
                     case AddColumn(n) => if n == "" then f.columns else f.columns + [n]
                     case _ => f.columns)
    && g.joins == f.joins + (if c.AddJoin? then [c.join] else [])
    && g.orderBy == (if c.SetOrderBy? then c.text else f.orderBy)
    && g.limit == (if c.SetLimit? then c.text else f.limit)
    && g.groupBy == (if c.SetGroupBy? then c.text else f.groupBy)
    && UnionText(g.union, false) == UnionText(if c.SetUnion? then Some(Union(c.all, c.query, [])) else f.union, false)
  }

  lemma EditSets(d: Data, c: Call)
    requires d.fields.SelectFrom? && Offers(d.fields, c)
    ensures SetByOne(d.fields, Edit(d, c).fields, c)
  {
    assert d.fields.joins + [] == d.fields.joins;
    match c
    case SetTable(_) =>
    case SetColumns(_) =>
    case AddColumn(_) =>
    case AddJoin(_) =>
    case WhereIs(_) =>
    case WhereAnd(_) =>
    case WhereOr(_) =>
    case WhereCopy(_) =>
    case PrintWhere =>
    case _ =>
  }

  lemma RenderingSets(f: Fields, c: Call)
    requires f.SelectFrom? && CoherentFields(f) && (c.Print? || c.Execute?)
    ensures SetByOne(f, Rendered(f), c) && SetByOne(f, f, c)
  {
    assert f.joins + [] == f.joins;
    RenderedFields(f, f);
  }

  lemma StepSets(s: State, c: Call)
    requires s.data.fields.SelectFrom? && Offers(s.data.fields, c) && CoherentFields(s.data.fields) && CoherentCall(c)
    ensures SetByOne(s.data.fields, Step(s, c).0.data.fields, c) && CoherentFields(Step(s, c).0.data.fields)
  {
    if c.Print? || c.Execute? {
      RenderingSets(s.data.fields, c);
      RenderedSame(s.data.fields);
    } else {
      EditSets(s.data, c);
      EditCoherent(s.data, c);
    }
  }

  lemma {:induction false} SameUnion(calls: seq<Call>, a: Option<Union>, b: Option<Union>)
    requires UnionText(a, false) == UnionText(b, false)
    ensures UnionText(LastArgument(calls, UnionPick, a), false) == UnionText(LastArgument(calls, UnionPick, b), false)
    decreases |calls|
  {
    if calls != [] && !calls[0].SetUnion? {
      SameUnion(calls[1..], a, b);
    }
  }

  lemma SetFirst(f: Fields, g: Fields, h: Fields, calls: seq<Call>)
    requires f.SelectFrom? && calls != [] && SetByOne(f, g, calls[0]) && SetBy(g, h, calls[1..])
    ensures SetBy(f, h, calls)
  {
    var c := calls[0];
    Regroup(f.joins, if c.AddJoin? then [c.join] else [], JoinsRead(calls[1..]));
    SameUnion(calls[1..], g.union, if c.SetUnion? then Some(Union(c.all, c.query, [])) else f.union);
  }

  /** Over every run of a select, each field is the argument of its last setter: table, ORDER BY, LIMIT,
      GROUP BY and union; the joins are those added, in order, and the columns those set or added. */
  lemma {:induction false} FieldsFollowSetters(s: State, calls: seq<Call>)
    requires s.data.fields.SelectFrom? && CoherentFields(s.data.fields)
    requires OffersAll(s.data.fields, calls) && CoherentCalls(calls)
    ensures SetBy(s.data.fields, Run(s, calls).0.data.fields, calls)
    decreases |calls|
  {
    var f := s.data.fields;
    if calls == [] {
      assert f.joins + [] == f.joins;
    } else {
      StepSets(s, calls[0]);
      OffersRest(s, calls);
      FieldsFollowSetters(Step(s, calls[0]).0, calls[1..]);
      SetFirst(f, Step(s, calls[0]).0.data.fields, Run(s, calls).0.data.fields, calls);
    }
  }

  lemma StepColumns(s: State, c: Call)
    requires !s.data.fields.DeleteFrom? && Offers(s.data.fields, c)
    ensures var f, g := s.data.fields, Step(s, c).0.data.fields;
            && !g.DeleteFrom?
            && g.columns == (match c
                             case SetColumns(cs) => cs
                             case AddColumn(n) => if n == "" then f.columns else f.columns + [n]
                             case _ => f.columns)
  {
    StepKind(s, c);
    if c.Print? || c.Execute? {
      RenderedKeepsColumns(s.data.fields);
    } else {
      EditColumns(s.data, c);
    }
  }

  lemma RenderedKeepsColumns(f: Fields)
    requires !f.DeleteFrom?
    ensures !Rendered(f).DeleteFrom? && Rendered(f).columns == f.columns
  {
  }

  lemma EditColumns(d: Data, c: Call)
    requires !d.fields.DeleteFrom? && Offers(d.fields, c)
    ensures var g := Edit(d, c).fields;
            && !g.DeleteFrom?
            && g.columns == (match c
                             case SetColumns(cs) => cs
                             case AddColumn(n) => if n == "" then d.fields.columns else d.fields.columns + [n]
                             case _ => d.fields.columns)
  {
    EditKind(d, c);
    match c
    case SetTable(_) =>
    case SetColumns(_) =>
    case AddColumn(_) =>
    case WhereIs(_) =>
    case WhereAnd(_) =>
    case WhereOr(_) =>
    case WhereCopy(_) =>
    case PrintWhere =>
    case _ =>
  }

  /** Over every run of an insert, update or select, the columns are those set or added. */
  lemma {:induction false} ColumnsFollowSetters(s: State, calls: seq<Call>)
    requires !s.data.fields.DeleteFrom? && OffersAll(s.data.fields, calls)
    ensures var g := Run(s, calls).0.data.fields; !g.DeleteFrom? && g.columns == ColumnsRead(calls, s.data.fields.columns)
    decreases |calls|
  {
    if calls != [] {
      StepColumns(s, calls[0]);
      OffersRest(s, calls);
      ColumnsFollowSetters(Step(s, calls[0]).0, calls[1..]);
    }
  }

  // ----- the where clause -----

  /** The where clause as read: the last one given as a whole, or started with a test, and the tests
      appended to it since, each numbered after the highest index at its call. */
  function WhereRead(where: Clause, r: Reading, c: Call): Clause {
    match c
    case WhereIs(op) => Leaf([Atom(Test(op, r.size + 1))])
    case WhereAnd(op) => Appended(where, AndText([Atom(Test(op, r.size + 1))]))
    case WhereOr(op) => Appended(where, AndText([Atom(Test(op, r.size + 1))]))
    case WhereCopy(w) => w
    case _ => where
  }

  function WhereReadAll(select: bool, where: Clause, r: Reading, calls: seq<Call>): Clause
    decreases |calls|
  {
    if calls == [] then where
    else WhereReadAll(select, WhereRead(where, r, calls[0]), Read(select, r, calls[0]), calls[1..])
  }

  /** Equal but for the clause's own cached text. */
  predicate SameParts(a: Clause, b: Clause) {
    a.value == b.value && a.ands == b.ands && a.ors == b.ors
  }

  lemma StepWhere(s: State, r: Reading, where: Clause, c: Call)
    requires !s.data.fields.InsertInto? && Offers(s.data.fields, c) && AsRead(s.data, r)
    requires SameParts(s.data.fields.where, where)
    ensures var g := Step(s, c).0.data.fields;
            !g.InsertInto? && SameParts(g.where, WhereRead(where, r, c))
  {
    StepKind(s, c);
    if c.Print? || c.Execute? {
      RenderedWhere(s.data.fields);
    } else {
      EditWhere(s.data, r, where, c);
    }
  }

  lemma RenderedWhere(f: Fields)
    requires !f.InsertInto?
    ensures !Rendered(f).InsertInto? && Rendered(f).where == f.where
  {
  }

  lemma EditWhere(d: Data, r: Reading, where: Clause, c: Call)
    requires !d.fields.InsertInto? && Offers(d.fields, c) && |d.params| == r.size
    requires SameParts(d.fields.where, where)
    ensures var g := Edit(d, c).fields;
            !g.InsertInto? && (!c.Print? && !c.Execute? ==> SameParts(g.where, WhereRead(where, r, c)))
  {
    EditKind(d, c);
    match c
    case SetTable(_) =>
    case SetColumns(_) =>
    case AddColumn(_) =>
    case WhereIs(_) =>
    case WhereAnd(_) =>
    case WhereOr(_) =>
    case WhereCopy(_) =>
    case PrintWhere =>
    case _ =>
  }

  /** Over every run the where clause is the one read off the calls. */
  lemma {:induction false} WhereFollowsCalls(s: State, r: Reading, where: Clause, calls: seq<Call>)
    requires !s.data.fields.InsertInto? && OffersAll(s.data.fields, calls) && AsRead(s.data, r)
    requires SameParts(s.data.fields.where, where)
    ensures var g := Run(s, calls).0.data.fields;
            !g.InsertInto? && SameParts(g.where, WhereReadAll(s.data.fields.SelectFrom?, where, r, calls))
    decreases |calls|
  {
    if calls != [] {
      StepWhere(s, r, where, calls[0]);
      StepAsRead(s, r, calls[0]);
      StepKind(s, calls[0]);
      OffersRest(s, calls);
      WhereFollowsCalls(Step(s, calls[0]).0, Read(s.data.fields.SelectFrom?, r, calls[0]), WhereRead(where, r, calls[0]), calls[1..]);
    }
  }

  /** And prints the same text. */
  lemma SamePartsPrintAlike(a: Clause, b: Clause)
    requires SameParts(a, b)
    ensures Fresh(a) == Fresh(b)
  {
    GenerateShapes(a, false);
    GenerateShapes(b, false);
  }
}
