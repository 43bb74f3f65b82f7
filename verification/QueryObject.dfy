/** The query object of src/query.cpp and its callers, in place: each method is proved to move the
    object's contents as the state machine of `QueryMachine` does. */
module QueryObject {
  import opened SqlText
  import opened WhereClause
  import opened Operators
  import opened QueryText
  import opened QueryMachine
  import opened StatementReuse

  lemma JoinParamsStep(before: Text, columns: seq<string>, op: string, i: nat)
    requires i < |columns|
    ensures before + JoinParams(columns, op, i) == before + ParamPiece(columns, op, i) + JoinParams(columns, op, i + 1)
  {
    Regroup(before, ParamPiece(columns, op, i), JoinParams(columns, op, i + 1));
  }

  /** `session::join_params`. */
  method PrintParams(columns: seq<string>, op: string) returns (buf: Text)
    ensures buf == JoinParams(columns, op, 0)
  {
    buf := [];
    var i := 0;
    while i < |columns|
      invariant 0 <= i <= |columns|
      invariant buf + JoinParams(columns, op, i) == JoinParams(columns, op, 0)
    {
      ghost var before, lead := buf, if op == "" then [] else [Word(columns[i]), Word(op)];
      if op != "" {
        buf := buf + [Word(columns[i]), Word(op)];
      }
      assert buf == before + lead;
      buf := buf + [Param(i + 1)];
      Regroup(before, lead, [Param(i + 1)]);
      ghost var mid := lead + [Param(i + 1)];
      assert buf == before + mid;
      if i + 1 < |columns| {
        buf := buf + [Word(",")];
        Regroup(before, mid, [Word(",")]);
      } else {
        assert mid + [] == mid;
      }
      assert buf == before + ParamPiece(columns, op, i);
      JoinParamsStep(before, columns, op, i);
      i := i + 1;
    }
    assert buf + [] == buf;
  }

  lemma BoundGrows(params: seq<Value>, i: nat)
    requires i < |params|
    ensures Bound(params[..i])[i + 1 := params[i]] == Bound(params[..i + 1])
  {
  }

  lemma PutAllStep(params: seq<Value>, index: nat, binds: seq<(nat, Value)>, i: nat)
    requires i < |binds|
    ensures PutAll(params, index, binds[i..]) == PutAll(Put(params, index + binds[i].0, binds[i].1), index, binds[i + 1..])
  {
    assert binds[i..][0] == binds[i] && binds[i..][1..] == binds[i + 1..];
  }

  /** The binding loop of `query::prepare`. */
  method BindParams(params: seq<Value>) returns (bound: map<nat, Value>)
    ensures bound == Bound(params)
  {
    bound := map[];
    var i := 1;
    while i <= |params|
      invariant 1 <= i <= |params| + 1
      invariant bound == Bound(params[..i - 1])
    {
      BoundGrows(params, i - 1);
      bound := bound[i := params[i - 1]];
      i := i + 1;
    }
    assert params[..i - 1] == params;
  }

  /** The loop over the named parameters, in whatever order the table yields them. */
  method BindNames(named: map<string, Value>) returns (names: map<string, Value>)
    ensures names == named
  {
    names := map[];
    var left := named.Keys;
    while left != {}
      invariant left <= named.Keys && names.Keys == named.Keys - left
      invariant forall n | n in names :: names[n] == named[n]
      decreases |left|
    {
      var n :| n in left;
      names := names[n := named[n]];
      left := left - {n};
    }
  }

  class Query {
    var fields: Fields
    var sql: Text
    var dirty: bool
    var stmt: Option<Statement>
    var params: seq<Value>
    var named: map<string, Value>

    ghost function Contents(): State
      reads this
    {
      State(Data(fields, params, named), sql, dirty, stmt)
    }

    constructor (f: Fields)
      ensures Contents() == Initial(f)
    {
      fields, sql, dirty, stmt, params, named := f, [], false, None, [], map[];
    }

    method SetModified()
      modifies this
      ensures Contents() == old(Contents()).(cache := [], dirty := true)
    {
      dirty := true;
      sql := [];
    }

    /** Room for parameter `index`; `None` is the thrown error for index 0. */
    method AssertBindingIndex(index: nat) returns (slot: Option<nat>)
      modifies this
      ensures index == 0 ==> slot.None? && Contents() == old(Contents())
      ensures index > 0 ==> slot == Some(index - 1) && |params| >= index
      ensures |params| == if index <= old(|params|) then old(|params|) else index
      ensures params == old(params) + seq(|params| - old(|params|), i => Null)
      ensures dirty == (old(dirty) || index > old(|params|))
      ensures fields == old(fields) && named == old(named) && stmt == old(stmt) && sql == old(sql)
    {
      if index == 0 {
        return None;
      }
      if index > |params| {
        params := params + seq(index - |params|, i => Null);
        dirty := true;
      }
      slot := Some(index - 1);
    }

    method Bind(index: nat, value: Value)
      modifies this
      ensures Contents() == Step(old(Contents()), BindIndex(index, value)).0
    {
      var slot := AssertBindingIndex(index);
      if slot.Some? {
        params := params[slot.value := value];
        assert params == Put(old(params), index, value);
        SetModified();
      }
    }

    method BindNamed(name: string, value: Value)
      modifies this
      ensures Contents() == Step(old(Contents()), BindName(name, value)).0
    {
      named := named[name := value];
      SetModified();
    }

    /** `bindable::bind(vector)`. */
    method BindVector(values: seq<Value>)
      modifies this
      ensures params == PutSeq(old(params), 1, values)
      ensures fields == old(fields) && named == old(named) && stmt == old(stmt)
      ensures if values == [] then sql == old(sql) && dirty == old(dirty) else sql == [] && dirty
    {
      var i := 0;
      while i < |values|
        invariant 0 <= i <= |values|
        invariant if i == 0 then sql == old(sql) && dirty == old(dirty) else sql == [] && dirty
        invariant PutSeq(params, i + 1, values[i..]) == PutSeq(old(params), 1, values)
        invariant fields == old(fields) && named == old(named) && stmt == old(stmt)
      {
        assert values[i..][0] == values[i] && values[i..][1..] == values[i + 1..];
        Bind(i + 1, values[i]);
        i := i + 1;
      }
    }

    method Values(values: seq<Value>)
      modifies this
      ensures Contents() == Step(old(Contents()), BindAll(values)).0
    {
      BindVector(values);
      SetModified();
    }

    method AddOneValue(value: Value)
      requires Offers(fields, AddValue(value))
      modifies this
      ensures Contents() == Step(old(Contents()), AddValue(value)).0
    {
      Bind(|params| + 1, value);
      SetModified();
    }

    method Table(table: string)
      modifies this
      ensures Contents() == Step(old(Contents()), SetTable(table)).0
    {
      fields := WithTable(fields, table);
      SetModified();
    }

    method Columns(columns: seq<string>)
      requires Offers(fields, SetColumns(columns))
      modifies this
      ensures Contents() == Step(old(Contents()), SetColumns(columns)).0
    {
      fields := WithColumns(fields, columns);
      SetModified();
    }

    method Column(column: string)
      requires Offers(fields, AddColumn(column))
      modifies this
      ensures Contents() == Step(old(Contents()), AddColumn(column)).0
    {
      if column != "" {
        fields := WithColumns(fields, fields.columns + [column]);
        SetModified();
      }
    }

    /** Bind values at offsets from `index`, in order. */
    method BindPairs(index: nat, binds: seq<(nat, Value)>)
      requires index > 0
      modifies this
      ensures params == PutAll(old(params), index, binds)
      ensures fields == old(fields) && named == old(named) && stmt == old(stmt)
      ensures if binds == [] then sql == old(sql) && dirty == old(dirty) else sql == [] && dirty
    {
      var i := 0;
      while i < |binds|
        invariant 0 <= i <= |binds|
        invariant PutAll(params, index, binds[i..]) == PutAll(old(params), index, binds)
        invariant fields == old(fields) && named == old(named) && stmt == old(stmt)
        invariant if i == 0 then sql == old(sql) && dirty == old(dirty) else sql == [] && dirty
      {
        PutAllStep(params, index, binds, i);
        Bind(index + binds[i].0, binds[i].1);
        i := i + 1;
      }
    }

    /** `where_builder::bind`: bind the operands of a test from `index` on. */
    method BindOperator(index: nat, op: Operator)
      requires index > 0
      modifies this
      ensures params == PutAll(old(params), index, Binds(op))
      ensures fields == old(fields) && named == old(named) && stmt == old(stmt)
      ensures if Quiet(op) then sql == old(sql) && dirty == old(dirty) else sql == [] && dirty
    {
      var binds := Binds(op);
      BindPairs(index, binds);
    }

    /** `where(op)`: the builder is reset to the one test. */
    method Where(op: Operator)
      requires Offers(fields, WhereIs(op))
      modifies this
      ensures Contents() == Step(old(Contents()), WhereIs(op)).0
    {
      var index := |params| + 1;
      fields := WithWhere(fields, Leaf([Atom(Test(op, index))]));
      BindOperator(index, op);
      SetModified();
    }

    /** `where() && op`. */
    method And(op: Operator)
      requires Offers(fields, WhereAnd(op))
      modifies this
      ensures Contents() == Step(old(Contents()), WhereAnd(op)).0
    {
      var index := |params| + 1;
      fields := WithWhere(fields, Appended(fields.where, AndText([Atom(Test(op, index))])));
      BindOperator(index, op);
    }

    /** `where() || op`, which appends with AND as well. */
    method Or(op: Operator)
      requires Offers(fields, WhereOr(op))
      modifies this
      ensures Contents() == Step(old(Contents()), WhereOr(op)).0
    {
      var index := |params| + 1;
      fields := WithWhere(fields, Appended(fields.where, AndText([Atom(Test(op, index))])));
      BindOperator(index, op);
    }

    method WhereClauseIs(clause: Clause)
      requires Offers(fields, WhereCopy(clause))
      modifies this
      ensures Contents() == Step(old(Contents()), WhereCopy(clause)).0
    {
      fields := WithWhere(fields, clause);
      SetModified();
    }

    method OrderBy(text: string)
      requires Offers(fields, SetOrderBy(text))
      modifies this
      ensures Contents() == Step(old(Contents()), SetOrderBy(text)).0
    {
      fields := fields.(orderBy := text);
      SetModified();
    }

    method GroupBy(text: string)
      requires Offers(fields, SetGroupBy(text))
      modifies this
      ensures Contents() == Step(old(Contents()), SetGroupBy(text)).0
    {
      fields := fields.(groupBy := text);
      SetModified();
    }

    method Join(join: JoinClause)
      requires Offers(fields, AddJoin(join))
      modifies this
      ensures Contents() == Step(old(Contents()), AddJoin(join)).0
    {
      fields := fields.(joins := fields.joins + [join]);
      SetModified();
    }

    method UnionWith(all: bool, other: Fields)
      requires Offers(fields, SetUnion(all, other))
      modifies this
      ensures Contents() == Step(old(Contents()), SetUnion(all, other)).0
    {
      fields := fields.(union := Some(Union(all, other, [])));
      SetModified();
    }

    method Limit(text: string)
      requires Offers(fields, SetLimit(text))
      modifies this
      ensures Contents() == Step(old(Contents()), SetLimit(text)).0
    {
      fields := fields.(limit := text);
      SetModified();
    }

    method ToSql() returns (text: Text)
      modifies this
      ensures Contents() == Step(old(Contents()), Print).0 && text == sql
    {
      if sql == [] {
        sql := Body(fields, true);
        fields := Rendered(fields);
      }
      text := sql;
    }

    method PrepareStatement(text: Text)
      requires text == sql
      modifies this
      ensures Contents() == Prepare(old(Contents()))
    {
      if stmt.Some? && !dirty {
        return;
      }
      var bound := BindParams(params);
      var names := BindNames(named);
      stmt := Some(Statement(text, bound, names));
      dirty := false;
    }

    /** `query::reset`, which demands that there is a statement; the statement keeps its values. */
    method ResetQuery()
      requires stmt.Some?
      modifies this
      ensures Contents() == Reset(old(Contents()))
      ensures !fields.SelectFrom? ==> Contents() == Step(old(Contents()), CallerReset).0
    {
      params, named, dirty := [], map[], false;
    }

    /** `select_query::reset`. */
    method ResetSelect()
      requires fields.SelectFrom? && stmt.Some?
      modifies this
      ensures Contents() == Step(old(Contents()), CallerReset).0
    {
      ResetQuery();
      stmt := None;
    }

    /** `execute` of a modifying query, or of a select; the result is the statement that ran. */
    method Run() returns (ran: Option<Statement>)
      modifies this
      ensures (Contents(), ran) == Step(old(Contents()), Execute)
    {
      if !Executable(fields) {
        return None;
      }
      RenderedKind(fields);
      var text := ToSql();
      PrepareStatement(text);
      ran := stmt;
      if !fields.SelectFrom? {
        ResetQuery();
      }
    }

    /** `select_query::count`; the result is the statement whose first value is returned. */
    method CountRows() returns (ran: Statement)
      requires fields.SelectFrom?
      modifies this
      ensures (Contents(), ran) == Count(old(Contents()))
    {
      var columns := fields.columns;
      fields := WithColumns(fields, COUNT_COLUMNS);
      var text := ToSql();
      PrepareStatement(text);
      ran := stmt.value;
      fields := WithColumns(fields, columns);
    }
  }
}
