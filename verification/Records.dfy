/** Active-record save over one table with an auto-increment key (src/record.cpp:45-55, 84-132,
    143-164, 172-192, 210-231, 254-262), carried out through the query objects: the server reads the
    texts they run, and works on the table by what it reads and by placeholder number. */
module Records {
  import opened SqlText
  import opened SearchCondition
  import opened WhereClause
  import opened ClauseMeaning
  import opened Operators
  import opened QueryText
  import opened QueryMachine
  import opened StatementReuse
  import opened ParameterOrder
  import opened BuilderMeaning
  import opened QueryObject
  import opened OperatorMeaning
  import opened StatementReader

  /** `number` and `server` are the server's: the number it takes a value for when it compares the value
      with the key column or stores it there, such as that of a decimal text, and how it compares. */
  datatype Schema = Schema(table: string, columns: seq<string>, key: string, number: Value -> Option<int>, server: Server)

  ghost predicate ValidSchema(s: Schema) {
    && s.table != "" && s.key in s.columns && "" !in s.columns
    && (forall i, j | 0 <= i < j < |s.columns| :: s.columns[i] != s.columns[j])
    && s.number(Null).None? && (forall n :: s.number(Number(n)) == Some(n))
    && (forall v :: IsNamed(v) ==> s.number(v).None?)
    && (forall n, v :: s.server.same(Number(n), v) <==> v == Number(n))
  }

  type RowData = map<string, Value>

  datatype Table = Table(rows: map<int, RowData>, next: int)

  /** Every row has the schema's columns and carries its number in the key column. */
  ghost predicate ValidTable(s: Schema, t: Table) {
    forall id | id in t.rows ::
      id < t.next && (forall c :: c in t.rows[id] <==> c in s.columns) && s.key in t.rows[id]
      && t.rows[id][s.key] == Number(id)
  }

  // ----- what the server does with a statement -----

  /** A value as the server keeps it in a column. */
  function Stored(s: Schema, column: string, v: Value): Value {
    if column == s.key && s.number(v).Some? then Number(s.number(v).value) else v
  }

  function Taken(s: Schema): (string, Value) -> Value {
    (column: string, v: Value) => Stored(s, column, v)
  }

  /** The truth of a predicate on a row. */
  function OnRow(s: Schema, row: RowData, bound: map<nat, Value>): Valuation {
    RowTruth(s.server, Taken(s), row, bound)
  }

  /** A row is selected when the condition is true of it. */
  predicate Selects(s: Schema, where: Option<Text>, row: RowData, bound: map<nat, Value>) {
    where.None?
    || (Parse(where.value).Some? && Eval(Parse(where.value).value, OnRow(s, row, bound)) == True)
  }

  /** The first n settings on one row: each column gets the value of the placeholder beside it. */
  function Assigned(s: Schema, row: RowData, sets: seq<Setting>, bound: map<nat, Value>, n: nat): RowData
    requires n <= |sets|
  {
    if n == 0 then row
    else
      var (column, i) := sets[n - 1];
      Assigned(s, row, sets, bound, n - 1)[column := if i in bound then Stored(s, column, bound[i]) else Null]
  }

  function Updated(s: Schema, t: Table, sets: seq<Setting>, where: Option<Text>, bound: map<nat, Value>): Table {
    t.(rows := map id | id in t.rows ::
                 if Selects(s, where, t.rows[id], bound) then Assigned(s, t.rows[id], sets, bound, |sets|)
                 else t.rows[id])
  }

  function Blank(s: Schema, id: int): RowData {
    map c | c in s.columns :: if c == s.key then Number(id) else Null
  }

  function Inserted(s: Schema, t: Table, sets: seq<Setting>, bound: map<nat, Value>): Table {
    Table(t.rows[t.next := Assigned(s, Blank(s, t.next), sets, bound, |sets|)], t.next + 1)
  }

  /** The table after a statement, by what its text says. */
  function Performed(s: Schema, t: Table, stmt: Statement): Table {
    match Read(stmt.sql)
    case Some(Update(table, sets, where)) => if table == s.table then Updated(s, t, sets, where, stmt.bound) else t
    case Some(Insert(table, sets, _)) => if table == s.table then Inserted(s, t, sets, stmt.bound) else t
    case _ => t
  }

  /** The rows that a condition selects, by number. */
  function Matching(s: Schema, t: Table, where: Option<Text>, bound: map<nat, Value>): set<int> {
    set id | id in t.rows && Selects(s, where, t.rows[id], bound)
  }

  /** The rows that a SELECT finds, by what its text says. */
  function Found(s: Schema, t: Table, stmt: Statement): set<int> {
    match Read(stmt.sql)
    case Some(Select(_, table, joins, where, _, _, _, union)) =>
      if table == s.table && joins == [] && union.None? then Matching(s, t, where, stmt.bound) else {}
    case _ => {}
  }

  /** The number that a counting SELECT returns. */
  function Counted(s: Schema, t: Table, stmt: Statement): nat {
    match Read(stmt.sql)
    case Some(Select(columns, _, _, _, _, _, _, _)) => if columns == COUNT_COLUMNS then |Found(s, t, stmt)| else 0
    case _ => 0
  }

  /** The columns of a row that a SELECT names, all if it names none. */
  function Projected(stmt: Statement, row: RowData): RowData {
    match Read(stmt.sql)
    case Some(Select(columns, _, _, _, _, _, _, _)) => if columns == [] then row else map c | c in columns && c in row :: row[c]
    case _ => map[]
  }

  // ----- the statements a record makes -----

  function KeyTest(s: Schema, v: Value): Operator {
    Single(s.key, Eq, false, v)
  }

  /** The key value is bound to placeholder n; a name is not bound at all. */
  predicate KeyBound(bound: map<nat, Value>, n: nat, v: Value) {
    if IsNamed(v) then n !in bound else n in bound && bound[n] == v
  }

  /** The condition made of the key test. */
  function KeyWhere(s: Schema, v: Value, n: nat): Option<Text> {
    Some([Atom(Operators.Test(KeyTest(s, v), n))])
  }

  lemma KeyWhereOf(s: Schema, v: Value, n: nat)
    ensures WhereOf(Leaf([Atom(Operators.Test(KeyTest(s, v), n))])) == KeyWhere(s, v, n)
  {
    FreshLeaf(Leaf([Atom(Operators.Test(KeyTest(s, v), n))]));
  }

  /** The key test selects exactly the row that the key value is the number of: none for a null, a name or
      a text that is no number. */
  lemma KeySelects(s: Schema, row: RowData, id: int, n: nat, v: Value, bound: map<nat, Value>)
    requires ValidSchema(s) && s.key in row && row[s.key] == Number(id) && KeyBound(bound, n, v)
    ensures Selects(s, KeyWhere(s, v, n), row, bound) <==> s.number(v) == Some(id)
  {
    var p := Operators.Test(KeyTest(s, v), n);
    var t := OnRow(s, row, bound);
    assert [p][1..] == [] && Leaves([]) == [];
    assert Chain([p]) == Leaf([Atom(p)]);
    FreshLeaf(Leaf([Atom(p)]));
    BuilderMeansConjunction([p], t);
    assert Truths([p], t) == [t(p)] && Truths([p], t)[1..] == [];
    assert All3(Truths([p], t)) == And3(t(p), All3([])) == t(p);
    KeyTruth(s, row, id, n, v, bound);
  }

  lemma KeyTruth(s: Schema, row: RowData, id: int, n: nat, v: Value, bound: map<nat, Value>)
    requires ValidSchema(s) && s.key in row && row[s.key] == Number(id) && KeyBound(bound, n, v)
    ensures OnRow(s, row, bound)(Operators.Test(KeyTest(s, v), n)) == True <==> s.number(v) == Some(id)
  {
    if n in bound {
      assert Taken(s)(s.key, v) == Stored(s, s.key, v);
      assert s.server.same(Number(id), Stored(s, s.key, v)) <==> Stored(s, s.key, v) == Number(id);
    }
  }

  // ----- columns and values -----

  /** `available_columns`: the schema's columns the record has; the key only on update. */
  function Available(columns: seq<string>, values: RowData, found: bool, key: string): (r: seq<string>)
    ensures forall c :: c in r <==> c in columns && c in values && (found || c != key)
  {
    if columns == [] then []
    else
      var rest := Available(columns[1..], values, found, key);
      if columns[0] in values && (found || columns[0] != key) then [columns[0]] + rest else rest
  }

  /** The first list is the second with elements left out. */
  predicate Subsequence(a: seq<string>, b: seq<string>) {
    a == [] || (b != [] && if a[0] == b[0] then Subsequence(a[1..], b[1..]) else Subsequence(a, b[1..]))
  }

  /** The available columns keep the order of the schema. */
  lemma {:induction false} AvailableInOrder(columns: seq<string>, values: RowData, found: bool, key: string)
    requires forall i, j | 0 <= i < j < |columns| :: columns[i] != columns[j]
    ensures Subsequence(Available(columns, values, found, key), columns)
    decreases |columns|
  {
    if columns != [] {
      var r, rest := Available(columns, values, found, key), Available(columns[1..], values, found, key);
      AvailableInOrder(columns[1..], values, found, key);
      if r == rest && r != [] {
        assert r[0] in columns[1..];
        assert r[0] != columns[0];
      }
    }
  }

  lemma AvailableStep(done: seq<string>, columns: seq<string>, i: nat, values: RowData, found: bool, key: string)
    requires i < |columns|
    ensures var c := columns[i];
            done + Available(columns[i..], values, found, key)
            == (if c in values && (found || c != key) then done + [c] else done) + Available(columns[i + 1..], values, found, key)
  {
    assert columns[i..][1..] == columns[i + 1..];
  }

  /** `get(columns)`: the values of the columns that are there; absent ones are skipped. */
  function Held(values: RowData, columns: seq<string>): seq<Value> {
    if columns == [] then []
    else
      var init, last := columns[..|columns| - 1], columns[|columns| - 1];
      Held(values, init) + if last in values then [values[last]] else []
  }

  lemma {:induction false} HeldAll(values: RowData, columns: seq<string>)
    requires forall i | 0 <= i < |columns| :: columns[i] in values
    ensures Held(values, columns) == ValuesOf(values, columns)
    decreases |columns|
  {
    if columns != [] {
      HeldAll(values, columns[..|columns| - 1]);
    }
  }

  /** The same where all of them are there. */
  function ValuesOf(values: RowData, columns: seq<string>): (r: seq<Value>)
    requires forall i | 0 <= i < |columns| :: columns[i] in values
    ensures |r| == |columns| && forall i | 0 <= i < |columns| :: r[i] == values[columns[i]]
  {
    seq(|columns|, i requires 0 <= i < |columns| => values[columns[i]])
  }

  /** Assigning the record's values by placeholder sets exactly the listed columns to them. */
  lemma {:induction false} AssignedByName(s: Schema, row: RowData, columns: seq<string>, values: RowData,
                                          bound: map<nat, Value>, n: nat)
    requires n <= |columns| && forall i | 0 <= i < |columns| :: columns[i] in values
    requires forall i: nat | 1 <= i <= n :: i in bound && bound[i] == values[columns[i - 1]]
    ensures var r := Assigned(s, row, Numbered(columns, 0), bound, n);
            && (forall c :: c in r <==> c in row || c in columns[..n])
            && (forall c | c in r :: r[c] == if c in columns[..n] then Stored(s, c, values[c]) else row[c])
    decreases n
  {
    if n > 0 {
      AssignedByName(s, row, columns, values, bound, n - 1);
      assert Numbered(columns, 0)[n - 1] == (columns[n - 1], n);
      assert columns[..n] == columns[..n - 1] + [columns[n - 1]];
    }
  }

  // ----- what a save amounts to -----

  /** The record and its table. */
  datatype Saving = Saving(values: RowData, table: Table)

  /** Whether the record's key names a row. */
  predicate Exists(s: Schema, r: Saving) {
    && s.key in r.values && s.number(r.values[s.key]).Some?
    && s.number(r.values[s.key]).value in r.table.rows
  }

  function KeyOf(s: Schema, r: Saving): int
    requires Exists(s, r)
  {
    s.number(r.values[s.key]).value
  }

  function Overlay(s: Schema, row: RowData, values: RowData): RowData {
    map c | c in row :: if c in values then Stored(s, c, values[c]) else row[c]
  }

  /** Update the record's own row, or, if `accepted` by the server, add a row and adopt its number. */
  function Saved(s: Schema, r: Saving, accepted: bool): Saving {
    if Exists(s, r) then
      var id := KeyOf(s, r);
      r.(table := r.table.(rows := r.table.rows[id := Overlay(s, r.table.rows[id], r.values)]))
    else if accepted then
      var id := r.table.next;
      Saving(r.values[s.key := Number(id)],
            Table(r.table.rows[id := Overlay(s, Blank(s, id), r.values - {s.key})], id + 1))
    else r
  }

  /** `refresh`: the row's columns overwrite the record's. */
  function Refreshed(s: Schema, r: Saving): Saving {
    if Exists(s, r) then r.(values := r.values + r.table.rows[KeyOf(s, r)]) else r
  }

  datatype Act = Set(name: string, value: Value) | Unset(name: string) | Save(accepted: bool) | Refresh

  /** The key column is left to the library. */
  predicate Allowed(s: Schema, a: Act) {
    match a
    case Set(n, _) => n != s.key
    case Unset(n) => n != s.key
    case _ => true
  }

  function Perform(s: Schema, r: Saving, a: Act): Saving {
    match a
    case Set(n, v) => r.(values := r.values[n := v])
    case Unset(n) => r.(values := r.values - {n})
    case Save(ok) => Saved(s, r, ok)
    case Refresh => Refreshed(s, r)
  }

  function PerformAll(s: Schema, r: Saving, acts: seq<Act>): Saving
    decreases |acts|
  {
    if acts == [] then r else PerformAll(s, Perform(s, r, acts[0]), acts[1..])
  }

  /** The key of a new record, if it has one, names no row; that of a saved one names its row. */
  ghost predicate Owns(s: Schema, r: Saving, mine: Option<int>) {
    && ValidTable(s, r.table)
    && match mine
       case None => !Exists(s, r)
       case Some(id) => Exists(s, r) && KeyOf(s, r) == id
  }

  lemma {:induction false} OneStep(s: Schema, r: Saving, mine: Option<int>, a: Act) returns (now: Option<int>)
    requires ValidSchema(s) && Owns(s, r, mine) && Allowed(s, a)
    ensures var t := Perform(s, r, a);
            && Owns(s, t, now)
            && (mine.Some? ==> now == mine)
            && (now.Some? && mine.None? ==> now.value !in r.table.rows && now.value == r.table.next)
            && t.table.rows.Keys == r.table.rows.Keys + (if now.Some? then {now.value} else {})
            && (forall id | id in r.table.rows && mine != Some(id) :: t.table.rows[id] == r.table.rows[id])
  {
    var t := Perform(s, r, a);
    now := mine;
    match a
    case Save(ok) =>
      if mine.None? && ok {
        now := Some(r.table.next);
      }
    case _ =>
  }

  /** Over any sequence of edits of non-key columns, saves and refreshes of one new record: at most
      one row is added, and no row that was there before is touched. */
  lemma {:induction false} AtMostOneRow(s: Schema, r: Saving, mine: Option<int>, acts: seq<Act>) returns (now: Option<int>)
    requires ValidSchema(s) && Owns(s, r, mine) && forall i | 0 <= i < |acts| :: Allowed(s, acts[i])
    ensures var t := PerformAll(s, r, acts);
            && Owns(s, t, now)
            && (mine.Some? ==> now == mine)
            && t.table.rows.Keys == r.table.rows.Keys + (if now.Some? then {now.value} else {})
            && (forall id | id in r.table.rows && mine != Some(id) :: t.table.rows[id] == r.table.rows[id])
    decreases |acts|
  {
    now := mine;
    if acts != [] {
      assert Allowed(s, acts[0]);
      var mid := OneStep(s, r, mine, acts[0]);
      now := AtMostOneRow(s, Perform(s, r, acts[0]), mid, acts[1..]);
    }
  }

  /** A successful save writes the record's columns to its row, and a refresh then makes every schema
      column of the record equal to the row; those it had are as the server stored them, unchanged but
      for a key given as text. */
  lemma SaveThenRefresh(s: Schema, r: Saving, mine: Option<int>)
    requires ValidSchema(s) && Owns(s, r, mine)
    ensures var t := Saved(s, r, true);
            var u := Refreshed(s, t);
            && Exists(s, t) && u.table == t.table
            && (var row := t.table.rows[KeyOf(s, t)];
                && (forall c | c in s.columns :: c in row && c in u.values && u.values[c] == row[c])
                && (forall c | c in s.columns && c in t.values :: u.values[c] == Stored(s, c, t.values[c])))
  {
    var t := Saved(s, r, true);
    var id := KeyOf(s, t);
    assert id in t.table.rows && t.table.rows[id][s.key] == Number(id);
  }

  // ----- the statements do what a save amounts to -----

  lemma BoundAt(values: seq<Value>, i: nat)
    requires 1 <= i <= |values|
    ensures i in Bound(values) && Bound(values)[i] == values[i - 1]
  {
    assert Bound(values)[i] == ParamAt(values, i);
  }

  /** The UPDATE of a record with key v: columns numbered first, the key operand after them. */
  function UpdateFields(s: Schema, columns: seq<string>, v: Value): Fields {
    UpdateOf(s.table, columns, Leaf([Atom(Operators.Test(KeyTest(s, v), |columns| + 1))]))
  }

  ghost predicate BoundInOrder(bound: map<nat, Value>, values: seq<Value>) {
    forall i: nat | 1 <= i <= |values| :: i in bound && bound[i] == values[i - 1]
  }

  lemma BoundIsInOrder(values: seq<Value>)
    ensures BoundInOrder(Bound(values), values)
  {
    forall i: nat | 1 <= i <= |values| ensures i in Bound(values) && Bound(values)[i] == values[i - 1] {
      BoundAt(values, i);
    }
  }

  /** Positional assignment of the available columns overlays the row with the record's values. */
  lemma AssignedIsOverlay(s: Schema, row: RowData, columns: seq<string>, values: RowData, bound: map<nat, Value>, kept: RowData)
    requires forall i | 0 <= i < |columns| :: columns[i] in values
    requires BoundInOrder(bound, ValuesOf(values, columns))
    requires forall c | c in columns :: c in row
    requires forall c | c in row :: c in columns <==> c in kept
    requires forall c | c in kept :: c in values && kept[c] == values[c]
    ensures Assigned(s, row, Numbered(columns, 0), bound, |columns|) == Overlay(s, row, kept)
  {
    AssignedAll(s, row, columns, values, bound);
    IsOverlay(s, Assigned(s, row, Numbered(columns, 0), bound, |columns|), row, columns, values, kept);
  }

  /** The listed columns are set to the stored values, the others as in the row. */
  ghost predicate SetTo(s: Schema, r: RowData, row: RowData, columns: seq<string>, values: RowData)
    requires forall c | c in columns :: c in values
  {
    && (forall c :: c in r <==> c in row || c in columns)
    && (forall c | c in r :: r[c] == if c in columns then Stored(s, c, values[c]) else row[c])
  }

  lemma AssignedAll(s: Schema, row: RowData, columns: seq<string>, values: RowData, bound: map<nat, Value>)
    requires forall i | 0 <= i < |columns| :: columns[i] in values
    requires BoundInOrder(bound, ValuesOf(values, columns))
    ensures SetTo(s, Assigned(s, row, Numbered(columns, 0), bound, |columns|), row, columns, values)
  {
    AssignedByName(s, row, columns, values, bound, |columns|);
    assert columns[..|columns|] == columns;
  }

  lemma IsOverlay(s: Schema, r: RowData, row: RowData, columns: seq<string>, values: RowData, kept: RowData)
    requires (forall c | c in columns :: c in values) && SetTo(s, r, row, columns, values)
    requires forall c | c in columns :: c in row
    requires forall c | c in row :: c in columns <==> c in kept
    requires forall c | c in kept :: c in values && kept[c] == values[c]
    ensures r == Overlay(s, row, kept)
  {
  }

  lemma BoundPrefix(bound: map<nat, Value>, values: seq<Value>, last: Value)
    requires BoundInOrder(bound, values + [last])
    ensures BoundInOrder(bound, values) && |values| + 1 in bound && bound[|values| + 1] == last
  {
    var all := values + [last];
    assert all[|values| + 1 - 1] == last;
    forall i: nat | 1 <= i <= |values| ensures i in bound && bound[i] == values[i - 1] {
      assert all[i - 1] == values[i - 1];
    }
  }

  /** The condition is true of row k and of no other. */
  ghost predicate PicksOnly(s: Schema, where: Option<Text>, t: Table, bound: map<nat, Value>, k: Option<int>) {
    forall id | id in t.rows :: Selects(s, where, t.rows[id], bound) <==> k == Some(id)
  }

  /** An UPDATE whose condition picks one row changes that row only. */
  lemma UpdatedOne(s: Schema, t: Table, sets: seq<Setting>, where: Option<Text>, bound: map<nat, Value>, k: int, row: RowData)
    requires k in t.rows && Assigned(s, t.rows[k], sets, bound, |sets|) == row
    requires PicksOnly(s, where, t, bound, Some(k))
    ensures Updated(s, t, sets, where, bound) == t.(rows := t.rows[k := row])
  {
    var u := Updated(s, t, sets, where, bound);
    forall id | id in t.rows ensures u.rows[id] == t.rows[k := row][id] {
      assert Selects(s, where, t.rows[id], bound) <==> id == k;
    }
    assert u.rows == t.rows[k := row];
  }

  lemma KeyPicksOne(s: Schema, t: Table, n: nat, v: Value, bound: map<nat, Value>)
    requires ValidSchema(s) && ValidTable(s, t) && KeyBound(bound, n, v)
    ensures PicksOnly(s, KeyWhere(s, v, n), t, bound, s.number(v))
  {
    forall id | id in t.rows ensures Selects(s, KeyWhere(s, v, n), t.rows[id], bound) <==> s.number(v) == Some(id) {
      KeySelects(s, t.rows[id], id, n, v, bound);
    }
  }

  lemma RowColumns(s: Schema, t: Table, k: int)
    requires ValidTable(s, t) && k in t.rows
    ensures forall c :: c in t.rows[k] <==> c in s.columns
  {
  }

  /** What the server reads in the UPDATE of a record. */
  lemma UpdateIsRead(s: Schema, columns: seq<string>, v: Value)
    ensures Read(FreshText(UpdateFields(s, columns, v)))
         == Some(Update(s.table, Numbered(columns, 0), KeyWhere(s, v, |columns| + 1)))
  {
    StatementReads(UpdateFields(s, columns, v));
    KeyWhereOf(s, v, |columns| + 1);
  }

  /** The UPDATE that a record makes changes its own row, as a save amounts to. */
  lemma UpdateIsSave(s: Schema, t: Table, values: RowData, v: Value, columns: seq<string>, stmt: Statement)
    requires ValidSchema(s) && ValidTable(s, t) && columns == Available(s.columns, values, true, s.key)
    requires s.number(v).Some? && s.number(v).value in t.rows
    requires stmt.sql == FreshText(UpdateFields(s, columns, v))
    requires BoundInOrder(stmt.bound, ValuesOf(values, columns) + [v])
    ensures var k := s.number(v).value;
            Performed(s, t, stmt) == t.(rows := t.rows[k := Overlay(s, t.rows[k], values)])
  {
    var k := s.number(v).value;
    var row := t.rows[k];
    RowColumns(s, t, k);
    UpdateIsRead(s, columns, v);
    PerformedUpdate(s, t, stmt, Numbered(columns, 0), KeyWhere(s, v, |columns| + 1));
    RowIsOverlay(s, row, values, v, columns, stmt.bound);
    BoundPrefix(stmt.bound, ValuesOf(values, columns), v);
    UpdateOfKey(s, t, v, columns, stmt.bound, Overlay(s, row, values));
  }

  lemma UpdateOfKey(s: Schema, t: Table, v: Value, columns: seq<string>, bound: map<nat, Value>, row: RowData)
    requires ValidSchema(s) && ValidTable(s, t) && s.number(v).Some? && s.number(v).value in t.rows
    requires |columns| + 1 in bound && bound[|columns| + 1] == v
    requires Assigned(s, t.rows[s.number(v).value], Numbered(columns, 0), bound, |columns|) == row
    ensures Updated(s, t, Numbered(columns, 0), KeyWhere(s, v, |columns| + 1), bound)
         == t.(rows := t.rows[s.number(v).value := row])
  {
    assert !IsNamed(v);
    KeyPicksOne(s, t, |columns| + 1, v, bound);
    UpdatedOne(s, t, Numbered(columns, 0), KeyWhere(s, v, |columns| + 1), bound, s.number(v).value, row);
  }

  lemma AvailableFits(s: Schema, row: RowData, values: RowData, columns: seq<string>)
    requires columns == Available(s.columns, values, true, s.key) && forall c :: c in row <==> c in s.columns
    ensures forall i | 0 <= i < |columns| :: columns[i] in values
    ensures forall c | c in columns :: c in row
    ensures forall c | c in row :: c in columns <==> c in values
  {
  }

  lemma RowIsOverlay(s: Schema, row: RowData, values: RowData, v: Value, columns: seq<string>, bound: map<nat, Value>)
    requires columns == Available(s.columns, values, true, s.key) && forall c :: c in row <==> c in s.columns
    requires BoundInOrder(bound, ValuesOf(values, columns) + [v])
    ensures Assigned(s, row, Numbered(columns, 0), bound, |columns|) == Overlay(s, row, values)
  {
    AvailableFits(s, row, values, columns);
    BoundPrefix(bound, ValuesOf(values, columns), v);
    AssignedIsOverlay(s, row, columns, values, bound, values);
  }

  lemma InsertIsRead(s: Schema, columns: seq<string>)
    ensures Read(FreshText(InsertInto(s.table, columns, None))) == Some(Insert(s.table, Numbered(columns, 0), None))
  {
    StatementReads(InsertInto(s.table, columns, None));
  }

  lemma PerformedInsert(s: Schema, t: Table, stmt: Statement, sets: seq<Setting>)
    requires Read(stmt.sql) == Some(Insert(s.table, sets, None))
    ensures Performed(s, t, stmt)
         == Table(t.rows[t.next := Assigned(s, Blank(s, t.next), sets, stmt.bound, |sets|)], t.next + 1)
  {
  }

  lemma PerformedUpdate(s: Schema, t: Table, stmt: Statement, sets: seq<Setting>, where: Option<Text>)
    requires Read(stmt.sql) == Some(Update(s.table, sets, where))
    ensures Performed(s, t, stmt) == Updated(s, t, sets, where, stmt.bound)
  {
  }

  /** The INSERT that a record makes adds one row, as a save amounts to. */
  lemma InsertIsSave(s: Schema, t: Table, values: RowData, columns: seq<string>, stmt: Statement)
    requires ValidSchema(s) && columns == Available(s.columns, values, false, s.key)
    requires stmt.sql == FreshText(InsertInto(s.table, columns, None))
    requires BoundInOrder(stmt.bound, ValuesOf(values, columns))
    ensures Performed(s, t, stmt) == Table(t.rows[t.next := Overlay(s, Blank(s, t.next), values - {s.key})], t.next + 1)
  {
    InsertIsRead(s, columns);
    PerformedInsert(s, t, stmt, Numbered(columns, 0));
    AssignedIsOverlay(s, Blank(s, t.next), columns, values, stmt.bound, values - {s.key});
  }

  lemma InsertKeepsValid(s: Schema, t: Table, values: RowData)
    requires ValidSchema(s) && ValidTable(s, t)
    ensures ValidTable(s, Table(t.rows[t.next := Overlay(s, Blank(s, t.next), values - {s.key})], t.next + 1))
  {
  }

  lemma MatchingKey(s: Schema, t: Table, v: Value, bound: map<nat, Value>)
    requires ValidSchema(s) && ValidTable(s, t) && KeyBound(bound, 1, v)
    ensures Matching(s, t, KeyWhere(s, v, 1), bound)
         == if s.number(v).Some? && s.number(v).value in t.rows then {s.number(v).value} else {}
  {
    KeyPicksOne(s, t, 1, v, bound);
    var w := KeyWhere(s, v, 1);
    forall id | id in t.rows ensures id in Matching(s, t, w, bound) <==> s.number(v) == Some(id) {
      assert Selects(s, w, t.rows[id], bound) <==> s.number(v) == Some(id);
    }
  }

  /** A SELECT with the key test, of whatever columns and with whatever limit. */
  function KeySelect(s: Schema, v: Value, columns: seq<string>, limit: string): Fields {
    SelectFrom(s.table, columns, [], Leaf([Atom(Operators.Test(KeyTest(s, v), 1))]), "", limit, "", None)
  }

  lemma KeySelectIsRead(s: Schema, v: Value, columns: seq<string>, limit: string)
    ensures Read(FreshText(KeySelect(s, v, columns, limit)))
         == Some(Select(Listed(columns), s.table, [], KeyWhere(s, v, 1), "", limit, "", None))
  {
    KeyWhereOf(s, v, 1);
    StatementReads(KeySelect(s, v, columns, limit));
  }

  /** The counting SELECT of a record counts its row, and its lookup finds that row. */
  lemma CountIsExists(s: Schema, t: Table, v: Value, columns: seq<string>, limit: string, stmt: Statement)
    requires ValidSchema(s) && ValidTable(s, t) && KeyBound(stmt.bound, 1, v)
    requires stmt.sql == FreshText(KeySelect(s, v, columns, limit))
    ensures Found(s, t, stmt) == if s.number(v).Some? && s.number(v).value in t.rows then {s.number(v).value} else {}
    ensures columns == COUNT_COLUMNS ==> Counted(s, t, stmt) == |Found(s, t, stmt)|
    ensures columns == s.columns && s.number(v).Some? && s.number(v).value in t.rows ==>
              Projected(stmt, t.rows[s.number(v).value]) == t.rows[s.number(v).value]
  {
    KeySelectIsRead(s, v, columns, limit);
    MatchingKey(s, t, v, stmt.bound);
    assert COUNT_COLUMNS[0] != "*";
    if columns == s.columns && s.number(v).Some? && s.number(v).value in t.rows {
      RowColumns(s, t, s.number(v).value);
      ProjectsAll(s.columns, t.rows[s.number(v).value]);
    }
  }

  lemma ProjectsAll(columns: seq<string>, row: RowData)
    requires forall c :: c in row <==> c in columns
    ensures (map c | c in columns && c in row :: row[c]) == row
  {
  }

  // ----- the objects -----

  lemma HasMember(ids: set<int>)
    ensures ids == {} || exists id :: id in ids
  {
    if forall id :: id !in ids {
      assert ids == {};
    }
  }

  /** The server: it reads the text of a statement and runs what it reads. */
  class Database {
    const schema: Schema
    var table: Table

    constructor (schema: Schema)
      ensures this.schema == schema && table == Table(map[], 1)
    {
      this.schema := schema;
      table := Table(map[], 1);
    }

    method CountRows(stmt: Statement) returns (n: nat)
      ensures n == Counted(schema, table, stmt)
    {
      n := Counted(schema, table, stmt);
    }

    /** The named columns of a row that the condition selects, if there is one. */
    method SelectOne(stmt: Statement) returns (row: Option<RowData>)
      ensures var found := Found(schema, table, stmt);
              if found == {} then row.None?
              else row.Some? && exists id :: id in found && id in table.rows && row.value == Projected(stmt, table.rows[id])
    {
      var found := Found(schema, table, stmt);
      if found == {} {
        return None;
      }
      HasMember(found);
      var id :| id in found;
      row := Some(Projected(stmt, table.rows[id]));
    }

    /** An INSERT or UPDATE; returns the number that a new row would get. */
    method Perform(stmt: Statement) returns (id: int)
      modifies this
      ensures table == Performed(schema, old(table), stmt) && id == old(table.next)
    {
      id := table.next;
      table := Performed(schema, table, stmt);
    }
  }

  /** A query that was built but not yet run. */
  function Ready(f: Fields, params: seq<Value>): State {
    State(Data(f, params, map[]), [], true, None)
  }

  lemma FirstExecution(f: Fields, params: seq<Value>)
    requires CoherentFields(f) && Executable(f)
    ensures Step(Ready(f, params), Execute).1 == Some(Statement(FreshText(f), Bound(params), map[]))
  {
    BodyCached(f);
  }

  /** The first execution of a built query runs its text with its parameters in order. */
  method RunReady(query: Query, f: Fields, params: seq<Value>) returns (ran: Statement)
    requires query.Contents() == Ready(f, params) && CoherentFields(f) && Executable(f)
    modifies query
    ensures ran == Statement(FreshText(f), Bound(params), map[])
  {
    FirstExecution(f, params);
    var r := query.Run();
    ran := r.value;
  }

  /** The UPDATE query: one value per column, then the key test. */
  method BuildUpdate(s: Schema, columns: seq<string>, row: seq<Value>, v: Value) returns (query: Query)
    requires |row| == |columns| && !IsNamed(v)
    ensures fresh(query) && query.Contents() == Ready(UpdateFields(s, columns, v), row + [v])
  {
    query := new Query(UpdateOf(s.table, columns, EMPTY));
    query.BindVector(row);
    PutSeqAppends([], row);
    assert query.params == row;
    OneBindIsPut(row, KeyTest(s, v));
    query.Where(KeyTest(s, v));
  }

  /** The parameters of a query that tests the key only. */
  function KeyParams(v: Value): seq<Value> {
    if IsNamed(v) then [] else [v]
  }

  lemma KeyIsBound(s: Schema, v: Value)
    ensures PutAll([], 1, Binds(KeyTest(s, v))) == KeyParams(v) && KeyBound(Bound(KeyParams(v)), 1, v)
  {
    if !IsNamed(v) {
      OneBindIsPut([], KeyTest(s, v));
      assert [] + [v] == [v];
      BoundAt([v], 1);
    }
  }

  lemma FirstTestIs(f: Fields, s: Schema, v: Value)
    requires !f.InsertInto?
    ensures Step(Initial(f), WhereIs(KeyTest(s, v))).0
         == Ready(WithWhere(f, Leaf([Atom(Operators.Test(KeyTest(s, v), 1))])), KeyParams(v))
  {
    KeyIsBound(s, v);
  }

  /** A SELECT of the schema's columns with the key test. */
  method BuildKeyQuery(s: Schema, v: Value) returns (query: Query)
    ensures fresh(query) && query.Contents() == Ready(KeySelect(s, v, s.columns, ""), KeyParams(v))
  {
    query := new Query(SelectFrom(s.table, s.columns, [], EMPTY, "", "", "", None));
    FirstTestIs(SelectFrom(s.table, s.columns, [], EMPTY, "", "", "", None), s, v);
    query.Where(KeyTest(s, v));
  }

  /** The SELECT of `exists`: the key test, counted. */
  method RunCount(s: Schema, v: Value) returns (ran: Statement)
    ensures ran.sql == FreshText(KeySelect(s, v, COUNT_COLUMNS, "")) && KeyBound(ran.bound, 1, v)
  {
    var query := BuildKeyQuery(s, v);
    FirstCount(KeySelect(s, v, s.columns, ""), KeyParams(v));
    KeyIsBound(s, v);
    ran := query.CountRows();
  }

  lemma FirstCount(f: Fields, params: seq<Value>)
    requires f.SelectFrom? && CoherentFields(f)
    ensures Count(Ready(f, params)).1 == Statement(FreshText(WithColumns(f, COUNT_COLUMNS)), Bound(params), map[])
  {
    BodyCached(WithColumns(f, COUNT_COLUMNS));
  }

  /** The SELECT of `refresh`: the key test, then the limit. */
  method RunLookup(s: Schema, v: Value) returns (ran: Statement)
    ensures ran.sql == FreshText(KeySelect(s, v, s.columns, "1")) && KeyBound(ran.bound, 1, v)
  {
    var query := BuildKeyQuery(s, v);
    query.Limit("1");
    KeyIsBound(s, v);
    ran := RunReady(query, KeySelect(s, v, s.columns, "1"), KeyParams(v));
  }

  method RunUpdate(s: Schema, columns: seq<string>, row: seq<Value>, v: Value) returns (ran: Statement)
    requires s.table != "" && !IsNamed(v)
    requires |row| == |columns|
    ensures ran.sql == FreshText(UpdateFields(s, columns, v)) && BoundInOrder(ran.bound, row + [v])
  {
    var query := BuildUpdate(s, columns, row, v);
    BoundIsInOrder(row + [v]);
    ran := RunReady(query, UpdateFields(s, columns, v), row + [v]);
  }

  /** The INSERT query. */
  method RunInsert(s: Schema, columns: seq<string>, row: seq<Value>) returns (ran: Statement)
    requires s.table != ""
    ensures ran.sql == FreshText(InsertInto(s.table, columns, None)) && BoundInOrder(ran.bound, row)
  {
    var f := InsertInto(s.table, columns, None);
    var query := new Query(f);
    query.BindVector(row);
    PutSeqAppends([], row);
    assert query.params == row;
    BodyCached(f);
    BoundIsInOrder(row);
    var r := query.Run();
    ran := r.value;
  }

  /** The `copy_if` over the schema's columns. */
  method CopyAvailable(all: seq<string>, values: RowData, found: bool, key: string) returns (columns: seq<string>)
    ensures columns == Available(all, values, found, key)
  {
    columns := [];
    var i := 0;
    ghost var goal := Available(all, values, found, key);
    assert all[0..] == all && [] + goal == goal;
    while i < |all|
      invariant 0 <= i <= |all|
      invariant columns + Available(all[i..], values, found, key) == goal
    {
      AvailableStep(columns, all, i, values, found, key);
      if all[i] in values && (found || all[i] != key) {
        columns := columns + [all[i]];
      }
      i := i + 1;
    }
    assert all[i..] == [] && columns + [] == columns;
  }

  /** `init`: set every column of the row. */
  method InitFrom(values: RowData, row: RowData) returns (r: RowData)
    ensures r == values + row
  {
    r := values;
    var left := row.Keys;
    while left != {}
      invariant left <= row.Keys && r.Keys == values.Keys + (row.Keys - left)
      invariant forall c | c in r :: r[c] == if c in row && c !in left then row[c] else values[c]
      decreases |left|
    {
      var c :| c in left;
      r := r[c := row[c]];
      left := left - {c};
    }
  }

  class Record {
    const schema: Schema
    const db: Database
    var values: RowData

    ghost predicate Valid()
      reads this, db
    {
      ValidSchema(schema) && db.schema == schema && ValidTable(schema, db.table)
    }

    ghost function Contents(): Saving
      reads this, db
    {
      Saving(values, db.table)
    }

    constructor (schema: Schema, db: Database)
      requires ValidSchema(schema) && db.schema == schema && ValidTable(schema, db.table)
      ensures Valid() && this.schema == schema && this.db == db && values == map[]
    {
      this.schema, this.db, values := schema, db, map[];
    }

    method SetValue(name: string, value: Value)
      modifies this
      ensures Contents() == Perform(schema, old(Contents()), Set(name, value))
    {
      values := values[name := value];
    }

    method UnsetValue(name: string)
      modifies this
      ensures Contents() == Perform(schema, old(Contents()), Unset(name))
    {
      values := values - {name};
    }

    method AvailableColumns(found: bool) returns (columns: seq<string>)
      requires ValidSchema(schema)
      ensures columns == Available(schema.columns, values, found, schema.key)
    {
      columns := CopyAvailable(schema.columns, values, found, schema.key);
    }

    /** `get(columns)`: the values of those columns the record has. */
    method GetValues(columns: seq<string>) returns (row: seq<Value>)
      ensures row == Held(values, columns)
    {
      row := [];
      for i := 0 to |columns|
        invariant row == Held(values, columns[..i])
      {
        assert columns[..i + 1][..i] == columns[..i];
        if columns[i] in values {
          row := row + [values[columns[i]]];
        }
      }
      assert columns[..|columns|] == columns;
    }

    /** `exists()`: count the rows with the record's key. */
    method RowExists() returns (found: bool)
      requires Valid()
      ensures found == Exists(schema, Contents())
    {
      if schema.key !in values {
        return false;
      }
      var v := values[schema.key];
      var ran := RunCount(schema, v);
      var n := db.CountRows(ran);
      CountIsExists(schema, db.table, v, COUNT_COLUMNS, "", ran);
      found := n > 0;
    }

    /** `refresh()`: read the record's row and take over its columns. */
    method RefreshRecord() returns (ok: bool)
      requires Valid()
      modifies this
      ensures Valid() && ok == Exists(schema, old(Contents())) && Contents() == Refreshed(schema, old(Contents()))
    {
      if schema.key !in values {
        return false;
      }
      var v := values[schema.key];
      var ran := RunLookup(schema, v);
      CountIsExists(schema, db.table, v, schema.columns, "1", ran);
      var row := db.SelectOne(ran);
      if row.None? {
        return false;
      }
      assert row.value == db.table.rows[KeyOf(schema, Contents())];
      values := InitFrom(values, row.value);
      ok := true;
    }

    /** `save()`: update the row if it exists, else insert one and adopt its number. */
    method SaveRecord(accepted: bool)
      requires Valid()
      modifies this, db
      ensures Valid() && Contents() == Saved(schema, old(Contents()), accepted)
    {
      var found := RowExists();
      var columns := AvailableColumns(found);
      if found {
        UpdateRow(columns);
      } else if accepted {
        InsertRow(columns);
      }
    }

    method UpdateRow(columns: seq<string>)
      requires Valid() && Exists(schema, Contents()) && columns == Available(schema.columns, values, true, schema.key)
      modifies db
      ensures Valid() && Contents() == Saved(schema, old(Contents()), true)
    {
      var v := values[schema.key];
      var row := GetValues(columns);
      HeldAll(values, columns);
      var ran := RunUpdate(schema, columns, row, v);
      UpdateIsSave(schema, db.table, values, v, columns, ran);
      var id := db.Perform(ran);
    }

    method InsertRow(columns: seq<string>)
      requires Valid() && !Exists(schema, Contents()) && columns == Available(schema.columns, values, false, schema.key)
      modifies this, db
      ensures Valid() && Contents() == Saved(schema, old(Contents()), true)
    {
      var row := GetValues(columns);
      HeldAll(values, columns);
      var ran := RunInsert(schema, columns, row);
      InsertIsSave(schema, db.table, values, columns, ran);
      InsertKeepsValid(schema, db.table, values);
      var id := db.Perform(ran);
      values := values[schema.key := Number(id)];
    }
  }
}
