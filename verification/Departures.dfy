/** Concrete inputs on which the library does not do what its interface suggests.  Each belongs to a
    family that is characterised exactly, for all inputs, by a lemma of the module it speaks of. */
module Departures {
  import opened SqlText
  import opened SearchCondition
  import opened WhereClause
  import opened ClauseMeaning
  import opened ClauseValidity
  import opened Operators
  import opened QueryText
  import opened QueryMachine
  import opened StatementReuse
  import opened ParameterOrder
  import opened BuilderMeaning
  import P = PostgresBinding
  import PC = PostgresCells
  import M = MysqlBinding
  import MC = MysqlCells
  import S = SlotStore
  import D = Decimal
  import U = Uri
  import K = ParameterKinds
  import O = OperatorMeaning

  /** `a && (b || c)` prints `a AND b OR c`: with a and b false and c true the clause is false, the
      text true. */
  lemma AndOfOr(a: Predicate, b: Predicate, c: Predicate)
    requires a != b && b != c && a != c
    ensures var clause := Clause([Atom(a)], [Clause([Atom(b)], [], [Leaf([Atom(c)])], [])], [], []);
            var v: Valuation := p => if p == c then True else False;
            && Fresh(clause) == [Atom(a), KwAnd, Atom(b), KwOr, Atom(c)]
            && Parses(clause) && Meaning(clause, v) == False && Eval(Printed(clause), v) == True
  {
    var clause := Clause([Atom(a)], [Clause([Atom(b)], [], [Leaf([Atom(c)])], [])], [], []);
    var v: Valuation := p => if p == c then True else False;
    AndOfOrMeans(a, b, c, v);
    AndOfOrPrints(a, b, c);
    var tree := FlatTree(a, b, c);
    FlatYield(a, b, c);
    PrintedTextParses(clause);
    ParseYield(tree);
    assert Eval(tree.rest, v) == TermEval(OneFactor(SearchCondition.Test(c)), v) == True;
  }

  lemma AndOfOrMeans(a: Predicate, b: Predicate, c: Predicate, v: Valuation)
    ensures var clause := Clause([Atom(a)], [Clause([Atom(b)], [], [Leaf([Atom(c)])], [])], [], []);
            Parses(clause) && Meaning(clause, v) == And3(v(a), Or3(v(b), v(c)))
  {
    var inner := Clause([Atom(b)], [], [Leaf([Atom(c)])], []);
    var clause := Clause([Atom(a)], [inner], [], []);
    LeafMeaning(a, v);
    LeafMeaning(b, v);
    LeafMeaning(c, v);
    assert Parses(inner) && Parses(clause);
    assert Meanings([Leaf([Atom(c)])], v) == [v(c)] && Any3([v(c)]) == v(c);
    assert Meaning(inner, v) == Or3(v(b), v(c));
    assert Meanings([inner], v) == [Meaning(inner, v)] && All3([Meaning(inner, v)]) == Meaning(inner, v);
  }

  lemma AndOfOrPrints(a: Predicate, b: Predicate, c: Predicate)
    ensures Fresh(Clause([Atom(a)], [Clause([Atom(b)], [], [Leaf([Atom(c)])], [])], [], []))
         == [Atom(a), KwAnd, Atom(b), KwOr, Atom(c)]
  {
    var inner := Clause([Atom(b)], [], [Leaf([Atom(c)])], []);
    GenerateShapes(Clause([Atom(a)], [inner], [], []), false);
    GenerateShapes(inner, false);
    GenerateShapes(Leaf([Atom(c)]), false);
  }

  /** The derivation of `a AND b OR c`. */
  function FlatTree(a: Predicate, b: Predicate, c: Predicate): Condition {
    OrTerm(AndFactor(SearchCondition.Test(a), OneFactor(SearchCondition.Test(b))),
           OneTerm(OneFactor(SearchCondition.Test(c))))
  }

  lemma FlatYield(a: Predicate, b: Predicate, c: Predicate)
    ensures Yield(FlatTree(a, b, c)) == [Atom(a), KwAnd, Atom(b), KwOr, Atom(c)]
  {
    var tree := FlatTree(a, b, c);
    assert TermYield(tree.first) == [Atom(a)] + [KwAnd] + TermYield(OneFactor(SearchCondition.Test(b)))
                                 == [Atom(a)] + [KwAnd] + [Atom(b)];
    assert Yield(tree.rest) == TermYield(OneFactor(SearchCondition.Test(c))) == [Atom(c)];
    assert Yield(tree) == TermYield(tree.first) + [KwOr] + Yield(tree.rest);
  }

  /** `a && where_clause()` prints an AND with nothing after it. */
  lemma AndOfNothing(a: Predicate)
    ensures var clause := Appended(Leaf([Atom(a)]), AndClause(EMPTY));
            Fresh(clause) == [Atom(a), KwAnd] && Parse(Fresh(clause)).None?
  {
    var clause := Appended(Leaf([Atom(a)]), AndClause(EMPTY));
    GenerateShapes(clause, false);
    GenerateShapes(EMPTY, false);
    LeafMeaning(a, p => True);
    assert IsEmpty(clause.ands[0]) && !NoEmptyPart(clause);
    PrintsConditionIff(clause);
  }

  lemma RunFirst(s: State, c: Call, rest: seq<Call>)
    requires OffersAll(s.data.fields, [c] + rest)
    ensures Offers(s.data.fields, c) && OffersAll(Step(s, c).0.data.fields, rest)
    ensures var e := Step(s, c).1;
            Run(s, [c] + rest).1 == (if e.Some? then [e.value] else []) + Run(Step(s, c).0, rest).1
  {
    var calls := [c] + rest;
    assert calls[0] == c && calls[1..] == rest;
    OffersRest(s, calls);
  }

  /** Change, reset, execute after an execution: the old statement runs again. */
  lemma ForgottenChange(s: State, c: Call)
    requires Offers(s.data.fields, c) && Notifies(c) && s.stmt.Some?
    requires !s.data.fields.SelectFrom? && Executable(Edit(s.data, c).fields)
    ensures OffersAll(s.data.fields, [c, CallerReset, Execute]) && Run(s, [c, CallerReset, Execute]).1 == [s.stmt.value]
  {
    ForgottenStep(s, c);
    var t := Step(s, c).0;
    var u := Step(t, CallerReset).0;
    assert [c, CallerReset, Execute] == [c] + [CallerReset, Execute];
    assert [CallerReset, Execute] == [CallerReset] + [Execute] && [Execute] == [Execute] + [];
    RunFirst(s, c, [CallerReset, Execute]);
    RunFirst(t, CallerReset, [Execute]);
    RunFirst(u, Execute, []);
  }

  lemma ForgottenStep(s: State, c: Call)
    requires Offers(s.data.fields, c) && Notifies(c) && s.stmt.Some?
    requires !s.data.fields.SelectFrom? && Executable(Edit(s.data, c).fields)
    ensures Step(s, c).1.None? && Step(Step(s, c).0, CallerReset).1.None?
    ensures Step(Step(Step(s, c).0, CallerReset).0, Execute).1 == s.stmt
  {
    EditKind(s.data, c);
    var t := Step(s, c).0;
    assert t.stmt == s.stmt && t.data == Edit(s.data, c);
    SettledRunsAgain(Step(t, CallerReset).0);
  }

  lemma SettledRunsAgain(s: State)
    requires s.stmt.Some? && !s.dirty && Executable(s.data.fields)
    ensures Step(s, Execute).1 == s.stmt
  {
  }

  /** Renaming the table and then resetting: the statement on the old table runs again. */
  lemma ResetForgetsRename()
    ensures var s := Step(Initial(DeleteFrom("a", EMPTY)), Execute).0;
            Run(s, [SetTable("b"), CallerReset, Execute]).1 == [Afresh(Data(DeleteFrom("a", EMPTY), [], map[]))]
  {
    var s := Step(Initial(DeleteFrom("a", EMPTY)), Execute).0;
    ForgottenChange(s, SetTable("b"));
  }

  /** Binding a new value and then resetting: the old value is inserted again, with the same text. */
  lemma ResetForgetsValue(x: Value, y: Value)
    ensures var s := Step(Step(Initial(InsertInto("t", ["a"], None)), BindIndex(1, x)).0, Execute).0;
            Run(s, [BindIndex(1, y), CallerReset, Execute]).1 == [Afresh(Data(InsertInto("t", ["a"], None), [x], map[]))]
  {
    var s := Step(Step(Initial(InsertInto("t", ["a"], None)), BindIndex(1, x)).0, Execute).0;
    assert Put([], 1, x) == [x];
    ForgottenChange(s, BindIndex(1, y));
  }

  /** `count` on a new query leaves the counting text to be executed. */
  lemma CountIsLeftBehind()
    ensures var s := Initial(SelectFrom("t", ["a"], [], EMPTY, "", "", "", None));
            !Sync(Count(s).0) && Step(Count(s).0, Execute).1 == Some(Count(s).1)
  {
    var s := Initial(SelectFrom("t", ["a"], [], EMPTY, "", "", "", None));
    assert ["a"][0] != COUNT_COLUMNS[0];
    CountIff(s);
  }

  /** An IN with two values on any query in step: one placeholder, two parameters. */
  lemma InTakesTwo(d: Data, column: string, x: Value, y: Value)
    requires InStep(d)
    ensures var e := Edit(d, WhereAnd(In(column, false, [x, y])));
            && Placeholders(FreshText(e.fields)) == UpTo(|d.params|) + [|d.params| + 1]
            && e.params == d.params + [x, y]
  {
    EditPlaceholders(d, In(column, false, [x, y]));
  }

  /** A BETWEEN on any query in step: the placeholders stay in step, but the lower end is lost. */
  lemma BetweenLosesFirst(d: Data, column: string, x: Value, y: Value)
    requires InStep(d)
    ensures var op := Between(column, false, x, y);
            var e := Edit(d, WhereAnd(op));
            InStep(e) && e.params == d.params + [y] && !Agrees(d, op)
  {
    var op := Between(column, false, x, y);
    EditPlaceholders(d, op);
    AgreementKeptIff(d, op);
    assert UpTo(|d.params|) + [|d.params| + 1] == UpTo(|d.params| + 1);
  }

  /** An IS NULL on any query in step prints one more placeholder and binds a null, and takes neither. */
  lemma IsNullTakesOne(d: Data, column: string)
    requires InStep(d)
    ensures var op := Single(column, IsNull, false, Null);
            var e := Edit(d, WhereAnd(op));
            && Placeholders(FreshText(e.fields)) == UpTo(|d.params|) + [|d.params| + 1]
            && e.params == d.params + [Null] && Needs(op) == [] && !Agrees(d, op)
  {
    var op := Single(column, IsNull, false, Null);
    EditPlaceholders(d, op);
    AgreementKeptIff(d, op);
  }

  lemma NewDeleteInStep()
    ensures InStep(Data(DeleteFrom("t", EMPTY), [], map[])) && Placeholders(FreshText(DeleteFrom("t", EMPTY))) == []
  {
    QueryPlaceholders(DeleteFrom("t", EMPTY));
    assert UpTo(0) == [] && WhereText(EMPTY, false) == [];
  }

  lemma OneComparison(d: Data, op: Operator)
    requires InStep(d) && TakesOne(op) && d.params == []
    ensures var e := Edit(d, WhereAnd(op)); InStep(e) && e.params == Needs(op)
  {
    AgreementKeptIff(d, op);
    AgreeingStep(d, op);
    assert [] + Needs(op) == Needs(op);
  }

  /** `where(a = x)`, execute, `where() && b = y`: two placeholders 1 and one parameter. */
  lemma NumberedAgainAfterExecute(x: Value, y: Value)
    requires !IsNamed(x) && !IsNamed(y)
    ensures var blank := Data(DeleteFrom("t", EMPTY), [], map[]);
            var s := State(Edit(blank, WhereAnd(Single("a", Eq, false, x))), [], true, None);
            var e := Edit(Step(s, Execute).0.data, WhereAnd(Single("b", Eq, false, y)));
            Placeholders(FreshText(e.fields)) == [1, 1] && e.params == [y]
  {
    var blank := Data(DeleteFrom("t", EMPTY), [], map[]);
    var d := Edit(blank, WhereAnd(Single("a", Eq, false, x)));
    NewDeleteInStep();
    OneComparison(blank, Single("a", Eq, false, x));
    assert UpTo(1) == [1];
    NumberedAgain(State(d, [], true, None), Single("b", Eq, false, y));
  }

  /** `where(a = x) || b = y` prints `a = x AND b = y`: false where only the second test is true. */
  lemma OrOfTwo(p: Predicate, q: Predicate)
    requires p != q
    ensures var v: Valuation := r => if r == q then True else False;
            && Parse(Fresh(Chain([p, q]))).Some? && Parses(Intended([p, q], [false, true]))
            && Eval(Parse(Fresh(Chain([p, q]))).value, v) == False
            && Meaning(Intended([p, q], [false, true]), v) == True
  {
    var v: Valuation := r => if r == q then True else False;
    BuilderMeansConjunction([p, q], v);
    All3False(Truths([p, q], v), 0);
    IntendedMeaning([p, q], [false, true], v);
    assert [p, q][1..] == [q] && [false, true][1..] == [true] && [q][1..] == [];
    MarkedHas([q], [true], true, 0);
    assert Marked([q], [true], true) == [q];
    Any3True(Truths([q], v), 0);
  }

  /** A named operand appended after rendering is missing from what is executed. */
  lemma NamedAppendIsMissed()
    ensures var op := Single("c", Eq, false, Str(":x"));
            var s := Step(Initial(DeleteFrom("t", EMPTY)), Print).0;
            Sync(s) && !Sync(Step(s, WhereAnd(op)).0)
  {
    var op := Single("c", Eq, false, Str(":x"));
    var s := Initial(DeleteFrom("t", EMPTY));
    StepSync(s, Print);
    SilentAppendIff(Step(s, Print).0, WhereAnd(op));
  }

  /** Only index 2 bound: the count is 1, so position 2 is not passed on. */
  lemma GapDropsValue(v: PC.Parameter)
    ensures var cells := S.Store(S.Zeros(S.PREALLOC, PC.ZERO), PC.ZERO, 2, PC.Encode(v));
            P.CountTyped(cells) == 1
  {
    var cells := S.Store(S.Zeros(S.PREALLOC, PC.ZERO), PC.ZERO, 2, PC.Encode(v));
    S.StoreRepresents(S.Zeros(S.PREALLOC, PC.ZERO), map[], PC.ZERO, 2, PC.Encode(v));
    P.CountIsDistinct(cells, map[2 := PC.Encode(v)]);
  }

  /** An empty text bound on postgres is read back as null. */
  lemma EmptyTextIsNull()
    ensures PC.Decode(PC.Encode(PC.Seen(Str("")))) == PC.Nothing
  {
    PC.TextReadsBackIff("");
  }

  /** A text is cut at its first NUL, on mysql and on postgres. */
  lemma NulCutsText(a: char, b: char)
    requires a != 0 as char
    ensures MC.Decode(MC.Encode(MC.Seen(Str([a, 0 as char, b])))) == MC.Text([a])
    ensures PC.Decode(PC.Encode(PC.Seen(Str([a, 0 as char, b])))) == PC.Text([a])
  {
    var s := [a, 0 as char, b];
    assert s[1..] == [0 as char, b] && K.CText(s[1..]) == [];
    assert K.CText(s) == [a] + K.CText(s[1..]) == [a];
  }

  /** A negated `>` prints as `!>`, which no server of the three understands. */
  lemma NotGreaterIsUnknown(sv: O.Server, x: Value, y: Value)
    ensures Symbol(Single("c", Greater, true, y)) == "!>" && O.SymbolTruth(sv, "!>", x, y).None?
  {
  }

  /** `? $1`: the value of index 1 reaches position 2 only. */
  lemma QuestionHiddenByDollar(v: MC.Parameter)
    ensures M.Reach([M.Question, M.Dollar(1)], M.ByIndex(1, v)) == {2}
  {
    var first, t := [M.Question], [M.Question, M.Dollar(1)];
    assert first[..0] == [] && M.Indexed(first) == first;
    assert t[..1] == first && M.Indexed(t) == first + [M.Dollar(1)] == t;
    assert M.At(t, 1) == M.Question && M.At(t, 2) == M.Dollar(1);
  }

  /** `:a ?`: the name is given number 2 and never reaches its position 1. */
  lemma NameBeforeQuestion(v: MC.Parameter)
    ensures M.Reach([M.Name("a"), M.Question], M.ByName("a", v)) == {2}
  {
    var t := [M.Name("a"), M.Question];
    NameFirstParts();
    assert M.IndexReach(t, 2) == {2};
    assert 2 in M.Reach(t, M.ByName("a", v));
  }

  lemma NameFirstParts()
    ensures var t := [M.Name("a"), M.Question];
            M.Indexed(t) == [M.Question] && M.Names(t) == ["a"]
    ensures M.NamePositions(["a"], "a", 1) == {2}
  {
    var first, t := [M.Name("a")], [M.Name("a"), M.Question];
    assert first[..0] == [] && M.Indexed(first) == [] && M.Names(first) == ["a"];
    assert t[..1] == first;
    assert M.NameAt(["a"], 1) == "a";
  }

  /** A text of protocol, host and path, one letter each. */
  function ShortUri(protocol: char, host: char, path: char): string {
    U.Compose(U.Parts([protocol], None, None, [host], None, [path], None))
  }

  predicate Letter(c: char) {
    'a' <= c <= 'z'
  }

  lemma ShortUriParses(protocol: char, host: char, path: char)
    requires Letter(protocol) && Letter(host) && Letter(path)
    ensures var url := ShortUri(protocol, host, path);
            U.Defined(url) && U.Parsed(url).protocol == [protocol] && U.Parsed(url).host == [host]
  {
    var p := U.Parts([protocol], None, None, [host], None, [path], None);
    U.ComposedParses(p);
    LowerLetter(protocol);
    LowerLetter(host);
  }

  lemma LowerLetter(c: char)
    requires Letter(c)
    ensures U.Lower([c]) == [c]
  {
  }

  /** Parsing one short text into an object that holds another, such as `b://g/q` after `a://h/p`:
      the protocol becomes `ab`, the host `hg`. */
  lemma SecondParseAppends(a: char, h: char, p: char, b: char, g: char, q: char)
    requires Letter(a) && Letter(h) && Letter(p) && Letter(b) && Letter(g) && Letter(q)
    ensures U.Defined(ShortUri(a, h, p)) && U.Defined(ShortUri(b, g, q))
    ensures var f := U.Reparsed(U.Parsed(ShortUri(a, h, p)), ShortUri(b, g, q));
            f.protocol == [a] + [b] && f.host == [h] + [g]
  {
    ShortUriParses(a, h, p);
    ShortUriParses(b, g, q);
    U.ReparsedAppends(U.Parsed(ShortUri(a, h, p)), ShortUri(b, g, q));
  }

  /** The integer just below the longs parses as a large positive one. */
  lemma BelowLongWraps()
    ensures D.ParseNumber(D.IntText(D.LONG_MIN - 1)) == D.Ok(D.ULong(D.LONG_MAX))
  {
    D.ParseIntText(D.LONG_MIN - 1);
  }
}
