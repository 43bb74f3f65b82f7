/** From a query to the server: the statement that an execution prepares, taken through the parameter
    binding of mysql (src/mysql/binding.cpp:657-747, with the placeholder of src/mysql/session.cpp:238)
    and of postgres (src/postgres/binding.cpp:401-420).  Each position of the statement holds a cell from
    which the value given for its placeholder is read back. */
module SentParameters {
  import opened SqlText
  import opened WhereClause
  import opened Operators
  import opened QueryText
  import opened QueryMachine
  import opened ParameterOrder
  import opened CallReading
  import R = StatementReader
  import opened SlotStore
  import M = MysqlBinding
  import MC = MysqlCells
  import P = PostgresBinding
  import PC = PostgresCells

  // ----- the template that mysql prepares -----

  /** The text of a token without placeholder. */
  function TokenText(t: Token): string {
    match t
    case Word(s) => s
    case Param(_) => ""
    case Atom(Raw(s)) => s
    case Atom(Compare(lvalue, _, _)) => lvalue
    case KwAnd => " AND "
    case KwOr => " OR "
    case Open => "("
    case Close => ")"
  }

  /** A token as mysql's session prints it: every placeholder is a `?`. */
  function Pieces(t: Token): M.Template {
    match t
    case Param(_) => [M.Question]
    case Atom(Compare(lvalue, operator, _)) =>
      [M.Literal(lvalue), M.Literal(" "), M.Literal(operator), M.Literal(" ")] + [M.Question]
    case _ => [M.Literal(TokenText(t))]
  }

  predicate HasPlaceholder(t: Token) {
    t.Param? || (t.Atom? && t.test.Compare?)
  }

  function TemplateOf(ts: Text): M.Template {
    if ts == [] then [] else TemplateOf(ts[..|ts| - 1]) + Pieces(ts[|ts| - 1])
  }

  function Questions(n: nat): (ps: seq<M.Piece>)
    ensures |ps| == n && forall i | 0 <= i < n :: ps[i] == M.Question
  {
    seq(n, i => M.Question)
  }

  /** Only `?` placeholders, n of them. */
  predicate HasQuestions(t: M.Template, n: nat) {
    M.Params(t) == Questions(n) && M.Indexed(t) == Questions(n) && M.Names(t) == []
  }

  lemma {:induction false} AddLiterals(t: M.Template, more: M.Template, n: nat)
    requires HasQuestions(t, n) && forall i | 0 <= i < |more| :: more[i].Literal?
    ensures HasQuestions(t + more, n)
    decreases |more|
  {
    if more == [] {
      assert t + more == t;
    } else {
      var init := more[..|more| - 1];
      AddLiterals(t, init, n);
      var u := t + more;
      assert u[..|u| - 1] == t + init;
    }
  }

  lemma AddQuestion(t: M.Template, n: nat)
    requires HasQuestions(t, n)
    ensures HasQuestions(t + [M.Question], n + 1)
  {
    var u := t + [M.Question];
    assert u[..|u| - 1] == t;
    assert Questions(n) + [M.Question] == Questions(n + 1);
  }

  lemma OnePlaceholder(t: Token)
    ensures |Placeholders([t])| == if HasPlaceholder(t) then 1 else 0
  {
    assert [t][1..] == [];
  }

  lemma AddToken(t: M.Template, token: Token, n: nat)
    requires HasQuestions(t, n)
    ensures HasQuestions(t + Pieces(token), n + |Placeholders([token])|)
  {
    OnePlaceholder(token);
    if token.Param? {
      AddQuestion(t, n);
    } else if HasPlaceholder(token) {
      var lead := Pieces(token)[..4];
      assert Pieces(token) == lead + [M.Question];
      AddLiterals(t, lead, n);
      AddQuestion(t + lead, n);
      Regroup(t, lead, [M.Question]);
    } else {
      AddLiterals(t, Pieces(token), n);
    }
  }

  lemma {:induction false} TemplateHasQuestions(ts: Text)
    ensures HasQuestions(TemplateOf(ts), |Placeholders(ts)|)
    decreases |ts|
  {
    if ts == [] {
      assert Questions(0) == [];
    } else {
      var init, last := ts[..|ts| - 1], ts[|ts| - 1];
      TemplateHasQuestions(init);
      AddToken(TemplateOf(init), last, |Placeholders(init)|);
      PlaceholdersConcat(init, [last]);
      assert init + [last] == ts;
    }
  }

  // ----- the printed condition can be read back -----

  /** The connective or parenthesis that a text is. */
  function Keyword(text: string): Option<Token> {
    if text == " AND " then Some(KwAnd)
    else if text == " OR " then Some(KwOr)
    else if text == "(" then Some(Open)
    else if text == ")" then Some(Close)
    else None
  }

  /** The template ends in a test: a name, an operator and a `?`, with blanks between. */
  predicate EndsInTest(t: M.Template) {
    var n := |t|;
    && n >= 5 && t[n - 1] == M.Question && t[n - 2] == t[n - 4] == M.Literal(" ") && t[n - 3].Literal? && t[n - 5].Literal?
  }

  /** A condition of tests read from the end of a template; placeholders count on from `base`. */
  function ReadCondition(t: M.Template, base: nat): Option<Text> {
    var n := |t|;
    if t == [] then Some([])
    else if EndsInTest(t) then
      match ReadCondition(t[..n - 5], base)
      case None => None
      case Some(ts) => Some(ts + [Atom(Compare(t[n - 5].text, t[n - 3].text, base + |M.Params(t)|))])
    else if t[n - 1].Literal? && Keyword(t[n - 1].text).Some? then
      match ReadCondition(t[..n - 1], base)
      case None => None
      case Some(ts) => Some(ts + [Keyword(t[n - 1].text).value])
    else None
  }

  predicate IsKeyword(t: Token) {
    t == KwAnd || t == KwOr || t == Open || t == Close
  }

  /** Connectives, parentheses and tests. */
  predicate OnlyTests(ts: Text) {
    forall i | 0 <= i < |ts| :: IsKeyword(ts[i]) || (ts[i].Atom? && ts[i].test.Compare?)
  }

  /** The placeholders are consecutive after `base`. */
  ghost predicate CountsOn(ns: seq<nat>, base: nat) {
    forall i | 0 <= i < |ns| :: ns[i] == base + i + 1
  }

  /** The text that mysql is sent for a condition of tests gives back its tokens. */
  lemma {:induction false} ConditionReadsBack(ts: Text, base: nat)
    requires OnlyTests(ts) && CountsOn(Placeholders(ts), base)
    ensures ReadCondition(TemplateOf(ts), base) == Some(ts)
    decreases |ts|
  {
    if ts != [] {
      var init, last := ts[..|ts| - 1], ts[|ts| - 1];
      LastToken(ts, base);
      ConditionReadsBack(init, base);
      if IsKeyword(last) {
        KeywordReads(TemplateOf(init), last, base, init);
      } else {
        TemplateHasQuestions(ts);
        TestReads(TemplateOf(init), last, base, init);
      }
    }
  }

  lemma KeywordReads(t: M.Template, last: Token, base: nat, init: Text)
    requires IsKeyword(last) && ReadCondition(t, base) == Some(init)
    ensures ReadCondition(t + Pieces(last), base) == Some(init + [last])
  {
    var u := t + Pieces(last);
    assert u[..|u| - 1] == t && u[|u| - 1] == M.Literal(TokenText(last));
    KeywordTexts(last);
  }

  lemma KeywordTexts(t: Token)
    requires IsKeyword(t)
    ensures Keyword(TokenText(t)) == Some(t)
  {
  }

  lemma TestReads(t: M.Template, last: Token, base: nat, init: Text)
    requires last.Atom? && last.test.Compare? && ReadCondition(t, base) == Some(init)
    requires last.test.index == base + |M.Params(t + Pieces(last))|
    ensures ReadCondition(t + Pieces(last), base) == Some(init + [last])
  {
    var u, n := t + Pieces(last), |t|;
    assert u[..n] == t && u[n] == M.Literal(last.test.lvalue) && u[n + 2] == M.Literal(last.test.operator);
    assert EndsInTest(u);
  }

  lemma LastToken(ts: Text, base: nat)
    requires ts != [] && OnlyTests(ts) && CountsOn(Placeholders(ts), base)
    ensures var init, last := ts[..|ts| - 1], ts[|ts| - 1];
            && OnlyTests(init) && CountsOn(Placeholders(init), base) && ts == init + [last]
            && (last.Atom? ==> last.test.index == base + |Placeholders(ts)|)
  {
    var init, last := ts[..|ts| - 1], ts[|ts| - 1];
    assert ts == init + [last];
    PlaceholdersConcat(init, [last]);
    assert [last][1..] == [];
    var ns, before := Placeholders(ts), Placeholders(init);
    forall i | 0 <= i < |before| ensures before[i] == base + i + 1 {
      assert ns[i] == before[i];
    }
    if last.Atom? {
      assert ns == before + [last.test.index];
      assert ns[|ns| - 1] == last.test.index;
    }
  }

  // ----- mysql -----

  /** The binding loop of a statement: the parameters by index, then the named values in some order. */
  function Requests(params: seq<Value>): (rs: seq<M.Request>)
    ensures |rs| == |params|
  {
    seq(|params|, i requires 0 <= i < |params| => M.ByIndex(i + 1, MC.Seen(params[i])))
  }

  function NameRequests(order: seq<string>, named: map<string, Value>): (rs: seq<M.Request>)
    requires forall i | 0 <= i < |order| :: order[i] in named
    ensures |rs| == |order|
  {
    seq(|order|, i requires 0 <= i < |order| => M.ByName(order[i], MC.Seen(named[order[i]])))
  }

  /** What the caller gave for the placeholder at position p. */
  function Given(t: M.Template, params: seq<Value>, named: map<string, Value>, p: nat): Option<Value>
    requires 1 <= p <= |M.Params(t)|
  {
    match M.At(M.Params(t), p)
    case Name(n) => if n in named then Some(named[n]) else None
    case Dollar(k) => if 1 <= k <= |params| then Some(params[k - 1]) else None
    case Question => if p <= |params| then Some(params[p - 1]) else None
    case Literal(_) => None
  }

  function SeenOption(v: Option<Value>): Option<MC.Parameter> {
    if v.Some? then Some(MC.Seen(v.value)) else None
  }

  lemma {:induction false} LastOfIndexes(t: M.Template, params: seq<Value>, n: nat, p: nat)
    requires n <= |params| && 1 <= p <= |M.Params(t)|
    ensures M.LastFor(t, Requests(params)[..n], p) == SeenOption(Given(t, params[..n], map[], p))
    decreases n
  {
    if n > 0 {
      LastOfIndexes(t, params, n - 1, p);
      var rs := Requests(params)[..n];
      assert rs[..n - 1] == Requests(params)[..n - 1] && rs[n - 1] == M.ByIndex(n, MC.Seen(params[n - 1]));
      assert params[..n][..n - 1] == params[..n - 1] && params[..n][n - 1] == params[n - 1];
    }
  }

  lemma {:induction false} LastOfNames(t: M.Template, rs: seq<M.Request>, order: seq<string>, named: map<string, Value>,
                                       n: nat, p: nat)
    requires n <= |order| && 1 <= p <= |M.Params(t)| && forall i | 0 <= i < |order| :: order[i] in named
    ensures M.LastFor(t, rs + NameRequests(order, named)[..n], p)
         == match M.At(M.Params(t), p)
            case Name(name) => if name in order[..n] then Some(MC.Seen(named[name])) else M.LastFor(t, rs, p)
            case _ => M.LastFor(t, rs, p)
    decreases n
  {
    var names := NameRequests(order, named);
    if n == 0 {
      assert rs + names[..0] == rs;
    } else {
      LastOfNames(t, rs, order, named, n - 1, p);
      var all := rs + names[..n];
      assert all[..|all| - 1] == rs + names[..n - 1];
      assert all[|all| - 1] == M.ByName(order[n - 1], MC.Seen(named[order[n - 1]]));
      assert order[..n] == order[..n - 1] + [order[n - 1]];
    }
  }

  /** The names in `order` are exactly those of the map. */
  predicate Enumerates(order: seq<string>, named: map<string, Value>) {
    (forall i | 0 <= i < |order| :: order[i] in named) && (forall n | n in named :: n in order)
  }

  lemma LastIsGiven(t: M.Template, params: seq<Value>, named: map<string, Value>, order: seq<string>, p: nat)
    requires Enumerates(order, named) && 1 <= p <= |M.Params(t)|
    ensures M.LastFor(t, Requests(params) + NameRequests(order, named), p) == SeenOption(Given(t, params, named, p))
  {
    var rs, names := Requests(params), NameRequests(order, named);
    LastOfIndexes(t, params, |params|, p);
    LastOfNames(t, rs, order, named, |order|, p);
    assert rs[..|params|] == rs && names[..|order|] == names && params[..|params|] == params && order[..|order|] == order;
  }

  /** Each position holds a cell from which the given value is read back, if the value can be stored at
      all; positions for which nothing was given, and all others, hold none. */
  ghost predicate HoldsGiven(t: M.Template, m: map<nat, MC.Cell>, params: seq<Value>, named: map<string, Value>) {
    && (forall p: nat | p in m :: 1 <= p <= |M.Params(t)|)
    && (forall p: nat | 1 <= p <= |M.Params(t)| ::
          var v := Given(t, params, named, p);
          if v.None? then p !in m
          else p in m && (MC.Decode(m[p]) == MC.ValueOf(v.value) <==> MC.Storable(v.value)))
  }

  /** Every template whose rewriting is sound gets the values given: by index, by repeated or reused
      `$k`, and by name. */
  lemma MysqlHoldsGiven(t: M.Template, params: seq<Value>, named: map<string, Value>, order: seq<string>)
    requires M.NamesLast(t) && M.Unmixed(t) && M.Unshadowed(t)
    requires M.AllCovered(t, Requests(params)) && Enumerates(order, named)
    ensures HoldsGiven(t, M.After(t, map[], Requests(params) + NameRequests(order, named)), params, named)
  {
    var rs := Requests(params) + NameRequests(order, named);
    var m := M.After(t, map[], rs);
    AllAreCovered(t, params, named, order);
    M.RewritingPreservesMeaning(t, rs);
    forall p: nat | 1 <= p <= |M.Params(t)|
      ensures var v := Given(t, params, named, p);
              if v.None? then p !in m
              else p in m && (MC.Decode(m[p]) == MC.ValueOf(v.value) <==> MC.Storable(v.value))
    {
      LastIsGiven(t, params, named, order, p);
      var v := Given(t, params, named, p);
      if v.Some? {
        MC.ValueReadsBackIff(v.value);
      }
    }
  }

  lemma AllAreCovered(t: M.Template, params: seq<Value>, named: map<string, Value>, order: seq<string>)
    requires M.AllCovered(t, Requests(params)) && Enumerates(order, named)
    ensures M.AllCovered(t, Requests(params) + NameRequests(order, named))
  {
    var rs, names := Requests(params), NameRequests(order, named);
    var all := rs + names;
    forall i | 0 <= i < |all| ensures all[i].ByIndex? ==> M.Covers(t, all[i]) {
      if i < |rs| {
        assert all[i] == rs[i];
      } else {
        assert all[i] == names[i - |rs|];
      }
    }
  }

  lemma QuestionsAreFine(t: M.Template, n: nat)
    requires HasQuestions(t, n)
    ensures M.NamesLast(t) && M.Unmixed(t) && M.Unshadowed(t)
  {
    assert M.NamePieces([]) == [] && Questions(n) + [] == Questions(n);
  }

  lemma RequestsAreCovered(t: M.Template, params: seq<Value>)
    requires HasQuestions(t, |params|)
    ensures M.AllCovered(t, Requests(params))
  {
    forall i | 0 <= i < |params| ensures M.Covers(t, Requests(params)[i]) {
      assert M.Refers(M.At(M.Params(t), i + 1), i + 1, Requests(params)[i]);
    }
  }

  /** Position p holds a cell that is read back as value p, if that value can be stored; no other slot is
      bound. */
  ghost predicate MysqlInOrder(m: map<nat, MC.Cell>, values: seq<Value>) {
    && (forall p: nat :: p in m <==> 1 <= p <= |values|)
    && (forall p: nat | 1 <= p <= |values| :: MC.Decode(m[p]) == MC.ValueOf(values[p - 1]) <==> MC.Storable(values[p - 1]))
  }

  /** On mysql, a text with as many placeholders as parameters gets value p at position p. */
  lemma MysqlGetsValues(text: Text, params: seq<Value>)
    requires |Placeholders(text)| == |params|
    ensures MysqlInOrder(M.After(TemplateOf(text), map[], Requests(params)), params)
  {
    var t, rs := TemplateOf(text), Requests(params);
    TemplateHasQuestions(text);
    QuestionsAreFine(t, |params|);
    RequestsAreCovered(t, params);
    MysqlHoldsGiven(t, params, map[], []);
    assert NameRequests([], map[]) == [] && rs + [] == rs;
    GivenInOrder(t, M.After(t, map[], rs), params);
  }

  lemma GivenInOrder(t: M.Template, m: map<nat, MC.Cell>, params: seq<Value>)
    requires HasQuestions(t, |params|) && HoldsGiven(t, m, params, map[])
    ensures MysqlInOrder(m, params)
  {
    forall p: nat | 1 <= p <= |params| ensures Given(t, params, map[], p) == Some(params[p - 1]) {
      assert M.At(M.Params(t), p) == M.Question;
    }
  }

  /** From the calls to the server: after any run whose execution prepares, binding the statement's values
      to any sound template leaves at each position the value that the calls last gave for it. */
  lemma CallsReachMysql(f: Fields, calls: seq<Call>, t: M.Template, order: seq<string>)
    requires OffersAll(f, calls) && Executable(Run(Initial(f), calls).0.data.fields) && MustPrepare(Run(Initial(f), calls).0)
    requires M.NamesLast(t) && M.Unmixed(t) && M.Unshadowed(t)
    requires var s := Run(Initial(f), calls).0;
             M.AllCovered(t, Requests(s.data.params)) && Enumerates(order, s.data.named)
    ensures var s, r := Run(Initial(f), calls).0, ReadAll(f.SelectFrom?, Unread(f), calls);
            && Step(s, Execute).1.Some? && Step(s, Execute).1.value.named == s.data.named
            && Step(s, Execute).1.value.bound == Bound(s.data.params)
            && HoldsGiven(t, M.After(t, map[], Requests(s.data.params) + NameRequests(order, s.data.named)),
                          ParametersRead(r), r.named)
  {
    var s := Run(Initial(f), calls).0;
    PreparedAsRead(f, calls);
    MysqlHoldsGiven(t, s.data.params, s.data.named, order);
  }

  // ----- postgres -----

  function PostgresCells(params: seq<Value>): (cells: seq<PC.Cell>)
    ensures |cells| == |params|
  {
    seq(|params|, i requires 0 <= i < |params| => PC.Encode(PC.Seen(params[i])))
  }

  /** The map holds the cells at the indexes from 1 on, and nothing else. */
  ghost predicate HoldsInOrder<T>(m: map<nat, T>, cells: seq<T>) {
    && (forall p: nat :: p in m <==> 1 <= p <= |cells|)
    && (forall p: nat | p in m :: m[p] == cells[p - 1])
  }

  /** Binds of consecutive indexes. */
  function Numbered<T>(cells: seq<T>, from: nat): seq<(nat, T)> {
    seq(|cells|, i requires 0 <= i < |cells| => (from + i, cells[i]))
  }

  /** The map with cells added from an index on. */
  ghost predicate Extends<T>(r: map<nat, T>, m: map<nat, T>, cells: seq<T>, from: nat) {
    && (forall k: nat :: k in r <==> k in m || from <= k < from + |cells|)
    && (forall k: nat | k in r :: r[k] == if from <= k < from + |cells| then cells[k - from] else m[k])
  }

  lemma ExtendsStep<T>(r: map<nat, T>, m: map<nat, T>, cells: seq<T>, from: nat)
    requires cells != [] && Extends(r, m[from := cells[0]], cells[1..], from + 1)
    ensures Extends(r, m, cells, from)
  {
    forall k: nat | k in r ensures r[k] == if from <= k < from + |cells| then cells[k - from] else m[k] {
      assert k > from ==> k < from + |cells| ==> cells[1..][k - from - 1] == cells[k - from];
    }
  }

  lemma {:induction false} LastBoundInOrder<T>(m: map<nat, T>, cells: seq<T>, from: nat)
    requires from >= 1
    ensures Extends(LastBound(m, Numbered(cells, from)), m, cells, from)
    decreases |cells|
  {
    var binds := Numbered(cells, from);
    if cells == [] {
      assert binds == [];
    } else {
      assert binds[0] == (from, cells[0]) && binds[1..] == Numbered(cells[1..], from + 1);
      LastBoundInOrder(m[from := cells[0]], cells[1..], from + 1);
      assert LastBound(m, binds) == LastBound(m[from := cells[0]], binds[1..]);
      ExtendsStep(LastBound(m, binds), m, cells, from);
    }
  }

  lemma OneCellEach(params: seq<Value>)
    ensures HoldsInOrder(LastBound(map[], Numbered(PostgresCells(params), 1)), PostgresCells(params))
  {
    LastBoundInOrder(map[], PostgresCells(params), 1);
  }

  lemma SlotsInOrder(cells: seq<PC.Cell>, m: map<nat, PC.Cell>, sent: seq<PC.Cell>)
    requires Represents(cells, m, PC.ZERO) && HoldsInOrder(m, sent)
    requires forall i | 0 <= i < |sent| :: sent[i].oid != 0
    ensures P.CountTyped(cells) == |sent| <= |cells| && cells[..|sent|] == sent
  {
    KeysOneTo(m, |sent|);
    assert P.AllTyped(m);
    P.CountIsDistinct(cells, m);
    if sent != [] {
      assert |sent| in m;
    }
    forall i | 0 <= i < |sent| ensures cells[i] == sent[i] {
      assert i + 1 in m;
    }
  }

  /** Position p is read back as value p, if that value can be stored. */
  predicate PostgresReads(cells: seq<PC.Cell>, values: seq<Value>) {
    && |values| <= |cells|
    && forall i | 0 <= i < |values| :: PC.Decode(cells[i]) == PC.ValueOf(values[i]) <==> PC.Storable(values[i])
  }

  /** On postgres position p of the four arrays gets value p, and the count that execution passes covers
      exactly the parameters. */
  lemma PostgresGetsValues(capacity: nat, params: seq<Value>)
    ensures var cells := StoreAll(Zeros(capacity, PC.ZERO), PC.ZERO, Numbered(PostgresCells(params), 1));
            P.CountTyped(cells) == |params| && PostgresReads(cells, params)
  {
    var sent := PostgresCells(params);
    var binds := Numbered(sent, 1);
    OneCellEach(params);
    StoreAllRepresents(Zeros(capacity, PC.ZERO), map[], PC.ZERO, binds);
    var cells := StoreAll(Zeros(capacity, PC.ZERO), PC.ZERO, binds);
    SlotsInOrder(cells, LastBound(map[], binds), sent);
    forall i | 0 <= i < |params| ensures PC.Decode(cells[i]) == PC.ValueOf(params[i]) <==> PC.Storable(params[i]) {
      assert cells[..|sent|][i] == sent[i];
      PC.ValueReadsBackIff(params[i]);
    }
  }

  lemma KeysOneTo<T>(m: map<nat, T>, n: nat)
    requires forall k: nat :: k in m <==> 1 <= k <= n
    ensures |m| == n
  {
    assert m.Keys == P.OneTo(n);
  }

  // ----- the built query -----

  lemma {:induction false} EditsKeepStatement(s: State, calls: seq<Call>)
    requires OffersAll(s.data.fields, calls)
    requires forall i | 0 <= i < |calls| :: !calls[i].Execute? && !calls[i].CallerReset?
    ensures Run(s, calls).0.stmt == s.stmt
    decreases |calls|
  {
    if calls != [] {
      OffersRest(s, calls);
      EditsKeepStatement(Step(s, calls[0]).0, calls[1..]);
    }
  }

  lemma BuildingIsLoud(values: seq<Value>, calls: seq<Call>, ops: seq<Operator>)
    requires OneValueEach(ops) && BuilderCalls(calls, ops)
    ensures forall i | 0 <= i < |[BindAll(values)] + calls| ::
              var c := ([BindAll(values)] + calls)[i];
              CoherentCall(c) && !Silent(c) && !c.Execute? && !c.CallerReset?
  {
    var all := [BindAll(values)] + calls;
    forall i | 0 <= i < |all| ensures CoherentCall(all[i]) && !Silent(all[i]) && !all[i].Execute? && !all[i].CallerReset? {
      if i > 0 {
        assert all[i] == calls[i - 1] && OneValue(ops[i - 1]);
      }
    }
  }

  /** The first execution of a built query runs its text with its parameters numbered from 1. */
  lemma BuiltStatement(f: Fields, values: seq<Value>, calls: seq<Call>, ops: seq<Operator>)
    requires NewFields(f) && CoherentFields(f) && Executable(f)
    requires OneValueEach(ops) && BuilderCalls(calls, ops) && (f.InsertInto? ==> ops == [])
    ensures OffersAll(f, [BindAll(values)] + calls)
    ensures var s := Run(Initial(f), [BindAll(values)] + calls).0;
            Step(s, Execute).1 == Some(Statement(FreshText(s.data.fields), Bound(values + Operands(ops)), map[]))
  {
    var all := [BindAll(values)] + calls;
    BuildingRun(f, values, calls, ops);
    BuildingIsLoud(values, calls, ops);
    LoudRunsAreCareful(Initial(f), all);
    EveryRunInSync(Initial(f), all);
    EditsKeepStatement(Initial(f), all);
    UnpreparedStatement(Run(Initial(f), all).0);
  }

  lemma UnpreparedStatement(s: State)
    requires Sync(s) && s.stmt.None? && Executable(s.data.fields)
    ensures Step(s, Execute).1 == Some(Statement(FreshText(s.data.fields), Bound(s.data.params), s.data.named))
  {
    PrintingSync(s);
  }

  /** The server that reads the text of a built INSERT or UPDATE finds beside each column the number of a
      placeholder to which the value given for that column is bound. */
  lemma ColumnsGetTheirValues(f: Fields, values: seq<Value>, calls: seq<Call>, ops: seq<Operator>)
    requires (f.InsertInto? || f.UpdateOf?) && NewFields(f) && CoherentFields(f) && Executable(f) && |values| == |f.columns|
    requires OneValueEach(ops) && BuilderCalls(calls, ops) && (f.InsertInto? ==> ops == [])
    ensures OffersAll(f, [BindAll(values)] + calls)
    ensures var e := Step(Run(Initial(f), [BindAll(values)] + calls).0, Execute).1;
            && e.Some? && R.Read(e.value.sql).Some?
            && (var command := R.Read(e.value.sql).value;
                && (command.Insert? || command.Update?) && command.table == f.table && |command.sets| == |f.columns|
                && forall i | 0 <= i < |f.columns| ::
                     && command.sets[i].0 == f.columns[i] && command.sets[i].1 in e.value.bound
                     && e.value.bound[command.sets[i].1] == values[i])
  {
    BuiltStatement(f, values, calls, ops);
    BuildingRun(f, values, calls, ops);
    var g := Run(Initial(f), [BindAll(values)] + calls).0.data.fields;
    ColumnsAreRead(g);
    FirstValues(values, Operands(ops));
  }

  lemma ColumnsAreRead(g: Fields)
    requires g.InsertInto? || g.UpdateOf?
    ensures R.Read(FreshText(g)).Some?
    ensures var command := R.Read(FreshText(g)).value;
            (command.Insert? || command.Update?) && command.table == g.table && command.sets == R.Numbered(g.columns, 0)
  {
    R.StatementReads(g);
  }

  lemma FirstValues(values: seq<Value>, more: seq<Value>)
    ensures forall k: nat | 1 <= k <= |values| :: k in Bound(values + more) && Bound(values + more)[k] == values[k - 1]
  {
    var all := values + more;
    forall k: nat | 1 <= k <= |values| ensures k in Bound(all) && Bound(all)[k] == values[k - 1] {
      assert Bound(all)[k] == ParamAt(all, k) == all[k - 1];
    }
  }

  /** The values given for a built query arrive in order on mysql and on postgres: position p is read back
      as the value given for placeholder p, exactly if the backend can store it. */
  lemma ValuesArrive(f: Fields, values: seq<Value>, calls: seq<Call>, ops: seq<Operator>, capacity: nat)
    requires NewFields(f) && PlainFields(f) && |values| == ColumnCount(f)
    requires OneValueEach(ops) && BuilderCalls(calls, ops) && (f.InsertInto? ==> ops == [])
    ensures OffersAll(f, [BindAll(values)] + calls)
    ensures var given := values + Operands(ops);
            var text := FreshText(Run(Initial(f), [BindAll(values)] + calls).0.data.fields);
            && |Placeholders(text)| == |given|
            && MysqlInOrder(M.After(TemplateOf(text), map[], Requests(given)), given)
            && (var cells := StoreAll(Zeros(capacity, PC.ZERO), PC.ZERO, Numbered(PostgresCells(given), 1));
                P.CountTyped(cells) == |given| && PostgresReads(cells, given))
  {
    var given := values + Operands(ops);
    PlaceholdersAgree(f, values, calls, ops);
    MysqlGetsValues(FreshText(Run(Initial(f), [BindAll(values)] + calls).0.data.fields), given);
    PostgresGetsValues(capacity, given);
  }
}
