/** What a where builder's clause means, compared with what its calls ask for. */
module BuilderMeaning {
  import opened SqlText
  import opened SearchCondition
  import opened WhereClause
  import opened ClauseMeaning
  import opened Operators
  import opened QueryText
  import opened QueryMachine
  import opened ParameterOrder

  // ----- what the built clause means -----

  lemma ChainParses(ps: seq<Predicate>)
    requires ps != []
    ensures Parses(Chain(ps)) && NoTornPart(Chain(ps))
  {
    forall p ensures Parse([Atom(p)]).Some? && !TopLevelOr([Atom(p)]) && Fresh(Leaf([Atom(p)])) == [Atom(p)] {
      var c := OneTerm(OneFactor(SearchCondition.Test(p)));
      assert Yield(c) == TermYield(OneFactor(SearchCondition.Test(p))) == [Atom(p)];
      ParseYield(c);
      TopLevelOrOfYield(c);
      GenerateShapes(Leaf([Atom(p)]), false);
    }
  }

  /** Whether the caller wrote `&&` or `||`, the printed WHERE is the conjunction of the tests. */
  lemma BuilderMeansConjunction(ps: seq<Predicate>, v: Valuation)
    requires ps != []
    ensures Parse(Fresh(Chain(ps))).Some?
    ensures Eval(Parse(Fresh(Chain(ps))).value, v) == All3(Truths(ps, v))
  {
    var c := Chain(ps);
    ChainParses(ps);
    PrintedTextParses(c);
    MeaningPreserved(c, v);
    ChainMeaning(ps, v);
  }

  lemma LeafMeaning(p: Predicate, v: Valuation)
    ensures Parses(Leaf([Atom(p)])) && Head(Leaf([Atom(p)])) == OneTerm(OneFactor(SearchCondition.Test(p)))
    ensures Meaning(Leaf([Atom(p)]), v) == v(p)
  {
    var f := OneFactor(SearchCondition.Test(p));
    var c := OneTerm(f);
    assert Yield(c) == TermYield(f) == [Atom(p)];
    ParseYield(c);
    assert Eval(c, v) == TermEval(f, v) == v(p);
  }

  /** The truth values of the predicates. */
  function Truths(ps: seq<Predicate>, v: Valuation): (ts: seq<Truth>)
    ensures |ts| == |ps| && forall i | 0 <= i < |ps| :: ts[i] == v(ps[i])
  {
    seq(|ps|, i requires 0 <= i < |ps| => v(ps[i]))
  }

  lemma LeavesMean(ps: seq<Predicate>, v: Valuation)
    ensures AllParse(Leaves(ps)) && Meanings(Leaves(ps), v) == Truths(ps, v)
  {
    forall i | 0 <= i < |ps| ensures Parses(Leaves(ps)[i]) {
      LeafMeaning(ps[i], v);
    }
    var ms := Meanings(Leaves(ps), v);
    forall i | 0 <= i < |ps| ensures ms[i] == v(ps[i]) {
      MeaningsAt(Leaves(ps), v, i);
      LeafMeaning(ps[i], v);
    }
  }

  lemma ChainMeaning(ps: seq<Predicate>, v: Valuation)
    requires ps != [] && Parses(Chain(ps))
    ensures Meaning(Chain(ps), v) == All3(Truths(ps, v))
  {
    LeafMeaning(ps[0], v);
    assert Head(Chain(ps)) == Head(Leaf([Atom(ps[0])]));
    LeavesMean(ps[1..], v);
    assert Truths(ps[1..], v) == Truths(ps, v)[1..];
  }

  // ----- what the builder's `||` was meant to be -----

  /** The predicates whose mark is `want`, in order. */
  function Marked(ps: seq<Predicate>, marks: seq<bool>, want: bool): (r: seq<Predicate>)
    requires |ps| == |marks|
  {
    if ps == [] then []
    else (if marks[0] == want then [ps[0]] else []) + Marked(ps[1..], marks[1..], want)
  }

  lemma {:induction false} MarkedHas(ps: seq<Predicate>, marks: seq<bool>, want: bool, i: nat)
    requires |ps| == |marks| && i < |ps| && marks[i] == want
    ensures ps[i] in Marked(ps, marks, want)
  {
    if i > 0 {
      MarkedHas(ps[1..], marks[1..], want, i - 1);
    }
  }

  lemma {:induction false} MarkedOfSame(ps: seq<Predicate>, marks: seq<bool>, want: bool, p: Predicate)
    requires |ps| == |marks| && forall i | 0 <= i < |ps| :: ps[i] == p
    ensures forall i | 0 <= i < |Marked(ps, marks, want)| :: Marked(ps, marks, want)[i] == p
  {
    if ps != [] {
      MarkedOfSame(ps[1..], marks[1..], want, p);
    }
  }

  lemma {:induction false} MarkedAll(ps: seq<Predicate>, marks: seq<bool>)
    requires |ps| == |marks| && forall i | 0 <= i < |marks| :: !marks[i]
    ensures Marked(ps, marks, false) == ps && Marked(ps, marks, true) == []
  {
    if ps != [] {
      MarkedAll(ps[1..], marks[1..]);
    }
  }

  /** The clause that the calls ask for: the first test as head, each later one under the connective
      it was appended with. */
  function Intended(ps: seq<Predicate>, ors: seq<bool>): Clause
    requires ps != [] && |ps| == |ors|
  {
    Clause([Atom(ps[0])], Leaves(Marked(ps[1..], ors[1..], false)), Leaves(Marked(ps[1..], ors[1..], true)), [])
  }

  lemma IntendedMeaning(ps: seq<Predicate>, ors: seq<bool>, v: Valuation)
    requires ps != [] && |ps| == |ors|
    ensures Parses(Intended(ps, ors))
    ensures Meaning(Intended(ps, ors), v)
         == Or3(And3(v(ps[0]), All3(Truths(Marked(ps[1..], ors[1..], false), v))),
                Any3(Truths(Marked(ps[1..], ors[1..], true), v)))
  {
    LeafMeaning(ps[0], v);
    LeavesMean(Marked(ps[1..], ors[1..], false), v);
    LeavesMean(Marked(ps[1..], ors[1..], true), v);
    assert Head(Intended(ps, ors)) == Head(Leaf([Atom(ps[0])]));
  }

  lemma {:induction false} All3False(ts: seq<Truth>, i: nat)
    requires i < |ts| && ts[i] == False
    ensures All3(ts) == False
  {
    if i > 0 {
      All3False(ts[1..], i - 1);
    }
  }

  lemma {:induction false} Any3True(ts: seq<Truth>, i: nat)
    requires i < |ts| && ts[i] == True
    ensures Any3(ts) == True
  {
    if i > 0 {
      Any3True(ts[1..], i - 1);
    }
  }

  predicate NoLaterOr(ors: seq<bool>) {
    forall i | 1 <= i < |ors| :: !ors[i]
  }

  predicate AllSame(ps: seq<Predicate>) {
    forall i | 0 <= i < |ps| :: ps[i] == ps[0]
  }

  /** A test appended with `||` beside a different one: make it the only true test. */
  lemma OrIsLost(ps: seq<Predicate>, ors: seq<bool>) returns (v: Valuation)
    requires ps != [] && |ps| == |ors| && !NoLaterOr(ors) && !AllSame(ps)
    ensures Parses(Intended(ps, ors)) && Meaning(Intended(ps, ors), v) == True
    ensures All3(Truths(ps, v)) == False
  {
    var i :| 1 <= i < |ors| && ors[i];
    var only := ps[i];
    v := p => if p == only then True else False;
    var k :| 0 <= k < |ps| && ps[k] != only;
    All3False(Truths(ps, v), k);
    var later := Marked(ps[1..], ors[1..], true);
    MarkedHas(ps[1..], ors[1..], true, i - 1);
    var j :| 0 <= j < |later| && later[j] == only;
    Any3True(Truths(later, v), j);
    IntendedMeaning(ps, ors, v);
  }

  lemma SameTruths(ps: seq<Predicate>, v: Valuation, k: Truth)
    requires forall i | 0 <= i < |ps| :: v(ps[i]) == k
    ensures All3(Truths(ps, v)) == (if ps == [] then True else k)
    ensures Any3(Truths(ps, v)) == (if ps == [] then False else k)
  {
    All3Of(Truths(ps, v), k);
    Any3Of(Truths(ps, v), k);
  }

  lemma OrIsKept(ps: seq<Predicate>, ors: seq<bool>, v: Valuation)
    requires ps != [] && |ps| == |ors| && (NoLaterOr(ors) || AllSame(ps))
    ensures Parses(Intended(ps, ors)) && Meaning(Intended(ps, ors), v) == All3(Truths(ps, v))
  {
    var ands, later := Marked(ps[1..], ors[1..], false), Marked(ps[1..], ors[1..], true);
    IntendedMeaning(ps, ors, v);
    if NoLaterOr(ors) {
      MarkedAll(ps[1..], ors[1..]);
      assert Truths(ps[1..], v) == Truths(ps, v)[1..];
    } else {
      MarkedOfSame(ps[1..], ors[1..], false, ps[0]);
      MarkedOfSame(ps[1..], ors[1..], true, ps[0]);
      SameTruths(ps, v, v(ps[0]));
      SameTruths(ands, v, v(ps[0]));
      SameTruths(later, v, v(ps[0]));
    }
  }

  /** The printed conjunction means what the calls ask for exactly when no test after the first was
      appended with `||`, or all tests print alike. */
  lemma OrMeantIff(ps: seq<Predicate>, ors: seq<bool>)
    requires ps != [] && |ps| == |ors|
    ensures Parse(Fresh(Chain(ps))).Some? && Parses(Intended(ps, ors))
    ensures (forall v: Valuation :: Eval(Parse(Fresh(Chain(ps))).value, v) == Meaning(Intended(ps, ors), v))
            <==> NoLaterOr(ors) || AllSame(ps)
  {
    BuilderMeansConjunction(ps, Constant(True));
    IntendedMeaning(ps, ors, Constant(True));
    if NoLaterOr(ors) || AllSame(ps) {
      forall v: Valuation ensures Eval(Parse(Fresh(Chain(ps))).value, v) == Meaning(Intended(ps, ors), v) {
        BuilderMeansConjunction(ps, v);
        OrIsKept(ps, ors, v);
      }
    } else {
      var v := OrIsLost(ps, ors);
      BuilderMeansConjunction(ps, v);
    }
  }

  /** The predicates of any tests appended after `n` parameters, each numbered after those bound
      before it. */
  function TestsAfter(n: nat, ops: seq<Operator>): (ps: seq<Predicate>)
    ensures |ps| == |ops|
    decreases |ops|
  {
    if ops == [] then [] else [Operators.Test(ops[0], n + 1)] + TestsAfter(n + |Kept(ops[0])|, ops[1..])
  }

  /** The query's where clause is the chain of these predicates. */
  predicate Chains(d: Data, ps: seq<Predicate>) {
    !d.fields.InsertInto? && d.fields.where == Chain(ps)
  }

  lemma OneTest(d: Data, c: Call, op: Operator, ps: seq<Predicate>)
    requires Chains(d, ps) && AppendsTest(c, op, ps == [])
    ensures Chains(Edit(d, c), ps + [Operators.Test(op, |d.params| + 1)])
    ensures |Edit(d, c).params| == |d.params| + |Kept(op)|
  {
    EditGrows(d, c, op, ps);
    KeptValues(d.params, op);
  }

  predicate TestCalls(calls: seq<Call>, ops: seq<Operator>, first: bool) {
    |calls| == |ops| && forall i | 0 <= i < |calls| :: AppendsTest(calls[i], ops[i], i == 0 && first)
  }

  lemma TestCallsRest(f: Fields, calls: seq<Call>, ops: seq<Operator>, first: bool)
    requires !f.InsertInto? && TestCalls(calls, ops, first)
    ensures OffersAll(f, calls)
    ensures calls != [] ==> AppendsTest(calls[0], ops[0], first) && TestCalls(calls[1..], ops[1..], false)
  {
  }

  lemma FirstTest(d: Data, ps: seq<Predicate>, calls: seq<Call>, ops: seq<Operator>, first: bool)
    returns (e: Data, next: seq<Predicate>)
    requires Chains(d, ps) && TestCalls(calls, ops, first) && (first ==> ps == []) && calls != []
    ensures OffersAll(d.fields, calls) && OffersAll(e.fields, calls[1..]) && EditAll(d, calls) == EditAll(e, calls[1..])
    ensures Chains(e, next) && TestCalls(calls[1..], ops[1..], false)
    ensures next + TestsAfter(|e.params|, ops[1..]) == ps + TestsAfter(|d.params|, ops)
  {
    TestCallsRest(d.fields, calls, ops, first);
    OneTest(d, calls[0], ops[0], ps);
    EditAllFirst(d, calls);
    TestsAfterFirst(ps, |d.params|, ops);
    e, next := Edit(d, calls[0]), ps + [Operators.Test(ops[0], |d.params| + 1)];
  }

  lemma NoTest(ps: seq<Predicate>, n: nat)
    ensures ps == ps + TestsAfter(n, [])
  {
  }

  lemma {:induction false} BuilderChains(d: Data, ps: seq<Predicate>, calls: seq<Call>, ops: seq<Operator>, first: bool)
    returns (all: seq<Predicate>)
    requires Chains(d, ps) && TestCalls(calls, ops, first) && (first ==> ps == [])
    ensures OffersAll(d.fields, calls) && Chains(EditAll(d, calls), all) && all == ps + TestsAfter(|d.params|, ops)
    decreases |calls|
  {
    if calls == [] {
      all := ps;
      assert ops == [];
      NoTest(ps, |d.params|);
    } else {
      var e, next := FirstTest(d, ps, calls, ops, first);
      all := BuilderChains(e, next, calls[1..], ops[1..], false);
    }
  }

  lemma TestsAfterFirst(ps: seq<Predicate>, n: nat, ops: seq<Operator>)
    requires ops != []
    ensures ps + [Operators.Test(ops[0], n + 1)] + TestsAfter(n + |Kept(ops[0])|, ops[1..]) == ps + TestsAfter(n, ops)
  {
    Regroup(ps, [Operators.Test(ops[0], n + 1)], TestsAfter(n + |Kept(ops[0])|, ops[1..]));
  }

  /** Which calls were `||`. */
  function OrCalls(calls: seq<Call>): seq<bool> {
    seq(|calls|, i requires 0 <= i < |calls| => calls[i].WhereOr?)
  }

  /** Over whole building runs with any operators: the printed condition means what the calls ask for
      exactly when no test after the first was appended with `||`, unless all tests print alike, which
      they cannot if the first one binds a value. */
  lemma BuilderOrIff(f: Fields, values: seq<Value>, calls: seq<Call>, ops: seq<Operator>)
    requires NewFields(f) && !f.InsertInto? && BuilderCalls(calls, ops) && ops != []
    ensures OffersAll(f, [BindAll(values)] + calls)
    ensures var g := Run(Initial(f), [BindAll(values)] + calls).0.data.fields;
            var ps, ors := TestsAfter(|values|, ops), OrCalls(calls);
            && !g.InsertInto? && g.where == Chain(ps) && Parse(Fresh(g.where)).Some? && Parses(Intended(ps, ors))
            && ((forall v: Valuation :: Eval(Parse(Fresh(g.where)).value, v) == Meaning(Intended(ps, ors), v))
                <==> NoLaterOr(ors) || AllSame(ps))
            && (Kept(ops[0]) != [] && AllSame(ps) ==> NoLaterOr(ors))
  {
    BuilderRun(f, values, calls, ops);
    OrMeantIff(TestsAfter(|values|, ops), OrCalls(calls));
    if Kept(ops[0]) != [] && |ops| > 1 {
      NumbersDiffer(|values|, ops);
    }
  }

  lemma NumbersDiffer(n: nat, ops: seq<Operator>)
    requires |ops| > 1 && Kept(ops[0]) != []
    ensures !AllSame(TestsAfter(n, ops))
  {
    var ps := TestsAfter(n, ops);
    assert ops[1..][0] == ops[1];
    assert ps[1] == TestsAfter(n + |Kept(ops[0])|, ops[1..])[0];
    assert ps[0].index != ps[1].index;
  }

  lemma BuilderRun(f: Fields, values: seq<Value>, calls: seq<Call>, ops: seq<Operator>)
    requires NewFields(f) && !f.InsertInto? && BuilderCalls(calls, ops)
    ensures OffersAll(f, [BindAll(values)] + calls)
    ensures var g := Run(Initial(f), [BindAll(values)] + calls).0.data.fields;
            !g.InsertInto? && g.where == Chain(TestsAfter(|values|, ops))
  {
    var all := [BindAll(values)] + calls;
    var ps := TestsAfter(|values|, ops);
    BuildingCalls(f, values, calls, ops);
    RunEdits(Initial(f), all);
    EditAllFirst(Data(f, [], map[]), all);
    var d := Edit(Data(f, [], map[]), BindAll(values));
    PutSeqAppends([], values);
    assert [] + values == values && d.fields.where == Chain([]);
    var chain := BuilderChains(d, [], calls, ops, true);
    assert [] + ps == ps;
  }
}
