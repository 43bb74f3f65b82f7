/** What the text printed for a where clause means, compared with what the clause was built to
    mean: (head AND every AND part) OR any OR part, in three-valued logic.

    AND parts are printed without parentheses, so a part with a top-level OR is torn apart by the
    grammar.  The printed text is proved never to be stricter than the clause, to be equivalent
    when no such part exists, and, for clauses whose parts share no predicate, to be equivalent
    only then. */
module ClauseMeaning {
  import opened SqlText
  import opened SearchCondition
  import opened WhereClause

  // ----- putting derivation trees side by side -----

  function TermJoin(a: Term, b: Term): (t: Term)
    ensures TermYield(t) == TermYield(a) + [KwAnd] + TermYield(b)
  {
    match a
    case OneFactor(f) => AndFactor(f, b)
    case AndFactor(f, r) =>
      var t := AndFactor(f, TermJoin(r, b));
      assert TermYield(t) == FactorYield(f) + [KwAnd] + (TermYield(r) + [KwAnd] + TermYield(b));
      t
  }

  /** The tree of `a OR b`. */
  function OrJoin(a: Condition, b: Condition): (c: Condition)
    ensures Yield(c) == Yield(a) + [KwOr] + Yield(b)
  {
    match a
    case OneTerm(t) => OrTerm(t, b)
    case OrTerm(t, r) =>
      var c := OrTerm(t, OrJoin(r, b));
      assert Yield(c) == TermYield(t) + [KwOr] + (Yield(r) + [KwOr] + Yield(b));
      c
  }

  /** The tree of `a AND b` written without parentheses: the last term of `a` meets the first of `b`. */
  function AndJoin(a: Condition, b: Condition): (c: Condition)
    ensures Yield(c) == Yield(a) + [KwAnd] + Yield(b)
    ensures c.OneTerm? <==> a.OneTerm? && b.OneTerm?
  {
    match a
    case OneTerm(t) =>
      (match b
       case OneTerm(u) => OneTerm(TermJoin(t, u))
       case OrTerm(u, s) =>
         var c := OrTerm(TermJoin(t, u), s);
         assert Yield(c) == TermYield(t) + [KwAnd] + (TermYield(u) + [KwOr] + Yield(s));
         c)
    case OrTerm(t, r) =>
      var c := OrTerm(t, AndJoin(r, b));
      assert Yield(c) == TermYield(t) + [KwOr] + (Yield(r) + [KwAnd] + Yield(b));
      c
  }

  function Paren(c: Condition): (r: Condition)
    ensures Yield(r) == [Open] + Yield(c) + [Close]
  {
    var t := OneFactor(Group(c));
    assert TermYield(t) == FactorYield(Group(c));
    OneTerm(t)
  }

  lemma ParenEval(c: Condition, v: Valuation)
    ensures Eval(Paren(c), v) == Eval(c, v)
  {
    assert TermEval(OneFactor(Group(c)), v) == FactorEval(Group(c), v) == Eval(c, v);
  }

  lemma {:induction false} TermJoinEval(a: Term, b: Term, v: Valuation)
    ensures TermEval(TermJoin(a, b), v) == And3(TermEval(a, v), TermEval(b, v))
  {
    match a
    case OneFactor(_) =>
    case AndFactor(_, r) => TermJoinEval(r, b, v);
  }

  lemma {:induction false} OrJoinEval(a: Condition, b: Condition, v: Valuation)
    ensures Eval(OrJoin(a, b), v) == Or3(Eval(a, v), Eval(b, v))
  {
    match a
    case OneTerm(_) =>
    case OrTerm(_, r) => OrJoinEval(r, b, v);
  }

  /** Juxtaposition with AND never yields less than the conjunction, and yields exactly it when
      neither side has a top-level OR. */
  lemma {:induction false} AndJoinEval(a: Condition, b: Condition, v: Valuation)
    ensures AtMost(And3(Eval(a, v), Eval(b, v)), Eval(AndJoin(a, b), v))
    ensures a.OneTerm? && b.OneTerm? ==> Eval(AndJoin(a, b), v) == And3(Eval(a, v), Eval(b, v))
  {
    match a
    case OneTerm(t) =>
      TermJoinEval(t, if b.OneTerm? then b.only else b.first, v);
    case OrTerm(_, r) =>
      AndJoinEval(r, b, v);
  }

  // ----- printed tree and intended meaning -----

  /** Every head text, at every depth, is a search condition. */
  ghost predicate Parses(c: Clause) {
    && Parse(c.value).Some?
    && (forall i | 0 <= i < |c.ands| :: Parses(c.ands[i]))
    && (forall i | 0 <= i < |c.ors| :: Parses(c.ors[i]))
  }

  ghost predicate AllParse(parts: seq<Clause>) {
    forall i | 0 <= i < |parts| :: Parses(parts[i])
  }

  function Head(c: Clause): Condition
    requires Parse(c.value).Some?
  {
    Parse(c.value).value
  }

  /** The derivation tree of the printed text. */
  ghost function Printed(c: Clause): Condition
    requires Parses(c)
    decreases c, 2
  {
    var conj := Conjunction(c);
    if c.ors == [] then conj
    else if c.ands == [] then OrJoin(conj, PrintedParts(c.ors, false))
    else OrJoin(Paren(conj), Paren(PrintedParts(c.ors, false)))
  }

  /** Head and AND parts, juxtaposed. */
  ghost function Conjunction(c: Clause): Condition
    requires Parses(c)
    decreases c, 1
  {
    if c.ands == [] then Head(c) else AndJoin(Head(c), PrintedParts(c.ands, true))
  }

  ghost function PrintedParts(parts: seq<Clause>, conj: bool): (r: Condition)
    requires parts != [] && AllParse(parts)
    decreases parts, 0
  {
    if |parts| == 1 then Printed(parts[0])
    else if conj then AndJoin(Printed(parts[0]), PrintedParts(parts[1..], conj))
    else OrJoin(Printed(parts[0]), PrintedParts(parts[1..], conj))
  }

  function All3(ts: seq<Truth>): Truth {
    if ts == [] then True else And3(ts[0], All3(ts[1..]))
  }

  function Any3(ts: seq<Truth>): Truth {
    if ts == [] then False else Or3(ts[0], Any3(ts[1..]))
  }

  /** What the clause was built to mean. */
  ghost function Meaning(c: Clause, v: Valuation): Truth
    requires Parses(c)
    decreases c, 1
  {
    Or3(And3(Eval(Head(c), v), All3(Meanings(c.ands, v))), Any3(Meanings(c.ors, v)))
  }

  ghost function Meanings(parts: seq<Clause>, v: Valuation): (ts: seq<Truth>)
    requires AllParse(parts)
    ensures |ts| == |parts|
    decreases parts, 0
  {
    if parts == [] then [] else [Meaning(parts[0], v)] + Meanings(parts[1..], v)
  }

  /** The truth values of the printed texts of the parts. */
  ghost function Values(parts: seq<Clause>, v: Valuation): (ts: seq<Truth>)
    requires AllParse(parts)
    ensures |ts| == |parts|
    ensures forall i | 0 <= i < |parts| :: ts[i] == Eval(Printed(parts[i]), v)
  {
    if parts == [] then [] else [Eval(Printed(parts[0]), v)] + Values(parts[1..], v)
  }

  lemma {:induction false} MeaningsAt(parts: seq<Clause>, v: Valuation, i: nat)
    requires AllParse(parts) && i < |parts|
    ensures Meanings(parts, v)[i] == Meaning(parts[i], v)
  {
    if i > 0 {
      MeaningsAt(parts[1..], v, i - 1);
    }
  }

  // ----- the printed text is the yield of the printed tree -----

  lemma {:induction false} PrintedYield(c: Clause)
    requires Parses(c)
    ensures Yield(Printed(c)) == Fresh(c)
    decreases c, 1
  {
    YieldParse(c.value);
    GenerateShapes(c, false);
    if c.ands != [] {
      PrintedPartsYield(c.ands, true);
    }
    if c.ors != [] {
      PrintedPartsYield(c.ors, false);
    }
  }

  lemma {:induction false} PrintedPartsYield(parts: seq<Clause>, conj: bool)
    requires parts != [] && AllParse(parts)
    ensures Yield(PrintedParts(parts, conj)) == Join(parts, if conj then KwAnd else KwOr, false)
    decreases parts, 0
  {
    PrintedYield(parts[0]);
    if |parts| > 1 {
      PrintedPartsYield(parts[1..], conj);
    }
  }

  /** The printed text parses, and to this tree. */
  lemma PrintedTextParses(c: Clause)
    requires Parses(c)
    ensures Parse(Fresh(c)) == Some(Printed(c))
  {
    PrintedYield(c);
    ParseYield(Printed(c));
  }

  // ----- the printed text is never stricter than the clause -----

  ghost function AnyPrinted(parts: seq<Clause>, v: Valuation): Truth
    requires AllParse(parts)
  {
    if parts == [] then False else Eval(PrintedParts(parts, false), v)
  }

  lemma PrintedSplits(c: Clause, v: Valuation)
    requires Parses(c)
    ensures Eval(Printed(c), v) == Or3(Eval(Conjunction(c), v), AnyPrinted(c.ors, v))
  {
    var conj := Conjunction(c);
    if c.ors != [] {
      var disj := PrintedParts(c.ors, false);
      OrJoinEval(conj, disj, v);
      OrJoinEval(Paren(conj), Paren(disj), v);
      ParenEval(conj, v);
      ParenEval(disj, v);
    }
  }

  lemma {:induction false} NeverStricter(c: Clause, v: Valuation)
    requires Parses(c)
    ensures AtMost(Meaning(c, v), Eval(Printed(c), v))
    decreases c, 1
  {
    PrintedSplits(c, v);
    if c.ands != [] {
      NeverStricterAnds(c.ands, v);
      AndJoinEval(Head(c), PrintedParts(c.ands, true), v);
    }
    if c.ors != [] {
      NeverStricterOrs(c.ors, v);
    }
  }

  lemma {:induction false} NeverStricterAnds(parts: seq<Clause>, v: Valuation)
    requires parts != [] && AllParse(parts)
    ensures AtMost(All3(Meanings(parts, v)), Eval(PrintedParts(parts, true), v))
    decreases parts, 0
  {
    NeverStricter(parts[0], v);
    if |parts| > 1 {
      NeverStricterAnds(parts[1..], v);
      AndJoinEval(Printed(parts[0]), PrintedParts(parts[1..], true), v);
    }
  }

  lemma {:induction false} NeverStricterOrs(parts: seq<Clause>, v: Valuation)
    requires parts != [] && AllParse(parts)
    ensures AtMost(Any3(Meanings(parts, v)), Eval(PrintedParts(parts, false), v))
    decreases parts, 0
  {
    NeverStricter(parts[0], v);
    if |parts| > 1 {
      NeverStricterOrs(parts[1..], v);
      OrJoinEval(Printed(parts[0]), PrintedParts(parts[1..], false), v);
    }
  }

  // ----- top-level OR, read off the text -----

  /** An OR outside all parentheses. */
  predicate TopLevelOr(ts: Text) {
    OrAtDepth(ts, 0)
  }

  predicate OrAtDepth(ts: Text, depth: int) {
    if ts == [] then false
    else match ts[0]
      case Open => OrAtDepth(ts[1..], depth + 1)
      case Close => OrAtDepth(ts[1..], depth - 1)
      case KwOr => depth == 0 || OrAtDepth(ts[1..], depth)
      case _ => OrAtDepth(ts[1..], depth)
  }

  lemma {:induction false} OrInCondition(c: Condition, rest: Text, depth: nat)
    ensures OrAtDepth(Yield(c) + rest, depth) <==> (depth == 0 && c.OrTerm?) || OrAtDepth(rest, depth)
    decreases c
  {
    match c
    case OneTerm(t) => OrInTerm(t, rest, depth);
    case OrTerm(t, r) =>
      var more := [KwOr] + (Yield(r) + rest);
      assert Yield(c) + rest == TermYield(t) + more;
      OrInTerm(t, more, depth);
      assert more[1..] == Yield(r) + rest;
      OrInCondition(r, rest, depth);
  }

  lemma {:induction false} OrInTerm(t: Term, rest: Text, depth: nat)
    ensures OrAtDepth(TermYield(t) + rest, depth) <==> OrAtDepth(rest, depth)
    decreases t
  {
    match t
    case OneFactor(f) => OrInFactor(f, rest, depth);
    case AndFactor(f, r) =>
      var more := [KwAnd] + (TermYield(r) + rest);
      assert TermYield(t) + rest == FactorYield(f) + more;
      OrInFactor(f, more, depth);
      assert more[1..] == TermYield(r) + rest;
      OrInTerm(r, rest, depth);
  }

  lemma {:induction false} OrInFactor(f: Factor, rest: Text, depth: nat)
    ensures OrAtDepth(FactorYield(f) + rest, depth) <==> OrAtDepth(rest, depth)
    decreases f
  {
    var ts := FactorYield(f) + rest;
    match f
    case Test(p) =>
      assert ts[1..] == rest;
    case Group(c) =>
      assert ts[1..] == Yield(c) + ([Close] + rest);
      OrInCondition(c, [Close] + rest, depth + 1);
      assert ([Close] + rest)[1..] == rest;
  }

  lemma TopLevelOrOfYield(c: Condition)
    ensures TopLevelOr(Yield(c)) <==> c.OrTerm?
  {
    OrInCondition(c, [], 0);
    assert Yield(c) + [] == Yield(c);
  }

  // ----- exactly when the printed text keeps the meaning -----

  /** No AND part, and no head standing before AND parts, has an OR outside parentheses. */
  predicate LocallyWhole(c: Clause) {
    c.ands != [] ==> !TopLevelOr(c.value) && forall i | 0 <= i < |c.ands| :: !TopLevelOr(Fresh(c.ands[i]))
  }

  /** The same at every depth. */
  ghost predicate NoTornPart(c: Clause) {
    && LocallyWhole(c)
    && (forall i | 0 <= i < |c.ands| :: NoTornPart(c.ands[i]))
    && (forall i | 0 <= i < |c.ors| :: NoTornPart(c.ors[i]))
  }

  lemma TornIffOr(c: Clause)
    requires Parses(c)
    ensures TopLevelOr(c.value) <==> Head(c).OrTerm?
    ensures TopLevelOr(Fresh(c)) <==> Printed(c).OrTerm?
  {
    YieldParse(c.value);
    TopLevelOrOfYield(Head(c));
    PrintedYield(c);
    TopLevelOrOfYield(Printed(c));
  }

  lemma {:induction false} PartsEvalAnd(parts: seq<Clause>, v: Valuation)
    requires parts != [] && AllParse(parts)
    requires forall i | 0 <= i < |parts| :: Printed(parts[i]).OneTerm?
    ensures PrintedParts(parts, true).OneTerm?
    ensures Eval(PrintedParts(parts, true), v) == All3(Values(parts, v))
  {
    if |parts| > 1 {
      PartsEvalAnd(parts[1..], v);
      AndJoinEval(Printed(parts[0]), PrintedParts(parts[1..], true), v);
    }
  }

  lemma {:induction false} PartsEvalOr(parts: seq<Clause>, v: Valuation)
    requires parts != [] && AllParse(parts)
    ensures Eval(PrintedParts(parts, false), v) == Any3(Values(parts, v))
  {
    if |parts| > 1 {
      PartsEvalOr(parts[1..], v);
      OrJoinEval(Printed(parts[0]), PrintedParts(parts[1..], false), v);
    }
  }

  /** With no torn part at this level, the printed tree combines the printed parts as intended. */
  lemma PrintedEval(c: Clause, v: Valuation)
    requires Parses(c) && LocallyWhole(c)
    ensures Eval(Printed(c), v)
         == Or3(And3(Eval(Head(c), v), All3(Values(c.ands, v))), Any3(Values(c.ors, v)))
  {
    PrintedSplits(c, v);
    if c.ands != [] {
      ConjunctionEval(c, v);
    }
    if c.ors != [] {
      PartsEvalOr(c.ors, v);
    }
  }

  lemma ConjunctionEval(c: Clause, v: Valuation)
    requires Parses(c) && LocallyWhole(c) && c.ands != []
    ensures Eval(Conjunction(c), v) == And3(Eval(Head(c), v), All3(Values(c.ands, v)))
  {
    TornIffOr(c);
    forall i | 0 <= i < |c.ands| ensures Printed(c.ands[i]).OneTerm? {
      TornIffOr(c.ands[i]);
    }
    PartsEvalAnd(c.ands, v);
    AndJoinEval(Head(c), PrintedParts(c.ands, true), v);
  }

  /** Meaning preservation. */
  lemma {:induction false} MeaningPreserved(c: Clause, v: Valuation)
    requires Parses(c) && NoTornPart(c)
    ensures Eval(Printed(c), v) == Meaning(c, v)
    decreases c, 1
  {
    PrintedEval(c, v);
    MeaningsPreserved(c.ands, v);
    MeaningsPreserved(c.ors, v);
  }

  lemma {:induction false} MeaningsPreserved(parts: seq<Clause>, v: Valuation)
    requires AllParse(parts) && forall i | 0 <= i < |parts| :: NoTornPart(parts[i])
    ensures Values(parts, v) == Meanings(parts, v)
    decreases parts, 0
  {
    if parts != [] {
      MeaningPreserved(parts[0], v);
      MeaningsPreserved(parts[1..], v);
    }
  }

  // ----- a torn part changes the meaning -----

  ghost predicate Disjoint(s: Text, t: Text) {
    forall p :: !(Atom(p) in s && Atom(p) in t)
  }

  /** Head and parts share no predicate, at any depth. */
  ghost predicate ReadOnce(c: Clause) {
    && (forall i | 0 <= i < |c.ands| :: Disjoint(c.value, Fresh(c.ands[i])))
    && (forall i | 0 <= i < |c.ors| :: Disjoint(c.value, Fresh(c.ors[i])))
    && (forall i, j | 0 <= i < j < |c.ands| :: Disjoint(Fresh(c.ands[i]), Fresh(c.ands[j])))
    && (forall i, j | 0 <= i < j < |c.ors| :: Disjoint(Fresh(c.ors[i]), Fresh(c.ors[j])))
    && (forall i, j | 0 <= i < |c.ands| && 0 <= j < |c.ors| :: Disjoint(Fresh(c.ands[i]), Fresh(c.ors[j])))
    && (forall i | 0 <= i < |c.ands| :: ReadOnce(c.ands[i]))
    && (forall i | 0 <= i < |c.ors| :: ReadOnce(c.ors[i]))
  }

  /** All atoms of the text have the value k. */
  ghost predicate Uniform(v: Valuation, ts: Text, k: Truth) {
    forall p :: Atom(p) in ts ==> v(p) == k
  }

  lemma EvalUniform(c: Condition, v: Valuation, k: Truth)
    requires Uniform(v, Yield(c), k)
    ensures Eval(c, v) == k
  {
    EvalDepends(c, v, Constant(k));
    EvalConstant(c, k);
  }

  lemma TermEvalUniform(t: Term, v: Valuation, k: Truth)
    requires Uniform(v, TermYield(t), k)
    ensures TermEval(t, v) == k
  {
    TermEvalDepends(t, v, Constant(k));
    TermEvalConstant(t, k);
  }

  /** Atoms of a part occur in the text of the clause. */
  lemma {:induction false} AtomsOfJoin(parts: seq<Clause>, connective: Token, i: nat, p: Predicate)
    requires i < |parts| && Atom(p) in Fresh(parts[i])
    ensures Atom(p) in Join(parts, connective, false)
  {
    if i > 0 {
      AtomsOfJoin(parts[1..], connective, i - 1, p);
    }
  }

  lemma AtomsInJoin(parts: seq<Clause>, connective: Token, i: nat)
    requires i < |parts|
    ensures forall p :: Atom(p) in Fresh(parts[i]) ==> Atom(p) in Join(parts, connective, false)
  {
    forall p | Atom(p) in Fresh(parts[i]) ensures Atom(p) in Join(parts, connective, false) {
      AtomsOfJoin(parts, connective, i, p);
    }
  }

  lemma {:induction false} JoinAtoms(parts: seq<Clause>, connective: Token, p: Predicate)
    requires connective == KwAnd || connective == KwOr
    requires Atom(p) in Join(parts, connective, false)
    ensures exists i :: 0 <= i < |parts| && Atom(p) in Fresh(parts[i])
  {
    if Atom(p) !in Fresh(parts[0]) {
      JoinAtoms(parts[1..], connective, p);
      var i :| 0 <= i < |parts[1..]| && Atom(p) in Fresh(parts[1..][i]);
      assert parts[1..][i] == parts[i + 1];
    }
  }

  lemma AtomsOfParts(c: Clause, p: Predicate)
    ensures Atom(p) in Fresh(c) <==>
            || Atom(p) in c.value
            || (exists i :: 0 <= i < |c.ands| && Atom(p) in Fresh(c.ands[i]))
            || (exists i :: 0 <= i < |c.ors| && Atom(p) in Fresh(c.ors[i]))
  {
    assert Fresh(c) == Generate(c, false);
    if c.ands != [] && Atom(p) in Join(c.ands, KwAnd, false) {
      JoinAtoms(c.ands, KwAnd, p);
    }
    if c.ors != [] && Atom(p) in Join(c.ors, KwOr, false) {
      JoinAtoms(c.ors, KwOr, p);
    }
    forall i | 0 <= i < |c.ands| && Atom(p) in Fresh(c.ands[i]) ensures Atom(p) in Fresh(c) {
      AtomsOfJoin(c.ands, KwAnd, i, p);
    }
    forall i | 0 <= i < |c.ors| && Atom(p) in Fresh(c.ors[i]) ensures Atom(p) in Fresh(c) {
      AtomsOfJoin(c.ors, KwOr, i, p);
    }
  }

  lemma {:induction false} MeaningDepends(c: Clause, v: Valuation, w: Valuation)
    requires Parses(c) && Agree(v, w, Fresh(c))
    ensures Meaning(c, v) == Meaning(c, w)
    decreases c, 1
  {
    YieldParse(c.value);
    forall p ensures Atom(p) in c.value ==> v(p) == w(p) {
      AtomsOfParts(c, p);
    }
    EvalDepends(Head(c), v, w);
    forall i | 0 <= i < |c.ands| ensures Agree(v, w, Fresh(c.ands[i])) {
      forall p | Atom(p) in Fresh(c.ands[i]) ensures v(p) == w(p) { AtomsOfParts(c, p); }
    }
    forall i | 0 <= i < |c.ors| ensures Agree(v, w, Fresh(c.ors[i])) {
      forall p | Atom(p) in Fresh(c.ors[i]) ensures v(p) == w(p) { AtomsOfParts(c, p); }
    }
    MeaningsDepend(c.ands, v, w);
    MeaningsDepend(c.ors, v, w);
  }

  lemma {:induction false} MeaningsDepend(parts: seq<Clause>, v: Valuation, w: Valuation)
    requires AllParse(parts) && forall i | 0 <= i < |parts| :: Agree(v, w, Fresh(parts[i]))
    ensures Meanings(parts, v) == Meanings(parts, w)
    decreases parts, 0
  {
    if parts != [] {
      MeaningDepends(parts[0], v, w);
      MeaningsDepend(parts[1..], v, w);
    }
  }

  lemma {:induction false} MeaningConstant(c: Clause, k: Truth)
    requires Parses(c) && k != Unknown
    ensures Meaning(c, Constant(k)) == k
    decreases c, 1
  {
    EvalConstant(Head(c), k);
    MeaningsConstant(c.ands, k);
    MeaningsConstant(c.ors, k);
    All3Of(Meanings(c.ands, Constant(k)), k);
    Any3Of(Meanings(c.ors, Constant(k)), k);
  }

  lemma {:induction false} MeaningsConstant(parts: seq<Clause>, k: Truth)
    requires AllParse(parts) && k != Unknown
    ensures forall i | 0 <= i < |parts| :: Meanings(parts, Constant(k))[i] == k
    decreases parts, 0
  {
    if parts != [] {
      MeaningConstant(parts[0], k);
      MeaningsConstant(parts[1..], k);
    }
  }

  lemma {:induction false} All3Of(ts: seq<Truth>, k: Truth)
    requires forall i | 0 <= i < |ts| :: ts[i] == k
    ensures All3(ts) == if ts == [] then True else k
  {
    if ts != [] {
      All3Of(ts[1..], k);
    }
  }

  lemma {:induction false} Any3Of(ts: seq<Truth>, k: Truth)
    requires forall i | 0 <= i < |ts| :: ts[i] == k
    ensures Any3(ts) == if ts == [] then False else k
  {
    if ts != [] {
      Any3Of(ts[1..], k);
    }
  }

  /** Where all atoms of a clause agree, the clause and its printed text have that value. */
  lemma PartUniform(c: Clause, v: Valuation, k: Truth)
    requires Parses(c) && k != Unknown && Uniform(v, Fresh(c), k)
    ensures Meaning(c, v) == k && Eval(Printed(c), v) == k
  {
    MeaningDepends(c, v, Constant(k));
    MeaningConstant(c, k);
    PrintedYield(c);
    EvalUniform(Printed(c), v, k);
  }

  ghost predicate AllUniform(v: Valuation, parts: seq<Clause>, k: Truth) {
    forall i | 0 <= i < |parts| :: Uniform(v, Fresh(parts[i]), k)
  }

  lemma PartsUniform(parts: seq<Clause>, v: Valuation, k: Truth)
    requires AllParse(parts) && k != Unknown && AllUniform(v, parts, k)
    ensures All3(Meanings(parts, v)) == All3(Values(parts, v)) == if parts == [] then True else k
    ensures Any3(Meanings(parts, v)) == Any3(Values(parts, v)) == if parts == [] then False else k
  {
    var ms, vs := Meanings(parts, v), Values(parts, v);
    forall i | 0 <= i < |parts| ensures ms[i] == k && vs[i] == k {
      PartUniform(parts[i], v, k);
      MeaningsAt(parts, v, i);
    }
    All3Of(ms, k);
    All3Of(vs, k);
    Any3Of(ms, k);
    Any3Of(vs, k);
  }

  /** A term that is not the last of `a`, or not the first of `b`, survives the juxtaposition. */
  lemma {:induction false} TornLeft(a: Condition, b: Condition, v: Valuation)
    requires a.OrTerm? && TermEval(a.first, v) == True
    ensures Eval(AndJoin(a, b), v) == True
  {
  }

  lemma {:induction false} TornRight(a: Condition, b: Condition, v: Valuation)
    requires b.OrTerm? && Eval(b.rest, v) == True
    ensures Eval(AndJoin(a, b), v) == True
  {
    if a.OrTerm? {
      TornRight(a.rest, b, v);
    }
  }

  lemma {:induction false} PartsTorn(parts: seq<Clause>, i: nat)
    requires AllParse(parts) && i < |parts| && Printed(parts[i]).OrTerm?
    ensures PrintedParts(parts, true).OrTerm?
  {
    if i > 0 {
      PartsTorn(parts[1..], i - 1);
    }
  }

  /** A head torn by the AND parts after it: make the head true and everything else false. */
  lemma TornHead(c: Clause) returns (v: Valuation)
    requires Parses(c) && c.ands != [] && Head(c).OrTerm?
    requires forall i | 0 <= i < |c.ands| :: Disjoint(c.value, Fresh(c.ands[i]))
    requires forall i | 0 <= i < |c.ors| :: Disjoint(c.value, Fresh(c.ors[i]))
    ensures Meaning(c, v) != Eval(Printed(c), v)
  {
    var text := c.value;
    v := p => if Atom(p) in text then True else False;
    PartsUniform(c.ands, v, False);
    PartsUniform(c.ors, v, False);
    assert Meaning(c, v) == False;
    YieldParse(c.value);
    TermEvalUniform(Head(c).first, v, True);
    TornLeft(Head(c), PrintedParts(c.ands, true), v);
    PrintedSplits(c, v);
  }

  /** An AND part torn by the text before it: make the AND parts true and everything else false. */
  lemma TornAnd(c: Clause, i: nat) returns (v: Valuation)
    requires Parses(c) && i < |c.ands| && Printed(c.ands[i]).OrTerm?
    requires Disjoint(c.value, Join(c.ands, KwAnd, false))
    requires forall j | 0 <= j < |c.ors| :: Disjoint(Join(c.ands, KwAnd, false), Fresh(c.ors[j]))
    ensures Meaning(c, v) != Eval(Printed(c), v)
  {
    var text := Join(c.ands, KwAnd, false);
    v := p => if Atom(p) in text then True else False;
    YieldParse(c.value);
    EvalUniform(Head(c), v, False);
    PartsUniform(c.ors, v, False);
    assert Meaning(c, v) == False;
    var parts := PrintedParts(c.ands, true);
    PartsTorn(c.ands, i);
    PrintedPartsYield(c.ands, true);
    EvalUniform(parts.rest, v, True);
    TornRight(Head(c), parts, v);
    PrintedSplits(c, v);
  }

  lemma {:induction false} All3One(ts: seq<Truth>, i: nat)
    requires i < |ts| && forall j | 0 <= j < |ts| && j != i :: ts[j] == True
    ensures All3(ts) == ts[i]
  {
    if i == 0 {
      All3Of(ts[1..], True);
    } else {
      All3One(ts[1..], i - 1);
    }
  }

  lemma {:induction false} Any3One(ts: seq<Truth>, i: nat)
    requires i < |ts| && forall j | 0 <= j < |ts| && j != i :: ts[j] == False
    ensures Any3(ts) == ts[i]
  {
    if i == 0 {
      Any3Of(ts[1..], False);
    } else {
      Any3One(ts[1..], i - 1);
    }
  }

  /** The text of the AND parts shares no predicate with the head or with an OR part. */
  lemma AndTextDisjoint(c: Clause)
    requires ReadOnce(c)
    ensures Disjoint(c.value, Join(c.ands, KwAnd, false))
    ensures forall j | 0 <= j < |c.ors| :: Disjoint(Join(c.ands, KwAnd, false), Fresh(c.ors[j]))
  {
    forall p | Atom(p) in Join(c.ands, KwAnd, false)
      ensures Atom(p) !in c.value && forall j | 0 <= j < |c.ors| :: Atom(p) !in Fresh(c.ors[j])
    {
      JoinAtoms(c.ands, KwAnd, p);
    }
  }

  /** A valuation of one part extends to the others without changing that part. */
  lemma PartAgrees(part: Clause, v: Valuation, w: Valuation)
    requires Parses(part) && Agree(v, w, Fresh(part))
    ensures Meaning(part, v) == Meaning(part, w) && Eval(Printed(part), v) == Eval(Printed(part), w)
  {
    MeaningDepends(part, v, w);
    PrintedYield(part);
    EvalDepends(Printed(part), v, w);
  }

  lemma OnlyAndPart(parts: seq<Clause>, i: nat, v: Valuation)
    requires AllParse(parts) && i < |parts|
    requires forall j | 0 <= j < |parts| && j != i :: Uniform(v, Fresh(parts[j]), True)
    ensures All3(Meanings(parts, v)) == Meaning(parts[i], v)
    ensures All3(Values(parts, v)) == Eval(Printed(parts[i]), v)
  {
    var ms, vs := Meanings(parts, v), Values(parts, v);
    forall j | 0 <= j < |parts| && j != i ensures ms[j] == True && vs[j] == True {
      PartUniform(parts[j], v, True);
      MeaningsAt(parts, v, j);
    }
    MeaningsAt(parts, v, i);
    All3One(ms, i);
    All3One(vs, i);
  }

  lemma OnlyOrPart(parts: seq<Clause>, i: nat, v: Valuation)
    requires AllParse(parts) && i < |parts|
    requires forall j | 0 <= j < |parts| && j != i :: Uniform(v, Fresh(parts[j]), False)
    ensures Any3(Meanings(parts, v)) == Meaning(parts[i], v)
    ensures Any3(Values(parts, v)) == Eval(Printed(parts[i]), v)
  {
    var ms, vs := Meanings(parts, v), Values(parts, v);
    forall j | 0 <= j < |parts| && j != i ensures ms[j] == False && vs[j] == False {
      PartUniform(parts[j], v, False);
      MeaningsAt(parts, v, j);
    }
    MeaningsAt(parts, v, i);
    Any3One(ms, i);
    Any3One(vs, i);
  }

  /** A valuation of one AND part, extended so that head and other AND parts are true and OR parts
      false. */
  lemma AndValuation(c: Clause, i: nat, w: Valuation) returns (v: Valuation)
    requires ReadOnce(c) && i < |c.ands|
    ensures Agree(v, w, Fresh(c.ands[i])) && Uniform(v, c.value, True)
    ensures forall j | 0 <= j < |c.ands| && j != i :: Uniform(v, Fresh(c.ands[j]), True)
    ensures AllUniform(v, c.ors, False)
  {
    var text, head, conj := Fresh(c.ands[i]), c.value, Join(c.ands, KwAnd, false);
    v := p => if Atom(p) in text then w(p)
              else if Atom(p) in head || Atom(p) in conj then True else False;
    AndTextDisjoint(c);
    forall j | 0 <= j < |c.ands| && j != i ensures Uniform(v, Fresh(c.ands[j]), True) {
      AtomsInJoin(c.ands, KwAnd, j);
    }
  }

  /** A difference inside an AND part shows when the rest of the conjunction is true and every
      OR part false. */
  lemma LiftAnd(c: Clause, i: nat, w: Valuation) returns (v: Valuation)
    requires Parses(c) && LocallyWhole(c) && ReadOnce(c) && i < |c.ands|
    requires Meaning(c.ands[i], w) != Eval(Printed(c.ands[i]), w)
    ensures Meaning(c, v) != Eval(Printed(c), v)
  {
    v := AndValuation(c, i, w);
    PartAgrees(c.ands[i], v, w);
    YieldParse(c.value);
    EvalUniform(Head(c), v, True);
    OnlyAndPart(c.ands, i, v);
    PartsUniform(c.ors, v, False);
    PrintedEval(c, v);
  }

  /** A difference inside an OR part shows when everything else is false. */
  lemma LiftOr(c: Clause, i: nat, w: Valuation) returns (v: Valuation)
    requires Parses(c) && LocallyWhole(c) && i < |c.ors|
    requires Disjoint(c.value, Fresh(c.ors[i]))
    requires forall j | 0 <= j < |c.ors| && j != i :: Disjoint(Fresh(c.ors[i]), Fresh(c.ors[j]))
    requires Meaning(c.ors[i], w) != Eval(Printed(c.ors[i]), w)
    ensures Meaning(c, v) != Eval(Printed(c), v)
  {
    var text := Fresh(c.ors[i]);
    v := p => if Atom(p) in text then w(p) else False;
    PartAgrees(c.ors[i], v, w);
    YieldParse(c.value);
    EvalUniform(Head(c), v, False);
    OnlyOrPart(c.ors, i, v);
    PrintedEval(c, v);
  }

  lemma {:induction false} Distinguish(c: Clause) returns (v: Valuation)
    requires Parses(c) && ReadOnce(c) && !NoTornPart(c)
    ensures Meaning(c, v) != Eval(Printed(c), v)
    decreases c
  {
    AndTextDisjoint(c);
    if !LocallyWhole(c) {
      v := DistinguishHere(c);
    } else if i :| 0 <= i < |c.ands| && !NoTornPart(c.ands[i]) {
      var w := Distinguish(c.ands[i]);
      v := LiftAnd(c, i, w);
    } else {
      var i :| 0 <= i < |c.ors| && !NoTornPart(c.ors[i]);
      var w := Distinguish(c.ors[i]);
      v := LiftOr(c, i, w);
    }
  }

  lemma DistinguishHere(c: Clause) returns (v: Valuation)
    requires Parses(c) && ReadOnce(c) && !LocallyWhole(c)
    ensures Meaning(c, v) != Eval(Printed(c), v)
  {
    TornIffOr(c);
    if TopLevelOr(c.value) {
      v := TornHead(c);
    } else {
      var i :| 0 <= i < |c.ands| && TopLevelOr(Fresh(c.ands[i]));
      TornIffOr(c.ands[i]);
      AndTextDisjoint(c);
      v := TornAnd(c, i);
    }
  }

  /** The printed text means what the clause means under every valuation exactly when no part is
      torn, for all clauses whose parts share no predicate. */
  lemma MeaningPreservedIff(c: Clause)
    requires Parses(c) && ReadOnce(c)
    ensures (forall v: Valuation :: Eval(Printed(c), v) == Meaning(c, v)) <==> NoTornPart(c)
  {
    if NoTornPart(c) {
      forall v: Valuation ensures Eval(Printed(c), v) == Meaning(c, v) {
        MeaningPreserved(c, v);
      }
    } else {
      var v := Distinguish(c);
    }
  }
}
