/** The `<search condition>` of section 8.12 of ISO/IEC 9075:1992: grammar, parser, truth value.

    The grammar is given by its derivation trees and their yields; the parser is a separate
    recursive descent.  They are proved inverse, so a text is a search condition exactly when it
    is the yield of a tree, and of only one tree.  `Atom` stands for a `<boolean factor>` that is
    not parenthesised.  The lists of the left-recursive rules are kept as right-nested lists;
    `LeftGrouping` shows that the standard's left grouping has the same truth value.
 */
module SearchCondition {
  import opened SqlText

  datatype Condition = OneTerm(only: Term) | OrTerm(first: Term, rest: Condition)
  datatype Term = OneFactor(sole: Factor) | AndFactor(head: Factor, tail: Term)
  datatype Factor = Test(test: Predicate) | Group(inner: Condition)

  function Yield(c: Condition): (ts: Text)
    ensures ts != []
  {
    match c
    case OneTerm(t) => TermYield(t)
    case OrTerm(t, r) => TermYield(t) + [KwOr] + Yield(r)
  }

  function TermYield(t: Term): (ts: Text)
    ensures ts != []
  {
    match t
    case OneFactor(f) => FactorYield(f)
    case AndFactor(f, r) => FactorYield(f) + [KwAnd] + TermYield(r)
  }

  function FactorYield(f: Factor): (ts: Text)
    ensures ts != []
  {
    match f
    case Test(p) => [Atom(p)]
    case Group(c) => [Open] + Yield(c) + [Close]
  }

  // ----- recursive descent parser -----

  function ParseFactor(ts: Text): (r: Option<(Factor, Text)>)
    ensures r.Some? ==> |r.value.1| < |ts|
    decreases |ts|, 0
  {
    if ts == [] then None
    else match ts[0]
      case Atom(p) => Some((Test(p), ts[1..]))
      case Open =>
        (match ParseCondition(ts[1..])
         case Some((c, rest)) =>
           if rest != [] && rest[0] == Close then Some((Group(c), rest[1..])) else None
         case None => None)
      case _ => None
  }

  function ParseTerm(ts: Text): (r: Option<(Term, Text)>)
    ensures r.Some? ==> |r.value.1| < |ts|
    decreases |ts|, 1
  {
    match ParseFactor(ts)
    case None => None
    case Some((f, rest)) =>
      if rest != [] && rest[0] == KwAnd then
        (match ParseTerm(rest[1..])
         case Some((t, rest')) => Some((AndFactor(f, t), rest'))
         case None => None)
      else Some((OneFactor(f), rest))
  }

  function ParseCondition(ts: Text): (r: Option<(Condition, Text)>)
    ensures r.Some? ==> |r.value.1| < |ts|
    decreases |ts|, 2
  {
    match ParseTerm(ts)
    case None => None
    case Some((t, rest)) =>
      if rest != [] && rest[0] == KwOr then
        (match ParseCondition(rest[1..])
         case Some((c, rest')) => Some((OrTerm(t, c), rest'))
         case None => None)
      else Some((OneTerm(t), rest))
  }

  /** A text is a search condition when the parser consumes all of it. */
  function Parse(ts: Text): (r: Option<Condition>)
  {
    match ParseCondition(ts)
    case Some((c, rest)) => if rest == [] then Some(c) else None
    case None => None
  }

  predicate StartsWith(ts: Text, t: Token) {
    ts != [] && ts[0] == t
  }

  lemma {:induction false} FactorParses(f: Factor, rest: Text)
    ensures ParseFactor(FactorYield(f) + rest) == Some((f, rest))
    decreases f
  {
    match f
    case Test(p) =>
      assert ([Atom(p)] + rest)[1..] == rest;
    case Group(c) =>
      var ts := FactorYield(f) + rest;
      assert ts[0] == Open && ts[1..] == Yield(c) + ([Close] + rest);
      ConditionParses(c, [Close] + rest);
      assert ([Close] + rest)[1..] == rest;
  }

  lemma {:induction false} TermParses(t: Term, rest: Text)
    requires !StartsWith(rest, KwAnd)
    ensures ParseTerm(TermYield(t) + rest) == Some((t, rest))
    decreases t
  {
    match t
    case OneFactor(f) =>
      FactorParses(f, rest);
    case AndFactor(f, r) =>
      var more := [KwAnd] + (TermYield(r) + rest);
      assert TermYield(t) + rest == FactorYield(f) + more;
      FactorParses(f, more);
      assert more[1..] == TermYield(r) + rest;
      TermParses(r, rest);
  }

  lemma {:induction false} ConditionParses(c: Condition, rest: Text)
    requires !StartsWith(rest, KwAnd) && !StartsWith(rest, KwOr)
    ensures ParseCondition(Yield(c) + rest) == Some((c, rest))
    decreases c
  {
    match c
    case OneTerm(t) =>
      TermParses(t, rest);
    case OrTerm(t, r) =>
      var more := [KwOr] + (Yield(r) + rest);
      assert Yield(c) + rest == TermYield(t) + more;
      TermParses(t, more);
      assert more[1..] == Yield(r) + rest;
      ConditionParses(r, rest);
  }

  /** Every derivation tree is what its yield parses to; in particular the grammar is unambiguous. */
  lemma ParseYield(c: Condition)
    ensures Parse(Yield(c)) == Some(c)
  {
    ConditionParses(c, []);
    assert Yield(c) + [] == Yield(c);
  }

  lemma {:induction false} ParseFactorSound(ts: Text)
    ensures ParseFactor(ts).Some? ==>
              var (f, rest) := ParseFactor(ts).value; ts == FactorYield(f) + rest
    decreases |ts|, 0
  {
    if ts != [] && ts[0] == Open {
      ParseConditionSound(ts[1..]);
      if ParseCondition(ts[1..]).Some? {
        var (c, rest) := ParseCondition(ts[1..]).value;
        if StartsWith(rest, Close) {
          assert rest == [Close] + rest[1..] && ts == [Open] + ts[1..];
          RegroupFour([Open], Yield(c), [Close], rest[1..]);
        }
      }
    }
  }

  lemma {:induction false} ParseTermSound(ts: Text)
    ensures ParseTerm(ts).Some? ==>
              var (t, rest) := ParseTerm(ts).value; ts == TermYield(t) + rest
    decreases |ts|, 1
  {
    ParseFactorSound(ts);
    if ParseFactor(ts).Some? {
      var (f, rest) := ParseFactor(ts).value;
      if StartsWith(rest, KwAnd) {
        ParseTermSound(rest[1..]);
        if ParseTerm(rest[1..]).Some? {
          var (t, rest') := ParseTerm(rest[1..]).value;
          assert rest == [KwAnd] + (TermYield(t) + rest');
          RegroupFour(FactorYield(f), [KwAnd], TermYield(t), rest');
        }
      }
    }
  }

  lemma {:induction false} ParseConditionSound(ts: Text)
    ensures ParseCondition(ts).Some? ==>
              var (c, rest) := ParseCondition(ts).value; ts == Yield(c) + rest
    decreases |ts|, 2
  {
    ParseTermSound(ts);
    if ParseTerm(ts).Some? {
      var (t, rest) := ParseTerm(ts).value;
      if StartsWith(rest, KwOr) {
        ParseConditionSound(rest[1..]);
        if ParseCondition(rest[1..]).Some? {
          var (c, rest') := ParseCondition(rest[1..]).value;
          assert rest == [KwOr] + (Yield(c) + rest');
          RegroupFour(TermYield(t), [KwOr], Yield(c), rest');
        }
      }
    }
  }

  /** A text that parses is the yield of the tree it parses to. */
  lemma YieldParse(ts: Text)
    ensures Parse(ts).Some? ==> Yield(Parse(ts).value) == ts
  {
    ParseConditionSound(ts);
  }

  // ----- truth values -----

  datatype Truth = False | Unknown | True

  function And3(a: Truth, b: Truth): Truth {
    if a == False || b == False then False
    else if a == Unknown || b == Unknown then Unknown
    else True
  }

  function Or3(a: Truth, b: Truth): Truth {
    if a == True || b == True then True
    else if a == Unknown || b == Unknown then Unknown
    else False
  }

  /** False is below unknown, unknown below true. */
  predicate AtMost(a: Truth, b: Truth) {
    a == b || a == False || b == True
  }

  type Valuation = Predicate -> Truth

  function Eval(c: Condition, v: Valuation): Truth
  {
    match c
    case OneTerm(t) => TermEval(t, v)
    case OrTerm(t, r) => Or3(TermEval(t, v), Eval(r, v))
  }

  function TermEval(t: Term, v: Valuation): Truth
  {
    match t
    case OneFactor(f) => FactorEval(f, v)
    case AndFactor(f, r) => And3(FactorEval(f, v), TermEval(r, v))
  }

  function FactorEval(f: Factor, v: Valuation): Truth
  {
    match f
    case Test(p) => v(p)
    case Group(c) => Eval(c, v)
  }

  /** `a OR b OR c` grouped as the standard's left-recursive rules group it. */
  function EvalLeft(acc: Truth, c: Condition, v: Valuation): Truth
    decreases c
  {
    match c
    case OneTerm(t) => Or3(acc, TermEvalLeft(True, t, v))
    case OrTerm(t, r) => EvalLeft(Or3(acc, TermEvalLeft(True, t, v)), r, v)
  }

  function TermEvalLeft(acc: Truth, t: Term, v: Valuation): Truth
    decreases t
  {
    match t
    case OneFactor(f) => And3(acc, FactorEvalLeft(f, v))
    case AndFactor(f, r) => TermEvalLeft(And3(acc, FactorEvalLeft(f, v)), r, v)
  }

  function FactorEvalLeft(f: Factor, v: Valuation): Truth
    decreases f
  {
    match f
    case Test(p) => v(p)
    case Group(c) => EvalLeft(False, c, v)
  }

  lemma {:induction false} LeftGrouping(c: Condition, acc: Truth, v: Valuation)
    ensures EvalLeft(acc, c, v) == Or3(acc, Eval(c, v))
    decreases c
  {
    match c
    case OneTerm(t) => LeftGroupingTerm(t, True, v);
    case OrTerm(t, r) =>
      LeftGroupingTerm(t, True, v);
      LeftGrouping(r, Or3(acc, TermEval(t, v)), v);
  }

  lemma {:induction false} LeftGroupingTerm(t: Term, acc: Truth, v: Valuation)
    ensures TermEvalLeft(acc, t, v) == And3(acc, TermEval(t, v))
    decreases t
  {
    match t
    case OneFactor(f) => LeftGroupingFactor(f, v);
    case AndFactor(f, r) =>
      LeftGroupingFactor(f, v);
      LeftGroupingTerm(r, And3(acc, FactorEval(f, v)), v);
  }

  lemma {:induction false} LeftGroupingFactor(f: Factor, v: Valuation)
    ensures FactorEvalLeft(f, v) == FactorEval(f, v)
    decreases f
  {
    match f
    case Test(_) =>
    case Group(c) => LeftGrouping(c, False, v);
  }

  // ----- the value depends on the atoms of the text only -----

  ghost predicate Agree(v: Valuation, w: Valuation, ts: Text) {
    forall p :: Atom(p) in ts ==> v(p) == w(p)
  }

  lemma {:induction false} EvalDepends(c: Condition, v: Valuation, w: Valuation)
    requires Agree(v, w, Yield(c))
    ensures Eval(c, v) == Eval(c, w)
    decreases c
  {
    match c
    case OneTerm(t) => TermEvalDepends(t, v, w);
    case OrTerm(t, r) =>
      TermEvalDepends(t, v, w);
      EvalDepends(r, v, w);
  }

  lemma {:induction false} TermEvalDepends(t: Term, v: Valuation, w: Valuation)
    requires Agree(v, w, TermYield(t))
    ensures TermEval(t, v) == TermEval(t, w)
    decreases t
  {
    match t
    case OneFactor(f) => FactorEvalDepends(f, v, w);
    case AndFactor(f, r) =>
      FactorEvalDepends(f, v, w);
      TermEvalDepends(r, v, w);
  }

  lemma {:induction false} FactorEvalDepends(f: Factor, v: Valuation, w: Valuation)
    requires Agree(v, w, FactorYield(f))
    ensures FactorEval(f, v) == FactorEval(f, w)
    decreases f
  {
    match f
    case Test(p) => assert Atom(p) in FactorYield(f);
    case Group(c) => EvalDepends(c, v, w);
  }

  function Constant(k: Truth): Valuation {
    p => k
  }

  /** A condition without negation is true when all its atoms are, and false when none is. */
  lemma {:induction false} EvalConstant(c: Condition, k: Truth)
    ensures Eval(c, Constant(k)) == k
    decreases c
  {
    match c
    case OneTerm(t) => TermEvalConstant(t, k);
    case OrTerm(t, r) =>
      TermEvalConstant(t, k);
      EvalConstant(r, k);
  }

  lemma {:induction false} TermEvalConstant(t: Term, k: Truth)
    ensures TermEval(t, Constant(k)) == k
    decreases t
  {
    match t
    case OneFactor(f) => FactorEvalConstant(f, k);
    case AndFactor(f, r) =>
      FactorEvalConstant(f, k);
      TermEvalConstant(r, k);
  }

  lemma {:induction false} FactorEvalConstant(f: Factor, k: Truth)
    ensures FactorEval(f, Constant(k)) == k
    decreases f
  {
    match f
    case Test(_) =>
    case Group(c) => EvalConstant(c, k);
  }
}
