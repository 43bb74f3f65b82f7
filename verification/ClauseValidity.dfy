/** When a reachable where clause prints a search condition at all.

    `operator&&(where_clause)` stores an empty clause as an AND part, while the other three append
    operators skip empty operands.  Such a part leaves a connective without operand. */
module ClauseValidity {
  import opened SqlText
  import opened SearchCondition
  import opened WhereClause
  import opened ClauseMeaning

  /** Head texts are search conditions wherever they are not empty. */
  ghost predicate HeadsParse(c: Clause) {
    && (c.value == [] || Parse(c.value).Some?)
    && (forall i | 0 <= i < |c.ands| :: HeadsParse(c.ands[i]))
    && (forall i | 0 <= i < |c.ors| :: HeadsParse(c.ors[i]))
  }

  ghost predicate NoEmptyPart(c: Clause) {
    && (forall i | 0 <= i < |c.ands| :: !IsEmpty(c.ands[i]) && NoEmptyPart(c.ands[i]))
    && (forall i | 0 <= i < |c.ors| :: NoEmptyPart(c.ors[i]))
  }

  predicate Ends(t: Token) {
    t == KwAnd || t == KwOr || t == Close
  }

  /** An AND with nothing after it that could be an operand. */
  predicate DanglingAt(ts: Text, i: int) {
    0 <= i < |ts| && ts[i] == KwAnd && (i + 1 < |ts| ==> Ends(ts[i + 1]))
  }

  ghost predicate Dangling(ts: Text) {
    exists i :: DanglingAt(ts, i)
  }

  lemma DanglingConcat(a: Text, b: Text)
    ensures Dangling(b) ==> Dangling(a + b)
    ensures Dangling(a) && (b == [] || Ends(b[0])) ==> Dangling(a + b)
  {
    if Dangling(b) {
      var i :| DanglingAt(b, i);
      assert DanglingAt(a + b, |a| + i);
    }
    if Dangling(a) && (b == [] || Ends(b[0])) {
      var i :| DanglingAt(a, i);
      assert DanglingAt(a + b, i);
    }
  }

  lemma DanglingAfter(a: Text, t: Token, b: Text)
    requires Dangling([t] + b)
    ensures Dangling(a + [t] + b)
  {
    DanglingConcat(a, [t] + b);
    assert a + ([t] + b) == a + [t] + b;
  }

  lemma DanglingInside(a: Text, b: Text, c: Text)
    requires Dangling(b) && c != [] && Ends(c[0])
    ensures Dangling(a + b + c)
  {
    DanglingConcat(a, b);
    DanglingConcat(a + b, c);
  }

  lemma DanglingTail(t: Token, b: Text)
    requires t != KwAnd && Dangling([t] + b)
    ensures Dangling(b)
  {
    var i :| DanglingAt([t] + b, i);
    assert DanglingAt(b, i - 1);
  }

  /** The text is free of dangling ANDs and starts like an operand. */
  ghost predicate Sound(ts: Text) {
    !Dangling(ts) && ts != [] && !Ends(ts[0])
  }

  lemma SoundConcat(a: Text, t: Token, b: Text)
    requires Sound(a) && Sound(b)
    ensures Sound(a + [t] + b)
  {
    forall i ensures !DanglingAt(a + [t] + b, i) {
      assert !DanglingAt(a, i) && !DanglingAt(b, i - |a| - 1);
    }
  }

  lemma {:induction false} ConditionSound(c: Condition)
    ensures Sound(Yield(c))
    decreases c
  {
    match c
    case OneTerm(t) => TermSound(t);
    case OrTerm(t, r) =>
      TermSound(t);
      ConditionSound(r);
      SoundConcat(TermYield(t), KwOr, Yield(r));
  }

  lemma {:induction false} TermSound(t: Term)
    ensures Sound(TermYield(t))
    decreases t
  {
    match t
    case OneFactor(f) => FactorSound(f);
    case AndFactor(f, r) =>
      FactorSound(f);
      TermSound(r);
      SoundConcat(FactorYield(f), KwAnd, TermYield(r));
  }

  lemma {:induction false} FactorSound(f: Factor)
    ensures Sound(FactorYield(f))
    decreases f
  {
    match f
    case Test(_) =>
    case Group(c) =>
      ConditionSound(c);
      forall i ensures !DanglingAt(FactorYield(f), i) {
        assert !DanglingAt(Yield(c), i - 1);
      }
  }

  /** An empty AND part, or a dangling AND inside a part, shows in the joined text. */
  lemma {:induction false} JoinDangling(parts: seq<Clause>, connective: Token, i: nat)
    requires connective == KwAnd || connective == KwOr
    requires i < |parts|
    requires Dangling(Fresh(parts[i])) || (connective == KwAnd && Fresh(parts[i]) == [])
    ensures Dangling([connective] + Join(parts, connective, false))
  {
    var lead, first, rest := [connective], Fresh(parts[0]), parts[1..];
    var tail := if rest == [] then [] else [connective] + Join(rest, connective, false);
    assert lead + Join(parts, connective, false) == lead + (first + tail);
    if i == 0 && first == [] {
      assert DanglingAt(lead, 0);
      assert lead + (first + tail) == lead + tail;
      DanglingConcat(lead, tail);
    } else {
      if i == 0 {
        DanglingConcat(first, tail);
      } else {
        JoinDangling(rest, connective, i - 1);
        DanglingConcat(first, tail);
      }
      DanglingConcat(lead, first + tail);
    }
  }

  lemma {:induction false} EmptyPartDangles(c: Clause)
    requires !NoEmptyPart(c)
    ensures Dangling(Fresh(c))
    decreases c
  {
    if i :| 0 <= i < |c.ands| && (IsEmpty(c.ands[i]) || !NoEmptyPart(c.ands[i])) {
      if !NoEmptyPart(c.ands[i]) {
        EmptyPartDangles(c.ands[i]);
      } else {
        GenerateShapes(c.ands[i], false);
      }
      JoinDangling(c.ands, KwAnd, i);
      AndsDangle(c);
    } else {
      var i :| 0 <= i < |c.ors| && !NoEmptyPart(c.ors[i]);
      EmptyPartDangles(c.ors[i]);
      JoinDangling(c.ors, KwOr, i);
      OrsDangle(c);
    }
  }

  lemma AndsDangle(c: Clause)
    requires c.ands != [] && Dangling([KwAnd] + Join(c.ands, KwAnd, false))
    ensures Dangling(Fresh(c))
  {
    GenerateShapes(c, false);
    var ands := Join(c.ands, KwAnd, false);
    DanglingAfter(c.value, KwAnd, ands);
    if c.ors != [] {
      var ors := [Open] + Join(c.ors, KwOr, false) + [Close];
      DanglingInside([Open], c.value + [KwAnd] + ands, [Close] + [KwOr] + ors);
      RegroupFour([Open] + (c.value + [KwAnd] + ands), [Close], [KwOr], ors);
    }
  }

  lemma OrsDangle(c: Clause)
    requires c.ors != [] && Dangling([KwOr] + Join(c.ors, KwOr, false))
    ensures Dangling(Fresh(c))
  {
    GenerateShapes(c, false);
    var ors := Join(c.ors, KwOr, false);
    if c.ands == [] {
      DanglingAfter(c.value, KwOr, ors);
    } else {
      DanglingTail(KwOr, ors);
      DanglingInside([Open], ors, [Close]);
      DanglingConcat([Open] + (c.value + [KwAnd] + Join(c.ands, KwAnd, false)) + [Close] + [KwOr],
                     [Open] + ors + [Close]);
    }
  }

  lemma {:induction false} NonEmptyPartsParse(c: Clause)
    requires Headed(c) && HeadsParse(c) && NoEmptyPart(c) && !IsEmpty(c)
    ensures Parses(c)
    decreases c
  {
    forall i | 0 <= i < |c.ands| ensures Parses(c.ands[i]) {
      NonEmptyPartsParse(c.ands[i]);
    }
    forall i | 0 <= i < |c.ors| ensures Parses(c.ors[i]) {
      NonEmptyPartsParse(c.ors[i]);
    }
  }

  /** A reachable non-empty clause with sensible head texts prints a search condition exactly when
      no empty clause was passed to `operator&&`, at any depth. */
  lemma PrintsConditionIff(c: Clause)
    requires Headed(c) && HeadsParse(c) && !IsEmpty(c)
    ensures Parse(Fresh(c)).Some? <==> NoEmptyPart(c)
  {
    if NoEmptyPart(c) {
      NonEmptyPartsParse(c);
      PrintedTextParses(c);
    } else {
      EmptyPartDangles(c);
      YieldParse(Fresh(c));
      if Parse(Fresh(c)).Some? {
        ConditionSound(Parse(Fresh(c)).value);
      }
    }
  }
}
