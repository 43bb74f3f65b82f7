/** The where clause of src/where_clause.cpp: a head text, AND parts and OR parts, each part a
    copied clause with its own cached text, printed with as few parentheses as the code prints. */
module WhereClause {
  import opened SqlText

  /** A where clause as a value.  `cache` is the text kept by the SQL generator base class. */
  datatype Clause = Clause(value: Text, ands: seq<Clause>, ors: seq<Clause>, cache: Text)

  const EMPTY := Clause([], [], [], [])

  /** The clause that `emplace_back(text)` constructs. */
  function Leaf(text: Text): Clause {
    Clause(text, [], [], [])
  }

  // ----- printing -----

  /** The text of a clause; with `cached`, stored texts are used wherever there is one. */
  function Render(c: Clause, cached: bool): (ts: Text)
    decreases c, 1
  {
    if cached && c.cache != [] then c.cache else Generate(c, cached)
  }

  function Generate(c: Clause, cached: bool): (ts: Text)
    decreases c, 0
  {
    var both := c.ands != [] && c.ors != [];
    (if both then [Open] else [])
    + c.value
    + (if c.ands == [] then [] else [KwAnd] + Join(c.ands, KwAnd, cached))
    + (if both then [Close] else [])
    + (if c.ors == [] then []
       else (if both then [KwOr, Open] else [KwOr])
            + Join(c.ors, KwOr, cached)
            + (if both then [Close] else []))
  }

  /** The texts of the parts with the connective between them. */
  function Join(parts: seq<Clause>, connective: Token, cached: bool): (ts: Text)
    decreases parts, 2
  {
    if parts == [] then []
    else if |parts| == 1 then Render(parts[0], cached)
    else Render(parts[0], cached) + [connective] + Join(parts[1..], connective, cached)
  }

  /** What the clause prints when nothing is cached anywhere. */
  function Fresh(c: Clause): (ts: Text) {
    Render(c, false)
  }

  /** The four shapes of the printed text. */
  lemma GenerateShapes(c: Clause, cached: bool)
    ensures var ands, ors := Join(c.ands, KwAnd, cached), Join(c.ors, KwOr, cached);
            Generate(c, cached) ==
            if c.ands == [] && c.ors == [] then c.value
            else if c.ors == [] then c.value + [KwAnd] + ands
            else if c.ands == [] then c.value + [KwOr] + ors
            else [Open] + (c.value + [KwAnd] + ands) + [Close] + [KwOr] + ([Open] + ors + [Close])
  {
    var ands, ors := Join(c.ands, KwAnd, cached), Join(c.ors, KwOr, cached);
    if c.ands == [] {
      Unparenthesised(c.value, [], if c.ors == [] then [] else [KwOr] + ors);
      Regroup(c.value, [KwOr], ors);
    } else if c.ors == [] {
      Unparenthesised(c.value, [KwAnd] + ands, []);
      Regroup(c.value, [KwAnd], ands);
    } else {
      Parenthesised(c.value, ands, ors);
    }
  }

  lemma Unparenthesised(value: Text, ands: Text, ors: Text)
    ensures [] + value + ands + [] + ([] + ors) == value + ands + ors
    ensures value + [] + ors == value + ors && value + ands + [] == value + ands && value + [] == value
  {
  }

  lemma Parenthesised(value: Text, ands: Text, ors: Text)
    ensures [Open] + value + ([KwAnd] + ands) + [Close] + ([KwOr, Open] + ors + [Close])
         == [Open] + (value + [KwAnd] + ands) + [Close] + [KwOr] + ([Open] + ors + [Close])
  {
    Regroup([Open] + value, [KwAnd], ands);
    assert [Open] + (value + [KwAnd] + ands) == [Open] + value + [KwAnd] + ands;
    assert [KwOr, Open] + ors == [KwOr] + ([Open] + ors);
  }

  lemma {:induction false} JoinSnoc(parts: seq<Clause>, last: Clause, connective: Token, cached: bool)
    requires parts != []
    ensures Join(parts + [last], connective, cached)
         == Join(parts, connective, cached) + [connective] + Render(last, cached)
  {
    var all := parts + [last];
    assert all[0] == parts[0] && all[1..] == parts[1..] + [last];
    if |parts| > 1 {
      JoinSnoc(parts[1..], last, connective, cached);
    }
  }

  // ----- operations -----

  predicate IsEmpty(c: Clause) {
    c.value == [] && c.ands == [] && c.ors == []
  }

  /** The four ways to append; a clause operand is stored as a copy, cache included. */
  datatype Append = AndText(text: Text) | AndClause(clause: Clause)
                  | OrText(text: Text) | OrClause(clause: Clause)

  function Appended(c: Clause, a: Append): (r: Clause) {
    match a
    case AndClause(d) =>
      if c.value == [] then c.(value := Render(d, true), cache := [])
      else c.(ands := c.ands + [d], cache := [])
    case AndText(t) =>
      if t == [] then c
      else if c.value == [] then c.(value := t, cache := [])
      else c.(ands := c.ands + [Leaf(t)], cache := [])
    case OrClause(d) =>
      if IsEmpty(d) then c
      else if c.value == [] then c.(value := Render(d, true), cache := [])
      else c.(ors := c.ors + [d], cache := [])
    case OrText(t) =>
      if t == [] then c
      else if c.value == [] then c.(value := t, cache := [])
      else c.(ors := c.ors + [Leaf(t)], cache := [])
  }

  /** One step of a caller: append, render (which fills the cache), clear, or overwrite. */
  datatype Action = Add(operand: Append) | Show | Clear | SetText(text: Text) | SetClause(clause: Clause)

  function Next(c: Clause, s: Action): (r: Clause) {
    match s
    case Add(a) => Appended(c, a)
    case Show => c.(cache := Render(c, true))
    case Clear => EMPTY
    case SetText(t) => Leaf(t)
    case SetClause(d) => d
  }

  function RunActions(c: Clause, actions: seq<Action>): (r: Clause)
    decreases |actions|
  {
    if actions == [] then c else RunActions(Next(c, actions[0]), actions[1..])
  }

  // ----- cached texts agree with recomputed ones -----

  /** Every stored text, at every depth, is empty or what recomputation would give. */
  ghost predicate Coherent(c: Clause) {
    && (c.cache == [] || c.cache == Fresh(c))
    && (forall i | 0 <= i < |c.ands| :: Coherent(c.ands[i]))
    && (forall i | 0 <= i < |c.ors| :: Coherent(c.ors[i]))
  }

  lemma {:induction false} CachedIsFresh(c: Clause)
    requires Coherent(c)
    ensures Render(c, true) == Fresh(c)
    decreases c, 1
  {
    JoinCachedIsFresh(c.ands, KwAnd);
    JoinCachedIsFresh(c.ors, KwOr);
    assert Generate(c, true) == Generate(c, false);
  }

  lemma {:induction false} JoinCachedIsFresh(parts: seq<Clause>, connective: Token)
    requires forall i | 0 <= i < |parts| :: Coherent(parts[i])
    ensures Join(parts, connective, true) == Join(parts, connective, false)
    decreases parts, 2
  {
    if parts != [] {
      CachedIsFresh(parts[0]);
      JoinCachedIsFresh(parts[1..], connective);
    }
  }

  /** The clauses a caller passes in are coherent; they come from runs of their own. */
  ghost predicate CoherentAction(s: Action) {
    match s
    case Add(AndClause(d)) => Coherent(d)
    case Add(OrClause(d)) => Coherent(d)
    case SetClause(d) => Coherent(d)
    case _ => true
  }

  lemma NextCoherent(c: Clause, s: Action)
    requires Coherent(c) && CoherentAction(s)
    ensures Coherent(Next(c, s))
  {
    CachedIsFresh(c);
    match s
    case Show =>
      var d := Next(c, s);
      assert Generate(d, false) == Generate(c, false);
    case _ =>
  }

  /** In every state a clause can reach, with any mixture of appends, renders and resets and with
      copied operands that carry caches of their own, rendering gives the recomputed text. */
  lemma {:induction false} EveryRunIsCoherent(c: Clause, actions: seq<Action>)
    requires Coherent(c) && forall i | 0 <= i < |actions| :: CoherentAction(actions[i])
    ensures Coherent(RunActions(c, actions)) && Render(RunActions(c, actions), true) == Fresh(RunActions(c, actions))
    decreases |actions|
  {
    if actions == [] {
      CachedIsFresh(c);
    } else {
      NextCoherent(c, actions[0]);
      EveryRunIsCoherent(Next(c, actions[0]), actions[1..]);
    }
  }

  // ----- the head decides emptiness -----

  /** Parts exist only under a non-empty head, at every depth, and OR parts are never empty. */
  ghost predicate Headed(c: Clause) {
    && (c.value == [] ==> c.ands == [] && c.ors == [] && c.cache == [])
    && (forall i | 0 <= i < |c.ands| :: Headed(c.ands[i]))
    && (forall i | 0 <= i < |c.ors| :: Headed(c.ors[i]) && !IsEmpty(c.ors[i]))
  }

  ghost predicate HeadedAction(s: Action) {
    match s
    case Add(AndClause(d)) => Headed(d)
    case Add(OrClause(d)) => Headed(d)
    case SetClause(d) => Headed(d)
    case _ => true
  }

  lemma {:induction false} EveryRunIsHeaded(c: Clause, actions: seq<Action>)
    requires Headed(c) && forall i | 0 <= i < |actions| :: HeadedAction(actions[i])
    ensures Headed(RunActions(c, actions)) && (IsEmpty(RunActions(c, actions)) <==> RunActions(c, actions).value == [])
    decreases |actions|
  {
    if actions != [] {
      assert HeadedAction(actions[0]);
      EveryRunIsHeaded(Next(c, actions[0]), actions[1..]);
    }
  }

  // ----- the order in which && and || are interleaved does not matter -----

  predicate NonEmptyOperand(a: Append) {
    match a
    case AndClause(d) => !IsEmpty(d)
    case OrClause(d) => !IsEmpty(d)
    case AndText(t) => t != []
    case OrText(t) => t != []
  }

  /** The text of an operand. */
  function OperandText(a: Append): Text {
    match a
    case AndText(t) => t
    case OrText(t) => t
    case AndClause(d) => Fresh(d)
    case OrClause(d) => Fresh(d)
  }

  /** Appending to an empty clause, with either operator, makes it print the operand. */
  lemma AppendToEmpty(c: Clause, a: Append)
    requires IsEmpty(c) && NonEmptyOperand(a) && CoherentAction(Add(a))
    ensures Fresh(Appended(c, a)) == OperandText(a) && Appended(c, a).ands == [] && Appended(c, a).ors == []
  {
    GenerateShapes(Appended(c, a), false);
    match a
    case AndClause(d) => CachedIsFresh(d);
    case OrClause(d) => CachedIsFresh(d);
    case _ =>
  }

  function AppendAll(c: Clause, operands: seq<Append>): (r: Clause)
    decreases |operands|
  {
    if operands == [] then c else AppendAll(Appended(c, operands[0]), operands[1..])
  }

  /** The part one operand contributes under `&&`, and under `||`. */
  function AndPart(a: Append): seq<Clause> {
    match a
    case AndText(t) => [Leaf(t)]
    case AndClause(d) => [d]
    case _ => []
  }

  function OrPart(a: Append): seq<Clause> {
    match a
    case OrText(t) => [Leaf(t)]
    case OrClause(d) => [d]
    case _ => []
  }

  /** The parts contributed by the `&&` operands, in order, and by the `||` operands. */
  function AndParts(operands: seq<Append>): seq<Clause> {
    if operands == [] then [] else AndPart(operands[0]) + AndParts(operands[1..])
  }

  function OrParts(operands: seq<Append>): seq<Clause> {
    if operands == [] then [] else OrPart(operands[0]) + OrParts(operands[1..])
  }

  lemma AppendedParts(c: Clause, a: Append)
    requires c.value != [] && NonEmptyOperand(a)
    ensures Appended(c, a) == Clause(c.value, c.ands + AndPart(a), c.ors + OrPart(a), [])
  {
    assert c.ands + [] == c.ands && c.ors + [] == c.ors;
  }

  /** The clause depends on the `&&` operands and on the `||` operands, not on how the two
      sequences were interleaved. */
  lemma {:induction false} InterleavingIrrelevant(c: Clause, operands: seq<Append>)
    requires c.value != [] && forall i | 0 <= i < |operands| :: NonEmptyOperand(operands[i])
    ensures AppendAll(c, operands)
         == Clause(c.value, c.ands + AndParts(operands), c.ors + OrParts(operands),
                   if operands == [] then c.cache else [])
    decreases |operands|
  {
    if operands == [] {
      assert c.ands + [] == c.ands && c.ors + [] == c.ors;
    } else {
      var a, rest := operands[0], operands[1..];
      AppendedParts(c, a);
      InterleavingIrrelevant(Appended(c, a), rest);
      Regroup(c.ands, AndPart(a), AndParts(rest));
      Regroup(c.ors, OrPart(a), OrParts(rest));
    }
  }

  // ----- the object -----

  class Where {
    var value: Text
    var ands: seq<Clause>
    var ors: seq<Clause>
    var sql: Text

    ghost function Contents(): Clause
      reads this
    {
      Clause(value, ands, ors, sql)
    }

    constructor (text: Text)
      ensures Contents() == Leaf(text)
    {
      value, ands, ors, sql := text, [], [], [];
    }

    method SetModified()
      modifies this`sql
      ensures sql == []
    {
      sql := [];
    }

    method AndWithClause(c: Clause)
      modifies this
      ensures Contents() == Appended(old(Contents()), AndClause(c))
    {
      if value == [] {
        value := Render(c, true);
      } else {
        ands := ands + [c];
      }
      SetModified();
    }

    method AndWithText(t: Text)
      modifies this
      ensures Contents() == Appended(old(Contents()), AndText(t))
    {
      if t == [] {
        return;
      }
      if value == [] {
        value := t;
      } else {
        ands := ands + [Leaf(t)];
      }
      SetModified();
    }

    method OrWithClause(c: Clause)
      modifies this
      ensures Contents() == Appended(old(Contents()), OrClause(c))
    {
      if IsEmpty(c) {
        return;
      }
      if value == [] {
        value := Render(c, true);
      } else {
        ors := ors + [c];
      }
      SetModified();
    }

    method OrWithText(t: Text)
      modifies this
      ensures Contents() == Appended(old(Contents()), OrText(t))
    {
      if t == [] {
        return;
      }
      if value == [] {
        value := t;
      } else {
        ors := ors + [Leaf(t)];
      }
      SetModified();
    }

    method Reset()
      modifies this
      ensures Contents() == EMPTY
    {
      value, ands, ors := [], [], [];
      SetModified();
    }

    method ResetText(t: Text)
      modifies this
      ensures Contents() == Leaf(t)
    {
      Reset();
      value := t;
    }

    method ResetClause(c: Clause)
      modifies this
      ensures Contents() == c
    {
      value, ands, ors, sql := c.value, c.ands, c.ors, c.cache;
    }

    method GenerateSql() returns (out: Text)
      ensures out == Generate(Contents(), true)
    {
      out := [];
      if ands != [] && ors != [] {
        out := out + [Open];
      }
      out := out + value;
      if ands != [] {
        out := out + [KwAnd];
        var parts := PrintParts(ands, KwAnd);
        out := out + parts;
        if ors != [] {
          out := out + [Close];
        }
      }
      if ors != [] {
        if ands != [] {
          out := out + [KwOr, Open];
        } else {
          out := out + [KwOr];
        }
        var parts := PrintParts(ors, KwOr);
        out := out + parts;
        if ands != [] {
          out := out + [Close];
        }
      }
    }

    method ToSql() returns (text: Text)
      modifies this
      ensures Contents() == Next(old(Contents()), Show)
      ensures text == Render(old(Contents()), true) == sql
    {
      if sql == [] {
        var t := GenerateSql();
        sql := t;
      }
      text := sql;
    }
  }

  /** The printing loop over the parts of one connective. */
  method PrintParts(parts: seq<Clause>, connective: Token) returns (out: Text)
    requires parts != []
    ensures out == Join(parts, connective, true)
  {
    out := [];
    var it := 0;
    while it < |parts| - 1
      invariant 0 <= it <= |parts| - 1
      invariant out == if it == 0 then [] else Join(parts[..it], connective, true) + [connective]
    {
      if it > 0 {
        JoinSnoc(parts[..it], parts[it], connective, true);
      }
      assert parts[..it + 1] == parts[..it] + [parts[it]];
      out := out + Render(parts[it], true);
      out := out + [connective];
      it := it + 1;
    }
    if it > 0 {
      JoinSnoc(parts[..it], parts[it], connective, true);
    }
    assert parts == parts[..it] + [parts[it]];
    out := out + Render(parts[it], true);
  }
}
