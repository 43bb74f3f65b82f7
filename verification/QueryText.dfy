/** The fields of the four query classes and the statement text rendered from them
    (src/insert_query.cpp, src/update_query.cpp, src/delete_query.cpp, src/select_query.cpp,
    src/session.cpp, src/join_clause.cpp). */
module QueryText {
  import opened SqlText
  import opened WhereClause

  datatype JoinKind = NoKind | Natural | Inner | Left | Right | Full | Cross

  datatype JoinClause = JoinClause(table: string, kind: JoinKind, on: Clause, cache: Text)

  datatype Union = Union(all: bool, query: Fields, cache: Text)

  /** `returning` is the primary key printed after RETURNING, for sessions with that feature. */
  datatype Fields =
    | InsertInto(table: string, columns: seq<string>, returning: Option<string>)
    | UpdateOf(table: string, columns: seq<string>, where: Clause)
    | DeleteFrom(table: string, where: Clause)
    | SelectFrom(table: string, columns: seq<string>, joins: seq<JoinClause>, where: Clause,
                 orderBy: string, limit: string, groupBy: string, union: Option<Union>)

  function WithTable(f: Fields, table: string): Fields {
    match f
    case InsertInto(_, c, r) => InsertInto(table, c, r)
    case UpdateOf(_, c, w) => UpdateOf(table, c, w)
    case DeleteFrom(_, w) => DeleteFrom(table, w)
    case SelectFrom(_, c, j, w, o, l, g, u) => SelectFrom(table, c, j, w, o, l, g, u)
  }

  function WithColumns(f: Fields, columns: seq<string>): Fields
    requires !f.DeleteFrom?
  {
    match f
    case InsertInto(t, _, r) => InsertInto(t, columns, r)
    case UpdateOf(t, _, w) => UpdateOf(t, columns, w)
    case SelectFrom(t, _, j, w, o, l, g, u) => SelectFrom(t, columns, j, w, o, l, g, u)
  }

  function WithWhere(f: Fields, where: Clause): Fields
    requires !f.InsertInto?
  {
    match f
    case UpdateOf(t, c, _) => UpdateOf(t, c, where)
    case DeleteFrom(t, _) => DeleteFrom(t, where)
    case SelectFrom(t, c, j, _, o, l, g, u) => SelectFrom(t, c, j, where, o, l, g, u)
  }

  // ----- rendering -----

  /** `helper::join_csv`. */
  function Csv(names: seq<string>): Text {
    if names == [] then []
    else if |names| == 1 then [Word(names[0])]
    else [Word(names[0]), Word(",")] + Csv(names[1..])
  }

  /** `session::join_params` from column number `from` on; `op` is empty in an INSERT. */
  function JoinParams(columns: seq<string>, op: string, from: nat): Text
    requires from <= |columns|
    decreases |columns| - from
  {
    if from == |columns| then []
    else ParamPiece(columns, op, from) + JoinParams(columns, op, from + 1)
  }

  function ParamPiece(columns: seq<string>, op: string, i: nat): Text
    requires i < |columns|
  {
    (if op == "" then [] else [Word(columns[i]), Word(op)])
    + [Param(i + 1)]
    + (if i + 1 < |columns| then [Word(",")] else [])
  }

  function KindText(kind: JoinKind): Text {
    match kind
    case NoKind => []
    case Natural => [Word(" NATURAL")]
    case Inner => [Word(" INNER")]
    case Left => [Word(" LEFT")]
    case Right => [Word(" RIGHT")]
    case Full => [Word(" FULL OUTER")]
    case Cross => [Word(" CROSS")]
  }

  function JoinBody(j: JoinClause, cached: bool): Text {
    KindText(j.kind) + [Word(" JOIN "), Word(j.table)]
    + (if j.kind == Cross || j.kind == Natural then [] else [Word(" ON ")] + Render(j.on, cached))
  }

  function JoinText(j: JoinClause, cached: bool): Text {
    if cached && j.cache != [] then j.cache else JoinBody(j, cached)
  }

  function JoinTexts(joins: seq<JoinClause>, cached: bool): Text {
    if joins == [] then [] else JoinText(joins[0], cached) + JoinTexts(joins[1..], cached)
  }

  function WhereText(c: Clause, cached: bool): Text {
    if IsEmpty(c) then [] else [Word(" WHERE ")] + Render(c, cached)
  }

  function Optional(keyword: string, text: string): Text {
    if text == "" then [] else [Word(keyword), Word(text)]
  }

  /** `generate_sql` of the query; with `cached`, stored texts of the parts are used. */
  function Body(f: Fields, cached: bool): (ts: Text)
    ensures ts != []
    decreases f, 1
  {
    match f
    case InsertInto(table, columns, returning) =>
      [Word("INSERT INTO "), Word(table), Word("(")] + Csv(columns) + [Word(") VALUES(")]
      + JoinParams(columns, "", 0) + [Word(")")]
      + (if returning.Some? then [Word(" RETURNING "), Word(returning.value)] else [])
      + [Word(";")]
    case UpdateOf(table, columns, where) =>
      [Word("UPDATE "), Word(table)]
      + (if columns == [] then [] else [Word(" SET ")] + JoinParams(columns, "=", 0))
      + WhereText(where, cached)
      + [Word(";")]
    case DeleteFrom(table, where) =>
      [Word("DELETE FROM "), Word(table)] + WhereText(where, cached) + [Word(";")]
    case SelectFrom(table, columns, joins, _, _, _, _, _) =>
      SelectList(columns) + [Word(" FROM "), Word(table)] + JoinTexts(joins, cached) + SelectTail(f, cached)
  }

  function SelectList(columns: seq<string>): Text {
    [Word("SELECT ")] + if columns == [] then [Word("*")] else Csv(columns)
  }

  /** A SELECT from its WHERE on. */
  function SelectTail(f: Fields, cached: bool): Text
    requires f.SelectFrom?
    decreases f, 0
  {
    WhereText(f.where, cached)
    + Optional(" ORDER BY ", f.orderBy) + Optional(" LIMIT ", f.limit) + Optional(" GROUP BY ", f.groupBy)
    + UnionText(f.union, cached)
  }

  function UnionText(union: Option<Union>, cached: bool): Text {
    match union
    case None => [Word(";")]
    case Some(u) =>
      [Word(" UNION ")] + (if u.all then [Word("ALL ")] else [])
      + (if cached && u.cache != [] then u.cache else Body(u.query, cached))
  }

  /** The text recomputed from the fields alone. */
  function FreshText(f: Fields): (ts: Text)
    ensures ts != []
  {
    Body(f, false)
  }

  /** Rendering a UNION fills the cache of the second query, which it holds through a pointer. */
  function Rendered(f: Fields): Fields {
    match f
    case SelectFrom(_, _, _, _, _, _, _, Some(u)) =>
      if u.cache != [] then f
      else f.(union := Some(u.(query := Rendered(u.query), cache := Body(u.query, true))))
    case _ => f
  }

  // ----- the parts' own caches -----

  ghost predicate CoherentJoin(j: JoinClause) {
    Coherent(j.on) && (j.cache == [] || j.cache == JoinText(j, false))
  }

  ghost predicate CoherentFields(f: Fields) {
    match f
    case InsertInto(_, _, _) => true
    case UpdateOf(_, _, where) => Coherent(where)
    case DeleteFrom(_, where) => Coherent(where)
    case SelectFrom(_, _, joins, where, _, _, _, union) =>
      && Coherent(where)
      && (forall i | 0 <= i < |joins| :: CoherentJoin(joins[i]))
      && (union.Some? ==>
            CoherentFields(union.value.query)
            && (union.value.cache == [] || union.value.cache == FreshText(union.value.query)))
  }

  lemma {:induction false} JoinTextsCached(joins: seq<JoinClause>)
    requires forall i | 0 <= i < |joins| :: CoherentJoin(joins[i])
    ensures JoinTexts(joins, true) == JoinTexts(joins, false)
  {
    if joins != [] {
      CachedIsFresh(joins[0].on);
      JoinTextsCached(joins[1..]);
    }
  }

  /** Rendering through the caches of where clause, joins and union gives the recomputed text. */
  lemma {:induction false} BodyCached(f: Fields)
    requires CoherentFields(f)
    ensures Body(f, true) == FreshText(f)
  {
    match f
    case InsertInto(_, _, _) =>
    case UpdateOf(_, _, where) => CachedIsFresh(where);
    case DeleteFrom(_, where) => CachedIsFresh(where);
    case SelectFrom(_, _, joins, where, _, _, _, union) =>
      CachedIsFresh(where);
      JoinTextsCached(joins);
      if union.Some? {
        BodyCached(union.value.query);
      }
      assert SelectTail(f, true) == SelectTail(f, false);
  }

  lemma {:induction false} RenderedSame(f: Fields)
    requires CoherentFields(f)
    ensures CoherentFields(Rendered(f)) && FreshText(Rendered(f)) == FreshText(f)
  {
    if f.SelectFrom? && f.union.Some? && f.union.value.cache == [] {
      var u := f.union.value;
      RenderedSame(u.query);
      BodyCached(u.query);
      assert SelectTail(Rendered(f), false) == SelectTail(f, false);
    }
  }

  // ----- the RETURNING loop -----

  /** The printing loop of src/insert_query.cpp:91-94 after `n` rounds: the iterator is never moved. */
  datatype Returning = Returning(it: nat, out: Text)

  function ReturningAfter(keys: seq<string>, n: nat): Returning
    requires keys != []
  {
    if n == 0 then Returning(0, [Word(" RETURNING ")])
    else var r := ReturningAfter(keys, n - 1);
         if r.it < |keys| - 1 then Returning(r.it, r.out + [Word(keys[0]), Word(",")]) else r
  }

  /** With one key the loop is not entered; with two or more its guard holds after any number of
      rounds, and the text grows without bound. */
  lemma {:induction false} ReturningLoop(keys: seq<string>, n: nat)
    requires keys != []
    ensures var r := ReturningAfter(keys, n);
            if |keys| == 1 then r.it == |keys| - 1 && r.out == [Word(" RETURNING ")]
            else r.it < |keys| - 1 && |r.out| == 2 * n + 1
  {
    if n > 0 {
      ReturningLoop(keys, n - 1);
    }
  }

  // ----- placeholders of the rendered parts -----

  function UpTo(n: nat): (ns: seq<nat>)
    ensures |ns| == n && forall i | 0 <= i < n :: ns[i] == i + 1
  {
    seq(n, i requires 0 <= i < n => i + 1)
  }

  lemma PiecePlaceholders(columns: seq<string>, op: string, i: nat)
    requires i < |columns|
    ensures Placeholders(ParamPiece(columns, op, i)) == [i + 1]
  {
    var lead := if op == "" then [] else [Word(columns[i]), Word(op)];
    var sep := if i + 1 < |columns| then [Word(",")] else [];
    PlaceholdersConcat(lead + [Param(i + 1)], sep);
    PlaceholdersConcat(lead, [Param(i + 1)]);
    assert Placeholders(lead) == [] by {
      if op != "" { assert lead[1..] == [Word(op)]; }
    }
  }

  lemma {:induction false} JoinParamsPlaceholders(columns: seq<string>, op: string, from: nat)
    requires from <= |columns|
    ensures Placeholders(JoinParams(columns, op, from)) == UpTo(|columns|)[from..]
    decreases |columns| - from
  {
    if from < |columns| {
      JoinParamsPlaceholders(columns, op, from + 1);
      PiecePlaceholders(columns, op, from);
      PlaceholdersConcat(ParamPiece(columns, op, from), JoinParams(columns, op, from + 1));
      assert UpTo(|columns|)[from..] == [from + 1] + UpTo(|columns|)[from + 1..];
    }
  }

  lemma {:induction false} CsvPlaceholders(names: seq<string>)
    ensures Placeholders(Csv(names)) == []
  {
    if |names| > 1 {
      var lead := [Word(names[0]), Word(",")];
      CsvPlaceholders(names[1..]);
      PlaceholdersConcat(lead, Csv(names[1..]));
      assert lead[1..] == [Word(",")];
    }
  }
}
