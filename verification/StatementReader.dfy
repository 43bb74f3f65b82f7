/** Reading a statement's text as the server does: which table, which column beside which placeholder,
    which condition.  The reader knows nothing of how the library prints; that it reads every printed
    statement back pins every word of the text (src/insert_query.cpp:65-103,
    src/update_query.cpp:57-76, src/delete_query.cpp:71-85, src/select_query.cpp:114-161,
    src/session.cpp:73-89). */
module StatementReader {
  import opened SqlText
  import opened WhereClause
  import opened QueryText
  import C = SearchCondition

  /** A column and the number of the placeholder whose value it gets. */
  type Setting = (string, nat)

  datatype Command =
    | Update(table: string, sets: seq<Setting>, where: Option<Text>)
    | Insert(table: string, sets: seq<Setting>, returning: Option<string>)
    | Delete(table: string, where: Option<Text>)
    | Select(columns: seq<string>, table: string, joins: seq<JoinRead>, where: Option<Text>,
             orderBy: string, limit: string, groupBy: string, union: Option<UnionRead>)

  datatype JoinRead = JoinRead(kind: JoinKind, table: string, on: Option<Text>)

  datatype UnionRead = UnionRead(all: bool, query: Command)

  predicate Starts(ts: Text, word: string) {
    ts != [] && ts[0] == Word(word)
  }

  // ----- lists -----

  /** `column = placeholder`, separated by commas; and what follows. */
  function ReadSets(ts: Text): Option<(seq<Setting>, Text)> {
    if |ts| >= 3 && ts[0].Word? && ts[1] == Word("=") && ts[2].Param? then
      var first := (ts[0].text, ts[2].index);
      if Starts(ts[3..], ",") then
        match ReadSets(ts[4..])
        case Some((more, rest)) => Some(([first] + more, rest))
        case None => None
      else Some(([first], ts[3..]))
    else None
  }

  /** Names separated by commas. */
  function ReadNames(ts: Text): (r: Option<(seq<string>, Text)>)
    ensures r.Some? ==> |r.value.1| < |ts|
  {
    if ts != [] && ts[0].Word? then
      if Starts(ts[1..], ",") then
        match ReadNames(ts[2..])
        case Some((more, rest)) => Some(([ts[0].text] + more, rest))
        case None => None
      else Some(([ts[0].text], ts[1..]))
    else None
  }

  /** Placeholders separated by commas. */
  function ReadNumbers(ts: Text): Option<(seq<nat>, Text)> {
    if ts != [] && ts[0].Param? then
      if Starts(ts[1..], ",") then
        match ReadNumbers(ts[2..])
        case Some((more, rest)) => Some(([ts[0].index] + more, rest))
        case None => None
      else Some(([ts[0].index], ts[1..]))
    else None
  }

  // ----- statements -----

  /** `WHERE condition` or nothing, then the semicolon. */
  function ReadEnd(ts: Text): Option<Option<Text>> {
    if ts == [Word(";")] then Some(None)
    else if |ts| >= 2 && ts[0] == Word(" WHERE ") && ts[|ts| - 1] == Word(";") then Some(Some(ts[1..|ts| - 1]))
    else None
  }

  function ReadUpdate(table: string, ts: Text): Option<Command> {
    if Starts(ts, " SET ") then
      match ReadSets(ts[1..])
      case Some((sets, rest)) =>
        var end := ReadEnd(rest);
        if end.Some? then Some(Update(table, sets, end.value)) else None
      case None => None
    else
      var end := ReadEnd(ts);
      if end.Some? then Some(Update(table, [], end.value)) else None
  }

  function Zip(names: seq<string>, numbers: seq<nat>): seq<Setting>
    requires |names| == |numbers|
  {
    seq(|names|, i requires 0 <= i < |names| => (names[i], numbers[i]))
  }

  /** The closing parenthesis, an optional RETURNING, the semicolon. */
  function ReadReturning(ts: Text): Option<Option<string>> {
    if ts == [Word(")"), Word(";")] then Some(None)
    else if |ts| == 4 && ts[0] == Word(")") && ts[1] == Word(" RETURNING ") && ts[2].Word? && ts[3] == Word(";") then
      Some(Some(ts[2].text))
    else None
  }

  function ReadValues(table: string, names: seq<string>, numbers: seq<nat>, ts: Text): Option<Command> {
    var end := ReadReturning(ts);
    if |names| == |numbers| && end.Some? then Some(Insert(table, Zip(names, numbers), end.value)) else None
  }

  function ReadInsert(table: string, ts: Text): Option<Command> {
    if |ts| >= 2 && ts[0] == Word(") VALUES(") && ts[1] == Word(")") then ReadValues(table, [], [], ts[1..])
    else
      match ReadNames(ts)
      case None => None
      case Some((names, rest)) =>
        if Starts(rest, ") VALUES(") then
          match ReadNumbers(rest[1..])
          case Some((numbers, end)) => ReadValues(table, names, numbers, end)
          case None => None
        else None
  }

  /** The tokens up to the first word, and the rest. */
  function UpToWord(ts: Text): (r: (Text, Text))
    ensures |r.1| <= |ts|
  {
    if ts == [] || ts[0].Word? then ([], ts)
    else var (c, rest) := UpToWord(ts[1..]); ([ts[0]] + c, rest)
  }

  /** The text after a keyword, if the keyword is there. */
  function ReadOptional(ts: Text, keyword: string): (r: (string, Text))
    ensures |r.1| <= |ts|
  {
    if |ts| >= 2 && ts[0] == Word(keyword) && ts[1].Word? then (ts[1].text, ts[2..]) else ("", ts)
  }

  function KindOf(word: string): Option<JoinKind> {
    if word == " NATURAL" then Some(Natural)
    else if word == " INNER" then Some(Inner)
    else if word == " LEFT" then Some(Left)
    else if word == " RIGHT" then Some(Right)
    else if word == " FULL OUTER" then Some(Full)
    else if word == " CROSS" then Some(Cross)
    else None
  }

  function ReadKind(ts: Text): (r: (JoinKind, Text))
    ensures |r.1| <= |ts|
  {
    if ts != [] && ts[0].Word? && KindOf(ts[0].text).Some? then (KindOf(ts[0].text).value, ts[1..]) else (NoKind, ts)
  }

  /** Joins, each with its kind, table and condition. */
  function ReadJoins(ts: Text): (r: (seq<JoinRead>, Text))
    ensures |r.1| <= |ts|
    decreases |ts|
  {
    var (kind, rest) := ReadKind(ts);
    if |rest| >= 2 && rest[0] == Word(" JOIN ") && rest[1].Word? then
      var after := rest[2..];
      if Starts(after, " ON ") then
        var (condition, end) := UpToWord(after[1..]);
        var (more, last) := ReadJoins(end);
        ([JoinRead(kind, rest[1].text, Some(condition))] + more, last)
      else
        var (more, last) := ReadJoins(after);
        ([JoinRead(kind, rest[1].text, None)] + more, last)
    else ([], ts)
  }

  function ReadWhere(ts: Text): (r: (Option<Text>, Text))
    ensures |r.1| <= |ts|
  {
    if Starts(ts, " WHERE ") then
      var (condition, end) := UpToWord(ts[1..]);
      (Some(condition), end)
    else (None, ts)
  }

  /** The semicolon, or a union with another SELECT. */
  function ReadUnion(ts: Text): Option<Option<UnionRead>>
    decreases |ts|, 0
  {
    if ts == [Word(";")] then Some(None)
    else if Starts(ts, " UNION ") then
      var all := Starts(ts[1..], "ALL ");
      var rest := if all then ts[2..] else ts[1..];
      if Starts(rest, "SELECT ") then
        match ReadSelect(rest[1..])
        case Some(q) => Some(Some(UnionRead(all, q)))
        case None => None
      else None
    else None
  }

  function ReadFrom(columns: seq<string>, ts: Text): Option<Command>
    decreases |ts|, 1
  {
    if |ts| >= 2 && ts[0] == Word(" FROM ") && ts[1].Word? then
      var (joins, afterJoins) := ReadJoins(ts[2..]);
      var (where, afterWhere) := ReadWhere(afterJoins);
      var (order, afterOrder) := ReadOptional(afterWhere, " ORDER BY ");
      var (limit, afterLimit) := ReadOptional(afterOrder, " LIMIT ");
      var (group, end) := ReadOptional(afterLimit, " GROUP BY ");
      var union := ReadUnion(end);
      if union.Some? then Some(Select(columns, ts[1].text, joins, where, order, limit, group, union.value)) else None
    else None
  }

  function ReadSelect(ts: Text): Option<Command>
    decreases |ts|, 2
  {
    if Starts(ts, "*") && Starts(ts[1..], " FROM ") then ReadFrom([], ts[1..])
    else
      match ReadNames(ts)
      case Some((columns, rest)) => ReadFrom(columns, rest)
      case None => None
  }

  function Read(ts: Text): Option<Command> {
    if Starts(ts, "SELECT ") then ReadSelect(ts[1..])
    else if |ts| >= 2 && ts[1].Word? then
      var table := ts[1].text;
      if ts[0] == Word("UPDATE ") then ReadUpdate(table, ts[2..])
      else if ts[0] == Word("DELETE FROM ") then
        var end := ReadEnd(ts[2..]);
        if end.Some? then Some(Delete(table, end.value)) else None
      else if ts[0] == Word("INSERT INTO ") && Starts(ts[2..], "(") then ReadInsert(table, ts[3..])
      else None
    else None
  }

  // ----- the lists that the library prints -----

  /** Column i with placeholder i + 1. */
  function Numbered(columns: seq<string>, from: nat): (sets: seq<Setting>)
    requires from <= |columns|
    ensures |sets| == |columns| - from
    ensures forall i | 0 <= i < |sets| :: sets[i] == (columns[from + i], from + i + 1)
  {
    seq(|columns| - from, i requires 0 <= i < |columns| - from => (columns[from + i], from + i + 1))
  }

  function Numbers(from: nat, to: nat): (ns: seq<nat>)
    requires from <= to
    ensures |ns| == to - from && forall i | 0 <= i < |ns| :: ns[i] == from + i + 1
  {
    seq(to - from, i requires 0 <= i < to - from => from + i + 1)
  }

  lemma {:induction false} SetsRead(columns: seq<string>, from: nat, rest: Text)
    requires from < |columns| && !Starts(rest, ",")
    ensures ReadSets(JoinParams(columns, "=", from) + rest) == Some((Numbered(columns, from), rest))
    decreases |columns| - from
  {
    var lead := [Word(columns[from]), Word("="), Param(from + 1)];
    if from + 1 == |columns| {
      assert ParamPiece(columns, "=", from) == lead && JoinParams(columns, "=", from + 1) == [];
      assert JoinParams(columns, "=", from) == lead;
      LastSet(lead, rest);
      assert Numbered(columns, from) == [(columns[from], from + 1)];
    } else {
      SetsRead(columns, from + 1, rest);
      FirstOfSets(columns, from, lead, rest);
      FirstSet(lead, JoinParams(columns, "=", from + 1) + rest);
      assert Numbered(columns, from) == [(columns[from], from + 1)] + Numbered(columns, from + 1);
    }
  }

  lemma FirstOfSets(columns: seq<string>, from: nat, lead: Text, rest: Text)
    requires from + 1 < |columns| && lead == [Word(columns[from]), Word("="), Param(from + 1)]
    ensures JoinParams(columns, "=", from) + rest == lead + [Word(",")] + (JoinParams(columns, "=", from + 1) + rest)
  {
    assert ParamPiece(columns, "=", from) == lead + [Word(",")];
    Regroup(lead + [Word(",")], JoinParams(columns, "=", from + 1), rest);
  }

  lemma LastSet(lead: Text, rest: Text)
    requires |lead| == 3 && lead[0].Word? && lead[1] == Word("=") && lead[2].Param? && !Starts(rest, ",")
    ensures ReadSets(lead + rest) == Some(([(lead[0].text, lead[2].index)], rest))
  {
    var ts := lead + rest;
    assert ts[3..] == rest;
  }

  lemma FirstSet(lead: Text, more: Text)
    requires |lead| == 3 && lead[0].Word? && lead[1] == Word("=") && lead[2].Param? && ReadSets(more).Some?
    ensures ReadSets(lead + [Word(",")] + more)
         == Some(([(lead[0].text, lead[2].index)] + ReadSets(more).value.0, ReadSets(more).value.1))
  {
    var ts := lead + [Word(",")] + more;
    assert ts[0] == lead[0] && ts[1] == lead[1] && ts[2] == lead[2] && ts[3..][0] == Word(",") && ts[4..] == more;
  }

  lemma {:induction false} NamesRead(names: seq<string>, rest: Text)
    requires names != [] && !Starts(rest, ",")
    ensures ReadNames(Csv(names) + rest) == Some((names, rest))
    decreases |names|
  {
    if |names| == 1 {
      var ts := Csv(names) + rest;
      assert Csv(names) == [Word(names[0])] && ts[0] == Word(names[0]) && ts[1..] == rest;
      assert names == [names[0]];
    } else {
      NamesRead(names[1..], rest);
      var more := Csv(names[1..]) + rest;
      var ts := [Word(names[0]), Word(",")] + more;
      assert Csv(names) + rest == ts;
      assert ts[0] == Word(names[0]) && ts[1..][0] == Word(",") && ts[2..] == more;
      assert names == [names[0]] + names[1..];
    }
  }

  lemma {:induction false} NumbersRead(columns: seq<string>, from: nat, rest: Text)
    requires from < |columns| && !Starts(rest, ",")
    ensures ReadNumbers(JoinParams(columns, "", from) + rest) == Some((Numbers(from, |columns|), rest))
    decreases |columns| - from
  {
    if from + 1 == |columns| {
      assert ParamPiece(columns, "", from) == [Param(from + 1)] && JoinParams(columns, "", from + 1) == [];
      var ts := [Param(from + 1)] + rest;
      assert JoinParams(columns, "", from) + rest == ts && ts[1..] == rest;
      assert Numbers(from, |columns|) == [from + 1];
    } else {
      NumbersRead(columns, from + 1, rest);
      var more := JoinParams(columns, "", from + 1) + rest;
      assert ParamPiece(columns, "", from) == [Param(from + 1), Word(",")];
      var ts := [Param(from + 1), Word(",")] + more;
      assert JoinParams(columns, "", from) + rest == ts;
      assert ts[1..][0] == Word(",") && ts[2..] == more;
      assert Numbers(from, |columns|) == [from + 1] + Numbers(from + 1, |columns|);
    }
  }

  // ----- the statements that the library prints -----

  function WhereOf(c: Clause): Option<Text> {
    if IsEmpty(c) then None else Some(Fresh(c))
  }

  lemma EndReads(c: Clause)
    ensures ReadEnd(WhereText(c, false) + [Word(";")]) == Some(WhereOf(c))
  {
    if !IsEmpty(c) {
      var ts := [Word(" WHERE ")] + Fresh(c) + [Word(";")];
      assert WhereText(c, false) + [Word(";")] == ts;
      assert ts[1..|ts| - 1] == Fresh(c);
    }
  }

  /** The settings, if there are columns, and the end of an UPDATE. */
  function UpdateRest(columns: seq<string>, end: Text): Text {
    if columns == [] then end else [Word(" SET ")] + (JoinParams(columns, "=", 0) + end)
  }

  lemma UpdateText(f: Fields)
    requires f.UpdateOf?
    ensures FreshText(f) == [Word("UPDATE "), Word(f.table)] + UpdateRest(f.columns, WhereText(f.where, false) + [Word(";")])
  {
    var lead, where, end := [Word("UPDATE "), Word(f.table)], WhereText(f.where, false), [Word(";")];
    if f.columns == [] {
      assert lead + [] == lead;
      Regroup(lead, where, end);
    } else {
      var sets := [Word(" SET ")] + JoinParams(f.columns, "=", 0);
      RegroupFour(lead, sets, where, end);
      Regroup([Word(" SET ")], JoinParams(f.columns, "=", 0), where + end);
      Regroup(lead, sets, where + end);
    }
  }

  lemma UpdateRestReads(table: string, columns: seq<string>, where: Clause)
    ensures ReadUpdate(table, UpdateRest(columns, WhereText(where, false) + [Word(";")]))
         == Some(Update(table, Numbered(columns, 0), WhereOf(where)))
  {
    var end := WhereText(where, false) + [Word(";")];
    EndReads(where);
    assert !Starts(end, " SET ") && !Starts(end, ",");
    if columns == [] {
      assert Numbered(columns, 0) == [];
    } else {
      SetsRead(columns, 0, end);
      assert UpdateRest(columns, end)[1..] == JoinParams(columns, "=", 0) + end;
    }
  }

  lemma UpdateReads(f: Fields)
    requires f.UpdateOf?
    ensures Read(FreshText(f)) == Some(Update(f.table, Numbered(f.columns, 0), WhereOf(f.where)))
  {
    var rest := UpdateRest(f.columns, WhereText(f.where, false) + [Word(";")]);
    UpdateText(f);
    HeadReads("UPDATE ", f.table, rest, FreshText(f));
    UpdateRestReads(f.table, f.columns, f.where);
  }

  /** Two words and the rest of a statement. */
  lemma HeadReads(verb: string, table: string, rest: Text, all: Text)
    requires all == [Word(verb), Word(table)] + rest
    ensures |all| >= 2 && all[0] == Word(verb) && all[1] == Word(table) && all[2..] == rest
  {
  }

  lemma DeleteReads(f: Fields)
    requires f.DeleteFrom?
    ensures Read(FreshText(f)) == Some(Delete(f.table, WhereOf(f.where)))
  {
    var end := WhereText(f.where, false) + [Word(";")];
    EndReads(f.where);
    Regroup([Word("DELETE FROM "), Word(f.table)], WhereText(f.where, false), [Word(";")]);
    HeadReads("DELETE FROM ", f.table, end, FreshText(f));
  }

  function ReturningText(returning: Option<string>): Text {
    [Word(")")] + (if returning.Some? then [Word(" RETURNING "), Word(returning.value)] else []) + [Word(";")]
  }

  lemma ReturningReads(returning: Option<string>)
    ensures ReadReturning(ReturningText(returning)) == Some(returning) && ReturningText(returning)[0] == Word(")")
  {
  }

  lemma InsertText(f: Fields)
    requires f.InsertInto?
    ensures FreshText(f) == [Word("INSERT INTO "), Word(f.table)]
                            + ([Word("(")] + (Csv(f.columns) + ([Word(") VALUES(")] + (JoinParams(f.columns, "", 0) + ReturningText(f.returning)))))
  {
  }

  lemma ZipNumbered(columns: seq<string>)
    ensures Zip(columns, Numbers(0, |columns|)) == Numbered(columns, 0)
  {
  }

  lemma InsertReads(f: Fields)
    requires f.InsertInto?
    ensures Read(FreshText(f)) == Some(Insert(f.table, Numbered(f.columns, 0), f.returning))
  {
    var end := ReturningText(f.returning);
    var values := [Word(") VALUES(")] + (JoinParams(f.columns, "", 0) + end);
    var list := Csv(f.columns) + values;
    InsertText(f);
    InsertListReads(f.table, f.columns, f.returning, list);
    InsertHead(f.table, list, FreshText(f));
  }

  lemma InsertHead(table: string, list: Text, all: Text)
    requires all == [Word("INSERT INTO "), Word(table)] + ([Word("(")] + list)
    ensures Read(all) == ReadInsert(table, list)
  {
    HeadReads("INSERT INTO ", table, [Word("(")] + list, all);
    assert all[3..] == list;
  }

  lemma InsertListReads(table: string, columns: seq<string>, returning: Option<string>, list: Text)
    requires list == Csv(columns) + ([Word(") VALUES(")] + (JoinParams(columns, "", 0) + ReturningText(returning)))
    ensures ReadInsert(table, list) == Some(Insert(table, Numbered(columns, 0), returning))
  {
    var end := ReturningText(returning);
    var params := JoinParams(columns, "", 0) + end;
    var values := [Word(") VALUES(")] + params;
    ReturningReads(returning);
    ZipNumbered(columns);
    if columns == [] {
      assert list == values && params == end && list[1..] == end;
      assert Numbered(columns, 0) == [] == Zip([], []);
    } else {
      NamesRead(columns, values);
      NumbersRead(columns, 0, end);
      assert values[1..] == params;
      NotEmptyList(columns, values, list);
    }
  }

  lemma NotEmptyList(columns: seq<string>, values: Text, list: Text)
    requires columns != [] && Starts(values, ") VALUES(") && list == Csv(columns) + values
    ensures |list| >= 2 && list[1] != Word(")")
  {
    if |columns| == 1 {
      assert list[1] == values[0];
    } else {
      assert list[1] == Word(",");
    }
  }

  // ----- SELECT -----

  predicate WordFree(ts: Text) {
    forall i | 0 <= i < |ts| :: !ts[i].Word?
  }

  lemma {:induction false} ConditionCut(condition: Text, rest: Text)
    requires WordFree(condition) && rest != [] && rest[0].Word?
    ensures UpToWord(condition + rest) == (condition, rest)
    decreases |condition|
  {
    if condition == [] {
      assert condition + rest == rest;
    } else {
      var ts := condition + rest;
      assert ts[0] == condition[0] && ts[1..] == condition[1..] + rest;
      ConditionCut(condition[1..], rest);
      assert condition == [condition[0]] + condition[1..];
    }
  }

  function JoinMeant(j: JoinClause): JoinRead {
    JoinRead(j.kind, j.table, if j.kind == Cross || j.kind == Natural then None else Some(Fresh(j.on)))
  }

  function JoinsMeant(joins: seq<JoinClause>): seq<JoinRead> {
    if joins == [] then [] else [JoinMeant(joins[0])] + JoinsMeant(joins[1..])
  }

  predicate JoinsWordFree(joins: seq<JoinClause>) {
    forall i | 0 <= i < |joins| :: WordFree(Fresh(joins[i].on))
  }

  /** A word that is none of a join. */
  predicate AfterJoins(ts: Text) {
    ts != [] && ts[0].Word? && ts[0].text != " JOIN " && ts[0].text != " ON " && KindOf(ts[0].text).None?
  }

  lemma KindReads(kind: JoinKind, rest: Text)
    requires Starts(rest, " JOIN ")
    ensures ReadKind(KindText(kind) + rest) == (kind, rest)
  {
    if kind == NoKind {
      assert KindText(kind) + rest == rest;
    } else {
      var ts := KindText(kind) + rest;
      assert ts[0] == KindText(kind)[0] && ts[1..] == rest;
    }
  }

  /** A word starts what follows a join: another join, or what comes after the joins. */
  lemma JoinsStart(joins: seq<JoinClause>, rest: Text)
    requires AfterJoins(rest)
    ensures var ts := JoinTexts(joins, false) + rest;
            ts != [] && ts[0].Word? && !Starts(ts, " ON ")
  {
    if joins == [] {
      assert JoinTexts(joins, false) + rest == rest;
    } else {
      var j := joins[0];
      assert JoinText(j, false) == JoinBody(j, false);
      if j.kind == NoKind {
        assert JoinBody(j, false)[0] == Word(" JOIN ");
      } else {
        assert JoinBody(j, false)[0] == KindText(j.kind)[0];
      }
    }
  }

  lemma {:induction false} JoinsAreRead(joins: seq<JoinClause>, rest: Text)
    requires JoinsWordFree(joins) && AfterJoins(rest)
    ensures ReadJoins(JoinTexts(joins, false) + rest) == (JoinsMeant(joins), rest)
    decreases |joins|
  {
    if joins == [] {
      assert JoinTexts(joins, false) + rest == rest;
    } else {
      var more := JoinTexts(joins[1..], false) + rest;
      JoinsAreRead(joins[1..], rest);
      JoinsStart(joins[1..], rest);
      Regroup(JoinText(joins[0], false), JoinTexts(joins[1..], false), rest);
      OneJoinIsRead(joins[0], more);
    }
  }

  lemma OneJoinIsRead(j: JoinClause, more: Text)
    requires WordFree(Fresh(j.on)) && more != [] && more[0].Word? && !Starts(more, " ON ")
    ensures ReadJoins(JoinText(j, false) + more) == ([JoinMeant(j)] + ReadJoins(more).0, ReadJoins(more).1)
  {
    var on := if j.kind == Cross || j.kind == Natural then [] else [Word(" ON ")] + Fresh(j.on);
    var after := on + more;
    var rest := [Word(" JOIN "), Word(j.table)] + after;
    JoinSplit(j, on, more);
    KindReads(j.kind, rest);
    HeadReads(" JOIN ", j.table, after, rest);
    if j.kind == Cross || j.kind == Natural {
      assert after == more;
      JoinWithoutOn(JoinText(j, false) + more, j.kind, rest, j.table, more);
    } else {
      Regroup([Word(" ON ")], Fresh(j.on), more);
      JoinWithOn(JoinText(j, false) + more, j.kind, rest, j.table, Fresh(j.on), more);
    }
  }

  lemma JoinWithoutOn(ts: Text, kind: JoinKind, rest: Text, table: string, more: Text)
    requires ReadKind(ts) == (kind, rest) && |rest| >= 2 && rest[0] == Word(" JOIN ") && rest[1] == Word(table)
    requires rest[2..] == more && !Starts(more, " ON ")
    ensures ReadJoins(ts) == ([JoinRead(kind, table, None)] + ReadJoins(more).0, ReadJoins(more).1)
  {
  }

  lemma JoinWithOn(ts: Text, kind: JoinKind, rest: Text, table: string, condition: Text, more: Text)
    requires ReadKind(ts) == (kind, rest) && |rest| >= 2 && rest[0] == Word(" JOIN ") && rest[1] == Word(table)
    requires rest[2..] == [Word(" ON ")] + (condition + more) && WordFree(condition) && more != [] && more[0].Word?
    ensures ReadJoins(ts) == ([JoinRead(kind, table, Some(condition))] + ReadJoins(more).0, ReadJoins(more).1)
  {
    assert rest[2..][1..] == condition + more;
    ConditionCut(condition, more);
  }

  lemma JoinSplit(j: JoinClause, on: Text, more: Text)
    requires on == if j.kind == Cross || j.kind == Natural then [] else [Word(" ON ")] + Fresh(j.on)
    ensures JoinText(j, false) + more == KindText(j.kind) + ([Word(" JOIN "), Word(j.table)] + (on + more))
  {
    RegroupFour(KindText(j.kind), [Word(" JOIN "), Word(j.table)], on, more);
  }

  /** A select whose conditions hold no words; so is the query of its union. */
  predicate Simple(f: Fields)
    decreases f
  {
    f.SelectFrom? ==>
      && JoinsWordFree(f.joins) && WordFree(Fresh(f.where))
      && (f.union.Some? ==> f.union.value.query.SelectFrom? && Simple(f.union.value.query))
  }

  lemma {:induction false} FactorWordFree(f: C.Factor)
    ensures WordFree(C.FactorYield(f))
    decreases f
  {
    if f.Group? {
      YieldWordFree(f.inner);
    }
  }

  lemma {:induction false} TermWordFree(t: C.Term)
    ensures WordFree(C.TermYield(t))
    decreases t
  {
    match t
    case OneFactor(f) => FactorWordFree(f);
    case AndFactor(f, r) => FactorWordFree(f); TermWordFree(r);
  }

  lemma {:induction false} YieldWordFree(c: C.Condition)
    ensures WordFree(C.Yield(c))
    decreases c
  {
    match c
    case OneTerm(t) => TermWordFree(t);
    case OrTerm(t, r) => TermWordFree(t); YieldWordFree(r);
  }

  /** No text, or a search condition. */
  predicate IsCondition(ts: Text) {
    ts == [] || C.Parse(ts).Some?
  }

  predicate OnConditions(joins: seq<JoinClause>) {
    forall i | 0 <= i < |joins| :: IsCondition(Fresh(joins[i].on))
  }

  /** Where a select has a condition, it is a search condition; so in the query of its union. */
  predicate HasConditions(f: Fields)
    decreases f
  {
    f.SelectFrom? ==>
      && OnConditions(f.joins) && IsCondition(Fresh(f.where))
      && (f.union.Some? ==> f.union.value.query.SelectFrom? && HasConditions(f.union.value.query))
  }

  lemma ConditionWordFree(ts: Text)
    requires IsCondition(ts)
    ensures WordFree(ts)
  {
    if ts != [] {
      C.YieldParse(ts);
      YieldWordFree(C.Parse(ts).value);
    }
  }

  /** Search conditions hold no words, so every statement with proper conditions is read. */
  lemma {:induction false} ConditionsAreSimple(f: Fields)
    requires HasConditions(f)
    ensures Simple(f)
    decreases f
  {
    if f.SelectFrom? {
      forall i | 0 <= i < |f.joins| ensures WordFree(Fresh(f.joins[i].on)) {
        ConditionWordFree(Fresh(f.joins[i].on));
      }
      ConditionWordFree(Fresh(f.where));
      if f.union.Some? {
        ConditionsAreSimple(f.union.value.query);
      }
    }
  }

  /** ORDER BY, LIMIT and GROUP BY, then the end. */
  function TailText(f: Fields, end: Text): Text
    requires f.SelectFrom?
  {
    Optional(" ORDER BY ", f.orderBy) + (Optional(" LIMIT ", f.limit) + (Optional(" GROUP BY ", f.groupBy) + end))
  }

  lemma OptionalReads(keyword: string, text: string, rest: Text)
    requires !Starts(rest, keyword)
    ensures ReadOptional(Optional(keyword, text) + rest, keyword) == (text, rest)
  {
    if text != "" {
      var ts := Optional(keyword, text) + rest;
      assert ts[0] == Word(keyword) && ts[1] == Word(text) && ts[2..] == rest;
    } else {
      assert Optional(keyword, text) + rest == rest;
    }
  }

  /** The end of a SELECT: a semicolon or a UNION. */
  predicate IsEnd(end: Text) {
    Starts(end, ";") || Starts(end, " UNION ")
  }

  lemma TailReads(f: Fields, end: Text)
    requires f.SelectFrom? && IsEnd(end)
    ensures var (order, afterOrder) := ReadOptional(TailText(f, end), " ORDER BY ");
            var (limit, afterLimit) := ReadOptional(afterOrder, " LIMIT ");
            order == f.orderBy && limit == f.limit && ReadOptional(afterLimit, " GROUP BY ") == (f.groupBy, end)
    ensures AfterJoins(TailText(f, end)) && !Starts(TailText(f, end), " WHERE ")
  {
    var group := Optional(" GROUP BY ", f.groupBy) + end;
    var limit := Optional(" LIMIT ", f.limit) + group;
    OptionalReads(" GROUP BY ", f.groupBy, end);
    OptionalReads(" LIMIT ", f.limit, group);
    OptionalReads(" ORDER BY ", f.orderBy, limit);
  }

  lemma WhereReads(c: Clause, tail: Text)
    requires WordFree(Fresh(c)) && AfterJoins(tail) && !Starts(tail, " WHERE ")
    ensures ReadWhere(WhereText(c, false) + tail) == (WhereOf(c), tail)
    ensures AfterJoins(WhereText(c, false) + tail)
  {
    var rest := WhereText(c, false) + tail;
    if IsEmpty(c) {
      assert rest == tail;
    } else {
      assert rest == [Word(" WHERE ")] + (Fresh(c) + tail);
      assert rest[1..] == Fresh(c) + tail;
      ConditionCut(Fresh(c), tail);
    }
  }

  lemma SelectText(f: Fields)
    requires f.SelectFrom?
    ensures FreshText(f) == [Word("SELECT ")] + (ListText(f.columns) + SelectAfterList(f))
    ensures FreshText(f)[1..] == ListText(f.columns) + SelectAfterList(f)
  {
    var o, l, g := Optional(" ORDER BY ", f.orderBy), Optional(" LIMIT ", f.limit), Optional(" GROUP BY ", f.groupBy);
    var w, end, from := WhereText(f.where, false), UnionText(f.union, false), [Word(" FROM "), Word(f.table)];
    TailSplit(w, o, l, g, end);
    assert SelectTail(f, false) == w + TailText(f, end);
    RegroupFour(SelectList(f.columns), from, JoinTexts(f.joins, false), SelectTail(f, false));
    assert FreshText(f) == SelectList(f.columns) + SelectAfterList(f);
    Regroup([Word("SELECT ")], ListText(f.columns), SelectAfterList(f));
  }

  lemma TailSplit(w: Text, o: Text, l: Text, g: Text, end: Text)
    ensures w + o + l + g + end == w + (o + (l + (g + end)))
  {
    RegroupFour(w + o, l, g, end);
    Regroup(w, o, l + (g + end));
  }

  /** `*` stands for no columns. */
  function Listed(columns: seq<string>): seq<string> {
    if columns == ["*"] then [] else columns
  }

  function UnionMeant(union: Option<Union>): Option<UnionRead> {
    match union
    case None => None
    case Some(u) => Some(UnionRead(u.all, Meant(u.query)))
  }

  /** What the reader should find in a statement with these fields. */
  function Meant(f: Fields): Command {
    match f
    case InsertInto(table, columns, returning) => Insert(table, Numbered(columns, 0), returning)
    case UpdateOf(table, columns, where) => Update(table, Numbered(columns, 0), WhereOf(where))
    case DeleteFrom(table, where) => Delete(table, WhereOf(where))
    case SelectFrom(table, columns, joins, where, orderBy, limit, groupBy, union) =>
      Select(Listed(columns), table, JoinsMeant(joins), WhereOf(where), orderBy, limit, groupBy, UnionMeant(union))
  }

  lemma FromReads(columns: seq<string>, f: Fields, end: Text)
    requires f.SelectFrom? && JoinsWordFree(f.joins) && WordFree(Fresh(f.where)) && IsEnd(end) && ReadUnion(end).Some?
    ensures ReadFrom(columns, [Word(" FROM "), Word(f.table)]
                              + (JoinTexts(f.joins, false) + (WhereText(f.where, false) + TailText(f, end))))
         == Some(Select(columns, f.table, JoinsMeant(f.joins), WhereOf(f.where), f.orderBy, f.limit, f.groupBy,
                        ReadUnion(end).value))
  {
    var tail := TailText(f, end);
    var where := WhereText(f.where, false) + tail;
    var rest := JoinTexts(f.joins, false) + where;
    HeadReads(" FROM ", f.table, rest, [Word(" FROM "), Word(f.table)] + rest);
    TailReads(f, end);
    WhereReads(f.where, tail);
    JoinsAreRead(f.joins, where);
  }

  lemma SelectListReads(columns: seq<string>, names: Text, rest: Text)
    requires names == ListText(columns) && Starts(rest, " FROM ")
    ensures ReadSelect(names + rest) == ReadFrom(Listed(columns), rest)
  {
    var ts := names + rest;
    if columns == [] || columns == ["*"] {
      assert names == [Word("*")] && ts[1..] == rest;
    } else {
      NamesRead(columns, rest);
      assert |columns| == 1 ==> columns == [columns[0]] && ts[0] == Word(columns[0]);
      assert |columns| > 1 ==> ts[1..][0] == Word(",");
    }
  }

  lemma {:induction false} SelectReads(f: Fields)
    requires f.SelectFrom? && Simple(f)
    ensures FreshText(f) != [] && FreshText(f)[0] == Word("SELECT ") && ReadSelect(FreshText(f)[1..]) == Some(Meant(f))
    decreases f
  {
    UnionReads(f);
    var rest := SelectAfterList(f);
    FromReads(Listed(f.columns), f, UnionText(f.union, false));
    SelectListReads(f.columns, ListText(f.columns), rest);
    SelectText(f);
  }

  function ListText(columns: seq<string>): Text {
    if columns == [] then [Word("*")] else Csv(columns)
  }

  /** A SELECT from its FROM on. */
  function SelectAfterList(f: Fields): Text
    requires f.SelectFrom?
  {
    [Word(" FROM "), Word(f.table)]
    + (JoinTexts(f.joins, false) + (WhereText(f.where, false) + TailText(f, UnionText(f.union, false))))
  }

  lemma {:induction false} UnionReads(f: Fields)
    requires f.SelectFrom? && Simple(f)
    ensures IsEnd(UnionText(f.union, false)) && ReadUnion(UnionText(f.union, false)) == Some(UnionMeant(f.union))
    decreases f, 0
  {
    match f.union
    case None =>
    case Some(u) =>
      SelectReads(u.query);
      UnionTextIs(u);
      UnionOfRead(u.all, FreshText(u.query), Meant(u.query), UnionText(Some(u), false));
  }

  lemma UnionTextIs(u: Union)
    ensures UnionText(Some(u), false)
         == (if u.all then [Word(" UNION "), Word("ALL ")] else [Word(" UNION ")]) + FreshText(u.query)
  {
  }

  lemma UnionOfRead(all: bool, text: Text, q: Command, ts: Text)
    requires Starts(text, "SELECT ") && ReadSelect(text[1..]) == Some(q)
    requires ts == (if all then [Word(" UNION "), Word("ALL ")] else [Word(" UNION ")]) + text
    ensures Starts(ts, " UNION ") && ReadUnion(ts) == Some(Some(UnionRead(all, q)))
  {
    if all {
      assert ts[1..][0] == Word("ALL ") && ts[2..] == text;
    } else {
      assert ts[1..] == text;
    }
  }

  /** Every printed statement reads as its fields mean: column i beside placeholder i + 1, the table, the
      condition, and all clauses of a select with its joins and union. */
  lemma StatementReads(f: Fields)
    requires Simple(f)
    ensures Read(FreshText(f)) == Some(Meant(f))
  {
    match f
    case InsertInto(_, _, _) => InsertReads(f);
    case UpdateOf(_, _, _) => UpdateReads(f);
    case DeleteFrom(_, _) => DeleteReads(f);
    case SelectFrom(_, _, _, _, _, _, _, _) => SelectReads(f);
  }
}
