/** Reusing a prepared statement cannot be observed: a query that renders and prepares from
    scratch at every execution runs the same statements with the same values. */
module StatementReuse {
  import opened SqlText
  import opened WhereClause
  import opened Operators
  import opened QueryText
  import opened QueryMachine

  /** A query without cache and without statement.  It remembers whether the caller changed
      anything since the last execution, and the statement that execution ran. */
  datatype Plain = Plain(data: Data, changed: bool, last: Option<Statement>)

  function Unused(f: Fields): Plain {
    Plain(Data(f, [], map[]), false, None)
  }

  /** The statement made from scratch: current text, current parameters. */
  function Afresh(d: Data): Statement {
    Statement(FreshText(d.fields), Bound(d.params), d.named)
  }

  function PlainStep(q: Plain, c: Call): (r: (Plain, Option<Statement>))
    requires Offers(q.data.fields, c)
  {
    match c
    case Execute =>
      if !Executable(q.data.fields) then (q, None)
      else
        var e := if q.changed || q.last.None? then Afresh(q.data)
                 else q.last.value.(sql := FreshText(q.data.fields));
        (Plain(if q.data.fields.SelectFrom? then q.data else Cleared(q.data), false, Some(e)), Some(e))
    case CallerReset =>
      (Plain(Cleared(q.data), q.changed, if q.data.fields.SelectFrom? then None else q.last), None)
    case _ => (Plain(Edit(q.data, c), q.changed || Changes(c), q.last), None)
  }

  lemma PlainKind(q: Plain, calls: seq<Call>)
    requires calls != [] && OffersAll(q.data.fields, calls)
    ensures SameKind(q.data.fields, PlainStep(q, calls[0]).0.data.fields)
    ensures OffersAll(PlainStep(q, calls[0]).0.data.fields, calls[1..])
  {
    EditKind(q.data, calls[0]);
    forall i | 0 <= i < |calls[1..]| ensures Offers(PlainStep(q, calls[0]).0.data.fields, calls[1..][i]) {
      assert Offers(q.data.fields, calls[i + 1]);
    }
  }

  function PlainRun(q: Plain, calls: seq<Call>): seq<Statement>
    requires OffersAll(q.data.fields, calls)
    decreases |calls|
  {
    if calls == [] then []
    else
      var (r, e) := PlainStep(q, calls[0]);
      PlainKind(q, calls);
      (if e.Some? then [e.value] else []) + PlainRun(r, calls[1..])
  }

  // ----- what the query has noticed -----

  /** What a caller can tell from the calls made: whether the query knows of a change since the last
      execution, whether a text was rendered since the last notified change, and whether a test was
      appended silently after that. */
  datatype Notice = Notice(dirty: bool, rendered: bool, stale: bool)

  const NOTHING := Notice(false, false, false)

  function NoticeStep(n: Notice, f: Fields, c: Call): Notice {
    match c
    case Print => n.(rendered := true)
    case Execute => if Executable(f) then n.(dirty := false, rendered := true) else n
    case CallerReset => n.(dirty := false)
    case _ =>
      if Notifies(c) then Notice(true, false, false)
      else if Silent(c) then n.(stale := n.stale || n.rendered)
      else n
  }

  /** An execution now shows all changes.  A query that will prepare needs its rendered text to be
      complete.  One that will not must have nothing to show: nothing changed since the last execution,
      or that execution already ran the current text with the current values. */
  predicate ShowsChanges(q: Plain, n: Notice) {
    if q.last.None? || n.dirty then !n.stale
    else !q.changed || q.last.value == Afresh(q.data)
  }

  ghost predicate AlwaysShows(q: Plain, n: Notice, calls: seq<Call>)
    requires OffersAll(q.data.fields, calls)
    decreases |calls|
  {
    calls == [] ||
    (&& (calls[0].Execute? && Executable(q.data.fields) ==> ShowsChanges(q, n))
     && (PlainKind(q, calls);
         AlwaysShows(PlainStep(q, calls[0]).0, NoticeStep(n, q.data.fields, calls[0]), calls[1..])))
  }

  // ----- the reusing and the plain query side by side -----

  /** Equal but for the texts that rendering stored in the query of a union. */
  predicate SameFields(f: Fields, g: Fields) {
    f == g
    || (f.SelectFrom? && g.SelectFrom? && f == g.(union := f.union)
        && UnionText(f.union, false) == UnionText(g.union, false))
  }

  predicate SameData(d: Data, e: Data) {
    SameFields(d.fields, e.fields) && d.params == e.params && d.named == e.named
  }

  lemma SameFresh(f: Fields, g: Fields)
    requires SameFields(f, g)
    ensures FreshText(f) == FreshText(g)
  {
    if f != g {
      assert SelectTail(f, false) == SelectTail(g, false);
    }
  }

  lemma RenderedFields(f: Fields, g: Fields)
    requires SameFields(f, g) && CoherentFields(f)
    ensures SameFields(Rendered(f), g)
  {
    if f.SelectFrom? && f.union.Some? && f.union.value.cache == [] {
      RenderedSame(f.union.value.query);
    }
  }

  lemma EditFields(d: Data, e: Data, c: Call)
    requires SameData(d, e) && Offers(d.fields, c)
    ensures Offers(e.fields, c) && SameData(Edit(d, c), Edit(e, c))
  {
    if d.fields != e.fields {
      match c
      case SetTable(_) =>
      case SetColumns(_) =>
      case AddColumn(_) =>
      case WhereIs(_) =>
      case WhereAnd(_) =>
      case WhereOr(_) =>
      case _ =>
    }
  }

  ghost predicate Tracks(s: State, q: Plain, n: Notice) {
    && SameData(s.data, q.data) && CoherentFields(s.data.fields)
    && s.stmt == q.last && s.dirty == n.dirty && (n.dirty ==> q.changed)
    && (n.rendered <==> s.cache != []) && (n.stale ==> n.rendered)
    && (if n.stale then |s.cache| < |FreshText(s.data.fields)|
        else s.cache == [] || s.cache == FreshText(s.data.fields))
    && (q.last.Some? && !q.changed ==> q.last.value.sql == FreshText(q.data.fields))
  }

  lemma TrackInitial(f: Fields)
    requires CoherentFields(f)
    ensures Tracks(Initial(f), Unused(f), NOTHING)
  {
  }

  lemma PrintingTracks(s: State, q: Plain, n: Notice)
    requires Tracks(s, q, n)
    ensures Tracks(Printing(s), q, n.(rendered := true))
    ensures FreshText(Printing(s).data.fields) == FreshText(s.data.fields)
  {
    BodyCached(s.data.fields);
    RenderedSame(s.data.fields);
    RenderedFields(s.data.fields, q.data.fields);
  }

  /** An edit keeps the two side by side. */
  lemma EditTracks(s: State, q: Plain, n: Notice, c: Call)
    requires Tracks(s, q, n) && Offers(s.data.fields, c) && CoherentCall(c)
    requires !c.Print? && !c.Execute? && !c.CallerReset?
    ensures Offers(q.data.fields, c)
    ensures Tracks(Step(s, c).0, PlainStep(q, c).0, NoticeStep(n, q.data.fields, c))
  {
    EditFields(s.data, q.data, c);
    EditCoherent(s.data, c);
    if Notifies(c) {
      assert Step(s, c).0.cache == [] && Step(s, c).0.dirty;
    } else {
      SameFresh(s.data.fields, q.data.fields);
      UnnotifiedTracks(s, q, n, c);
    }
  }

  lemma UnnotifiedTracks(s: State, q: Plain, n: Notice, c: Call)
    requires Tracks(s, q, n) && Offers(s.data.fields, c) && !Notifies(c)
    requires !c.Print? && !c.Execute? && !c.CallerReset?
    requires Offers(q.data.fields, c) && SameData(Edit(s.data, c), Edit(q.data, c)) && CoherentFields(Edit(s.data, c).fields)
    requires FreshText(s.data.fields) == FreshText(q.data.fields)
    ensures Tracks(Step(s, c).0, PlainStep(q, c).0, NoticeStep(n, q.data.fields, c))
  {
    SameFresh(Edit(s.data, c).fields, Edit(q.data, c).fields);
    if Silent(c) {
      SilentGrows(s.data, c);
    } else {
      QuietCallKeepsText(s.data, c);
    }
  }

  lemma SilentGrows(d: Data, c: Call)
    requires Offers(d.fields, c) && Silent(c)
    ensures |FreshText(Edit(d, c).fields)| > |FreshText(d.fields)|
  {
    EditKind(d, c);
    AppendGrows(d.fields.where, TestText(d, c.op));
    TextLength(d.fields, Edit(d, c).fields);
  }

  /** An execution that shows all changes runs the same statement as the plain query. */
  lemma ExecuteTracks(s: State, q: Plain, n: Notice)
    requires Tracks(s, q, n) && Executable(s.data.fields) && ShowsChanges(q, n)
    ensures Step(s, Execute).1 == PlainStep(q, Execute).1
    ensures Tracks(Step(s, Execute).0, PlainStep(q, Execute).0, NoticeStep(n, q.data.fields, Execute))
  {
    PrintingTracks(s, q, n);
    SameFresh(s.data.fields, q.data.fields);
    SameFresh(Printing(s).data.fields, q.data.fields);
  }

  /** Any other execution runs a different statement. */
  lemma ExecuteDiffers(s: State, q: Plain, n: Notice)
    requires Tracks(s, q, n) && Executable(s.data.fields) && !ShowsChanges(q, n)
    ensures Step(s, Execute).1.Some? && PlainStep(q, Execute).1.Some?
    ensures Step(s, Execute).1 != PlainStep(q, Execute).1
  {
    PrintingTracks(s, q, n);
    SameFresh(s.data.fields, q.data.fields);
  }

  lemma StepTracks(s: State, q: Plain, n: Notice, c: Call)
    requires Tracks(s, q, n) && Offers(s.data.fields, c) && CoherentCall(c)
    requires c.Execute? && Executable(s.data.fields) ==> ShowsChanges(q, n)
    ensures Offers(q.data.fields, c) && Step(s, c).1 == PlainStep(q, c).1
    ensures Tracks(Step(s, c).0, PlainStep(q, c).0, NoticeStep(n, q.data.fields, c))
  {
    match c
    case Print => PrintingTracks(s, q, n);
    case Execute =>
      if Executable(s.data.fields) {
        ExecuteTracks(s, q, n);
      }
    case CallerReset =>
    case _ => EditTracks(s, q, n, c);
  }

  ghost predicate CoherentCalls(calls: seq<Call>) {
    forall i | 0 <= i < |calls| :: CoherentCall(calls[i])
  }

  lemma OffersSame(f: Fields, g: Fields, calls: seq<Call>)
    requires SameFields(f, g) && OffersAll(f, calls)
    ensures OffersAll(g, calls)
  {
    forall i | 0 <= i < |calls| ensures Offers(g, calls[i]) {
      assert Offers(f, calls[i]);
    }
  }

  lemma {:induction false} RunsAgreeIff(s: State, q: Plain, n: Notice, calls: seq<Call>)
    requires Tracks(s, q, n) && OffersAll(s.data.fields, calls) && CoherentCalls(calls)
    ensures OffersAll(q.data.fields, calls)
    ensures Run(s, calls).1 == PlainRun(q, calls) <==> AlwaysShows(q, n, calls)
    decreases |calls|
  {
    OffersSame(s.data.fields, q.data.fields, calls);
    if calls != [] {
      var c, rest := calls[0], calls[1..];
      OffersRest(s, calls);
      PlainKind(q, calls);
      if c.Execute? && Executable(s.data.fields) && !ShowsChanges(q, n) {
        ExecuteDiffers(s, q, n);
        FirstDiffers(Step(s, c).1.value, Run(Step(s, c).0, rest).1, PlainStep(q, c).1.value, PlainRun(PlainStep(q, c).0, rest));
      } else {
        StepTracks(s, q, n, c);
        RunsAgreeIff(Step(s, c).0, PlainStep(q, c).0, NoticeStep(n, q.data.fields, c), rest);
        var e := Step(s, c).1;
        SameFirst(if e.Some? then [e.value] else [], Run(Step(s, c).0, rest).1, PlainRun(PlainStep(q, c).0, rest));
      }
    }
  }

  lemma FirstDiffers(e: Statement, es: seq<Statement>, g: Statement, gs: seq<Statement>)
    requires e != g
    ensures [e] + es != [g] + gs
  {
    assert ([e] + es)[0] == e && ([g] + gs)[0] == g;
  }

  lemma SameFirst(es: seq<Statement>, a: seq<Statement>, b: seq<Statement>)
    ensures es + a == es + b <==> a == b
  {
    assert (es + a)[|es|..] == a && (es + b)[|es|..] == b;
  }

  /** Every run of every query class, with any mixture of edits, silent appends, renders, executions
      and resets by the caller, executes what the plain query executes, text and values, exactly when
      each execution shows the changes made before it. */
  lemma ReuseIff(f: Fields, calls: seq<Call>)
    requires CoherentFields(f) && OffersAll(f, calls) && CoherentCalls(calls)
    ensures Run(Initial(f), calls).1 == PlainRun(Unused(f), calls) <==> AlwaysShows(Unused(f), NOTHING, calls)
  {
    TrackInitial(f);
    RunsAgreeIff(Initial(f), Unused(f), NOTHING, calls);
  }

  /** Nothing is kept from the next execution. */
  predicate NothingIgnored(q: Plain, n: Notice) {
    !n.stale && (q.last.Some? && !n.dirty ==> !q.changed)
  }

  lemma {:induction false} CarefulShows(s: State, q: Plain, n: Notice, calls: seq<Call>)
    requires Tracks(s, q, n) && NothingIgnored(q, n)
    requires OffersAll(s.data.fields, calls) && Careful(s, calls)
    ensures OffersAll(q.data.fields, calls) && AlwaysShows(q, n, calls)
    decreases |calls|
  {
    OffersSame(s.data.fields, q.data.fields, calls);
    if calls != [] {
      OffersRest(s, calls);
      PlainKind(q, calls);
      StepTracks(s, q, n, calls[0]);
      CarefulShows(Step(s, calls[0]).0, PlainStep(q, calls[0]).0, NoticeStep(n, q.data.fields, calls[0]), calls[1..]);
    }
  }

  lemma {:induction false} CarefulCoherent(s: State, calls: seq<Call>)
    requires OffersAll(s.data.fields, calls) && Careful(s, calls)
    ensures CoherentCalls(calls)
    decreases |calls|
  {
    if calls != [] {
      OffersRest(s, calls);
      CarefulCoherent(Step(s, calls[0]).0, calls[1..]);
      assert calls == [calls[0]] + calls[1..];
    }
  }

  /** In particular reuse is unobservable in careful runs: silent appends only while a change is
      pending, resets by the caller only while none is. */
  lemma ReuseIsUnobservable(f: Fields, calls: seq<Call>)
    requires CoherentFields(f) && OffersAll(f, calls) && Careful(Initial(f), calls)
    ensures Run(Initial(f), calls).1 == PlainRun(Unused(f), calls)
  {
    TrackInitial(f);
    CarefulCoherent(Initial(f), calls);
    CarefulShows(Initial(f), Unused(f), NOTHING, calls);
    ReuseIff(f, calls);
  }

  // ----- resets by the caller -----

  /** What a reset by the caller costs: in a run that ignored nothing so far, the next execution after
      it agrees with the plain query exactly when nothing was changed since the last execution, or that
      one ran the same text without any value. */
  lemma CallerResetIff(s: State, q: Plain, n: Notice)
    requires Tracks(s, q, n) && NothingIgnored(q, n) && Executable(s.data.fields)
    ensures var t, r := Step(s, CallerReset).0, PlainStep(q, CallerReset).0;
            Step(t, Execute).1 == PlainStep(r, Execute).1
            <==> s.data.fields.SelectFrom? || q.last.None? || !q.changed
                 || q.last.value == Statement(FreshText(q.data.fields), map[], map[])
  {
    var t, r, m := Step(s, CallerReset).0, PlainStep(q, CallerReset).0, n.(dirty := false);
    StepTracks(s, q, n, CallerReset);
    assert Bound([]) == map[];
    if ShowsChanges(r, m) {
      ExecuteTracks(t, r, m);
    } else {
      ExecuteDiffers(t, r, m);
    }
  }

  /** No execution follows a reset that forgot a change, before the query is told of another one; read
      off the calls alone, with what the calls before them left: whether there was an execution, whether
      a change was notified after it, and whether a reset forgot one. */
  predicate ResetsTimely(executed: bool, pending: bool, forgotten: bool, calls: seq<Call>)
    decreases |calls|
  {
    calls == [] ||
    match calls[0]
    case Execute => !forgotten && ResetsTimely(true, false, false, calls[1..])
    case CallerReset => ResetsTimely(executed, false, forgotten || (executed && pending), calls[1..])
    case c =>
      if Notifies(c) then ResetsTimely(executed, true, false, calls[1..])
      else ResetsTimely(executed, pending, forgotten, calls[1..])
  }

  /** Calls without silent appends that leave the query a table name. */
  predicate Loud(calls: seq<Call>) {
    forall i | 0 <= i < |calls| :: !Silent(calls[i]) && calls[i] != SetTable("")
  }

  predicate TakeValues(es: seq<Statement>) {
    forall i | 0 <= i < |es| :: es[i].bound != map[]
  }

  /** The last execution took a value, and without a notified change since there are no parameters. */
  predicate ValuesTaken(q: Plain, n: Notice) {
    && !q.data.fields.SelectFrom? && q.data.fields.table != "" && !n.stale
    && (q.last.Some? ==> q.last.value.bound != map[])
    && (!n.dirty ==> q.data.params == [] && q.data.named == map[])
  }

  predicate Forgotten(q: Plain, n: Notice) {
    q.last.Some? && !n.dirty && q.changed
  }

  lemma ShowsIffRemembered(q: Plain, n: Notice)
    requires ValuesTaken(q, n)
    ensures ShowsChanges(q, n) <==> !Forgotten(q, n)
  {
    assert Bound([]) == map[];
  }

  lemma StepTakesValues(s: State, q: Plain, n: Notice, c: Call)
    requires Tracks(s, q, n) && ValuesTaken(q, n) && Offers(s.data.fields, c) && Offers(q.data.fields, c)
    requires !Silent(c) && c != SetTable("") && Step(s, c).1 == PlainStep(q, c).1
    requires Step(s, c).1.Some? ==> Step(s, c).1.value.bound != map[]
    ensures ValuesTaken(PlainStep(q, c).0, NoticeStep(n, q.data.fields, c))
  {
    if !c.Execute? {
      EditKind(q.data, c);
      EditTable(q.data, c);
    }
  }

  lemma RunStarts(s: State, calls: seq<Call>)
    requires OffersAll(s.data.fields, calls) && calls != [] && TakeValues(Run(s, calls).1)
    ensures OffersAll(Step(s, calls[0]).0.data.fields, calls[1..]) && TakeValues(Run(Step(s, calls[0]).0, calls[1..]).1)
    ensures Step(s, calls[0]).1.Some? ==> Step(s, calls[0]).1.value.bound != map[]
  {
    OffersRest(s, calls);
    var e, rest := Step(s, calls[0]).1, Run(Step(s, calls[0]).0, calls[1..]).1;
    var all := (if e.Some? then [e.value] else []) + rest;
    var first := |all| - |rest|;
    assert Run(s, calls).1 == all;
    forall i | 0 <= i < |rest| ensures rest[i].bound != map[] {
      assert all[first + i] == rest[i];
    }
    if e.Some? {
      assert all[0] == e.value;
    }
  }

  lemma {:induction false} TimelyIff(s: State, q: Plain, n: Notice, calls: seq<Call>)
    requires Tracks(s, q, n) && ValuesTaken(q, n) && OffersAll(s.data.fields, calls)
    requires CoherentCalls(calls) && Loud(calls) && TakeValues(Run(s, calls).1)
    ensures OffersAll(q.data.fields, calls)
    ensures AlwaysShows(q, n, calls) <==> ResetsTimely(q.last.Some?, n.dirty, Forgotten(q, n), calls)
    decreases |calls|
  {
    OffersSame(s.data.fields, q.data.fields, calls);
    if calls != [] {
      PlainKind(q, calls);
      ShowsIffRemembered(q, n);
      TimelyFirst(q, n, calls);
      if !calls[0].Execute? || !Forgotten(q, n) {
        var t := NextTimely(s, q, n, calls);
        TimelyIff(t, PlainStep(q, calls[0]).0, NoticeStep(n, q.data.fields, calls[0]), calls[1..]);
      }
    }
  }

  lemma TimelyFirst(q: Plain, n: Notice, calls: seq<Call>)
    requires calls != [] && Offers(q.data.fields, calls[0]) && Loud(calls) && ValuesTaken(q, n) && (n.dirty ==> q.changed)
    ensures var r, m := PlainStep(q, calls[0]).0, NoticeStep(n, q.data.fields, calls[0]);
            ResetsTimely(q.last.Some?, n.dirty, Forgotten(q, n), calls)
            <==> (calls[0].Execute? ==> !Forgotten(q, n)) && ResetsTimely(r.last.Some?, m.dirty, Forgotten(r, m), calls[1..])
  {
    assert !Silent(calls[0]);
  }

  lemma NextTimely(s: State, q: Plain, n: Notice, calls: seq<Call>) returns (t: State)
    requires Tracks(s, q, n) && ValuesTaken(q, n) && OffersAll(s.data.fields, calls) && calls != []
    requires CoherentCalls(calls) && Loud(calls) && TakeValues(Run(s, calls).1)
    requires !calls[0].Execute? || !Forgotten(q, n)
    ensures Offers(q.data.fields, calls[0]) && OffersAll(t.data.fields, calls[1..])
    ensures var r, m := PlainStep(q, calls[0]).0, NoticeStep(n, q.data.fields, calls[0]);
            Tracks(t, r, m) && ValuesTaken(r, m)
    ensures CoherentCalls(calls[1..]) && Loud(calls[1..]) && TakeValues(Run(t, calls[1..]).1)
  {
    t := Step(s, calls[0]).0;
    RunStarts(s, calls);
    ShowsIffRemembered(q, n);
    StepTracks(s, q, n, calls[0]);
    StepTakesValues(s, q, n, calls[0]);
  }

  /** Caller resets over whole runs of an insert, update or delete query whose executions take values:
      they execute what the plain query executes, text and values, exactly when every reset comes with
      nothing pending since the last execution, or another change is notified before the next one. */
  lemma CallerResetsIff(f: Fields, calls: seq<Call>)
    requires !f.SelectFrom? && f.table != "" && CoherentFields(f) && OffersAll(f, calls)
    requires CoherentCalls(calls) && Loud(calls) && TakeValues(Run(Initial(f), calls).1)
    ensures Run(Initial(f), calls).1 == PlainRun(Unused(f), calls) <==> ResetsTimely(false, false, false, calls)
  {
    TrackInitial(f);
    TimelyIff(Initial(f), Unused(f), NOTHING, calls);
    ReuseIff(f, calls);
  }

  /** Some reset of the run finds no statement, where `query::reset` dereferences a null pointer. */
  predicate NullReset(s: State, calls: seq<Call>)
    requires OffersAll(s.data.fields, calls)
    decreases |calls|
  {
    calls != [] &&
    ((calls[0].CallerReset? && s.stmt.None?)
     || (OffersRest(s, calls); NullReset(Step(s, calls[0]).0, calls[1..])))
  }

  /** The same, read off the calls: a reset before the first execution with a table, for a select also
      before the first one after the previous reset. */
  predicate ResetTooEarly(select: bool, table: string, executed: bool, calls: seq<Call>)
    decreases |calls|
  {
    calls != [] &&
    match calls[0]
    case CallerReset => !executed || ResetTooEarly(select, table, !select, calls[1..])
    case Execute => ResetTooEarly(select, table, executed || select || table != "", calls[1..])
    case SetTable(t) => ResetTooEarly(select, t, executed, calls[1..])
    case _ => ResetTooEarly(select, table, executed, calls[1..])
  }

  lemma {:induction false} NullResetIff(s: State, calls: seq<Call>)
    requires OffersAll(s.data.fields, calls)
    ensures NullReset(s, calls) <==> ResetTooEarly(s.data.fields.SelectFrom?, s.data.fields.table, s.stmt.Some?, calls)
    decreases |calls|
  {
    if calls != [] {
      OffersRest(s, calls);
      StepKind(s, calls[0]);
      StepTable(s, calls[0]);
      NullResetIff(Step(s, calls[0]).0, calls[1..]);
    }
  }

  lemma StepTable(s: State, c: Call)
    requires Offers(s.data.fields, c)
    ensures Step(s, c).0.data.fields.table == if c.SetTable? then c.table else s.data.fields.table
  {
    if c.Print? || c.Execute? {
      RenderedTable(s.data.fields);
    } else {
      EditTable(s.data, c);
    }
  }

  lemma RenderedTable(f: Fields)
    ensures Rendered(f).table == f.table
  {
  }

  lemma EditTable(d: Data, c: Call)
    requires Offers(d.fields, c)
    ensures Edit(d, c).fields.table == if c.SetTable? then c.table else d.fields.table
  {
    match c
    case SetTable(_) =>
    case SetColumns(_) =>
    case AddColumn(_) =>
    case WhereIs(_) =>
    case WhereAnd(_) =>
    case WhereOr(_) =>
    case WhereCopy(_) =>
    case PrintWhere =>
    case _ =>
  }

  // ----- calls outside those runs -----

  const COUNT_COLUMNS := ["COUNT(*)"]

  function SwapColumns(s: State, columns: seq<string>): State
    requires s.data.fields.SelectFrom?
  {
    s.(data := s.data.(fields := WithColumns(s.data.fields, columns)))
  }

  /** `select_query::count`: swap the columns, render, prepare, run, swap back. */
  function Count(s: State): (r: (State, Statement))
    requires s.data.fields.SelectFrom?
  {
    var p := Prepare(Printing(SwapColumns(s, COUNT_COLUMNS)));
    (SwapColumns(p, s.data.fields.columns), p.stmt.value)
  }

  lemma SameAround(before: Text, a: Text, b: Text, after: Text)
    requires before + a + after == before + b + after
    ensures a == b
  {
    assert |a| == |b|;
    assert a == (before + a + after)[|before|..|before| + |a|];
    assert b == (before + b + after)[|before|..|before| + |b|];
  }

  lemma CountListOnly(columns: seq<string>)
    requires SelectList(columns) == SelectList(COUNT_COLUMNS)
    ensures columns == COUNT_COLUMNS
  {
    assert SelectList(columns)[1] == SelectList(COUNT_COLUMNS)[1] == Word("COUNT(*)");
    assert |SelectList(columns)| == 2;
  }

  lemma ColumnsShow(f: Fields)
    requires f.SelectFrom?
    ensures FreshText(WithColumns(f, COUNT_COLUMNS)) == FreshText(f) <==> f.columns == COUNT_COLUMNS
  {
    var g := WithColumns(f, COUNT_COLUMNS);
    var after := [Word(" FROM "), Word(f.table)] + JoinTexts(f.joins, false) + SelectTail(f, false);
    assert SelectTail(g, false) == SelectTail(f, false);
    assert FreshText(f) == [] + SelectList(f.columns) + after;
    assert FreshText(g) == [] + SelectList(COUNT_COLUMNS) + after;
    if FreshText(f) == FreshText(g) {
      SameAround([], SelectList(f.columns), SelectList(COUNT_COLUMNS), after);
      CountListOnly(f.columns);
    }
  }

  /** `count` keeps the query in sync exactly when a text was already cached, and runs the counting
      text exactly when none was and a statement had to be prepared: never both. */
  lemma CountIff(s: State)
    requires s.data.fields.SelectFrom? && Sync(s) && s.data.fields.columns != COUNT_COLUMNS
    ensures var counting := FreshText(WithColumns(s.data.fields, COUNT_COLUMNS));
            && (Sync(Count(s).0) <==> s.cache != [])
            && (Count(s).1.sql == counting <==> s.cache == [] && MustPrepare(s))
  {
    var f := s.data.fields;
    var t := SwapColumns(s, COUNT_COLUMNS);
    ColumnsShow(f);
    BodyCached(t.data.fields);
    RenderedSame(t.data.fields);
    RenderedSame(f);
    RenderedColumns(f);
  }

  lemma RenderedColumns(f: Fields)
    requires f.SelectFrom?
    ensures Rendered(WithColumns(f, COUNT_COLUMNS)).SelectFrom?
    ensures WithColumns(Rendered(WithColumns(f, COUNT_COLUMNS)), f.columns) == Rendered(f)
  {
  }

  lemma {:induction false} JoinTextsSplit(joins: seq<JoinClause>, i: nat)
    requires i < |joins|
    ensures JoinTexts(joins, false)
         == JoinTexts(joins[..i], false) + (JoinText(joins[i], false) + JoinTexts(joins[i + 1..], false))
  {
    var first, after := JoinText(joins[0], false), JoinTexts(joins[i + 1..], false);
    if i == 0 {
      assert joins[..0] == [];
      EmptyFirst(first + after);
    } else {
      JoinTextsSplit(joins[1..], i - 1);
      assert joins[..i][1..] == joins[1..][..i - 1] && joins[..i][0] == joins[0];
      assert joins[1..][i..] == joins[i + 1..];
      Regroup(first, JoinTexts(joins[1..][..i - 1], false), JoinText(joins[i], false) + after);
    }
  }

  lemma EmptyFirst(t: Text)
    ensures [] + t == t
  {
  }

  /** Editing a join through the reference that `join` returned, after it was rendered or prepared,
      leaves the query stale; before that it does not. */
  lemma LateJoinEditIff(s: State, i: nat, j: JoinClause)
    requires s.data.fields.SelectFrom? && Sync(s) && i < |s.data.fields.joins| && CoherentJoin(j)
    requires JoinText(j, false) != JoinText(s.data.fields.joins[i], false)
    ensures var f := s.data.fields.(joins := s.data.fields.joins[i := j]);
            Sync(s.(data := s.data.(fields := f))) <==> Pending(s)
  {
    var f := s.data.fields;
    var joins := f.joins[i := j];
    var g := f.(joins := joins);
    JoinTextsSplit(f.joins, i);
    JoinTextsSplit(joins, i);
    assert joins[..i] == f.joins[..i] && joins[i + 1..] == f.joins[i + 1..];
    JoinsShow(f, joins, JoinTexts(f.joins[..i], false), JoinText(f.joins[i], false), JoinText(j, false),
              JoinTexts(f.joins[i + 1..], false));
    UnnoticedChange(s, g);
  }

  lemma JoinsShow(f: Fields, joins: seq<JoinClause>, before: Text, mine: Text, other: Text, after: Text)
    requires f.SelectFrom? && mine != other
    requires JoinTexts(f.joins, false) == before + (mine + after)
    requires JoinTexts(joins, false) == before + (other + after)
    ensures FreshText(f.(joins := joins)) != FreshText(f)
  {
    var g := f.(joins := joins);
    var from := SelectList(f.columns) + [Word(" FROM "), Word(f.table)];
    var tail := SelectTail(f, false);
    assert SelectTail(g, false) == tail;
    assert FreshText(f) == from + (before + (mine + after)) + tail;
    assert FreshText(g) == from + (before + (other + after)) + tail;
    RegroupFive(from, before, mine, after, tail);
    RegroupFive(from, before, other, after, tail);
    if FreshText(f) == FreshText(g) {
      SameAround(from + before, mine, other, after + tail);
    }
  }

  lemma RegroupFive(from: Text, before: Text, mid: Text, after: Text, tail: Text)
    ensures from + (before + (mid + after)) + tail == (from + before) + mid + (after + tail)
  {
  }
}
