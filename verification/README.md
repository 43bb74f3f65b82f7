# A verified model of the coda db library

The library builds SQL text from query objects, binds parameters, keeps prepared statements for
reuse, and converts values for sqlite, mysql and postgres.  This project models its core in Dafny and
proves what that core does over all inputs and all runs.  `dafny verify dfyconfig.toml` checks
everything.

SQL text is a sequence of tokens: words, placeholders, predicates that the condition grammar does not
look into, the connectives AND and OR, and parentheses.  Objects that the library changes in place are
classes; each method is proved to move the object's contents as a function on values does, and the
theorems are about those functions.  The grammar of conditions is independent of the printer: `ParseYield`
and `YieldParse` prove parser and derivation trees inverse, and `LeftGrouping` that the standard's left
grouping has the same truth value.

| file | what it models |
|---|---|
| `SqlText.dfy`, `SearchCondition.dfy` | tokens; the `<search condition>` of section 8.12 of ISO/IEC 9075:1992 as derivation trees, a recursive-descent parser proved inverse to them, three-valued truth |
| `WhereClause.dfy`, `ClauseMeaning.dfy`, `ClauseValidity.dfy` | the where clause: printing, appending, cached texts; what the printed text means; when it is a condition at all |
| `Operators.dfy`, `QueryText.dfy`, `QueryMachine.dfy`, `QueryObject.dfy` | operators, the text of the four query classes, the state machine of cache, dirty flag, parameters and statement, and the query object that refines it |
| `StatementReader.dfy` | a reader of statement texts, as a server reads them, that knows nothing of the printer: tables, columns beside placeholders, conditions, joins, unions |
| `StatementReuse.dfy` | reuse of statements, silent appends and resets compared with a query that never reuses |
| `CallReading.dfy` | what a caller can read off the calls alone: values by name and index, fields, where clause; compared with the query over every run |
| `ParameterOrder.dfy`, `BuilderMeaning.dfy`, `SentParameters.dfy` | placeholders compared with parameters; what a builder's clause means compared with what its calls ask for; built statements taken through the mysql and postgres bindings |
| `OperatorMeaning.dfy`, `RowSelection.dfy` | what a comparison means on a row, what its printed symbol means to a server; which rows a built statement selects |
| `SlotStore.dfy`, `PostgresBinding.dfy`, `MysqlBinding.dfy` | growable parameter slots, the postgres parameter count, the mysql placeholder rewriting |
| `ParameterKinds.dfy`, `MysqlCells.dfy`, `PostgresCells.dfy` | how each kind of value is written to a parameter slot and read back from it |
| `Calendar.dfy`, `TimeText.dfy`, `Decimal.dfy`, `Uri.dfy` | calendar time by the formula of section 4.16 of IEEE Std 1003.1-2017 Base Definitions, time text, decimal numbers, the URI of section 3 of RFC 3986 |
| `Cursor.dfy`, `Transaction.dfy`, `Records.dfy` | result cursors, transaction scope, active-record save |
| `Departures.dfy` | concrete inputs on which the code departs from its evident intent |

## Main results

- The printed where clause parses and never means less than the clause (`NeverStricter`).  It means exactly
  what the clause means if no AND part, and no head before AND parts, has an OR outside parentheses
  (`MeaningPreserved`), and for clauses whose parts share no predicate only then (`MeaningPreservedIff`).
  It is a condition
  at all if and only if no empty clause was appended with `&&` (`PrintsConditionIff`).
- Cached text equals recomputed text in every reachable where clause (`EveryRunIsCoherent`), and in every
  query whose silent appends come while a change is pending and whose caller resets while none is
  (`EveryRunInSync`).
- Over all runs of all four query classes, with any silent appends and resets, the statements executed are
  those of a query that prepares afresh each time, text and values, if and only if every execution shows
  the changes made before it (`ReuseIff`); for runs whose executions take values the condition for resets
  reads off the calls alone (`CallerResetsIff`).
- Every printed statement, read as a server reads it, says what its fields mean: column i beside placeholder
  i + 1 in an UPDATE and an INSERT, the table, the condition, and for a select its columns, joins, ORDER BY,
  LIMIT, GROUP BY and union (`StatementReads`).
- From the tests of a builder to the rows: the statement that a built query runs, read by the server and
  evaluated with the values bound to it, is true of a row exactly when every test is (`RowsAsAsked`).  The printed
  symbol means what the operator means if and only if it is not a negated `>` or `<`, nor an IS NULL, which is
  printed with an operand (`SymbolMeansIff`).
- Over every run, a statement that an execution prepares holds for each name and index exactly the value that
  the calls last gave it since the parameters were last cleared (`PreparedAsRead`), and the fields and the where
  clause are those of the calls (`FieldsFollowSetters`, `WhereFollowsCalls`).
- Placeholders 1..N stand in textual order with parameter k the value of placeholder k over whole
  building runs (`PlaceholdersAgree`), and an operator keeps placeholders in step with the values it takes
  if and only if it is a comparison other than IS NULL with an unnamed operand, or an IN of one value
  (`AgreementKeptIff`, `AgreementOverRunsIff`).  Those values arrive in order through the mysql and the
  postgres binding: position p is read back as value p if and only if the backend can store that value
  (`ValuesArrive`).  Values given by name arrive as well (`CallsReachMysql`).
- Writing a value to a slot and reading it back is the identity for every integer type, time and blob on mysql,
  and for texts if and only if they hold no NUL (`DecodeEncodeIff`); on postgres if and only if the integer is no
  `char` and no larger than a `long`, and the text is neither empty nor holds a NUL (`IntegerReadsBackIff`,
  `TextReadsBackIff`).
- The condition a builder prints means what its calls ask for if and only if no test after the first was
  appended with the OR operator, or all tests print alike (`BuilderOrIff`).
- The mysql placeholder rewriting preserves the meaning of a template under every sequence of binds if
  and only if names come last, no `$k` hides a `?` at k and no `$k` has a number given to a name
  (`RewritingPreservesMeaningIff`).  Nothing but placeholders is replaced (`RewriteRestores`).
- The postgres and mysql slot arrays refine the map of last bound values; the postgres count is the
  number of distinct indexes, and drops no value if and only if these are 1..n
  (`EveryBindingRun`, `NothingDroppedIff`).
- Round trips: calendar in both directions on the whole number line, with months and years tied to closed
  formulas (`TimeGmFormula`), times through the mysql buffer and through text, integers through decimal text, URIs in both directions.
- Cursors, transactions and records: every row once and in order over either backend, exactly one COMMIT
  or ROLLBACK for any copies in any order, at most one row per record.

## Where the code departs from its evident intent

The model follows the code.  Each departure has the exact condition under which the code meets the
intent, and a concrete input in `Departures.dfy` or beside that condition.

- An AND part is printed without parentheses, so `a && (b || c)` prints as `a AND b OR c`
  (src/where_clause.cpp:295-301).  The printed text is then weaker than the clause, never stricter.
- `operator&&(where_clause)` accepts an empty clause and prints an AND without operand
  (src/where_clause.cpp:335-343).
- The builder's `||` appends with AND although its comment says OR (src/where_clause.cpp:495-499).
- Every operator prints one placeholder (src/where_clause.cpp:460).  An IN binds all its values to as many
  parameters, a BETWEEN both ends to the same one so that the first is lost, an IS NULL a null that it does
  not take, and a named operand nothing (src/where_clause.cpp:424-448).
- Appending a test that binds nothing (a named operand, an empty IN list) does not tell the query, whose
  cached text and statement go stale (src/where_clause.cpp:433-441, 485-489).
- Executing a modifying query drops its parameters and keeps its where clause, so a test appended afterwards
  is numbered from 1 again (src/modify_query.cpp:31, src/where_clause.cpp:486).
- `select_query::count` either runs the text that was cached before, or leaves the counting text behind;
  it never does both right (src/select_query.cpp:163-176).  Editing a join through the reference returned
  by `join` after rendering goes unnoticed (src/select_query.cpp:91-95).
- `query::reset` by a caller clears the dirty flag of a pending change, after which the old statement runs
  with its old values (src/query.cpp:126); on a query never executed it dereferences a null statement
  (src/query.cpp:127).
- A negated `>` or `<` prints as `!>` or `!<`, which the three servers do not know
  (src/where_clause.h:28-32).
- A text is cut at its first NUL on both backends (src/mysql/binding.cpp:471-479, src/postgres/binding.cpp:234-239).
  On postgres an empty text is read back as null (src/postgres/binding.cpp:24), a timestamp as the number of its year
  (src/postgres/binding.cpp:41-44), a `char` is sent as a character and an `unsigned char` with a stray `c`
  (src/postgres/binding.cpp:88-103), and a `long` is declared as a type that holds only an `int`
  (src/postgres/binding.cpp:162-167).
- The RETURNING loop never advances with two or more keys (src/insert_query.cpp:91-94).
- The mysql mapping misplaces values when `?` and `$n` are mixed, when an indexed placeholder follows a
  name, and when a `$n` has a number that a name was given (src/mysql/binding.cpp:657-682, 719-740); an
  index that no placeholder has overwrites the slot of its number.
- A DATE parsed after a failed DATETIME pattern keeps the hour and minute which that pattern had scanned
  (src/sql_time.cpp:14-26).  The text of a TIMESTAMP reads back as a DATETIME.
- Integers below -2^63 and down to -2^64+1 parse as unsigned values off by 2^64 (src/sql_number.h:148-150).
- Parsing into a used URI object appends to protocol and host and keeps the user and password that the new
  text lacks; an empty remainder, or one that starts with
  a colon and has no slash, is read past its bounds (src/uri.cpp:20, 49-60).

## Model

| member | source | states |
|---|---|---|
| `WhereClause.PrintParts` | src/where_clause.cpp:293-301 | the output loop prints the parts with the connective between them and not after the last |
| `WhereClause.Where.constructor` | src/where_clause.cpp:281 | a clause with the text as its head and no parts |
| `WhereClause.Where.GenerateSql` | src/where_clause.cpp:283-326 | the object prints what its contents render to, through the caches of its parts |
| `WhereClause.Where.ToSql` | src/sql_generator.cpp:12-18 | rendering returns the cached text or fills the cache, and changes nothing else |
| `WhereClause.Where.SetModified` | src/where_clause.cpp:333 | the cached text is dropped |
| `WhereClause.Where.AndWithClause` | src/where_clause.cpp:335-343 | appends a copy, empty or not, or becomes its text when the head is empty |
| `WhereClause.Where.AndWithText` | src/where_clause.cpp:344-357 | skips an empty text, becomes it, or appends it as AND part |
| `WhereClause.Where.OrWithClause` | src/where_clause.cpp:358-369 | skips an empty clause, becomes its text, or appends a copy as OR part |
| `WhereClause.Where.OrWithText` | src/where_clause.cpp:370-381 | skips an empty text, becomes it, or appends it as OR part |
| `WhereClause.Where.Reset` | src/where_clause.cpp:383-388 | the clause is as newly made |
| `WhereClause.Where.ResetText` | src/where_clause.cpp:390-393 | the clause is the one made from the text |
| `WhereClause.Where.ResetClause` | src/where_clause.cpp:394 | the clause is a copy of the other, cache included |
| `WhereClause.CachedIsFresh` | src/sql_generator.cpp:4-10 | rendering through caches at every depth gives the recomputed text |
| `WhereClause.NextCoherent` | src/where_clause.cpp:333-394 | every operation keeps all cached texts empty or current |
| `WhereClause.EveryRunIsCoherent` | src/where_clause.cpp:333-394 | over every run with copied operands that carry caches, rendering equals recomputation |
| `WhereClause.EveryRunIsHeaded` | src/where_clause.cpp:328-394 | in every reachable state parts exist only under a non-empty head, so empty means an empty head |
| `WhereClause.InterleavingIrrelevant` | src/where_clause.cpp:335-381 | the clause depends on the two subsequences of AND and OR operands only, not on how they interleave |
| `WhereClause.AppendToEmpty` | src/where_clause.cpp:335-381 | appending to an empty clause, with either operator and either kind of operand, makes it print the operand |
| `ClauseMeaning.PrintedTextParses` | src/where_clause.cpp:283-326 | the printed text is a search condition, with a known derivation tree |
| `ClauseMeaning.NeverStricter` | src/where_clause.cpp:283-326 | for every tree and valuation the printed text is at least as true as the clause |
| `ClauseMeaning.MeaningPreserved` | src/where_clause.cpp:283-326 | without a torn part the printed text evaluates to (head and all AND parts) or any OR part, in three-valued logic |
| `ClauseMeaning.Distinguish` | src/where_clause.cpp:295-301 | every torn part, however deep, has a valuation on which text and clause differ, when parts share no predicate |
| `ClauseMeaning.MeaningPreservedIff` | src/where_clause.cpp:283-326 | for clauses whose parts share no predicate, text and clause agree on all valuations exactly when no part is torn |
| `ClauseValidity.PrintsConditionIff` | src/where_clause.cpp:335-343 | a reachable non-empty clause prints a search condition exactly when no empty clause was appended with `&&`, at any depth |
| `QueryText.BodyCached` | src/select_query.cpp:114-161 | rendering a query through the caches of where clause, joins and union gives the recomputed text |
| `QueryText.RenderedSame` | src/select_query.cpp:151-156 | rendering a union fills the other query's cache without changing any text |
| `QueryText.ReturningLoop` | src/insert_query.cpp:86-97 | with one key the loop is skipped; with more its guard holds after any number of rounds |
| `QueryText.JoinParamsPlaceholders` | src/session.cpp:73-89 | the column list holds the placeholders 1..n in order, with or without the operator |
| `QueryObject.PrintParams` | src/session.cpp:73-89 | the loop prints the column and placeholder list that `SetsRead` and `NumbersRead` read back |
| `StatementReader.SetsRead` | src/session.cpp:73-89 | read from any column on, the printed settings are the pairs of column i and placeholder i + 1 |
| `StatementReader.NamesRead` | src/insert_query.cpp:65-103 | the printed column list is read back, in order |
| `StatementReader.NumbersRead` | src/session.cpp:73-89 | the printed VALUES list is read as the numbers in order |
| `StatementReader.UpdateReads` | src/update_query.cpp:57-76 | every UPDATE is read with its table, column i beside placeholder i + 1, and its condition |
| `StatementReader.InsertReads` | src/insert_query.cpp:65-103 | every INSERT is read with its table, the column list zipped with the VALUES list as column i and placeholder i + 1, and its RETURNING |
| `StatementReader.DeleteReads` | src/delete_query.cpp:71-85 | every DELETE is read with its table and condition |
| `StatementReader.JoinsAreRead` | src/join_clause.cpp:14-43 | the printed joins are read back with kind, table and condition, in order |
| `StatementReader.SelectReads` | src/select_query.cpp:114-161 | every SELECT is read with columns, table, joins, condition, ORDER BY, LIMIT, GROUP BY and union |
| `StatementReader.ConditionsAreSimple` | src/select_query.cpp:114-161 | a select whose conditions are search conditions, unions included, meets the premise of the next row |
| `StatementReader.StatementReads` | src/select_query.cpp:114-161 | every printed statement of the four classes is read as its fields mean; a select needs conditions without words |
| `QueryMachine.Put` | src/query.cpp:81-103 | binding an index sets that parameter, keeps the others and pads with nulls |
| `QueryMachine.StepSync` | src/query.cpp:59-128 | every call keeps cached text and reusable statement current, a silent append if a change is pending, a reset by the caller if none is |
| `QueryMachine.ExecutesFresh` | src/modify_query.cpp:18-34 | in sync, rendering and execution show the text of the current fields |
| `QueryMachine.SilentAppendIff` | src/where_clause.cpp:485-499 | appending a test that binds nothing leaves the query stale exactly when it was rendered or prepared |
| `QueryMachine.EveryRunInSync` | src/query.cpp:59-128 | over every run whose silent appends come while a change is pending and whose resets by the caller come while none is, nothing stale is ever shown or executed |
| `QueryMachine.LoudRunsAreCareful` | src/query.cpp:94-97 | runs without silent appends and resets by the caller satisfy the condition of that theorem from any state |
| `StatementReuse.RunsAgreeIff` | src/query.cpp:59-128 | from states side by side the reusing and the plain query run the same statements exactly when every execution shows the changes before it |
| `StatementReuse.ReuseIff` | src/query.cpp:59-128 | every run of all four query classes, silent appends and caller resets included, executes what a query that prepares afresh each time executes exactly when no execution finds an incomplete rendered text, or a change it does not know of that alters text or values |
| `StatementReuse.ReuseIsUnobservable` | src/modify_query.cpp:18-34 | in runs whose silent appends come while a change is pending and whose caller resets come while none is, the executed statements are those of the query that prepares afresh, values included |
| `StatementReuse.CallerResetIff` | src/query.cpp:123-128 | after a reset by the caller the next execution is as without reuse exactly when nothing was changed since the last one, or that one ran the current text without values; a select always is |
| `StatementReuse.CallerResetsIff` | src/query.cpp:123-128 | over whole runs of a modifying query whose executions take values, the executed statements are those without reuse exactly when each caller reset comes with nothing pending or another change is notified before the next execution |
| `StatementReuse.NullResetIff` | src/query.cpp:127 | a run resets a null statement exactly when a caller reset comes before the first execution with a table, for a select before the first one since its last reset |
| `StatementReuse.CountIff` | src/select_query.cpp:163-185 | count stays in sync exactly when a text was cached and runs the counting text exactly when none was: never both |
| `StatementReuse.LateJoinEditIff` | src/select_query.cpp:91-95 | editing a join through its reference goes stale exactly when the query was rendered or prepared |
| `QueryObject.BindParams` | src/query.cpp:68-72 | the binding loop gives parameter i to placeholder i |
| `QueryObject.BindNames` | src/query.cpp:74-76 | the loop over named parameters passes all of them, in any order of the table |
| `QueryObject.Query.constructor` | src/query.cpp:12-17 | a new query is in the initial state |
| `QueryObject.Query.SetModified` | src/query.cpp:94-97 | dirty, with no cached text, and nothing else changed |
| `QueryObject.Query.AssertBindingIndex` | src/query.cpp:81-92 | room for the index, padded with nulls, and dirty if it had to grow; index 0 is an error that changes nothing |
| `QueryObject.Query.Bind` | src/query.cpp:99-103 | moves the object as the state machine's indexed bind |
| `QueryObject.Query.BindNamed` | src/query.cpp:105-109 | moves the object as the state machine's named bind, whose value reaches the next prepared statement by `PreparedAsRead` |
| `QueryObject.Query.BindVector` | src/bindable.cpp:15-21 | binds the values from index 1 on, in order |
| `QueryObject.Query.BindPairs` | src/where_clause.cpp:437-443 | binds the operands at their offsets in order; none leaves the query untouched |
| `QueryObject.Query.Values` | src/update_query.cpp:99-103 | moves the object as the state machine's bind of all values |
| `QueryObject.Query.AddOneValue` | src/insert_query.cpp:159-163 | binds the value after the last parameter |
| `QueryObject.Query.Table` | src/update_query.cpp:51-55 | sets the table and notifies |
| `QueryObject.Query.Columns` | src/update_query.cpp:78-82 | sets the columns and notifies |
| `QueryObject.Query.Column` | src/insert_query.h:118-124 | appends the column and notifies; an empty name does nothing |
| `QueryObject.Query.BindOperator` | src/where_clause.cpp:424-448 | binds the operands of a test; one that binds nothing does not notify |
| `QueryObject.Query.Where` | src/where_clause.cpp:473-477 | the clause becomes the one test, numbered after the last parameter |
| `QueryObject.Query.And` | src/where_clause.cpp:485-489 | appends the test with AND and binds its operands |
| `QueryObject.Query.Or` | src/where_clause.cpp:495-499 | appends the test with AND as well |
| `QueryObject.Query.WhereClauseIs` | src/update_query.cpp:87-91 | copies the clause and notifies |
| `QueryObject.Query.Limit` | src/select_query.cpp:73-77 | sets the limit and notifies |
| `QueryObject.Query.ToSql` | src/sql_generator.cpp:12-18 | renders into the cache or returns it |
| `QueryObject.Query.PrepareStatement` | src/query.cpp:59-79 | makes and binds a statement when there is none or the query is dirty, else does nothing |
| `QueryObject.Query.ResetQuery` | src/query.cpp:123-128 | demands a statement; drops the parameters and the dirty flag and keeps the statement with its values |
| `QueryObject.Query.ResetSelect` | src/select_query.cpp:199-202 | also drops the statement |
| `QueryObject.Query.Run` | src/modify_query.cpp:18-34 | moves the object as the state machine's execution and returns the statement that ran |
| `QueryObject.Query.CountRows` | src/select_query.cpp:163-185 | swaps the columns, renders, prepares and swaps back |
| `QueryObject.Query.OrderBy` | src/select_query.cpp:79-83 | sets the ordering and notifies |
| `QueryObject.Query.GroupBy` | src/select_query.cpp:85-89 | sets the grouping and notifies |
| `QueryObject.Query.Join` | src/select_query.cpp:102-106 | appends the join and notifies |
| `QueryObject.Query.UnionWith` | src/select_query.cpp:108-112 | sets the union and notifies |
| `CallReading.RunAsRead` | src/query.cpp:81-128 | over every run of all four classes, table, named values and parameters are those read off the calls |
| `CallReading.PreparedAsRead` | src/query.cpp:59-109 | after every run, a statement that an execution prepares holds exactly the last value of each name and of each index since these were cleared, and null in a gap |
| `CallReading.FieldsFollowSetters` | src/select_query.cpp:73-112 | over every run of a select, each field is the argument of its last setter, the joins are those added in order |
| `CallReading.ColumnsFollowSetters` | src/update_query.cpp:78-82 | over every run of an insert, update or select, the columns are those set or added |
| `CallReading.WhereFollowsCalls` | src/where_clause.cpp:473-499 | over every run the where clause is the last one given and the tests appended since, each numbered after the highest index bound at its call |
| `ParameterOrder.BuildingRun` | src/where_clause.cpp:473-499 | values bound first and tests appended after lead to exactly this clause and these parameters, whatever operators were used |
| `ParameterOrder.PlaceholdersAgree` | src/where_clause.cpp:424-489 | over whole building runs of all four classes the text holds 1..N in order and parameter k is the value of placeholder k |
| `ParameterOrder.QueryPlaceholders` | src/update_query.cpp:57-76 | the placeholders of a query are those of its columns followed by those of its where clause |
| `ParameterOrder.AgreementKeptIff` | src/where_clause.cpp:424-461 | an appended operator keeps placeholders 1..N and binds exactly the values it takes if and only if it is a comparison other than IS NULL with an unnamed operand, or an IN of one value |
| `ParameterOrder.AgreementOverRunsIff` | src/where_clause.cpp:424-499 | over whole runs of appends every one agrees exactly when each operator is of that kind |
| `ParameterOrder.AgreementAfterExecuteIff` | src/modify_query.cpp:18-34 | the agreement survives an execution exactly when the query is a select or its text has no placeholder |
| `ParameterOrder.NumberedAgain` | src/where_clause.cpp:485-489 | a test appended after the execution of a modifying query is numbered 1 beside the placeholders kept |
| `ParameterOrder.KeptValues` | src/where_clause.cpp:424-448 | what an operator leaves bound: all values of an IN, the second of a BETWEEN, none for a name |
| `ParameterOrder.BetweenKeepsSecond` | src/where_clause.cpp:442-443 | of the two values of a BETWEEN only the second remains bound |
| `BuilderMeaning.BuilderMeansConjunction` | src/where_clause.cpp:485-499 | the printed condition of a chain of tests is their conjunction |
| `BuilderMeaning.OrMeantIff` | src/where_clause.cpp:491-499 | it means the head and the AND tests, or any OR test, under all valuations exactly when no later test is an OR test or all tests print alike |
| `BuilderMeaning.BuilderOrIff` | src/where_clause.cpp:473-499 | the same over whole building runs with any operators, and without the exception if the first test binds a value |
| `SentParameters.BuiltStatement` | src/query.cpp:59-79 | the first execution of a built query runs its current text with its values numbered from 1 |
| `SentParameters.ColumnsGetTheirValues` | src/session.cpp:73-89 | in the statement that a built INSERT or UPDATE runs, the server reads beside each column the number of the placeholder to which the value given for that column is bound |
| `SentParameters.ConditionReadsBack` | src/where_clause.cpp:283-326 | the template text of every condition of tests gives back its tokens: names, symbols, connectives, parentheses and numbers |
| `SentParameters.MysqlHoldsGiven` | src/mysql/binding.cpp:657-747 | on every template whose rewriting is sound, each position is read back as the value given for its placeholder, by index or by name, exactly if that value can be stored; the others hold nothing |
| `SentParameters.CallsReachMysql` | src/query.cpp:59-79 | the same from the calls on: after any run whose execution prepares, each position holds the value that the calls last gave its name or index |
| `SentParameters.MysqlGetsValues` | src/mysql/binding.cpp:657-747 | a text with as many placeholders as parameters, printed with `?`, is read back with parameter p at position p, exactly for values that can be stored, and has nothing elsewhere |
| `SentParameters.PostgresGetsValues` | src/postgres/binding.cpp:401-420 | position p of the arrays is read back as parameter p, exactly for values that can be stored, and the count passed on is their number |
| `SentParameters.ValuesArrive` | src/postgres/statement.cpp:78-80 | the column values and operands of a built query arrive in order, one per placeholder, through either binding: position p is read back as the value given for it exactly if the backend can store it |
| `OperatorMeaning.SymbolMeansIff` | src/where_clause.h:25-32 | on every two values and every ordering server, the printed symbol has the truth of the operator exactly when the server knows it |
| `OperatorMeaning.ListSymbols` | src/where_clause.h:25-32 | IN and BETWEEN print their word, with NOT when negated, and compare no two values |
| `OperatorMeaning.TestSays` | src/where_clause.cpp:450-462 | the printed test, with its operand bound to its placeholder, says of a row what the operator says |
| `RowSelection.ChainIsRead` | src/where_clause.cpp:473-499 | in an update, delete or select with any joins and unions, the server reads the where clause that the tests make |
| `RowSelection.RowsAsAsked` | src/query.cpp:59-79 | the statement that a built query runs, read by the server and evaluated with its bound values, has on every row the truth value of the conjunction of the tests, and is true exactly when all are |
| `SlotStore.StoreRepresents` | src/mysql/binding.cpp:622-649 | one bind changes the represented map at its index only; index 0 changes nothing |
| `SlotStore.StoreAllRepresents` | src/postgres/binding.cpp:370-406 | after any binds each slot holds the last cell bound there or zero, and capacity only grew |
| `PostgresBinding.Reallocate` | src/postgres/binding.cpp:387-390 | a longer array with the old elements and zeros |
| `PostgresCells.Encode` | src/postgres/binding.cpp:76-245 | no value of any kind is encoded with type 0, so the count misses none |
| `PostgresCells.IntegerReadsBackIff` | src/postgres/binding.cpp:36-47 | an integer of any type is read back exactly when it is no `char` and no larger than a `long` |
| `PostgresCells.TextReadsBackIff` | src/postgres/binding.cpp:234-239 | a text is read back exactly when it is not empty and holds no NUL; an empty one is read as null |
| `PostgresCells.ServerGets` | src/postgres/statement.cpp:78-80 | sent to the server are all integers but a `char` in decimal, all bytes of a blob, a text exactly when it holds no NUL, nothing for a null |
| `PostgresCells.KindIsRead` | src/postgres/binding.cpp:23-71 | the type of the cell decides the class of what is read: null, floating-point text, date or time text, bytes |
| `PostgresCells.TimestampReadsAsYear` | src/postgres/binding.cpp:41-44 | a date and time is read back as the number of its year |
| `PostgresCells.TypeHoldsIff` | src/postgres/binding.cpp:104-179 | the declared type holds every number of the C++ type but for the upper half of the unsigned ones, and for a `long` exactly the ints |
| `PostgresCells.ValueReadsBackIff` | src/postgres/binding.cpp:23-71 | a value of a query is read back exactly when it is null, a `long`, or a text neither empty nor with a NUL |
| `PostgresBinding.Binding.constructor` | src/postgres/binding.cpp:250-256 | four arrays of one length, all zero |
| `PostgresBinding.Binding.ClearValue` | src/postgres/binding.cpp:258-270 | one position of all four arrays is zeroed; an index outside is an error |
| `PostgresBinding.Binding.ReallocateValue` | src/postgres/binding.cpp:370-395 | clears within capacity, grows past it, keeps the four lengths equal |
| `PostgresBinding.Binding.BindIndex` | src/postgres/binding.cpp:401-406 | stores the encoding of any value kind at the index and nothing elsewhere |
| `PostgresBinding.Binding.NumOfBindings` | src/postgres/binding.cpp:412-420 | counts the positions that have a type |
| `PostgresBinding.Binding.Reset` | src/postgres/binding.cpp:272-293 | no slots remain |
| `PostgresBinding.CountIsDistinct` | src/postgres/binding.cpp:412-420 | the count is the number of distinct indexes bound |
| `PostgresBinding.EveryBindingRun` | src/postgres/binding.cpp:401-420 | for every sequence of binds, slots and count are those of the map of last values |
| `PostgresBinding.NothingDroppedIff` | src/postgres/statement.cpp:78-80 | the count covers every bound value exactly when the indexes are 1..n |
| `ParameterKinds.CTextIff` | src/postgres/binding.cpp:235 | copying a C text keeps it exactly when it holds no NUL |
| `MysqlCells.IntegerReadsBack` | src/mysql/binding.cpp:164-215 | an integer of any type and size is read back exactly when it is in the range of the type, a bool when it fits its byte |
| `MysqlCells.StoredBits` | src/mysql/binding.cpp:371-447 | the buffer has the size of the type, its sign flag, and the number in two's complement |
| `MysqlCells.DecodeEncodeIff` | src/mysql/binding.cpp:164-249 | reading what was written is the identity on integers of all types, times, blobs and null, and on a text exactly when it holds no NUL |
| `MysqlCells.ValueReadsBackIff` | src/mysql/binding.cpp:164-249 | a value of a query is read back exactly when it is null, an `int`, or a text without NUL |
| `MysqlBinding.PrepareIndexes` | src/mysql/binding.cpp:714-737 | the loop maps each `$n` to all its numbers among the indexed placeholders and counts these |
| `MysqlBinding.PrepareNames` | src/bind_mapping.cpp:64-75 | the loop maps each name to all its numbers, counted on from the indexed ones |
| `MysqlBinding.RewriteKeepsPositions` | src/mysql/binding.cpp:742-743 | the rewritten statement has a `?` at every position and no other placeholder |
| `MysqlBinding.RewriteRestores` | src/mysql/binding.cpp:742-743 | putting the placeholders back, in order, at the `?` of the rewritten statement gives the template: texts, their order and positions survive |
| `MysqlBinding.NumberingIff` | src/mysql/binding.cpp:719-740 | numbers are positions exactly when no indexed placeholder follows a name |
| `MysqlBinding.IndexMeantIff` | src/mysql/binding.cpp:657-677 | with names last, an index reaches exactly its placeholder's positions unless its `$k` hides a `?` at k or it is a stray index on an occupied slot |
| `MysqlBinding.NameReachIff` | src/bind_mapping.cpp:27-38 | a name reaches exactly its numbers unless a `$k` has one of them |
| `MysqlBinding.OneStyleSuffices` | src/mysql/binding.cpp:719-740 | templates of only `?` or only `$n` within range satisfy the conditions of the next three rows |
| `MysqlBinding.ReachIsMeant` | src/mysql/binding.cpp:657-682 | a request for a placeholder writes exactly the positions of that placeholder |
| `MysqlBinding.RewritingPreservesMeaning` | src/mysql/binding.cpp:711-747 | after any requests position p holds the last value bound to the placeholder originally at p, or nothing |
| `MysqlBinding.RewritingPreservesMeaningIff` | src/mysql/binding.cpp:657-747 | this holds for all requests exactly on templates with names last, no `$k` hiding a `?` and no `$k` numbered like a name |
| `MysqlBinding.Binding.constructor` | src/mysql/binding.cpp:498-500 | zeroed slots, nothing bound |
| `MysqlBinding.Binding.Prepare` | src/mysql/binding.cpp:711-747 | fills both maps for the template and returns it rewritten, so that putting the placeholders back gives the template; bound slots stay |
| `MysqlBinding.Binding.ReallocateValue` | src/mysql/binding.cpp:622-649 | clears within capacity, grows past it, refuses index 0 |
| `MysqlBinding.Binding.BindSlot` | src/mysql/binding.cpp:668-673 | one slot is assigned, or refused for index 0 |
| `MysqlBinding.Binding.BindSlots` | src/mysql/binding.cpp:666-677 | the loop writes every slot of the set and represents the map with them assigned |
| `MysqlBinding.Binding.BindIndex` | src/mysql/binding.cpp:657-677 | binding an index assigns what the index reaches in the template |
| `MysqlBinding.Binding.BindName` | src/bind_mapping.cpp:27-38 | binding a name assigns what the name reaches; an unknown name is an error that changes nothing |
| `MysqlBinding.Binding.BindIndexes` | src/bind_mapping.cpp:34-36 | the loop over a name's numbers assigns what each of them reaches |
| `Calendar.FormulaAgrees` | src/mysql/binding.cpp:143-152 | the year terms of section 4.16 of IEEE Std 1003.1-2017 count the days of all years, before and after 1970 |
| `Calendar.MonthsAgree` | src/mysql/binding.cpp:143-152 | counting days by month lengths agrees with a closed form without a table |
| `Calendar.MonthLengthFormula` | src/mysql/binding.cpp:354-360 | a month has the days between its start and the next by that form |
| `Calendar.TimeGmFormula` | src/mysql/binding.cpp:143-152 | the seconds of any date and time by closed formulas alone |
| `Calendar.FirstOfMay1970` | src/mysql/binding.cpp:354-360 | 10368000 seconds are 1970-05-01 00:00:00 |
| `Calendar.LeapDay2000` | src/mysql/binding.cpp:354-360 | 951782400 seconds are 2000-02-29 00:00:00 |
| `Calendar.TimeGmOfGmTime` | src/mysql/binding.cpp:354-360 | breaking any seconds down and combining them again is the identity |
| `Calendar.GmTimeOfTimeGm` | src/mysql/binding.cpp:143-152 | combining any existing date and time and breaking it down again is the identity |
| `Calendar.StoredTimeReadsBack` | src/mysql/binding.cpp:333-363 | storing any time in the unsigned mysql buffer and reading it back returns seconds and format |
| `Calendar.StoredTimeMeans` | src/mysql/binding.cpp:333-363 | the stored fields are a date that exists, month from 1, and a time of day, and stand for exactly the seconds stored, by closed formulas |
| `TimeText.DateTextSays` | src/sql_time.cpp:70-83 | the text of a date is its year, month from 1 and day, as decimal numbers with dashes between |
| `TimeText.ClockTextSays` | src/sql_time.cpp:70-83 | the text of a clock is hour, minute and second with colons between |
| `TimeText.PrintedTimeReadsBack` | src/sql_time.cpp:70-83 | for years 1000 to 9999 the printed text parses to the instant, the day or the clock, so no earlier pattern captures a later format |
| `TimeText.ClockReadsBack` | src/sql_time.cpp:28-36 | a clock text falls through both date patterns to its seconds of the day |
| `TimeText.NumberReadsAsTimestamp` | src/sql_time.cpp:38-44 | a plain number falls through all three patterns to a TIMESTAMP |
| `TimeText.FailedPatternLeavesHour` | src/sql_time.cpp:14-26 | a date followed by an hour is a DATE that keeps this hour |
| `TimeText.DateIsFlooredIff` | src/sql_time.cpp:14-26 | a date followed by any text that is no time is read as its day exactly when no non-zero hour or minute was scanned |
| `Decimal.ScanIntText` | src/sql_number.h:207-216 | the C conversion reads sign and magnitude back from every printed integer |
| `Decimal.ParseIntText` | src/sql_number.h:140-151 | what the cascade makes of the text of any integer, over the whole number line |
| `Decimal.RoundTripIff` | src/sql_number.cpp:140 | parsing and reprinting is the identity exactly for -2^63 to 2^64-1 |
| `Decimal.ParseBoolIff` | src/sql_number.h:229-237 | a text without digits parses as true exactly for true and yes, as false exactly for false and no, in any case, and otherwise not at all |
| `Uri.FindSeparator` | src/uri.cpp:17-18 | the position of the first `://` |
| `Uri.FindChar` | src/uri.cpp:28-32 | the first occurrence in a range cuts it into the text before and after |
| `Uri.FindPath` | src/uri.cpp:44-47 | authority and tail of the remainder |
| `Uri.CutAuthority` | src/uri.cpp:49-58 | host and port of the authority |
| `Uri.UriType.constructor` | src/uri.cpp:9 | a new object holds the parse of its text |
| `Uri.UriType.Parse` | src/uri.cpp:13-63 | all eight fields from the old ones: protocol and host appended to, user and password kept if the text has none, the rest assigned |
| `Uri.ReparsedIff` | src/uri.cpp:13-63 | parsing into a used object gives the parse of the text exactly when protocol and host were empty and so was each field whose part the text lacks |
| `Uri.UriType.ParseAfterSeparator` | src/uri.cpp:26-62 | the fields after the separator, from the old ones in the same way |
| `Uri.UriType.ParseUser` | src/uri.cpp:28-42 | user and password before the first `@`, and where the remainder starts |
| `Uri.UriType.ParseTarget` | src/uri.cpp:44-62 | host, port, path and query of the remainder |
| `Uri.LowerIsLower` | src/uri.cpp:20-21 | lower case leaves no capital letter, changes nothing but case, and is idempotent |
| `Uri.ComposedParses` | src/uri.cpp:13-63 | parsing a text composed of delimiter-free parts returns them, protocol and host in lower case |
| `Uri.BareParses` | src/uri.cpp:45-60 | without a slash everything before the question mark is the path |
| `Uri.ParsedComposes` | src/uri.cpp:13-63 | every text with a separator and a slash after it is composed of the delimiter-free parts that parsing returns |
| `Cursor.KeepsFailing` | src/sqlite/resultset.cpp:26-28 | after a failed next every further one fails until reset |
| `Cursor.SucceedsPerRow` | src/postgres/resultset.cpp:22-28 | a run of next calls succeeds exactly for the rows left |
| `Cursor.PostgresCursor.constructor` | src/postgres/resultset.cpp:9-18 | before the first row |
| `Cursor.PostgresCursor.Next` | src/postgres/resultset.cpp:22-28 | the row counter refines one step of the abstract cursor |
| `Cursor.PostgresCursor.Reset` | src/postgres/resultset.cpp:30 | back before the first row |
| `Cursor.PostgresCursor.CurrentRow` | src/postgres/resultset.cpp:32 | the row at the position |
| `Cursor.SqliteCursor.constructor` | src/sqlite/resultset.cpp:8-17 | no status yet, wherever the statement is |
| `Cursor.SqliteCursor.Next` | src/sqlite/resultset.cpp:21-33 | the step status refines the same step, although the statement itself would start over |
| `Cursor.SqliteCursor.Reset` | src/sqlite/resultset.cpp:35-45 | back before the first row, from any status |
| `Cursor.SqliteCursor.CurrentRow` | src/sqlite/resultset.cpp:47 | the row at the position |
| `Cursor.Resultset.Next` | src/resultset.cpp:33 | one step of the abstract cursor on either backend |
| `Cursor.Resultset.Reset` | src/resultset.cpp:35 | before the first row on either backend |
| `Cursor.Resultset.CurrentRow` | src/resultset.cpp:28-31 | the row at the position on either backend |
| `Cursor.Resultset.Begin` | src/resultset.cpp:47-54 | from any prior position the iterator is on the first row, or at the end if there is none |
| `Cursor.Resultset.Increment` | src/resultset.h:100-116 | the iterator moves with the cursor; at the end it stays |
| `Cursor.Resultset.Each` | src/resultset.cpp:41-45 | visits every row once, in order, and stops |
| `Cursor.Resultset.Size` | src/resultset.cpp:37 | the number of rows |
| `Cursor.Resultset.IsEmpty` | src/resultset.cpp:39 | whether there are no rows |
| `Transaction.SilentAfterFinish` | src/transaction.cpp:11-19 | after any finish no destructor sends anything |
| `Transaction.QuietAfterFinish` | src/transaction.cpp:11-19 | after a finish, without explicit calls, nothing is sent at all |
| `Transaction.FinishedExactlyOnce` | src/transaction.cpp:11-33 | for any copies, moves, copy and move assignments and destructions in any order: nothing until an owning object is destroyed, then one message decided by its mark, then nothing |
| `Transaction.ScopeEnds` | src/transaction.cpp:11-19 | a started transaction sends exactly one message once an owning object is destroyed |
| `Transaction.ExplicitFinishIsLast` | src/transaction.cpp:23-33 | an explicit finish is the only message, whatever is destroyed after it |
| `Transaction.Tx.constructor` | src/transaction.cpp:7-9 | an unmarked object on the session |
| `Transaction.Tx.Start` | src/transaction.cpp:21 | the connection is in a transaction |
| `Transaction.Tx.Finished` | src/transaction.cpp:23-33 | one message is sent and the connection leaves the transaction |
| `Transaction.Tx.Destruct` | src/transaction.cpp:11-19 | the destructor commits or rolls back by its mark if the connection is still in a transaction |
| `Transaction.Tx.MoveFrom` | src/transaction.h:44 | a moved-from object has lost the session |
| `Transaction.Tx.CopyOf` | src/transaction.h:42 | a copy shares the session and takes over the mark |
| `Transaction.Tx.AssignFrom` | src/transaction.h:48 | takes over session and mark of the other |
| `Transaction.Tx.MoveAssignFrom` | src/transaction.h:50 | takes them over and leaves the other without session; onto itself it changes nothing |
| `Transaction.Tx.SetSuccessful` | src/transaction.cpp:69 | sets the mark of this object only |
| `Records.KeySelects` | src/record.cpp:115 | the printed key test is true of the row that the key value is the number of and of no other: of none for a null or a name |
| `Records.AssignedByName` | src/record.cpp:111-113 | the settings that the server reads set exactly the listed columns to the record's values |
| `Records.UpdateIsRead` | src/record.cpp:111-115 | the server reads in the UPDATE of a record its columns beside their numbers and the key test |
| `Records.KeySelectIsRead` | src/record.cpp:91-93 | the server reads in the SELECT of a record the key test and nothing else |
| `Records.AvailableInOrder` | src/record.cpp:254-262 | the available columns keep the order of the schema |
| `Records.CopyAvailable` | src/record.cpp:254-262 | the loop copies the columns that the record has, the key only for an existing row |
| `Records.UpdateIsSave` | src/record.cpp:110-117 | the UPDATE, performed by what the server reads in its text, changes the record's own row to its values and no other row |
| `Records.InsertIsRead` | src/record.cpp:119-123 | the server reads in the INSERT of a record its columns beside their numbers |
| `Records.InsertIsSave` | src/record.cpp:119-123 | the INSERT, performed by what the server reads in its text, adds one row with the next number and the record's non-key values |
| `Records.CountIsExists` | src/record.cpp:84-96 | the counting SELECT, by what the server reads, counts the record's row exactly when it exists, and the lookup returns that row |
| `Records.OneStep` | src/record.cpp:104-132 | one edit, save or refresh adds at most the record's own row and touches no other |
| `Records.AtMostOneRow` | src/record.cpp:104-132 | so does any sequence of them on one record |
| `Records.SaveThenRefresh` | src/record.cpp:203-231 | save then refresh makes every schema column of the record equal to its row, and those it had are as stored |
| `Records.BuildUpdate` | src/record.cpp:111-115 | the query object holds one value per column and the key operand numbered after them |
| `Records.RunUpdate` | src/record.cpp:111-117 | the UPDATE that runs has the current text and its values bound in order |
| `Records.RunInsert` | src/record.cpp:119-123 | the INSERT that runs has the current text and its values bound in order |
| `Records.BuildKeyQuery` | src/record.cpp:91-93 | a select of the schema columns with the key test and its value, or no value for a name |
| `Records.RunCount` | src/record.cpp:91-95 | the counting SELECT that runs tests the key with placeholder 1 bound to it, or unbound for a name |
| `Records.RunLookup` | src/record.cpp:215-220 | the limited SELECT that runs tests the key in the same way |
| `Records.InitFrom` | src/record.cpp:45-55 | the loop overwrites the record with every column of the row |
| `Records.Record.constructor` | src/record.cpp:12-16 | a record without values |
| `Records.Record.SetValue` | src/record.cpp:186 | sets one column |
| `Records.Record.UnsetValue` | src/record.cpp:192 | removes one column |
| `Records.Record.AvailableColumns` | src/record.cpp:254-262 | the schema's columns that the record has, in order, the key only for an existing row |
| `Records.Record.GetValues` | src/record.cpp:155-164 | the values of those columns that the record has, in order |
| `Records.Record.RowExists` | src/record.cpp:84-96 | whether the record has a key, of any kind, that names a row, decided through the counting query |
| `Records.Record.RefreshRecord` | src/record.cpp:210-231 | takes over the row selected by the key, or fails without change |
| `Records.Record.SaveRecord` | src/record.cpp:104-132 | updates the record's row, or inserts one and adopts its number |
| `Records.Record.UpdateRow` | src/record.cpp:110-117 | the update branch of save |
| `Records.Record.InsertRow` | src/record.cpp:118-128 | the insert branch of save, when the server accepts it |
| `Departures.AndOfOr` | src/where_clause.cpp:295-301 | a conjunction with a disjunction as its part prints a text that is true where the clause is false |
| `Departures.AndOfNothing` | src/where_clause.cpp:335-343 | appending an empty clause with `&&` prints no condition |
| `Departures.ResetForgetsRename` | src/query.cpp:123-128 | after an execution, renaming the table, resetting and executing runs on the old table |
| `Departures.ResetForgetsValue` | src/query.cpp:123-128 | after an insert of one value, binding another, resetting and executing inserts the first again |
| `Departures.CountIsLeftBehind` | src/select_query.cpp:163-176 | after count on a new query the counting text is executed |
| `Departures.InTakesTwo` | src/where_clause.cpp:437-441 | an IN of two values on any query in step prints one placeholder and binds two parameters |
| `Departures.BetweenLosesFirst` | src/where_clause.cpp:442-443 | a BETWEEN on any query in step keeps the placeholders in step and loses its first value |
| `Departures.IsNullTakesOne` | src/where_clause.cpp:428-435 | an IS NULL on any query in step prints a placeholder and binds a null that it does not take |
| `Departures.NumberedAgainAfterExecute` | src/modify_query.cpp:18-34 | a second test appended after an execution gives two placeholders 1 and one parameter |
| `Departures.OrOfTwo` | src/where_clause.cpp:495-499 | two tests joined by the OR operator print a condition that is false where only the second is true |
| `Departures.NamedAppendIsMissed` | src/where_clause.cpp:433-435 | a named operand appended after rendering is not executed |
| `Departures.GapDropsValue` | src/postgres/statement.cpp:78-80 | with only index 2 bound the count is 1 |
| `Departures.EmptyTextIsNull` | src/postgres/binding.cpp:24 | an empty text bound on postgres is read back as null |
| `Departures.NulCutsText` | src/postgres/binding.cpp:235 | a text is cut at its first NUL on both backends |
| `Departures.NotGreaterIsUnknown` | src/where_clause.h:28-32 | a negated greater-than prints `!>`, which is no comparison |
| `Departures.QuestionHiddenByDollar` | src/mysql/binding.cpp:722-735 | in `? $1` index 1 reaches position 2 only |
| `Departures.NameBeforeQuestion` | src/bind_mapping.cpp:70-72 | in `:a ?` the name reaches position 2 only |
| `Departures.SecondParseAppends` | src/uri.cpp:20-58 | parsing a second short text into the same object concatenates the protocols and the hosts |
| `Departures.BelowLongWraps` | src/sql_number.h:148-150 | -2^63-1 parses as 2^63-1 |

## Left out

- Parameters that stand for what the model does not compute: whether the server accepts an INSERT
  (`SaveRecord`), the rows of a result, the order in which hash tables are walked.
- Text inside a predicate: an atom is never looked into, so NOT, IS tests and caller-supplied SQL inside one
  predicate are opaque; identifiers and literals are not quoted or checked.
- PlaceholdersAgree: joins that contain placeholders of their own and unions are excluded, because their
  numbers start over; templates written by the caller are the subject of `MysqlBinding` instead.
- MeaningPreservedIff: the direction that a torn part changes the meaning is stated for clauses whose parts share
  no predicate; with shared predicates a torn part can be harmless, as in `a AND (b OR a)`.
- StoredTimeReadsBack: years are those that fit an `int`; conversion failure of `gmtime` beyond them is not modelled.
- ParseIntText: the floating-point branch is entered but not evaluated, and `long` has 64 bits.
- AtMostOneRow: one record and one table on a session without RETURNING; other clients do not write meanwhile and the key column is
  left to the library.
- FinishedExactlyOnce: no execution fails and no second transaction begins meanwhile; the mysql transaction flag, which is
  never cleared (src/mysql/transaction.cpp:9-30), is outside.
- Copying and moving of queries with where builders, whose binder pointer keeps naming the original.
- Appending text to a builder through a reference to its base class, which is as silent as the appends treated in `SilentAppendIff`.
- Executing a query on an invalid session; what happens after a null statement was reset.
- CallerResetsIff: stated for runs whose executions take values and that append no test silently; `ReuseIff` covers
  all runs, with a condition that also looks at what the last execution ran.
- Value kinds other than null, number and string in queries: the bindings know all integer types, times and blobs, a
  query's number reaches them as an `int`.
- Floating-point numbers are not decoded and their text is a parameter; so are wide characters.  Blobs read from
  postgres are not unescaped.  Cross-type equality of values is outside.
- StatementReads: a SELECT is read if its conditions hold no words, as every search condition does
  (`ConditionsAreSimple`); words inside a condition, such as a subquery, would have to be a single raw predicate.
- RowsAsAsked: tests with one bound operand that a server understands; the others are the subject of `AgreementKeptIff`
  and `SymbolMeansIff`.  How a server orders values, matches LIKE and converts an operand are its parameters.
- IntegerReadsBack: `char` is signed and `long` has 64 bits; a bool is kept beyond its range because it is one byte.
- How a server compares columns other than the key, beyond the order given by the schema; which texts it takes for a key number is
  a parameter of the schema.
- Overflow of `size_t` when the slot arrays grow and of the `int` row counter.
- Releasing memory when a slot is cleared or a binding is copied.
- The regular expressions that find placeholders outside quotes: templates start out tokenised.
- The postgres placeholder rewriting (src/postgres/binding.cpp:429-493), which numbers `?` in descending order.
- Row and column wrappers, mysql result fetching, the schema factory, savepoints, sessions and error strings.
- The finders of src/record.h, which build their condition through the builder of `BuilderMeansConjunction`.
