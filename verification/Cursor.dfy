/** Result cursors: the postgres cursor counts rows, the sqlite cursor remembers the status of the
    last step of a statement that would start over; both refine one position in a row sequence
    (src/resultset.h:71-116, src/resultset.cpp:24-67, src/postgres/resultset.cpp:22-32,
    src/sqlite/resultset.cpp:21-47). */
module Cursor {
  import opened SqlText

  // ----- the abstract cursor -----

  /** Positions run from -1, before the first row, to the number of rows, after the last. */
  function Advance(pos: int, rows: nat): (next: int)
    requires -1 <= pos <= rows
    ensures -1 < next <= rows
  {
    if pos < rows then pos + 1 else rows
  }

  predicate OnRow(pos: int, rows: nat) {
    0 <= pos < rows
  }

  datatype Move = Next | Reset

  /** The answers that a sequence of moves gets: true when a row was reached. */
  function Answers(pos: int, rows: nat, moves: seq<Move>): (r: seq<bool>)
    requires -1 <= pos <= rows
    decreases |moves|
  {
    if moves == [] then []
    else if moves[0].Reset? then Answers(-1, rows, moves[1..])
    else [OnRow(Advance(pos, rows), rows)] + Answers(Advance(pos, rows), rows, moves[1..])
  }

  /** Once a `next` fails, every further one fails until a reset. */
  lemma {:induction false} KeepsFailing(pos: int, rows: nat, moves: seq<Move>)
    requires -1 <= pos <= rows && !OnRow(Advance(pos, rows), rows)
    requires forall i | 0 <= i < |moves| :: moves[i].Next?
    ensures forall i | 0 <= i < |Answers(pos, rows, moves)| :: !Answers(pos, rows, moves)[i]
    ensures |Answers(pos, rows, moves)| == |moves|
    decreases |moves|
  {
    if moves != [] {
      KeepsFailing(Advance(pos, rows), rows, moves[1..]);
    }
  }

  /** From before the first row, `n` moves succeed exactly as often as there are rows. */
  lemma {:induction false} SucceedsPerRow(pos: int, rows: nat, moves: seq<Move>)
    requires -1 <= pos <= rows && forall i | 0 <= i < |moves| :: moves[i].Next?
    ensures |Answers(pos, rows, moves)| == |moves|
    ensures forall i | 0 <= i < |moves| :: Answers(pos, rows, moves)[i] <==> pos + 1 + i < rows
    decreases |moves|
  {
    if moves != [] {
      SucceedsPerRow(Advance(pos, rows), rows, moves[1..]);
    }
  }

  // ----- postgres -----

  class PostgresCursor<T> {
    const rows: seq<T>
    var currentRow: int

    ghost predicate Valid()
      reads this
    {
      currentRow >= -1
    }

    ghost function Position(): int
      reads this
    {
      if currentRow < |rows| then currentRow else |rows|
    }

    constructor (rows: seq<T>)
      ensures Valid() && this.rows == rows && Position() == -1
    {
      this.rows := rows;
      currentRow := -1;
    }

    method Next() returns (ok: bool)
      requires Valid()
      modifies this
      ensures Valid() && Position() == Advance(old(Position()), |rows|) && ok == OnRow(Position(), |rows|)
    {
      currentRow := currentRow + 1;
      ok := currentRow < |rows|;
    }

    method Reset()
      modifies this
      ensures Valid() && Position() == -1
    {
      currentRow := -1;
    }

    method CurrentRow() returns (row: T)
      requires Valid() && OnRow(Position(), |rows|)
      ensures row == rows[Position()]
    {
      row := rows[currentRow];
    }
  }

  // ----- sqlite -----

  datatype Status = Fresh | Row | Done

  /** A statement of the engine: stepping a finished one starts it over. */
  class SqliteStatement<T> {
    const rows: seq<T>
    var stepped: nat
    var finished: bool

    ghost predicate Valid()
      reads this
    {
      stepped <= |rows|
    }

    constructor (rows: seq<T>)
      ensures Valid() && this.rows == rows && stepped == 0 && !finished
    {
      this.rows := rows;
      stepped, finished := 0, false;
    }

    method Step() returns (status: Status)
      requires Valid()
      modifies this
      ensures Valid()
      ensures var from := if old(finished) then 0 else old(stepped);
              if from < |rows| then status == Row && stepped == from + 1 && !finished
              else status == Done && finished
    {
      if finished {
        stepped, finished := 0, false;
      }
      if stepped < |rows| {
        stepped := stepped + 1;
        status := Row;
      } else {
        finished := true;
        status := Done;
      }
    }

    method Rewind()
      modifies this
      ensures Valid() && stepped == 0 && !finished
    {
      stepped, finished := 0, false;
    }
  }

  class SqliteCursor<T> {
    const stmt: SqliteStatement<T>
    var status: Status

    ghost predicate Valid()
      reads this, stmt
    {
      stmt.Valid()
    }

    /** A cursor that saw the end stays there; otherwise it is where the statement is, which an
        earlier cursor on the same statement may have moved. */
    ghost function Position(): int
      reads this, stmt
    {
      if status == Done then |stmt.rows| else if stmt.finished then -1 else stmt.stepped - 1
    }

    constructor (stmt: SqliteStatement<T>)
      requires stmt.Valid()
      ensures Valid() && this.stmt == stmt && status == Fresh
    {
      this.stmt := stmt;
      status := Fresh;
    }

    method Next() returns (ok: bool)
      requires Valid()
      modifies this, stmt
      ensures Valid() && Position() == Advance(old(Position()), |stmt.rows|) && ok == OnRow(Position(), |stmt.rows|)
    {
      if status == Done {
        return false;
      }
      status := stmt.Step();
      ok := status == Row;
    }

    method Reset()
      requires Valid()
      modifies this, stmt
      ensures Valid() && Position() == -1
    {
      stmt.Rewind();
      status := Fresh;
    }

    method CurrentRow() returns (row: T)
      requires Valid() && OnRow(Position(), |stmt.rows|)
      ensures row == stmt.rows[Position()]
    {
      row := stmt.rows[stmt.stepped - 1];
    }
  }

  // ----- the result set over either -----

  datatype Implementation<T> = Postgres(pg: PostgresCursor<T>) | Sqlite(lite: SqliteCursor<T>)

  /** An iterator: position -1 is the end; two iterators compare by position only. */
  datatype Iterator<T> = Iterator(pos: int, value: Option<T>)

  class Resultset<T> {
    const impl: Implementation<T>

    ghost function Repr(): set<object>
    {
      match impl
      case Postgres(pg) => {pg}
      case Sqlite(lite) => {lite, lite.stmt}
    }

    ghost predicate Valid()
      reads this, Repr()
    {
      match impl
      case Postgres(pg) => pg.Valid()
      case Sqlite(lite) => lite.Valid()
    }

    function Rows(): seq<T> {
      match impl
      case Postgres(pg) => pg.rows
      case Sqlite(lite) => lite.stmt.rows
    }

    ghost function Position(): int
      reads this, Repr()
    {
      match impl
      case Postgres(pg) => pg.Position()
      case Sqlite(lite) => lite.Position()
    }

    constructor (impl: Implementation<T>)
      ensures this.impl == impl
    {
      this.impl := impl;
    }

    method Next() returns (ok: bool)
      requires Valid()
      modifies Repr()
      ensures Valid() && Position() == Advance(old(Position()), |Rows()|) && ok == OnRow(Position(), |Rows()|)
    {
      match impl {
        case Postgres(pg) => ok := pg.Next();
        case Sqlite(lite) => ok := lite.Next();
      }
    }

    method Reset()
      requires Valid()
      modifies Repr()
      ensures Valid() && Position() == -1
    {
      match impl {
        case Postgres(pg) => pg.Reset();
        case Sqlite(lite) => lite.Reset();
      }
    }

    method CurrentRow() returns (row: T)
      requires Valid() && OnRow(Position(), |Rows()|)
      ensures row == Rows()[Position()]
    {
      match impl {
        case Postgres(pg) => row := pg.CurrentRow();
        case Sqlite(lite) => row := lite.CurrentRow();
      }
    }

    /** The iterator stands where the cursor stands: on its row, or at the end. */
    ghost predicate At(it: Iterator<T>)
      requires Valid()
      reads this, Repr()
    {
      if OnRow(Position(), |Rows()|) then it == Iterator(Position(), Some(Rows()[Position()]))
      else it == Iterator(-1, None) && Position() == |Rows()|
    }

    /** Wherever the cursor was, `begin` goes to the first row. */
    method Begin() returns (it: Iterator<T>)
      requires Valid()
      modifies Repr()
      ensures Valid() && Position() == 0 && At(it)
    {
      Reset();
      var ok := Next();
      if ok {
        var row := CurrentRow();
        it := Iterator(0, Some(row));
      } else {
        it := Iterator(-1, None);
      }
    }

    method Increment(it: Iterator<T>) returns (next: Iterator<T>)
      requires Valid() && At(it)
      modifies Repr()
      ensures Valid() && Position() == Advance(old(Position()), |Rows()|) && At(next)
    {
      if it.pos == -1 {
        return it;
      }
      var ok := Next();
      if ok {
        var row := CurrentRow();
        next := Iterator(it.pos + 1, Some(row));
      } else {
        next := Iterator(-1, None);
      }
    }

    /** Iterating from begin to end visits every row once, in order, and stops. */
    method Each() returns (visited: seq<T>)
      requires Valid()
      modifies Repr()
      ensures Valid() && visited == Rows() && Position() == |Rows()|
    {
      visited := [];
      var it := Begin();
      while it.pos != -1
        invariant Valid() && At(it) && 0 <= Position() <= |Rows()| && visited == Rows()[..Position()]
        decreases |Rows()| - Position()
      {
        visited := visited + [it.value.value];
        it := Increment(it);
      }
      assert Rows()[..|Rows()|] == Rows();
    }

    /** `std::distance(begin(), end())`. */
    method Size() returns (n: nat)
      requires Valid()
      modifies Repr()
      ensures Valid() && n == |Rows()|
    {
      n := 0;
      var it := Begin();
      while it.pos != -1
        invariant Valid() && At(it) && 0 <= Position() <= |Rows()| && n == Position()
        decreases |Rows()| - Position()
      {
        it := Increment(it);
        n := n + 1;
      }
    }

    method IsEmpty() returns (empty: bool)
      requires Valid()
      modifies Repr()
      ensures Valid() && empty == (Rows() == [])
    {
      var it := Begin();
      empty := it.pos == -1;
    }
  }
}
