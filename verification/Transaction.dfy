/** Transaction scope: any number of copies of one started transaction, destroyed in any order,
    finish it exactly once (src/transaction.cpp:11-33, 65-71; src/transaction.h:40-50;
    src/sqlite/transaction.cpp:7; src/postgres/transaction.cpp:9-13). */
module Transaction {
  import opened SqlText

  datatype Finish = Commit | Rollback

  /** A message to the server, and whether a destructor sent it. */
  datatype Sent = Sent(what: Finish, byDestructor: bool)

  /** A transaction object.  A moved-from one has lost session and implementation. */
  datatype Handle = Handle(alive: bool, owned: bool, successful: bool)

  datatype State = State(active: bool, log: seq<Sent>, handles: seq<Handle>)

  /** The state after `start_transaction`. */
  const STARTED := State(true, [], [Handle(true, true, false)])

  datatype Event =
    | Copy(i: nat)
    | Move(i: nat)
    | Assign(i: nat, j: nat)
    | MoveAssign(i: nat, j: nat)
    | MarkSuccessful(i: nat, value: bool)
    | Destroy(i: nat)
    | Explicit(i: nat, what: Finish)

  predicate Usable(s: State, i: nat) {
    i < |s.handles| && s.handles[i].alive
  }

  /** Events on live objects; an explicit finish needs the session the object still holds. */
  predicate Possible(s: State, e: Event) {
    match e
    case Assign(i, j) => Usable(s, i) && Usable(s, j)
    case MoveAssign(i, j) => Usable(s, i) && Usable(s, j)
    case Explicit(i, _) => Usable(s, i) && s.handles[i].owned
    case _ => Usable(s, e.i)
  }

  function Send(s: State, m: Sent): State {
    s.(active := false, log := s.log + [m])
  }

  /** What the destructor does to the connection: it asks the implementation, which asks the
      connection, whether the transaction is still active. */
  function AfterDestruct(active: bool, log: seq<Sent>, owned: bool, successful: bool): (bool, seq<Sent>) {
    if owned && active then (false, log + [Sent(if successful then Commit else Rollback, true)]) else (active, log)
  }

  function Step(s: State, e: Event): State
    requires Possible(s, e)
  {
    match e
    case Copy(i) => s.(handles := s.handles + [s.handles[i]])
    case Move(i) =>
      s.(handles := s.handles[i := s.handles[i].(owned := false)] + [s.handles[i]])
    case Assign(i, j) => s.(handles := s.handles[i := s.handles[j]])
    // moving a shared pointer onto itself leaves it as it was
    case MoveAssign(i, j) =>
      if i == j then s
      else s.(handles := s.handles[i := s.handles[j]][j := s.handles[j].(owned := false)])
    case MarkSuccessful(i, v) => s.(handles := s.handles[i := s.handles[i].(successful := v)])
    case Destroy(i) =>
      var h := s.handles[i];
      var (active, log) := AfterDestruct(s.active, s.log, h.owned, h.successful);
      State(active, log, s.handles[i := h.(alive := false)])
    case Explicit(_, what) => Send(s, Sent(what, false))
  }

  ghost predicate PossibleRun(s: State, es: seq<Event>)
    decreases |es|
  {
    es == [] || (Possible(s, es[0]) && PossibleRun(Step(s, es[0]), es[1..]))
  }

  function Run(s: State, es: seq<Event>): State
    requires PossibleRun(s, es)
    decreases |es|
  {
    if es == [] then s else Run(Step(s, es[0]), es[1..])
  }

  /** The mark that the first destroyed object still owning the transaction carries. */
  function FirstDestroyed(s: State, es: seq<Event>): Option<bool>
    requires PossibleRun(s, es)
    decreases |es|
  {
    if es == [] then None
    else if es[0].Destroy? && s.handles[es[0].i].owned then Some(s.handles[es[0].i].successful)
    else FirstDestroyed(Step(s, es[0]), es[1..])
  }

  /** After the transaction is finished no destructor sends anything, whatever happens. */
  lemma {:induction false} SilentAfterFinish(s: State, es: seq<Event>)
    requires !s.active && PossibleRun(s, es)
    ensures var t := Run(s, es);
            !t.active && s.log <= t.log && forall k | |s.log| <= k < |t.log| :: !t.log[k].byDestructor
    decreases |es|
  {
    if es != [] {
      SilentAfterFinish(Step(s, es[0]), es[1..]);
    }
  }

  ghost predicate NoExplicit(es: seq<Event>) {
    forall k | 0 <= k < |es| :: !es[k].Explicit?
  }

  lemma {:induction false} QuietAfterFinish(s: State, es: seq<Event>)
    requires !s.active && PossibleRun(s, es) && NoExplicit(es)
    ensures Run(s, es).log == s.log
    decreases |es|
  {
    if es != [] {
      QuietAfterFinish(Step(s, es[0]), es[1..]);
    }
  }

  /** Without explicit finish: nothing is sent until an object owning the transaction is destroyed,
      then exactly one message, decided by the mark of that first object, and nothing ever after. */
  lemma {:induction false} FinishedExactlyOnce(s: State, es: seq<Event>)
    requires s.active && PossibleRun(s, es) && NoExplicit(es)
    ensures Run(s, es).log == s.log +
            match FirstDestroyed(s, es)
            case None => []
            case Some(ok) => [Sent(if ok then Commit else Rollback, true)]
    ensures Run(s, es).active <==> FirstDestroyed(s, es).None?
    decreases |es|
  {
    if es != [] {
      var t := Step(s, es[0]);
      if t.active {
        FinishedExactlyOnce(t, es[1..]);
      } else {
        QuietAfterFinish(t, es[1..]);
        SilentAfterFinish(t, es[1..]);
      }
    } else {
      assert s.log + [] == s.log;
    }
  }

  /** If any object that owns the transaction is destroyed, something was sent: the log holds
      exactly one message. */
  lemma ScopeEnds(es: seq<Event>)
    requires PossibleRun(STARTED, es) && NoExplicit(es)
    ensures |Run(STARTED, es).log| == if FirstDestroyed(STARTED, es).Some? then 1 else 0
  {
    FinishedExactlyOnce(STARTED, es);
  }

  /** An explicit finish while active is the only message from objects: no destructor adds one. */
  lemma ExplicitFinishIsLast(before: seq<Event>, s: State, e: Event, es: seq<Event>)
    requires PossibleRun(STARTED, before) && s == Run(STARTED, before) && NoExplicit(before) && s.active
    requires e.Explicit? && Possible(s, e) && PossibleRun(Step(s, e), es) && NoExplicit(es)
    ensures Run(Step(s, e), es).log == [Sent(e.what, false)]
  {
    FinishedExactlyOnce(STARTED, before);
    QuietAfterFinish(Step(s, e), es);
  }

  // ----- the objects -----

  class Connection {
    var active: bool
    var log: seq<Sent>

    constructor ()
      ensures !active && log == []
    {
      active, log := false, [];
    }

    method Send(m: Sent)
      modifies this
      ensures !active && log == old(log) + [m]
    {
      active := false;
      log := log + [m];
    }
  }

  class Tx {
    var successful: bool
    var session: Connection?

    constructor (session: Connection)
      ensures this.session == session && !successful
    {
      this.session, successful := session, false;
    }

    method Start()
      requires session != null
      modifies session
      ensures session.active && session.log == old(session.log)
    {
      session.active := true;
    }

    constructor CopyOf(other: Tx)
      ensures session == other.session && successful == other.successful
    {
      session, successful := other.session, other.successful;
    }

    constructor MoveFrom(other: Tx)
      modifies other
      ensures session == old(other.session) && successful == old(other.successful)
      ensures other.session == null && other.successful == old(other.successful)
    {
      session, successful := other.session, other.successful;
      new;
      other.session := null;
    }

    /** Copy assignment. */
    method AssignFrom(other: Tx)
      modifies this
      ensures session == old(other.session) && successful == old(other.successful)
    {
      session, successful := other.session, other.successful;
    }

    /** Move assignment; onto itself it changes nothing. */
    method MoveAssignFrom(other: Tx)
      modifies this, other
      ensures session == old(other.session) && successful == old(other.successful)
      ensures other != this ==> other.session == null && other.successful == old(other.successful)
    {
      if other != this {
        session, successful := other.session, other.successful;
        other.session := null;
      }
    }

    predicate IsActive()
      reads this, session
    {
      session != null && session.active
    }

    method SetSuccessful(value: bool)
      modifies this
      ensures successful == value && session == old(session)
    {
      successful := value;
    }

    method Finished(what: Finish, byDestructor: bool)
      requires session != null
      modifies session
      ensures !session.active && session.log == old(session.log) + [Sent(what, byDestructor)]
    {
      session.Send(Sent(what, byDestructor));
    }

    /** The destructor. */
    method Destruct()
      modifies session
      ensures session != null ==>
                (session.active, session.log) == AfterDestruct(old(session.active), old(session.log), true, successful)
    {
      if IsActive() {
        if successful {
          Finished(Commit, true);
        } else {
          Finished(Rollback, true);
        }
      }
    }
  }
}
