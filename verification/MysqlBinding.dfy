/** The mysql parameter binding with parameter mapping enabled: `$n` and named placeholders are
    rewritten to `?`, and binding an index or a name fills every position the placeholder stood at
    (src/mysql/binding.cpp:622-682, 711-747; src/bind_mapping.cpp:27-75). */
module MysqlBinding {
  import opened SqlText
  import opened SlotStore
  import opened MysqlCells

  /** A statement template, cut at its placeholders. */
  datatype Piece = Literal(text: string) | Question | Dollar(n: nat) | Name(name: string)

  type Template = seq<Piece>

  predicate IsIndexed(p: Piece) {
    p.Question? || p.Dollar?
  }

  /** All placeholders in order; position p of the statement is element p-1. */
  function Params(t: Template): seq<Piece> {
    if t == [] then []
    else Params(t[..|t| - 1]) + if t[|t| - 1].Literal? then [] else [t[|t| - 1]]
  }

  /** What `index_regex` finds. */
  function Indexed(t: Template): (r: seq<Piece>)
    ensures forall i | 0 <= i < |r| :: IsIndexed(r[i])
  {
    if t == [] then []
    else Indexed(t[..|t| - 1]) + if IsIndexed(t[|t| - 1]) then [t[|t| - 1]] else []
  }

  /** What `named_regex` finds. */
  function Names(t: Template): seq<string> {
    if t == [] then []
    else Names(t[..|t| - 1]) + if t[|t| - 1].Name? then [t[|t| - 1].name] else []
  }

  /** `regex_replace` of every placeholder by `?`. */
  function Rewrite(t: Template): Template {
    seq(|t|, i requires 0 <= i < |t| => if t[i].Literal? then t[i] else Question)
  }

  lemma {:induction false} RewriteKeepsPositions(t: Template)
    ensures |Params(Rewrite(t))| == |Params(t)|
    ensures forall p | 0 <= p < |Params(Rewrite(t))| :: Params(Rewrite(t))[p] == Question
    decreases |t|
  {
    if t != [] {
      RewriteKeepsPositions(t[..|t| - 1]);
      assert Rewrite(t)[..|t| - 1] == Rewrite(t[..|t| - 1]);
    }
  }

  /** The template with its placeholders replaced, in order, by the given ones. */
  function Restore(t: Template, ps: seq<Piece>): Template
    requires |Params(t)| == |ps|
  {
    if t == [] then []
    else
      var init, last := t[..|t| - 1], t[|t| - 1];
      if last.Literal? then Restore(init, ps) + [last]
      else Restore(init, ps[..|ps| - 1]) + [ps[|ps| - 1]]
  }

  /** Nothing but the placeholders is replaced: putting them back gives the template. */
  lemma {:induction false} RewriteRestores(t: Template)
    ensures |Params(Rewrite(t))| == |Params(t)| && Restore(Rewrite(t), Params(t)) == t
    decreases |t|
  {
    RewriteKeepsPositions(t);
    if t != [] {
      var init, last := t[..|t| - 1], t[|t| - 1];
      var u := Rewrite(t);
      RewriteRestores(init);
      assert u[..|t| - 1] == Rewrite(init) && t == init + [last];
      if last.Literal? {
        assert u[|t| - 1] == last && Params(t) == Params(init);
      } else {
        assert u[|t| - 1] == Question;
        assert Params(t)[..|Params(t)| - 1] == Params(init) && Params(t)[|Params(t)| - 1] == last;
      }
    }
  }

  // ----- positions -----

  function At(ps: seq<Piece>, p: nat): Piece
    requires 1 <= p <= |ps|
  {
    ps[p - 1]
  }

  /** The numbers at which `$k` occurs among the indexed placeholders. */
  function DollarPositions(ps: seq<Piece>, k: nat): (r: set<nat>)
    ensures forall p :: p in r <==> 1 <= p <= |ps| && At(ps, p) == Dollar(k)
  {
    if ps == [] then {}
    else
      var init := ps[..|ps| - 1];
      assert forall p | 1 <= p < |ps| :: At(ps, p) == At(init, p);
      DollarPositions(init, k) + if ps[|ps| - 1] == Dollar(k) then {|ps|} else {}
  }

  function NameAt(ns: seq<string>, p: nat): string
    requires 1 <= p <= |ns|
  {
    ns[p - 1]
  }

  /** The numbers given to a name: its places among the names, counted on from `base`. */
  function NamePositions(ns: seq<string>, name: string, base: nat): (r: set<nat>)
    ensures forall p :: p in r <==> base < p <= base + |ns| && NameAt(ns, p - base) == name
  {
    if ns == [] then {}
    else
      var init := ns[..|ns| - 1];
      assert forall p | 1 <= p < |ns| :: NameAt(ns, p) == NameAt(init, p);
      NamePositions(init, name, base) + if ns[|ns| - 1] == name then {base + |ns|} else {}
  }

  // ----- the maps that `prepare` fills -----

  ghost predicate IndexesFor(m: map<nat, set<nat>>, ps: seq<Piece>) {
    && (forall k :: k in m <==> Dollar(k) in ps)
    && (forall k | k in m :: m[k] == DollarPositions(ps, k))
  }

  ghost predicate NamesFor(m: map<string, set<nat>>, ns: seq<string>, base: nat) {
    && (forall n :: n in m <==> n in ns)
    && (forall n | n in m :: m[n] == NamePositions(ns, n, base))
  }

  method PrepareIndexes(t: Template) returns (indexes: map<nat, set<nat>>, index: nat)
    ensures IndexesFor(indexes, Indexed(t)) && index == |Indexed(t)|
  {
    indexes, index := map[], 0;
    var i := 0;
    while i < |t|
      invariant 0 <= i <= |t|
      invariant IndexesFor(indexes, Indexed(t[..i])) && index == |Indexed(t[..i])|
    {
      assert t[..i + 1][..i] == t[..i];
      ghost var ps, next := Indexed(t[..i]), Indexed(t[..i + 1]);
      match t[i] {
        case Question => index := index + 1;
        case Dollar(n) =>
          index := index + 1;
          indexes := indexes[n := (if n in indexes then indexes[n] else {}) + {index}];
        case _ =>
      }
      IndexesStep(ps, t[i], index, next);
      i := i + 1;
    }
    assert t[..i] == t;
  }

  lemma IndexesStep(ps: seq<Piece>, piece: Piece, index: nat, next: seq<Piece>)
    requires next == ps + (if IsIndexed(piece) then [piece] else []) && index == |next|
    ensures forall k :: Dollar(k) in next <==> Dollar(k) in ps || piece == Dollar(k)
    ensures forall k :: DollarPositions(next, k) == DollarPositions(ps, k) + if piece == Dollar(k) then {index} else {}
    ensures forall k :: Dollar(k) !in ps ==> DollarPositions(ps, k) == {}
  {
    forall k ensures DollarPositions(next, k) == DollarPositions(ps, k) + if piece == Dollar(k) then {index} else {} {
      if IsIndexed(piece) {
        assert next[..|next| - 1] == ps;
      } else {
        assert next == ps;
      }
    }
    forall k | Dollar(k) !in ps ensures DollarPositions(ps, k) == {} {
      assert forall p | 1 <= p <= |ps| :: At(ps, p) in ps;
    }
  }

  method PrepareNames(t: Template, maxIndex: nat) returns (mappings: map<string, set<nat>>)
    ensures NamesFor(mappings, Names(t), maxIndex)
  {
    mappings := map[];
    var index := maxIndex;
    var i := 0;
    while i < |t|
      invariant 0 <= i <= |t|
      invariant NamesFor(mappings, Names(t[..i]), maxIndex) && index == maxIndex + |Names(t[..i])|
    {
      assert t[..i + 1][..i] == t[..i];
      if t[i].Name? {
        index := index + 1;
        var name := t[i].name;
        NamesStep(mappings, Names(t[..i]), name, maxIndex);
        mappings := mappings[name := (if name in mappings then mappings[name] else {}) + {index}];
      } else {
        assert Names(t[..i + 1]) == Names(t[..i]);
      }
      i := i + 1;
    }
    assert t[..i] == t;
  }

  lemma NamesStep(m: map<string, set<nat>>, ns: seq<string>, name: string, base: nat)
    requires NamesFor(m, ns, base)
    ensures NamesFor(m[name := (if name in m then m[name] else {}) + {base + |ns| + 1}], ns + [name], base)
  {
    var next := ns + [name];
    assert next[..|next| - 1] == ns;
    assert name in next;
    if name !in ns {
      assert forall p | 1 <= p <= |ns| :: NameAt(ns, p) in ns;
      assert NamePositions(ns, name, base) == {};
    }
    forall n ensures n in next <==> n in ns || n == name {
      if n in ns {
        var i :| 0 <= i < |ns| && ns[i] == n;
        assert next[i] == n;
      }
    }
  }

  // ----- numbering is right exactly when names come last -----

  function NamePieces(ns: seq<string>): (r: seq<Piece>)
    ensures |r| == |ns|
  {
    seq(|ns|, i requires 0 <= i < |ns| => Name(ns[i]))
  }

  predicate NamesLast(t: Template) {
    Params(t) == Indexed(t) + NamePieces(Names(t))
  }

  /** The slot numbers handed to the placeholders, in the order of the placeholders. */
  function Numbers(t: Template, total: nat): seq<nat> {
    if t == [] then []
    else
      var init, last := t[..|t| - 1], t[|t| - 1];
      Numbers(init, total)
      + if last.Literal? then []
        else if last.Name? then [total + |Names(init)| + 1]
        else [|Indexed(init)| + 1]
  }

  lemma {:induction false} Counts(t: Template, total: nat)
    ensures |Params(t)| == |Indexed(t)| + |Names(t)| == |Numbers(t, total)|
    decreases |t|
  {
    if t != [] {
      Counts(t[..|t| - 1], total);
    }
  }

  ghost predicate InOrder(ns: seq<nat>) {
    forall i | 0 <= i < |ns| :: ns[i] == i + 1
  }

  lemma InOrderSnoc(ns: seq<nat>, n: nat)
    ensures InOrder(ns + [n]) <==> InOrder(ns) && n == |ns| + 1
  {
    var all := ns + [n];
    assert forall i | 0 <= i < |ns| :: all[i] == ns[i];
    assert all[|ns|] == n;
  }

  /** Once a name was seen in order, all indexed placeholders were seen before it. */
  lemma {:induction false} NumbersInOrder(t: Template, total: nat)
    requires |Indexed(t)| <= total
    ensures InOrder(Numbers(t, total)) <==> NamesLast(t) && (Names(t) == [] || |Indexed(t)| == total)
    decreases |t|
  {
    if t != [] {
      var init, last := t[..|t| - 1], t[|t| - 1];
      NumbersInOrder(init, total);
      Counts(init, total);
      var ns := Numbers(init, total);
      assert t == init + [last];
      match last {
        case Literal(_) =>
          LiteralAppended(init, last, total);
        case Name(n) =>
          NameAppended(init, n);
          InOrderSnoc(ns, total + |Names(init)| + 1);
        case _ =>
          IndexAppended(init, last);
          InOrderSnoc(ns, |Indexed(init)| + 1);
      }
    }
  }

  lemma LiteralAppended(t: Template, p: Piece, total: nat)
    requires p.Literal?
    ensures var u := t + [p];
            Numbers(u, total) == Numbers(t, total) && Params(u) == Params(t) && Indexed(u) == Indexed(t) && Names(u) == Names(t)
  {
    var u := t + [p];
    assert u[..|u| - 1] == t;
  }

  lemma NameAppended(t: Template, n: string)
    ensures NamesLast(t + [Name(n)]) <==> NamesLast(t)
  {
    var u := t + [Name(n)];
    assert u[..|u| - 1] == t;
    assert NamePieces(Names(u)) == NamePieces(Names(t)) + [Name(n)];
    assert Params(u) == Params(t) + [Name(n)];
    assert Indexed(u) + NamePieces(Names(u)) == (Indexed(t) + NamePieces(Names(t))) + [Name(n)];
    if NamesLast(u) {
      assert Params(t) == Params(u)[..|Params(u)| - 1];
      assert Indexed(t) + NamePieces(Names(t)) == (Indexed(u) + NamePieces(Names(u)))[..|Params(u)| - 1];
    }
  }

  lemma IndexAppended(t: Template, p: Piece)
    requires IsIndexed(p)
    ensures NamesLast(t + [p]) <==> NamesLast(t) && Names(t) == []
  {
    var u := t + [p];
    assert u[..|u| - 1] == t;
    var idx, nms, ps := Indexed(t), Names(t), Params(t);
    assert Indexed(u) == idx + [p] && Names(u) == nms && Params(u) == ps + [p];
    SplitOnce(ps, idx, NamePieces(nms), p);
  }

  lemma SplitOnce(ps: seq<Piece>, idx: seq<Piece>, names: seq<Piece>, p: Piece)
    requires !p.Name? && forall i | 0 <= i < |names| :: names[i].Name?
    ensures ps + [p] == idx + [p] + names <==> ps == idx + names && names == []
  {
    if names == [] {
      assert idx + [p] + names == idx + [p] && idx + names == idx;
      assert (ps + [p])[..|ps|] == ps && (idx + [p])[..|idx|] == idx;
    } else {
      var all := idx + [p] + names;
      assert all[|all| - 1] == names[|names| - 1];
      assert (ps + [p])[|ps|] == p;
    }
  }

  /** The slot numbers are the positions of the placeholders exactly when no indexed placeholder
      follows a name. */
  lemma NumberingIff(t: Template)
    ensures InOrder(Numbers(t, |Indexed(t)|)) <==> NamesLast(t)
  {
    NumbersInOrder(t, |Indexed(t)|);
  }

  // ----- what a bind reaches -----

  datatype Request = ByIndex(index: nat, value: Parameter) | ByName(name: string, value: Parameter)

  /** Whether the placeholder at position p is the one the request speaks of. */
  predicate Refers(piece: Piece, p: nat, r: Request) {
    match r
    case ByIndex(k, _) => piece == Dollar(k) || (piece == Question && p == k)
    case ByName(n, _) => piece == Name(n)
  }

  ghost predicate Covers(t: Template, r: Request) {
    exists p :: 1 <= p <= |Params(t)| && Refers(At(Params(t), p), p, r)
  }

  /** Only `?` or only `$n` among the indexed placeholders. */
  ghost predicate OneStyle(t: Template) {
    || (forall i | 0 <= i < |Indexed(t)| :: Indexed(t)[i] == Question)
    || (forall i | 0 <= i < |Indexed(t)| :: Indexed(t)[i].Dollar?)
  }

  /** No `$n` beyond the number of indexed placeholders. */
  ghost predicate WithinCount(t: Template) {
    forall k | k > |Indexed(t)| :: Dollar(k) !in Indexed(t)
  }

  /** No `$k` while the k-th indexed placeholder is a `?`. */
  ghost predicate Unmixed(t: Template) {
    forall k: nat | Dollar(k) in Indexed(t) && 1 <= k <= |Indexed(t)| :: At(Indexed(t), k) != Question
  }

  /** No `$k` with a number that a name was given. */
  ghost predicate Unshadowed(t: Template) {
    forall k | |Indexed(t)| < k <= |Indexed(t)| + |Names(t)| :: Dollar(k) !in Indexed(t)
  }

  /** Templates in one style with its numbers in range are among them. */
  lemma OneStyleSuffices(t: Template)
    requires OneStyle(t) && WithinCount(t)
    ensures Unmixed(t) && Unshadowed(t)
  {
    forall k: nat | Dollar(k) in Indexed(t) && 1 <= k <= |Indexed(t)| ensures At(Indexed(t), k) != Question {
      var i :| 0 <= i < |Indexed(t)| && Indexed(t)[i] == Dollar(k);
    }
  }

  /** `get_indexes` without its insertion. */
  function Slots(indexes: map<nat, set<nat>>, k: nat): set<nat> {
    if k in indexes && indexes[k] != {} then indexes[k] else {k}
  }

  /** The slots that binding index k writes. */
  ghost function IndexReach(t: Template, k: nat): set<nat> {
    if Dollar(k) in Indexed(t) then DollarPositions(Indexed(t), k) else {k}
  }

  /** The slots a request writes.  A name is bound through the index binding of each of its numbers;
      a name that does not occur throws and writes none. */
  ghost function Reach(t: Template, r: Request): set<nat> {
    match r
    case ByIndex(k, _) => IndexReach(t, k)
    case ByName(n, _) => set p, q | p in NamePositions(Names(t), n, |Indexed(t)|) && q in IndexReach(t, p) :: q
  }

  /** On such templates with names last, a covered request writes exactly the positions of its
      placeholder: reused `$n` and repeated names included. */
  lemma ReachIsMeant(t: Template, r: Request)
    requires NamesLast(t) && Unmixed(t) && Unshadowed(t) && (r.ByIndex? ==> Covers(t, r))
    ensures forall p | 1 <= p <= |Params(t)| :: p in Reach(t, r) <==> Refers(At(Params(t), p), p, r)
    ensures forall p | p in Reach(t, r) :: 1 <= p <= |Params(t)|
  {
    if r.ByIndex? {
      IndexReachIsMeant(t, r);
    } else {
      NameReachIff(t, r.name, r.value);
      NamePositionsAreMeant(t, r.name);
    }
  }

  lemma NamePositionsAreMeant(t: Template, n: string)
    requires NamesLast(t)
    ensures var positions := NamePositions(Names(t), n, |Indexed(t)|);
            && (forall p | 1 <= p <= |Params(t)| :: p in positions <==> At(Params(t), p) == Name(n))
            && (forall p | p in positions :: |Indexed(t)| < p <= |Params(t)|)
  {
    PositionsSplit(t);
    assert forall p | 1 <= p <= |Indexed(t)| :: IsIndexed(At(Indexed(t), p));
  }

  lemma IndexReachIsMeant(t: Template, r: Request)
    requires NamesLast(t) && Unmixed(t) && r.ByIndex? && Covers(t, r)
    ensures forall p | 1 <= p <= |Params(t)| :: p in Reach(t, r) <==> Refers(At(Params(t), p), p, r)
    ensures forall p | p in Reach(t, r) :: 1 <= p <= |Params(t)|
  {
    var ps, idx := Params(t), Indexed(t);
    PositionsSplit(t);
    var q :| 1 <= q <= |ps| && Refers(At(ps, q), q, r);
    assert q <= |idx| && At(ps, q) == At(idx, q);
    AtIsMember(idx, q);
    IndexMeantIff(t, r.index, r.value);
  }

  /** Binding an index writes the positions of its placeholder and no other exactly when the slot of
      that number, or the `?` at it, is not taken for another: a `$k` must not hide a `?` at k, and an
      index that no placeholder has still writes the slot of its number. */
  lemma IndexMeantIff(t: Template, k: nat, v: Parameter)
    requires NamesLast(t)
    ensures (forall p | 1 <= p <= |Params(t)| ::
               p in Reach(t, ByIndex(k, v)) <==> Refers(At(Params(t), p), p, ByIndex(k, v)))
            <==> if Dollar(k) in Indexed(t) then !(1 <= k <= |Indexed(t)| && At(Indexed(t), k) == Question)
                 else k == 0 || k > |Params(t)| || At(Params(t), k) == Question
  {
    var r, ps, idx := ByIndex(k, v), Params(t), Indexed(t);
    PositionsSplit(t);
    if Dollar(k) in idx {
      if 1 <= k <= |idx| {
        assert k in Reach(t, r) <==> At(ps, k) == Dollar(k);
      }
    } else {
      assert Reach(t, r) == {k};
      forall p | 1 <= p <= |ps| ensures At(ps, p) != Dollar(k) {
        if p <= |idx| {
          AtIsMember(idx, p);
        }
      }
    }
  }

  lemma AtIsMember(ps: seq<Piece>, p: nat)
    requires 1 <= p <= |ps|
    ensures At(ps, p) in ps
  {
  }

  /** A `$k` whose number was also given to the name draws the named value to its own positions. */
  lemma NameReachIff(t: Template, n: string, v: Parameter)
    requires NamesLast(t)
    ensures var positions := NamePositions(Names(t), n, |Indexed(t)|);
            Reach(t, ByName(n, v)) == positions <==> forall p | p in positions :: Dollar(p) !in Indexed(t)
  {
    var positions := NamePositions(Names(t), n, |Indexed(t)|);
    if forall p | p in positions :: Dollar(p) !in Indexed(t) {
      assert forall p | p in positions :: IndexReach(t, p) == {p};
      assert Reach(t, ByName(n, v)) == positions;
    } else {
      var p :| p in positions && Dollar(p) in Indexed(t);
      var i :| 0 <= i < |Indexed(t)| && Indexed(t)[i] == Dollar(p);
      assert At(Indexed(t), i + 1) == Dollar(p);
      assert i + 1 in IndexReach(t, p) && i + 1 in Reach(t, ByName(n, v)) && i + 1 !in positions;
    }
  }

  lemma PositionsSplit(t: Template)
    requires NamesLast(t)
    ensures |Params(t)| == |Indexed(t)| + |Names(t)|
    ensures forall p | 1 <= p <= |Indexed(t)| :: At(Params(t), p) == At(Indexed(t), p)
    ensures forall p | |Indexed(t)| < p <= |Params(t)| ::
              At(Params(t), p) == Name(NameAt(Names(t), p - |Indexed(t)|))
  {
  }

  // ----- whole runs -----

  function Assign(m: map<nat, Cell>, slots: set<nat>, cell: Cell): map<nat, Cell> {
    m + map p | p in slots && p != 0 :: cell
  }

  lemma AssignOne(m: map<nat, Cell>, i: nat, cell: Cell)
    ensures Assign(m, {i}, cell) == if i == 0 then m else m[i := cell]
  {
  }

  lemma AssignNone(m: map<nat, Cell>, cell: Cell)
    ensures Assign(m, {}, cell) == m
  {
  }

  lemma AssignTwice(m: map<nat, Cell>, a: set<nat>, b: set<nat>, cell: Cell)
    ensures Assign(Assign(m, a, cell), b, cell) == Assign(m, a + b, cell)
  {
  }

  /** The slots after a sequence of requests. */
  ghost function After(t: Template, m: map<nat, Cell>, rs: seq<Request>): map<nat, Cell> {
    if rs == [] then m
    else
      var r := rs[|rs| - 1];
      Assign(After(t, m, rs[..|rs| - 1]), Reach(t, r), Encode(r.value))
  }

  /** The last value bound to the placeholder that stood at position p. */
  function LastFor(t: Template, rs: seq<Request>, p: nat): Option<Parameter>
    requires 1 <= p <= |Params(t)|
  {
    if rs == [] then None
    else
      var r := rs[|rs| - 1];
      if Refers(At(Params(t), p), p, r) then Some(r.value) else LastFor(t, rs[..|rs| - 1], p)
  }

  ghost predicate AllCovered(t: Template, rs: seq<Request>) {
    forall i | 0 <= i < |rs| :: rs[i].ByIndex? ==> Covers(t, rs[i])
  }

  /** Every position holds the last value bound to its placeholder, and nothing else is held. */
  ghost predicate Meant(t: Template, m: map<nat, Cell>, rs: seq<Request>) {
    && (forall p | p in m :: 1 <= p <= |Params(t)|)
    && (forall p | 1 <= p <= |Params(t)| ::
          if LastFor(t, rs, p).Some? then p in m && m[p] == Encode(LastFor(t, rs, p).value) else p !in m)
  }

  lemma MeantStep(t: Template, m: map<nat, Cell>, rs: seq<Request>, r: Request)
    requires Meant(t, m, rs)
    requires forall p | 1 <= p <= |Params(t)| :: p in Reach(t, r) <==> Refers(At(Params(t), p), p, r)
    requires forall p | p in Reach(t, r) :: 1 <= p <= |Params(t)|
    ensures Meant(t, Assign(m, Reach(t, r), Encode(r.value)), rs + [r])
  {
    var all := rs + [r];
    assert all[..|all| - 1] == rs && all[|all| - 1] == r;
  }

  /** The rewriting preserves meaning: after any requests for placeholders of the template, position
      p of the rewritten statement holds the last value bound to the placeholder it replaced, and
      nothing where that placeholder was never bound. */
  lemma {:induction false} RewritingPreservesMeaning(t: Template, rs: seq<Request>)
    requires NamesLast(t) && Unmixed(t) && Unshadowed(t) && AllCovered(t, rs)
    ensures Meant(t, After(t, map[], rs), rs)
    decreases |rs|
  {
    if rs != [] {
      var init, r := rs[..|rs| - 1], rs[|rs| - 1];
      RewritingPreservesMeaning(t, init);
      ReachIsMeant(t, r);
      MeantStep(t, After(t, map[], init), init, r);
      assert init + [r] == rs;
    }
  }

  // ----- exactly which templates are rewritten without changing their meaning -----

  lemma {:induction false} PrefixCounts(t: Template, i: nat)
    requires i <= |t|
    ensures |Indexed(t[..i])| <= |Indexed(t)|
    ensures i < |t| && t[i].Name? ==> Names(t) != []
    decreases |t|
  {
    if i < |t| {
      PrefixCounts(t[..|t| - 1], i);
      assert t[..|t| - 1][..i] == t[..i];
    } else {
      assert t[..i] == t;
    }
  }

  /** The placeholder t[i] stands at the position after the placeholders before it. */
  lemma {:induction false} PieceAt(t: Template, i: nat)
    requires i < |t| && !t[i].Literal?
    ensures |Params(t[..i])| < |Params(t)| && At(Params(t), |Params(t[..i])| + 1) == t[i]
    decreases |t|
  {
    if i < |t| - 1 {
      PieceAt(t[..|t| - 1], i);
      assert t[..|t| - 1][..i] == t[..i];
    }
  }

  /** The o-th indexed placeholder stands at some position from o on, and further on than o if it
      follows the name t[i]. */
  lemma {:induction false} IndexedPosition(t: Template, o: nat, i: nat) returns (p: nat)
    requires 1 <= o <= |Indexed(t)| && i < |t| && t[i].Name? && |Indexed(t[..i])| < o
    ensures o < p <= |Params(t)| && At(Params(t), p) == At(Indexed(t), o)
    decreases |t|
  {
    var init, last := t[..|t| - 1], t[|t| - 1];
    if IsIndexed(last) && o == |Indexed(t)| {
      p := |Params(t)|;
      Counts(t, 0);
      PrefixCounts(t, i);
    } else {
      assert init[..i] == t[..i];
      p := IndexedPosition(init, o, i);
    }
  }

  lemma {:induction false} FirstName(t: Template) returns (i: nat)
    requires Names(t) != []
    ensures i < |t| && t[i].Name? && Names(t[..i]) == []
    decreases |t|
  {
    var init := t[..|t| - 1];
    if Names(init) == [] {
      i := |t| - 1;
    } else {
      i := FirstName(init);
      assert init[..i] == t[..i];
    }
  }

  /** If names do not come last, an indexed placeholder follows the first name. */
  lemma {:induction false} NameBeforeIndex(t: Template) returns (i: nat)
    requires !NamesLast(t)
    ensures i < |t| && t[i].Name? && Names(t[..i]) == [] && |Indexed(t[..i])| < |Indexed(t)|
    decreases |t|
  {
    var init, last := t[..|t| - 1], t[|t| - 1];
    assert t == init + [last];
    if last.Name? {
      NameAppended(init, last.name);
    } else if IsIndexed(last) {
      IndexAppended(init, last);
    }
    if NamesLast(init) {
      i := FirstName(init);
      PrefixCounts(init, i);
    } else {
      i := NameBeforeIndex(init);
    }
    assert init[..i] == t[..i];
  }

  lemma {:induction false} LastDollar(ps: seq<Piece>, k: nat, p: nat) returns (o: nat)
    requires 1 <= p <= |ps| && At(ps, p) == Dollar(k)
    ensures p <= o <= |ps| && At(ps, o) == Dollar(k) && forall q | o < q <= |ps| :: At(ps, q) != Dollar(k)
    decreases |ps| - p
  {
    if q :| p < q <= |ps| && At(ps, q) == Dollar(k) {
      o := LastDollar(ps, k, q);
    } else {
      o := p;
    }
  }

  /** Position p belongs to the request but is not reached, or the other way round. */
  ghost predicate Missed(t: Template, r: Request, p: nat) {
    1 <= p <= |Params(t)| && (p in Reach(t, r) <==> !Refers(At(Params(t), p), p, r))
  }

  lemma MissedIsWrong(t: Template, r: Request, p: nat)
    requires Missed(t, r, p)
    ensures !Meant(t, After(t, map[], [r]), [r])
  {
    assert [r][..0] == [];
    assert After(t, map[], [r]) == Assign(map[], Reach(t, r), Encode(r.value));
    assert LastFor(t, [r], p) == if Refers(At(Params(t), p), p, r) then Some(r.value) else None;
  }

  /** A name before an indexed placeholder: the name or a `$k` misses a position. */
  lemma MisnumberedMisses(t: Template) returns (r: Request, p: nat)
    requires !NamesLast(t)
    ensures Missed(t, r, p) && (r.ByIndex? ==> Covers(t, r))
  {
    var i := NameBeforeIndex(t);
    PieceAt(t, i);
    Counts(t[..i], 0);
    r, p := ByName(t[i].name, Missing), |Params(t[..i])| + 1;
    if p in Reach(t, r) {
      var q :| q in NamePositions(Names(t), t[i].name, |Indexed(t)|) && p in IndexReach(t, q);
      assert At(Indexed(t), p) == Dollar(q);
      AtIsMember(Indexed(t), p);
      var o := LastDollar(Indexed(t), q, p);
      r := ByIndex(q, Missing);
      p := IndexedPosition(t, o, i);
      assert Refers(At(Params(t), p), p, r);
    }
  }

  lemma MixedMisses(t: Template) returns (r: Request, p: nat)
    requires NamesLast(t) && !Unmixed(t)
    ensures Missed(t, r, p) && Covers(t, r)
  {
    PositionsSplit(t);
    var k: nat :| Dollar(k) in Indexed(t) && 1 <= k <= |Indexed(t)| && At(Indexed(t), k) == Question;
    r, p := ByIndex(k, Missing), k;
    assert Refers(At(Params(t), p), p, r);
  }

  lemma ShadowedMisses(t: Template) returns (r: Request, p: nat)
    requires NamesLast(t) && !Unshadowed(t)
    ensures Missed(t, r, p) && r.ByName?
  {
    PositionsSplit(t);
    var k :| |Indexed(t)| < k <= |Indexed(t)| + |Names(t)| && Dollar(k) in Indexed(t);
    var i :| 0 <= i < |Indexed(t)| && Indexed(t)[i] == Dollar(k);
    r, p := ByName(NameAt(Names(t), k - |Indexed(t)|), Missing), i + 1;
    assert At(Indexed(t), p) == Dollar(k);
    assert k in NamePositions(Names(t), r.name, |Indexed(t)|) && p in IndexReach(t, k);
  }

  lemma MissingRequest(t: Template) returns (r: Request, p: nat)
    requires !(NamesLast(t) && Unmixed(t) && Unshadowed(t))
    ensures Missed(t, r, p) && (r.ByIndex? ==> Covers(t, r))
  {
    if !NamesLast(t) {
      r, p := MisnumberedMisses(t);
    } else if !Unmixed(t) {
      r, p := MixedMisses(t);
    } else {
      r, p := ShadowedMisses(t);
    }
  }

  /** A template keeps its meaning under all requests for its placeholders exactly when names come
      last, no `$k` hides a `?` at k, and no `$k` has the number of a name. */
  lemma RewritingPreservesMeaningIff(t: Template)
    ensures (forall rs: seq<Request> | AllCovered(t, rs) :: Meant(t, After(t, map[], rs), rs))
            <==> NamesLast(t) && Unmixed(t) && Unshadowed(t)
  {
    if NamesLast(t) && Unmixed(t) && Unshadowed(t) {
      forall rs: seq<Request> | AllCovered(t, rs) ensures Meant(t, After(t, map[], rs), rs) {
        RewritingPreservesMeaning(t, rs);
      }
    } else {
      var r, p := MissingRequest(t);
      MissedIsWrong(t, r, p);
      assert AllCovered(t, [r]);
    }
  }

  // ----- the object -----

  class Binding {
    var value: array<Cell>
    var size: nat
    var indexes: map<nat, set<nat>>
    var mappings: map<string, set<nat>>

    ghost var template: Template
    ghost var bound: map<nat, Cell>

    ghost predicate Valid()
      reads this, value
    {
      && value.Length == size && Represents(value[..], bound, ZERO)
      && (forall k :: Slots(indexes, k) == IndexReach(template, k))
      && NamesFor(mappings, Names(template), |Indexed(template)|)
    }

    constructor (n: nat)
      ensures Valid() && fresh(value) && bound == map[] && template == []
    {
      value := new Cell[n](i => ZERO);
      size, indexes, mappings := n, map[], map[];
      template, bound := [], map[];
    }

    /** `prepare`: number the placeholders and replace them; slots already bound stay. */
    method Prepare(t: Template) returns (sql: Template)
      requires Valid()
      modifies this
      ensures Valid() && template == t && bound == old(bound) && value == old(value) && sql == Rewrite(t)
      ensures |Params(sql)| == |Params(t)| && Restore(sql, Params(t)) == t
    {
      var index;
      indexes, index := PrepareIndexes(t);
      mappings := PrepareNames(t, index);
      template := t;
      SlotsAreReach(indexes, t);
      sql := Rewrite(t);
      RewriteRestores(t);
    }

    method ReallocateValue(index: nat) returns (ok: bool)
      requires value.Length == size
      modifies this`value, this`size, value
      ensures value.Length == size && (value == old(value) || fresh(value)) && ok == (index != 0)
      ensures value[..] == if ok then Reserve(old(value[..]), ZERO, index) else old(value[..])
    {
      if index == 0 {
        return false;
      }
      if index <= size {
        value[index - 1] := ZERO;
        return true;
      }
      ghost var before := value[..];
      var grown := new Cell[index + INCREMENT](i => ZERO);
      var i := 0;
      while i < size
        invariant 0 <= i <= size && value == old(value) && size == old(size) && value[..] == before
        invariant forall k | 0 <= k < i :: grown[k] == before[k]
        invariant forall k | i <= k < grown.Length :: grown[k] == ZERO
      {
        grown[i] := value[i];
        i := i + 1;
      }
      value, size := grown, index + INCREMENT;
      assert value[..] == before + Zeros(size - |before|, ZERO);
      return true;
    }

    /** Write one slot. */
    method BindSlot(i: nat, v: Parameter) returns (ok: bool)
      requires value.Length == size && Represents(value[..], bound, ZERO)
      modifies this`value, this`size, this`bound, value
      ensures value.Length == size && (value == old(value) || fresh(value)) && ok == (i != 0)
      ensures bound == Assign(old(bound), {i}, Encode(v))
      ensures Represents(value[..], bound, ZERO)
    {
      StoreRepresents(value[..], bound, ZERO, i, Encode(v));
      AssignOne(bound, i, Encode(v));
      ok := ReallocateValue(i);
      if ok {
        value[i - 1] := Encode(v);
        bound := bound[i := Encode(v)];
        assert value[..] == Store(old(value[..]), ZERO, i, Encode(v));
      }
    }

    /** Write every slot of a set; slot 0, which is only ever alone, ends the loop. */
    method BindSlots(slots: set<nat>, v: Parameter)
      requires value.Length == size && Represents(value[..], bound, ZERO) && (0 in slots ==> slots == {0})
      modifies this`value, this`size, this`bound, value
      ensures value.Length == size && (value == old(value) || fresh(value))
      ensures Represents(value[..], bound, ZERO) && bound == Assign(old(bound), slots, Encode(v))
    {
      var left := slots;
      ghost var done: set<nat> := {};
      AssignNone(bound, Encode(v));
      while left != {}
        invariant done + left == slots && value.Length == size && (value == old(value) || fresh(value))
        invariant Represents(value[..], bound, ZERO)
        invariant bound == Assign(old(bound), done, Encode(v))
        decreases |left|
      {
        var i :| i in left;
        AssignTwice(old(bound), done, {i}, Encode(v));
        MoveMember(done, left, i);
        var ok := BindSlot(i, v);
        left, done := left - {i}, done + {i};
        if !ok {
          break;
        }
      }
      assert done == slots;
    }

    /** `bind(index, value)`: every slot of the index, remembering a new index as its own slot. */
    method BindIndex(k: nat, v: Parameter)
      requires Valid()
      modifies this`value, this`size, this`bound, this`indexes, value
      ensures Valid() && (value == old(value) || fresh(value))
      ensures bound == Assign(old(bound), IndexReach(template, k), Encode(v))
    {
      assert Slots(indexes, k) == IndexReach(template, k);
      if k !in indexes || indexes[k] == {} {
        indexes := indexes[k := {k}];
      }
      assert indexes[k] == IndexReach(template, k);
      BindSlots(indexes[k], v);
    }

    /** `bind(name, value)`; `false` is the thrown error for an unknown name. */
    method BindName(name: string, v: Parameter) returns (ok: bool)
      requires Valid()
      modifies this`value, this`size, this`bound, this`indexes, value
      ensures Valid() && (value == old(value) || fresh(value)) && ok == (name in Names(template))
      ensures bound == Assign(old(bound), Reach(template, ByName(name, v)), Encode(v))
    {
      ok := name in mappings;
      if !ok {
        NoNameNoReach(template, name, v);
        return;
      }
      BindIndexes(mappings[name], v);
      assert ReachOf(template, mappings[name]) == Reach(template, ByName(name, v));
    }

    /** One more index, after the slots of `reach` were written. */
    method BindMore(p: nat, v: Parameter, ghost before: map<nat, Cell>, ghost reach: set<nat>)
      requires Valid() && bound == Assign(before, reach, Encode(v))
      modifies this`value, this`size, this`bound, this`indexes, value
      ensures Valid() && (value == old(value) || fresh(value))
      ensures bound == Assign(before, reach + IndexReach(template, p), Encode(v))
    {
      AssignTwice(before, reach, IndexReach(template, p), Encode(v));
      BindIndex(p, v);
    }

    method BindIndexes(positions: set<nat>, v: Parameter)
      requires Valid()
      modifies this`value, this`size, this`bound, this`indexes, value
      ensures Valid() && (value == old(value) || fresh(value))
      ensures bound == Assign(old(bound), ReachOf(template, positions), Encode(v))
    {
      var left := positions;
      ghost var before, done: set<nat> := bound, {};
      AssignNone(bound, Encode(v));
      assert ReachOf(template, {}) == {};
      while left != {}
        invariant Valid() && (value == old(value) || fresh(value))
        invariant bound == Assign(before, ReachOf(template, done), Encode(v))
        invariant done + left == positions
        decreases |left|
      {
        var p :| p in left;
        ReachGrows(template, done, p);
        MoveMember(done, left, p);
        BindMore(p, v, before, ReachOf(template, done));
        left, done := left - {p}, done + {p};
      }
      assert done == positions;
    }
  }

  lemma MoveMember(done: set<nat>, left: set<nat>, i: nat)
    requires i in left
    ensures (done + {i}) + (left - {i}) == done + left
  {
  }

  lemma NoNameNoReach(t: Template, name: string, v: Parameter)
    requires name !in Names(t)
    ensures Reach(t, ByName(name, v)) == {}
  {
    assert forall p | 1 <= p <= |Names(t)| :: NameAt(Names(t), p) in Names(t);
    assert NamePositions(Names(t), name, |Indexed(t)|) == {};
  }

  ghost function ReachOf(t: Template, ps: set<nat>): set<nat> {
    set p, q | p in ps && q in IndexReach(t, p) :: q
  }

  lemma ReachGrows(t: Template, ps: set<nat>, p: nat)
    ensures ReachOf(t, ps + {p}) == ReachOf(t, ps) + IndexReach(t, p)
  {
  }

  lemma SlotsAreReach(indexes: map<nat, set<nat>>, t: Template)
    requires IndexesFor(indexes, Indexed(t))
    ensures forall k :: Slots(indexes, k) == IndexReach(t, k)
  {
    forall k | k in indexes ensures indexes[k] != {} {
      var i :| 0 <= i < |Indexed(t)| && Indexed(t)[i] == Dollar(k);
      assert At(Indexed(t), i + 1) == Dollar(k);
      assert i + 1 in DollarPositions(Indexed(t), k);
    }
  }
}
