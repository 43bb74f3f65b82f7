/** The SQL text that the library assembles, cut into the pieces the proofs need.

    A rendered statement or condition is a sequence of tokens.  A predicate that the search
    condition grammar never looks into is one `Atom`; the connectives and the parentheses
    printed by a where clause are tokens of their own, and so is each parameter placeholder.
 */
module SqlText {

  datatype Option<+T> = None | Some(value: T)

  /** A predicate of a WHERE clause: text supplied by the caller, or a comparison that the
      where builder prints with the placeholder of one parameter. */
  datatype Predicate =
    | Raw(text: string)
    | Compare(lvalue: string, operator: string, index: nat)

  datatype Token =
    | Word(text: string)
    | Param(index: nat)
    | Atom(test: Predicate)
    | KwAnd
    | KwOr
    | Open
    | Close

  type Text = seq<Token>

  /** The placeholder numbers of a text, in textual order. */
  function Placeholders(ts: Text): (ns: seq<nat>)
  {
    if ts == [] then []
    else
      (match ts[0]
       case Param(n) => [n]
       case Atom(Compare(_, _, n)) => [n]
       case _ => []) + Placeholders(ts[1..])
  }

  lemma {:induction false} PlaceholdersConcat(a: Text, b: Text)
    ensures Placeholders(a + b) == Placeholders(a) + Placeholders(b)
  {
    if a == [] {
      assert a + b == b;
    } else {
      assert (a + b)[0] == a[0] && (a + b)[1..] == a[1..] + b;
      PlaceholdersConcat(a[1..], b);
    }
  }

  // ----- regrouping concatenations -----

  lemma Regroup<T>(a: seq<T>, b: seq<T>, c: seq<T>)
    ensures (a + b) + c == a + (b + c)
  {
  }

  lemma RegroupFour<T>(a: seq<T>, b: seq<T>, c: seq<T>, d: seq<T>)
    ensures a + (b + (c + d)) == a + b + c + d
    ensures a + (b + c + d) == a + b + c + d
    ensures (a + b) + (c + d) == a + b + c + d
  {
  }
}
