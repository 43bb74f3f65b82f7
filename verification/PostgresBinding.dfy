/** The postgres parameter binding of src/postgres/binding.cpp: four parallel arrays that refine one
    map, and the parameter count that execution passes on. */
module PostgresBinding {
  import opened SqlText
  import opened SlotStore
  import opened PostgresCells

  /** `c_alloc(value, num, oldSize)`: a longer array with the old elements, the rest zero. */
  method Reallocate<T>(a: array<T>, n: nat, zero: T) returns (b: array<T>)
    requires a.Length <= n
    ensures fresh(b) && b.Length == n
    ensures b[..] == a[..] + Zeros(n - a.Length, zero)
  {
    b := new T[n](i => zero);
    var i := 0;
    while i < a.Length
      invariant 0 <= i <= a.Length
      invariant forall k | 0 <= k < i :: b[k] == a[k]
      invariant forall k | i <= k < n :: b[k] == zero
      invariant a[..] == old(a[..])
    {
      b[i] := a[i];
      i := i + 1;
    }
  }

  /** Four parallel sequences as one sequence of cells. */
  function Zip(v: seq<Option<string>>, t: seq<nat>, l: seq<nat>, f: seq<nat>): (cells: seq<Cell>)
    requires |v| == |t| == |l| == |f|
    ensures |cells| == |v| && forall i | 0 <= i < |v| :: cells[i] == Cell(v[i], t[i], l[i], f[i])
  {
    seq(|v|, i requires 0 <= i < |v| => Cell(v[i], t[i], l[i], f[i]))
  }

  /** Growing the four sequences by zeros grows the cells by zero cells. */
  lemma ZipGrows(v: seq<Option<string>>, t: seq<nat>, l: seq<nat>, f: seq<nat>, n: nat)
    requires |v| == |t| == |l| == |f|
    ensures Zip(v + Zeros(n, None), t + Zeros(n, 0), l + Zeros(n, 0), f + Zeros(n, 0)) == Zip(v, t, l, f) + Zeros(n, ZERO)
  {
  }

  class Binding {
    var values: array<Option<string>>
    var types: array<nat>
    var lengths: array<nat>
    var formats: array<nat>
    var size: nat

    /** The four arrays have the length that `size` says. */
    ghost predicate Valid()
      reads this
    {
      && values.Length == types.Length == lengths.Length == formats.Length == size
      && types != lengths && types != formats && lengths != formats
    }

    ghost function Repr(): set<object>
      reads this
    {
      {this, values, types, lengths, formats}
    }

    ghost function Contents(): (s: seq<Cell>)
      requires Valid()
      reads this, values, types, lengths, formats
    {
      Zip(values[..], types[..], lengths[..], formats[..])
    }

    constructor (n: nat)
      ensures Valid() && fresh(Repr()) && Contents() == Zeros(n, ZERO)
    {
      values := new Option<string>[n](i => None);
      types := new nat[n](i => 0);
      lengths := new nat[n](i => 0);
      formats := new nat[n](i => 0);
      size := n;
    }

    /** `clear_value(i)`; `false` is the thrown error for an index outside the arrays. */
    method ClearValue(i: nat) returns (ok: bool)
      requires Valid()
      modifies values, types, lengths, formats
      ensures Valid() && ok == (i < size)
      ensures Contents() == if ok then old(Contents())[i := ZERO] else old(Contents())
    {
      if i >= size {
        return false;
      }
      if values[i].Some? {
        values[i] := None;
      }
      types[i] := 0;
      lengths[i] := 0;
      formats[i] := 0;
      return true;
    }

    method ReallocateValue(index: nat) returns (ok: bool)
      requires Valid()
      modifies Repr()
      ensures Valid() && ok == (index != 0) && fresh(Repr() - old(Repr()))
      ensures Contents() == if ok then Reserve(old(Contents()), ZERO, index) else old(Contents())
    {
      if index == 0 {
        return false;
      }
      if index <= size {
        ok := ClearValue(index - 1);
        return true;
      }
      var n := index + INCREMENT;
      var v := Reallocate(values, n, None);
      var t := Reallocate(types, n, 0);
      var l := Reallocate(lengths, n, 0);
      var f := Reallocate(formats, n, 0);
      ZipGrows(values[..], types[..], lengths[..], formats[..], n - size);
      values, types, lengths, formats, size := v, t, l, f, n;
      return true;
    }

    method BindIndex(index: nat, value: Parameter)
      requires Valid()
      modifies Repr()
      ensures Valid() && fresh(Repr() - old(Repr()))
      ensures Contents() == Store(old(Contents()), ZERO, index, Encode(value))
    {
      var ok := ReallocateValue(index);
      if ok {
        var cell := Encode(value);
        values[index - 1] := cell.value;
        types[index - 1] := cell.oid;
        lengths[index - 1] := cell.length;
        formats[index - 1] := cell.format;
      }
    }

    /** `num_of_bindings`: what execution passes as the number of parameters. */
    method NumOfBindings() returns (count: nat)
      requires Valid()
      ensures count == CountTyped(Contents())
    {
      count := 0;
      var i := 0;
      while i < size
        invariant 0 <= i <= size
        invariant count == CountTyped(Contents()[..i])
      {
        assert Contents()[..i + 1] == Contents()[..i] + [Contents()[i]];
        if types[i] != 0 {
          count := count + 1;
        }
        i := i + 1;
      }
      assert Contents()[..size] == Contents();
    }

    method Reset()
      requires Valid()
      modifies this
      ensures Valid() && fresh(Repr() - {this}) && Contents() == []
    {
      values := new Option<string>[0];
      types := new nat[0];
      lengths := new nat[0];
      formats := new nat[0];
      size := 0;
    }
  }

  // ----- the count -----

  function CountTyped(cells: seq<Cell>): nat {
    if cells == [] then 0
    else CountTyped(cells[..|cells| - 1]) + if cells[|cells| - 1].oid != 0 then 1 else 0
  }

  ghost predicate AllTyped(m: map<nat, Cell>) {
    forall k | k in m :: m[k].oid != 0
  }

  lemma {:induction false} CountPrefix(cells: seq<Cell>, m: map<nat, Cell>, n: nat)
    requires Represents(cells, m, ZERO) && AllTyped(m) && n <= |cells|
    ensures CountTyped(cells[..n]) == |set k | k in m && k <= n|
    decreases n
  {
    var now := set k | k in m && k <= n;
    if n == 0 {
      assert now == {};
    } else {
      CountPrefix(cells, m, n - 1);
      var before := set k | k in m && k <= n - 1;
      assert cells[..n][..n - 1] == cells[..n - 1];
      if n in m {
        assert now == before + {n};
      } else {
        assert now == before;
      }
    }
  }

  /** The count is the number of distinct indexes bound, in whatever order and however often. */
  lemma CountIsDistinct(cells: seq<Cell>, m: map<nat, Cell>)
    requires Represents(cells, m, ZERO) && AllTyped(m)
    ensures CountTyped(cells) == |m|
  {
    CountPrefix(cells, m, |cells|);
    assert cells[..|cells|] == cells;
    assert (set k | k in m && k <= |cells|) == m.Keys;
  }

  function Encoded(binds: seq<(nat, Parameter)>): seq<(nat, Cell)> {
    if binds == [] then [] else [(binds[0].0, Encode(binds[0].1))] + Encoded(binds[1..])
  }

  lemma {:induction false} EncodedTyped(m: map<nat, Cell>, binds: seq<(nat, Parameter)>)
    requires AllTyped(m)
    ensures AllTyped(LastBound(m, Encoded(binds)))
    decreases |binds|
  {
    if binds != [] {
      var cell := Encode(binds[0].1);
      EncodedTyped(if binds[0].0 == 0 then m else m[binds[0].0 := cell], binds[1..]);
      assert Encoded(binds)[1..] == Encoded(binds[1..]);
    }
  }

  /** For every sequence of binds on a new binding: each slot holds the encoding of the last value
      bound there or zero, and the count is the number of distinct indexes. */
  lemma EveryBindingRun(n: nat, binds: seq<(nat, Parameter)>)
    ensures var cells := StoreAll(Zeros(n, ZERO), ZERO, Encoded(binds));
            var m := LastBound(map[], Encoded(binds));
            Represents(cells, m, ZERO) && CountTyped(cells) == |m|
  {
    var m := LastBound(map[], Encoded(binds));
    StoreAllRepresents(Zeros(n, ZERO), map[], ZERO, Encoded(binds));
    EncodedTyped(map[], binds);
    CountIsDistinct(StoreAll(Zeros(n, ZERO), ZERO, Encoded(binds)), m);
  }

  function OneTo(n: nat): (ks: set<nat>)
    ensures |ks| == n && forall k :: k in ks <==> 1 <= k <= n
  {
    if n == 0 then {} else OneTo(n - 1) + {n}
  }

  lemma SubsetOfSameSize(a: set<nat>, b: set<nat>)
    requires a <= b && |a| == |b|
    ensures a == b
  {
    assert b == a + (b - a);
  }

  /** Execution passes the first `count` positions on.  No bound value is beyond them exactly when
      the bound indexes are 1..n without a gap. */
  lemma NothingDroppedIff(cells: seq<Cell>, m: map<nat, Cell>)
    requires Represents(cells, m, ZERO) && AllTyped(m)
    ensures (forall k | k in m :: k <= CountTyped(cells)) <==> m.Keys == OneTo(|m|)
  {
    CountIsDistinct(cells, m);
    var all := OneTo(|m|);
    if forall k | k in m :: k <= |m| {
      assert m.Keys <= all;
      SubsetOfSameSize(m.Keys, all);
    }
  }
}
