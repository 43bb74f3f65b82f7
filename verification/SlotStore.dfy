/** Parameter slots that grow on demand, as both the mysql and the postgres binding keep them, and
    the map they stand for (src/mysql/binding.cpp:622-649, src/postgres/binding.cpp:370-395). */
module SlotStore {

  const PREALLOC: nat := 10
  const INCREMENT: nat := 5

  function Zeros<T>(n: nat, zero: T): (s: seq<T>)
    ensures |s| == n && forall i | 0 <= i < n :: s[i] == zero
  {
    seq(n, i => zero)
  }

  /** `reallocate_value`: clear the slot of an index within capacity, else grow past it. */
  function Reserve<T>(slots: seq<T>, zero: T, index: nat): (r: seq<T>)
    requires index >= 1
    ensures |r| == if index <= |slots| then |slots| else index + INCREMENT
    ensures r[index - 1] == zero
  {
    if index <= |slots| then slots[index - 1 := zero]
    else slots + Zeros(index + INCREMENT - |slots|, zero)
  }

  /** Bind one cell; index 0 changes nothing. */
  function Store<T>(slots: seq<T>, zero: T, index: nat, cell: T): (r: seq<T>)
    ensures |r| >= |slots| && |r| >= index
  {
    if index == 0 then slots else Reserve(slots, zero, index)[index - 1 := cell]
  }

  /** Every bound index is within capacity and holds its cell; every other slot is zero. */
  ghost predicate Represents<T>(slots: seq<T>, m: map<nat, T>, zero: T) {
    && (forall k | k in m :: 1 <= k <= |slots|)
    && (forall i | 0 <= i < |slots| :: slots[i] == if i + 1 in m then m[i + 1] else zero)
  }

  lemma StoreRepresents<T>(slots: seq<T>, m: map<nat, T>, zero: T, index: nat, cell: T)
    requires Represents(slots, m, zero)
    ensures Represents(Store(slots, zero, index, cell), if index == 0 then m else m[index := cell], zero)
  {
  }

  function StoreAll<T>(slots: seq<T>, zero: T, binds: seq<(nat, T)>): seq<T>
    decreases |binds|
  {
    if binds == [] then slots
    else StoreAll(Store(slots, zero, binds[0].0, binds[0].1), zero, binds[1..])
  }

  /** The last cell bound at each index from 1 on. */
  function LastBound<T>(m: map<nat, T>, binds: seq<(nat, T)>): map<nat, T>
    decreases |binds|
  {
    if binds == [] then m
    else
      var (k, cell) := binds[0];
      LastBound(if k == 0 then m else m[k := cell], binds[1..])
  }

  /** After any sequence of binds the slots are the map of last bound cells, and capacity only grew. */
  lemma {:induction false} StoreAllRepresents<T>(slots: seq<T>, m: map<nat, T>, zero: T, binds: seq<(nat, T)>)
    requires Represents(slots, m, zero)
    ensures Represents(StoreAll(slots, zero, binds), LastBound(m, binds), zero)
    ensures |StoreAll(slots, zero, binds)| >= |slots|
    decreases |binds|
  {
    if binds != [] {
      var (k, cell) := binds[0];
      StoreRepresents(slots, m, zero, k, cell);
      StoreAllRepresents(Store(slots, zero, k, cell), if k == 0 then m else m[k := cell], zero, binds[1..]);
    }
  }
}
