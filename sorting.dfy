/** The two nested exchange loops that store/read.go and store.go use to
    sort their slices of records in place. Both walk every pair i < k and
    swap the two entries; they differ only in the swap test. */
module Sorting {

  // The order properties are stated on a set of values `on`, the
  // entries being sorted, because the entries may be references.

  /** Irreflexive and transitive on `on`, hence also asymmetric there. */
  ghost predicate StrictOrder<T>(on: set<T>, less: (T, T) -> bool)
  {
    && (forall x | x in on :: !less(x, x))
    && (forall x, y, z | x in on && y in on && z in on :: less(x, y) && less(y, z) ==> less(x, z))
  }

  /** A strict order whose incomparability is transitive as well: if y is
      not below x and z is not below y, then z is not below x. */
  ghost predicate StrictWeakOrder<T>(on: set<T>, less: (T, T) -> bool)
  {
    && StrictOrder(on, less)
    && (forall x, y, z | x in on && y in on && z in on :: !less(y, x) && !less(z, y) ==> !less(z, x))
  }

  /** Any two distinct values of `on` are ordered one way or the other. */
  ghost predicate Connected<T>(on: set<T>, less: (T, T) -> bool)
  {
    forall x, y | x in on && y in on :: x != y ==> less(x, y) || less(y, x)
  }

  /** Every entry of `s` belongs to `on`. */
  ghost predicate Within<T>(s: seq<T>, on: set<T>)
  {
    forall i :: 0 <= i < |s| ==> s[i] in on
  }

  /** No entry is Less than an entry before it. */
  ghost predicate Ordered<T>(s: seq<T>, less: (T, T) -> bool)
  {
    forall x, y :: 0 <= x < y < |s| ==> !less(s[y], s[x])
  }

  /** A strict total order is a strict weak order. */
  lemma TotalIsWeak<T>(on: set<T>, less: (T, T) -> bool)
    requires StrictOrder(on, less) && Connected(on, less)
    ensures StrictWeakOrder(on, less)
  {
    forall x, y, z | x in on && y in on && z in on && !less(y, x) && !less(z, y)
      ensures !less(z, x)
    {
      if x != y && y != z {
        assert less(x, y) && less(y, z);
      }
    }
  }

  /** Exchanges a[i] and a[k]. */
  method Swap<T>(a: array<T>, i: int, k: int)
    requires 0 <= i < k < a.Length
    modifies a
    ensures a[i] == old(a[k]) && a[k] == old(a[i])
    ensures forall m :: 0 <= m < a.Length && m != i && m != k ==> a[m] == old(a[m])
    ensures multiset(a[..]) == multiset(old(a[..]))
  {
    a[i], a[k] := a[k], a[i];
  }

  /** Entries before i are in place: none of them has a later entry
      Less than it. */
  ghost predicate SettledBefore<T>(a: seq<T>, i: int, less: (T, T) -> bool)
  {
    forall x, y :: 0 <= x < i && x < y < |a| ==> !less(a[y], a[x])
  }

  /** The state of the inner loop before it looks at entry k: the
      entries before i are in place, and no entry strictly between i and k
      is Less than a[i]. */
  ghost predicate SweptTo<T>(s: seq<T>, i: int, k: int, on: set<T>, less: (T, T) -> bool)
  {
    && 0 <= i < k <= |s| && SettledBefore(s, i, less) && Within(s, on)
    && forall y :: i < y < k ==> !less(s[y], s[i])
  }

  /** Exchanging s[i] and s[k] moves the inner loop on by one, provided
      s[i] is not Less than s[k] and nothing before k is Less than s[k]. */
  lemma SwapStep<T>(s: seq<T>, i: int, k: int, on: set<T>, less: (T, T) -> bool)
    requires 0 <= i < k < |s| && Within(s, on) && SettledBefore(s, i, less)
    requires forall y :: i < y < k ==> !less(s[y], s[k])
    requires !less(s[i], s[k])
    ensures SweptTo(s[i := s[k]][k := s[i]], i, k + 1, on, less)
  {
    var t := s[i := s[k]][k := s[i]];
    forall x, y | 0 <= x < i && x < y < |t|
      ensures !less(t[y], t[x])
    {
      if y == i {
        assert t[y] == s[k] && t[x] == s[x];
      } else if y == k {
        assert t[y] == s[i] && t[x] == s[x];
      } else {
        assert t[y] == s[y] && t[x] == s[x];
      }
    }
    assert t[i] == s[k];
  }

  /** One step of the inner loop of store/read.go: a[k] and a[i] are
      exchanged when a[k] is Less than a[i]. */
  method ExchangeIfLess<T>(a: array<T>, i: int, k: int, ghost on: set<T>, less: (T, T) -> bool)
    requires 0 <= i < k < a.Length && StrictOrder(on, less) && SweptTo(a[..], i, k, on, less)
    modifies a
    ensures SweptTo(a[..], i, k + 1, on, less)
    ensures multiset(a[..]) == multiset(old(a[..]))
  {
    ghost var s := a[..];
    assert s[i] in on && s[k] in on;
    if less(a[k], a[i]) {
      forall y | i < y < k
        ensures !less(s[y], s[k])
      {
        assert s[y] in on;
      }
      SwapStep(s, i, k, on, less);
      Swap(a, i, k);
      assert a[..] == s[i := s[k]][k := s[i]];
    }
  }

  /** One step of the inner loop of store.go: a[i] and a[k] are exchanged
      unless a[i] is Less than a[k]. */
  method ExchangeIfNotLess<T>(a: array<T>, i: int, k: int, ghost on: set<T>, less: (T, T) -> bool)
    requires 0 <= i < k < a.Length && StrictWeakOrder(on, less) && SweptTo(a[..], i, k, on, less)
    modifies a
    ensures SweptTo(a[..], i, k + 1, on, less)
    ensures multiset(a[..]) == multiset(old(a[..]))
  {
    ghost var s := a[..];
    assert s[i] in on && s[k] in on;
    if !less(a[i], a[k]) {
      forall y | i < y < k
        ensures !less(s[y], s[k])
      {
        assert s[y] in on;
      }
      SwapStep(s, i, k, on, less);
      Swap(a, i, k);
      assert a[..] == s[i := s[k]][k := s[i]];
    }
  }

  /** One pass of the inner loop of store/read.go: a[i] is compared with
      every later entry and exchanged with it when the later one is Less.
      Afterwards no later entry is Less than a[i]. */
  method SweepSwappingLess<T>(a: array<T>, i: int, ghost on: set<T>, less: (T, T) -> bool)
    requires 0 <= i < a.Length
    requires StrictOrder(on, less) && Within(a[..], on) && SettledBefore(a[..], i, less)
    modifies a
    ensures SettledBefore(a[..], i + 1, less) && Within(a[..], on)
    ensures multiset(a[..]) == multiset(old(a[..]))
  {
    for k := i + 1 to a.Length
      invariant SweptTo(a[..], i, k, on, less)
      invariant multiset(a[..]) == multiset(old(a[..]))
    {
      ExchangeIfLess(a, i, k, on, less);
    }
  }

  /** The loops of store/read.go: swap when the later entry is Less than
      the current one. A strict order is enough for the result to have no
      inversion. */
  method SortSwappingLess<T>(a: array<T>, ghost on: set<T>, less: (T, T) -> bool)
    requires StrictOrder(on, less) && Within(a[..], on)
    modifies a
    ensures Ordered(a[..], less)
    ensures multiset(a[..]) == multiset(old(a[..]))
  {
    for i := 0 to a.Length
      invariant SettledBefore(a[..], i, less) && Within(a[..], on)
      invariant multiset(a[..]) == multiset(old(a[..]))
    {
      SweepSwappingLess(a, i, on, less);
    }
  }

  /** One pass of the inner loop of store.go: a[i] is exchanged with every
      later entry it is not Less than. */
  method SweepSwappingNotLess<T>(a: array<T>, i: int, ghost on: set<T>, less: (T, T) -> bool)
    requires 0 <= i < a.Length
    requires StrictWeakOrder(on, less) && Within(a[..], on) && SettledBefore(a[..], i, less)
    modifies a
    ensures SettledBefore(a[..], i + 1, less) && Within(a[..], on)
    ensures multiset(a[..]) == multiset(old(a[..]))
  {
    for k := i + 1 to a.Length
      invariant SweptTo(a[..], i, k, on, less)
      invariant multiset(a[..]) == multiset(old(a[..]))
    {
      ExchangeIfNotLess(a, i, k, on, less);
    }
  }

  /** The loops of store.go: swap unless the current entry is Less than
      the later one. This needs a strict weak order: with a mere strict
      order, two incomparable entries would be exchanged back and forth. */
  method SortSwappingNotLess<T>(a: array<T>, ghost on: set<T>, less: (T, T) -> bool)
    requires StrictWeakOrder(on, less) && Within(a[..], on)
    modifies a
    ensures Ordered(a[..], less)
    ensures multiset(a[..]) == multiset(old(a[..]))
  {
    for i := 0 to a.Length
      invariant SettledBefore(a[..], i, less) && Within(a[..], on)
      invariant multiset(a[..]) == multiset(old(a[..]))
    {
      SweepSwappingNotLess(a, i, on, less);
    }
  }

  /** Sorts a sequence by copying it into an array, running the loops of
      store/read.go on the array, and reading it back. */
  method SortedByLess<T>(s: seq<T>, ghost on: set<T>, less: (T, T) -> bool) returns (r: seq<T>)
    requires StrictOrder(on, less) && Within(s, on)
    ensures Ordered(r, less)
    ensures multiset(r) == multiset(s)
  {
    var a := new T[|s|](i requires 0 <= i < |s| => s[i]);
    assert a[..] == s;
    SortSwappingLess(a, on, less);
    r := a[..];
  }

  /** The same with the loops of store.go. */
  method SortedByNotLess<T>(s: seq<T>, ghost on: set<T>, less: (T, T) -> bool) returns (r: seq<T>)
    requires StrictWeakOrder(on, less) && Within(s, on)
    ensures Ordered(r, less)
    ensures multiset(r) == multiset(s)
  {
    var a := new T[|s|](i requires 0 <= i < |s| => s[i]);
    assert a[..] == s;
    SortSwappingNotLess(a, on, less);
    r := a[..];
  }
}
