/** Options, and the few facts about sequences and sorting that the other modules share. */
module Collections {

  datatype Option<+T> = None | Some(value: T)

  // Python's m.get(k, otherwise).
  function Lookup<K, V>(m: map<K, V>, k: K, otherwise: V): V {
    if k in m then m[k] else otherwise
  }

  predicate Distinct<T(==)>(s: seq<T>) {
    forall i, j :: 0 <= i < j < |s| ==> s[i] != s[j]
  }

  function Map<T, U>(f: T -> U, s: seq<T>): (r: seq<U>)
    ensures |r| == |s|
    ensures forall i :: 0 <= i < |s| ==> r[i] == f(s[i])
  {
    seq(|s|, i requires 0 <= i < |s| => f(s[i]))
  }

  function Filter<T(!new)>(keep: T -> bool, s: seq<T>): (r: seq<T>)
    ensures |r| <= |s|
    ensures forall x :: x in r <==> x in s && keep(x)
  {
    if s == [] then [] else (if keep(s[0]) then [s[0]] else []) + Filter(keep, s[1..])
  }

  lemma {:induction false} FilterAppend<T(!new)>(keep: T -> bool, a: seq<T>, b: seq<T>)
    ensures Filter(keep, a + b) == Filter(keep, a) + Filter(keep, b)
  {
    if a == [] {
      assert a + b == b;
    } else {
      assert (a + b)[1..] == a[1..] + b;
      FilterAppend(keep, a[1..], b);
    }
  }

  predicate Rising(at: seq<nat>) {
    forall i, j :: 0 <= i < j < |at| ==> at[i] < at[j]
  }

  // `r` is what `s` holds at the places `at`, in order.
  predicate TakenAt<T(==)>(r: seq<T>, s: seq<T>, at: seq<nat>) {
    Rising(at) && |at| == |r| && forall k :: 0 <= k < |at| ==> at[k] < |s| && r[k] == s[at[k]]
  }

  /** A filter takes exactly the places of what it keeps, in order. */
  lemma {:induction false} FilterTakes<T(!new)>(keep: T -> bool, s: seq<T>) returns (at: seq<nat>)
    ensures TakenAt(Filter(keep, s), s, at)
    ensures forall i: nat :: i in at <==> i < |s| && keep(s[i])
  {
    if s == [] {
      at := [];
    } else {
      var rest := FilterTakes(keep, s[1..]);
      var up := Map((i: nat) => i + 1, rest);
      at := (if keep(s[0]) then [0] else []) + up;
      forall i: nat
        ensures i in at <==> i < |s| && keep(s[i])
      {
        InShifted(rest, i);
        assert i > 0 && i < |s| ==> s[1..][i - 1] == s[i];
      }
      ShiftedTakes(s, rest, Filter(keep, s[1..]), keep(s[0]));
    }
  }

  lemma InShifted(rest: seq<nat>, i: nat)
    ensures i in Map((j: nat) => j + 1, rest) <==> i > 0 && i - 1 in rest
  {
    var up := Map((j: nat) => j + 1, rest);
    if i > 0 && i - 1 in rest {
      var k :| 0 <= k < |rest| && rest[k] == i - 1;
      assert up[k] == i;
    }
  }

  lemma ShiftedTakes<T>(s: seq<T>, rest: seq<nat>, r: seq<T>, first: bool)
    requires s != [] && TakenAt(r, s[1..], rest)
    ensures TakenAt((if first then [s[0]] else []) + r, s, (if first then [0] else []) + Map((i: nat) => i + 1, rest))
  {
  }

  predicate DistinctBy<T, K(==)>(f: T -> K, s: seq<T>) {
    forall i, j :: 0 <= i < j < |s| ==> f(s[i]) != f(s[j])
  }

  /** Filtering keeps identities apart. */
  lemma {:induction false} FilterDistinctBy<T(!new), K>(keep: T -> bool, f: T -> K, s: seq<T>)
    requires DistinctBy(f, s)
    ensures DistinctBy(f, Filter(keep, s))
  {
    if s != [] {
      FilterDistinctBy(keep, f, s[1..]);
      var rest := Filter(keep, s[1..]);
      forall j | 0 <= j < |rest|
        ensures f(rest[j]) != f(s[0])
      {
        assert rest[j] in rest;
        assert rest[j] in s[1..];
      }
    }
  }

  // ----- keys: pairs of integers in lexicographic order

  datatype Key = Key(major: int, minor: int)

  predicate KeyLess(a: Key, b: Key) {
    a.major < b.major || (a.major == b.major && a.minor < b.minor)
  }

  predicate KeyLeq(a: Key, b: Key) {
    a.major < b.major || (a.major == b.major && a.minor <= b.minor)
  }

  predicate SortedBy<T>(key: T -> Key, s: seq<T>) {
    forall i, j :: 0 <= i < j < |s| ==> KeyLeq(key(s[i]), key(s[j]))
  }

  predicate StrictlySortedBy<T>(key: T -> Key, s: seq<T>) {
    forall i, j :: 0 <= i < j < |s| ==> KeyLess(key(s[i]), key(s[j]))
  }

  function Insert<T(==)>(key: T -> Key, x: T, s: seq<T>): (r: seq<T>)
    requires SortedBy(key, s)
    ensures multiset(r) == multiset{x} + multiset(s)
    ensures SortedBy(key, r)
  {
    if s == [] || KeyLeq(key(x), key(s[0])) then
      [x] + s
    else
      var rest := Insert(key, x, s[1..]);
      assert s == [s[0]] + s[1..];
      InsertedAbove(key, x, s, rest);
      [s[0]] + rest
  }

  lemma InsertedAbove<T>(key: T -> Key, x: T, s: seq<T>, rest: seq<T>)
    requires s != [] && SortedBy(key, s) && !KeyLeq(key(x), key(s[0]))
    requires multiset(rest) == multiset{x} + multiset(s[1..]) && SortedBy(key, rest)
    ensures SortedBy(key, [s[0]] + rest)
  {
    InsertedElements(x, s[1..], rest);
  }

  lemma InsertedElements<T>(x: T, s: seq<T>, r: seq<T>)
    requires multiset(r) == multiset{x} + multiset(s)
    ensures forall i :: 0 <= i < |r| ==> r[i] == x || exists j :: 0 <= j < |s| && s[j] == r[i]
  {
    forall i | 0 <= i < |r|
      ensures r[i] == x || exists j :: 0 <= j < |s| && s[j] == r[i]
    {
      assert r[i] in multiset(r);
      if r[i] != x {
        assert r[i] in multiset(s);
        assert r[i] in s;
      }
    }
  }

  /** A stable insertion sort, standing for every ORDER BY and sorted() of the source. */
  function SortBy<T(==)>(key: T -> Key, s: seq<T>): (r: seq<T>)
    ensures multiset(r) == multiset(s)
    ensures SortedBy(key, r)
  {
    if s == [] then [] else
      assert s == [s[0]] + s[1..];
      Insert(key, s[0], SortBy(key, s[1..]))
  }

  lemma SameElements<T>(a: seq<T>, b: seq<T>)
    requires multiset(a) == multiset(b)
    ensures |a| == |b|
    ensures forall x :: x in a <==> x in b
  {
    assert |multiset(a)| == |multiset(b)|;
    forall x
      ensures x in a <==> x in b
    {
      assert x in a <==> x in multiset(a);
      assert x in b <==> x in multiset(b);
    }
  }

  lemma {:induction false} DistinctIffSimple<T>(s: seq<T>)
    ensures Distinct(s) <==> forall x :: multiset(s)[x] <= 1
  {
    if s != [] {
      DistinctIffSimple(s[1..]);
      assert s == [s[0]] + s[1..];
      if Distinct(s) {
        assert s[0] !in s[1..];
        assert multiset(s[1..])[s[0]] == 0;
      }
      if forall x :: multiset(s)[x] <= 1 {
        assert forall x :: multiset(s[1..])[x] <= multiset(s)[x];
        assert multiset(s)[s[0]] == 1 + multiset(s[1..])[s[0]];
        assert s[0] !in multiset(s[1..]);
        assert forall k :: 0 < k < |s| ==> s[k] in s[1..];
      }
    }
  }

  lemma PermutationDistinct<T>(a: seq<T>, b: seq<T>)
    requires multiset(a) == multiset(b) && Distinct(a)
    ensures Distinct(b)
  {
    DistinctIffSimple(a);
    DistinctIffSimple(b);
  }

  /** Two duplicate-free sequences with the same elements are permutations of each other. */
  lemma DistinctSameElements<T>(a: seq<T>, b: seq<T>)
    requires Distinct(a) && Distinct(b)
    requires forall x :: x in a <==> x in b
    ensures multiset(a) == multiset(b)
  {
    DistinctIffSimple(a);
    DistinctIffSimple(b);
    forall x
      ensures multiset(a)[x] == multiset(b)[x]
    {
      assert x in a <==> x in multiset(a);
      assert x in b <==> x in multiset(b);
    }
  }

  lemma RemoveAt<T>(s: seq<T>, k: nat)
    requires k < |s|
    ensures multiset(s[..k] + s[k + 1..]) == multiset(s) - multiset{s[k]}
  {
    assert s == s[..k] + [s[k]] + s[k + 1..];
  }

  lemma {:induction false} MapPermutation<T, U>(f: T -> U, a: seq<T>, b: seq<T>)
    requires multiset(a) == multiset(b)
    ensures multiset(Map(f, a)) == multiset(Map(f, b))
  {
    if a == [] {
      SameElements(a, b);
    } else {
      var k := SplitOff(a, b);
      MapPermutation(f, a[1..], b[..k] + b[k + 1..]);
      MapRestore(f, a, b, k);
    }
  }

  lemma MapRestore<T, U>(f: T -> U, a: seq<T>, b: seq<T>, k: nat)
    requires a != [] && k < |b| && b[k] == a[0]
    requires multiset(Map(f, a[1..])) == multiset(Map(f, b[..k] + b[k + 1..]))
    ensures multiset(Map(f, a)) == multiset(Map(f, b))
  {
    MapRemoveAt(f, b, k);
    assert Map(f, a) == [f(a[0])] + Map(f, a[1..]);
  }

  lemma SplitOff<T>(a: seq<T>, b: seq<T>) returns (k: nat)
    requires multiset(a) == multiset(b) && a != []
    ensures k < |b| && b[k] == a[0]
    ensures multiset(a[1..]) == multiset(b[..k] + b[k + 1..])
  {
    SameElements(a, b);
    assert a[0] in b;
    k :| 0 <= k < |b| && b[k] == a[0];
    RemoveAt(a, 0);
    RemoveAt(b, k);
    assert a[..0] + a[1..] == a[1..];
  }

  lemma MapRemoveAt<T, U>(f: T -> U, s: seq<T>, k: nat)
    requires k < |s|
    ensures multiset(Map(f, s)) == multiset(Map(f, s[..k] + s[k + 1..])) + multiset{f(s[k])}
  {
    var m := Map(f, s);
    assert m == m[..k] + [m[k]] + m[k + 1..];
    assert m[..k] + m[k + 1..] == Map(f, s[..k] + s[k + 1..]);
  }

  ghost predicate InjectiveOn<T(!new)>(key: T -> Key, s: seq<T>) {
    forall x, y :: x in s && y in s && key(x) == key(y) ==> x == y
  }

  lemma SortedHead<T(!new)>(key: T -> Key, a: seq<T>, b: seq<T>)
    requires SortedBy(key, a) && SortedBy(key, b) && InjectiveOn(key, a)
    requires multiset(a) == multiset(b) && a != [] && b != []
    ensures a[0] == b[0]
  {
    SameElements(a, b);
    assert a[0] in b && b[0] in a;
    var j :| 0 <= j < |b| && b[j] == a[0];
    var k :| 0 <= k < |a| && a[k] == b[0];
    assert KeyLeq(key(a[0]), key(a[k])) && KeyLeq(key(b[0]), key(b[j]));
  }

  /** Sorting is determined by the keys: with injective keys there is one sorted order. */
  lemma {:induction false} SortedUnique<T(!new)>(key: T -> Key, a: seq<T>, b: seq<T>)
    requires multiset(a) == multiset(b)
    requires SortedBy(key, a) && SortedBy(key, b) && InjectiveOn(key, a)
    ensures a == b
  {
    assert |multiset(a)| == |multiset(b)|;
    if a != [] {
      SortedHead(key, a, b);
      SameTails(a, b);
      assert InjectiveOn(key, a[1..]);
      SortedUnique(key, a[1..], b[1..]);
      assert a == [a[0]] + a[1..] && b == [b[0]] + b[1..];
    }
  }

  lemma SameTails<T>(a: seq<T>, b: seq<T>)
    requires multiset(a) == multiset(b) && a != [] && b != [] && a[0] == b[0]
    ensures multiset(a[1..]) == multiset(b[1..])
  {
    assert a == [a[0]] + a[1..] && b == [b[0]] + b[1..];
    assert multiset(a[1..]) == multiset(a) - multiset{a[0]};
    assert multiset(b[1..]) == multiset(b) - multiset{b[0]};
  }

  lemma StrictlySorted<T>(key: T -> Key, s: seq<T>)
    requires SortedBy(key, s) && Distinct(Map(key, s))
    ensures StrictlySortedBy(key, s)
  {
    forall i, j | 0 <= i < j < |s|
      ensures KeyLess(key(s[i]), key(s[j]))
    {
      assert Map(key, s)[i] != Map(key, s)[j];
    }
  }

  /** Sorting rows with distinct keys leaves no ties. */
  lemma SortByStrict<T>(key: T -> Key, s: seq<T>)
    requires DistinctBy(key, s)
    ensures StrictlySortedBy(key, SortBy(key, s))
  {
    MapPermutation(key, s, SortBy(key, s));
    PermutationDistinct(Map(key, s), Map(key, SortBy(key, s)));
    StrictlySorted(key, SortBy(key, s));
  }

  lemma {:induction false} FilterStrict<T(!new)>(keep: T -> bool, key: T -> Key, s: seq<T>)
    requires StrictlySortedBy(key, s)
    ensures StrictlySortedBy(key, Filter(keep, s))
  {
    if s != [] {
      FilterStrict(keep, key, s[1..]);
      var rest := Filter(keep, s[1..]);
      forall j | 0 <= j < |rest|
        ensures KeyLess(key(s[0]), key(rest[j]))
      {
        assert rest[j] in rest;
        assert rest[j] in s[1..];
      }
    }
  }
}
