/** Shared vocabulary: optional values, stable sorting and sums. */
module Common {

  datatype Option<+T> = None | Some(value: T) {
    function GetOr(default: T): T {
      if Some? then value else default
    }
  }

  function Max(a: int, b: int): int {
    if a < b then b else a
  }

  /** The values `f(s[0]), f(s[1]), ...` added up. */
  function Sum<T>(s: seq<T>, f: T -> int): int {
    if s == [] then 0 else f(s[0]) + Sum(s[1..], f)
  }

  lemma {:induction false} SumAppend<T>(a: seq<T>, b: seq<T>, f: T -> int)
    ensures Sum(a + b, f) == Sum(a, f) + Sum(b, f)
  {
    if a == [] {
      assert a + b == b;
    } else {
      assert (a + b)[1..] == a[1..] + b;
      SumAppend(a[1..], b, f);
    }
  }

  lemma ConcatCons<T>(u: seq<T>, s: seq<T>)
    requires u != []
    ensures u + s == [u[0]] + (u[1..] + s)
  {
  }

  lemma Regroup<T>(a: seq<T>, b: seq<T>, c: seq<T>)
    ensures a + (b + c) == (a + b) + c
  {
  }

  lemma SumOfOne<T>(x: T, f: T -> int)
    ensures Sum([x], f) == f(x)
  {
    assert [x][1..] == [];
  }

  lemma SumSnoc<T>(s: seq<T>, f: T -> int)
    requires s != []
    ensures Sum(s, f) == Sum(s[..|s| - 1], f) + f(s[|s| - 1])
  {
    var u, x := s[..|s| - 1], s[|s| - 1];
    SumAppend(u, [x], f);
    SumOfOne(x, f);
    assert s == u + [x];
  }

  /** Replacing one element changes the sum by the difference of its values. */
  lemma {:induction false} SumUpdate<T>(s: seq<T>, k: nat, x: T, f: T -> int)
    requires k < |s|
    ensures Sum(s[k := x], f) == Sum(s, f) - f(s[k]) + f(x)
  {
    if k == 0 {
      assert s[k := x][1..] == s[1..];
    } else {
      assert s[k := x][1..] == s[1..][k - 1 := x];
      SumUpdate(s[1..], k - 1, x, f);
    }
  }

  lemma HeadAndTail<T>(s: seq<T>)
    requires s != []
    ensures multiset(s) == multiset{s[0]} + multiset(s[1..])
  {
    assert s == [s[0]] + s[1..];
  }

  lemma TakingOut<T>(s: seq<T>, k: nat)
    requires k < |s|
    ensures multiset(s) == multiset{s[k]} + multiset(s[..k] + s[k + 1..])
  {
    HeadAndTail(s[k..]);
    assert s[k..][1..] == s[k + 1..];
    assert s == s[..k] + s[k..];
  }

  lemma SumWithout<T>(s: seq<T>, k: nat, f: T -> int)
    requires k < |s|
    ensures Sum(s, f) == f(s[k]) + Sum(s[..k] + s[k + 1..], f)
  {
    assert s[k..][1..] == s[k + 1..];
    assert s == s[..k] + s[k..];
    SumAppend(s[..k], s[k..], f);
    SumAppend(s[..k], s[k + 1..], f);
  }

  lemma {:induction false} SumIsPermutationInvariant<T>(a: seq<T>, b: seq<T>, f: T -> int)
    requires multiset(a) == multiset(b)
    ensures Sum(a, f) == Sum(b, f)
  {
    if a == [] {
      assert |multiset(b)| == |multiset(a)|;
    } else {
      assert a[0] in multiset(b);
      var k :| 0 <= k < |b| && b[k] == a[0];
      var c := b[..k] + b[k + 1..];
      TakingOut(b, k);
      SumWithout(b, k, f);
      HeadAndTail(a);
      assert multiset(a[1..]) == multiset(a) - multiset{a[0]};
      assert multiset(c) == multiset(b) - multiset{b[k]};
      SumIsPermutationInvariant(a[1..], c, f);
    }
  }

  /** The elements of `s` that satisfy `p`, in their order. */
  function Filter<T>(s: seq<T>, p: T -> bool): (r: seq<T>)
    ensures forall x | x in r :: x in s && p(x)
    ensures forall x | x in s && p(x) :: x in r
    ensures |r| <= |s|
  {
    if s == [] then []
    else (if p(s[0]) then [s[0]] else []) + Filter(s[1..], p)
  }

  lemma {:induction false} FilterAppend<T>(a: seq<T>, b: seq<T>, p: T -> bool)
    ensures Filter(a + b, p) == Filter(a, p) + Filter(b, p)
  {
    if a == [] {
      assert a + b == b;
    } else {
      assert (a + b)[1..] == a[1..] + b;
      FilterAppend(a[1..], b, p);
    }
  }

  lemma {:induction false} FilterAll<T>(s: seq<T>, p: T -> bool)
    requires forall x | x in s :: p(x)
    ensures Filter(s, p) == s
  {
    if s != [] {
      FilterAll(s[1..], p);
    }
  }

  lemma {:induction false} FilterNone<T>(s: seq<T>, p: T -> bool)
    requires forall x | x in s :: !p(x)
    ensures Filter(s, p) == []
  {
    if s != [] {
      FilterNone(s[1..], p);
    }
  }

  lemma {:induction false} FilterAgrees<T>(s: seq<T>, p: T -> bool, q: T -> bool)
    requires forall x | x in s :: p(x) == q(x)
    ensures Filter(s, p) == Filter(s, q)
  {
    if s != [] {
      FilterAgrees(s[1..], p, q);
    }
  }

  function Not<T>(p: T -> bool): T -> bool {
    x => !p(x)
  }

  /** Splitting by a predicate loses nothing and duplicates nothing. */
  lemma {:induction false} FilterPartitions<T>(s: seq<T>, p: T -> bool)
    ensures multiset(Filter(s, p)) + multiset(Filter(s, Not(p))) == multiset(s)
    ensures |Filter(s, p)| + |Filter(s, Not(p))| == |s|
  {
    if s != [] {
      FilterPartitions(s[1..], p);
      assert s == [s[0]] + s[1..];
    }
  }

  ghost predicate Distinct<T>(s: seq<T>) {
    forall i, j | 0 <= i < j < |s| :: s[i] != s[j]
  }

  lemma {:induction false} DistinctIsNoLongerThanItsRange<T>(s: seq<T>, range: set<T>)
    requires Distinct(s)
    requires forall x | x in s :: x in range
    ensures |s| <= |range|
  {
    if s != [] {
      assert forall x | x in s[1..] :: x in range - {s[0]};
      DistinctIsNoLongerThanItsRange(s[1..], range - {s[0]});
    }
  }
}

/**
 * The library sort that the sources call with a comparator: stable since ECMAScript 2019.
 * Elements are compared through a key, so only the key order has to be a total preorder.
 */
module Sorting {
  import opened Common

  ghost predicate TotalPreorder<K(!new)>(leq: (K, K) -> bool) {
    && (forall a, b :: leq(a, b) || leq(b, a))
    && (forall a, b, c :: leq(a, b) && leq(b, c) ==> leq(a, c))
  }

  /** A total preorder in which ties are equal: what `localeCompare` is taken to be on ids. */
  ghost predicate TotalOrder<K(!new)>(leq: (K, K) -> bool) {
    && TotalPreorder(leq)
    && (forall a, b :: leq(a, b) && leq(b, a) ==> a == b)
  }

  /** Puts `x` in front of the first element it does not exceed. */
  function Insert<T, K>(x: T, s: seq<T>, key: T -> K, leq: (K, K) -> bool): seq<T> {
    if s == [] || leq(key(x), key(s[0])) then [x] + s
    else [s[0]] + Insert(x, s[1..], key, leq)
  }

  function Sort<T, K>(s: seq<T>, key: T -> K, leq: (K, K) -> bool): seq<T> {
    if s == [] then [] else Insert(s[0], Sort(s[1..], key, leq), key, leq)
  }

  ghost predicate Sorted<T, K>(s: seq<T>, key: T -> K, leq: (K, K) -> bool) {
    forall i, j | 0 <= i < j < |s| :: leq(key(s[i]), key(s[j]))
  }

  lemma {:induction false} InsertKeepsElements<T, K>(x: T, s: seq<T>, key: T -> K, leq: (K, K) -> bool)
    ensures multiset(Insert(x, s, key, leq)) == multiset([x] + s)
  {
    if s == [] || leq(key(x), key(s[0])) {
    } else {
      InsertKeepsElements(x, s[1..], key, leq);
      assert s == [s[0]] + s[1..];
    }
  }

  lemma {:induction false} SortKeepsElements<T, K>(s: seq<T>, key: T -> K, leq: (K, K) -> bool)
    ensures multiset(Sort(s, key, leq)) == multiset(s)
    ensures |Sort(s, key, leq)| == |s|
    ensures forall x :: x in Sort(s, key, leq) <==> x in s
  {
    if s != [] {
      SortKeepsElements(s[1..], key, leq);
      InsertKeepsElements(s[0], Sort(s[1..], key, leq), key, leq);
      assert s == [s[0]] + s[1..];
    }
    assert |multiset(Sort(s, key, leq))| == |multiset(s)|;
    forall x
      ensures x in Sort(s, key, leq) <==> x in s
    {
      assert x in Sort(s, key, leq) <==> x in multiset(Sort(s, key, leq));
      assert x in s <==> x in multiset(s);
    }
  }

  lemma {:induction false} InsertSorts<T, K(!new)>(x: T, s: seq<T>, key: T -> K, leq: (K, K) -> bool)
    requires TotalPreorder(leq)
    requires Sorted(s, key, leq)
    ensures Sorted(Insert(x, s, key, leq), key, leq)
  {
    if s == [] || leq(key(x), key(s[0])) {
    } else {
      InsertSorts(x, s[1..], key, leq);
      var r := Insert(x, s[1..], key, leq);
      InsertKeepsElements(x, s[1..], key, leq);
      forall j | 0 <= j < |r|
        ensures leq(key(s[0]), key(r[j]))
      {
        assert r[j] in multiset(r);
        assert r[j] in [x] + s[1..];
      }
    }
  }

  lemma {:induction false} SortSorts<T, K(!new)>(s: seq<T>, key: T -> K, leq: (K, K) -> bool)
    requires TotalPreorder(leq)
    ensures Sorted(Sort(s, key, leq), key, leq)
  {
    if s != [] {
      SortSorts(s[1..], key, leq);
      InsertSorts(s[0], Sort(s[1..], key, leq), key, leq);
    }
  }

  /** The head of the sorted sequence is a least element. */
  lemma {:induction false} HeadIsLeast<T, K(!new)>(s: seq<T>, key: T -> K, leq: (K, K) -> bool)
    requires TotalPreorder(leq) && s != []
    ensures |Sort(s, key, leq)| == |s| && Sort(s, key, leq)[0] in s
    ensures forall x | x in s :: leq(key(Sort(s, key, leq)[0]), key(x))
  {
    var sorted := Sort(s, key, leq);
    SortKeepsElements(s, key, leq);
    SortSorts(s, key, leq);
    assert sorted[0] in multiset(sorted);
    assert sorted[0] in multiset(s);
    forall x | x in s
      ensures leq(key(sorted[0]), key(x))
    {
      assert x in sorted;
      var j :| 0 <= j < |sorted| && sorted[j] == x;
      assert j > 0 ==> leq(key(sorted[0]), key(sorted[j]));
    }
  }

  function HasKey<T, K(==)>(key: T -> K, k: K): T -> bool {
    (x: T) => key(x) == k
  }

  /** Elements of one key keep their given order. */
  lemma {:induction false} SortKeepsTies<T, K>(s: seq<T>, key: T -> K, leq: (K, K) -> bool, k: K)
    requires leq(k, k)
    ensures Filter(Sort(s, key, leq), HasKey(key, k)) == Filter(s, HasKey(key, k))
  {
    if s != [] {
      SortKeepsTies(s[1..], key, leq, k);
      InsertKeepsTies(s[0], Sort(s[1..], key, leq), key, leq, HasKey(key, k));
    }
  }

  /** An element goes in front of those of its own key. */
  lemma {:induction false} InsertKeepsTies<T, K>(x: T, s: seq<T>, key: T -> K, leq: (K, K) -> bool, p: T -> bool)
    requires forall y | y in s && p(x) && p(y) :: leq(key(x), key(y))
    ensures Filter(Insert(x, s, key, leq), p) == (if p(x) then [x] else []) + Filter(s, p)
  {
    if s == [] || leq(key(x), key(s[0])) {
      FilterCons(x, s, p);
    } else {
      var rest := Insert(x, s[1..], key, leq);
      InsertKeepsTies(x, s[1..], key, leq, p);
      FilterCons(s[0], rest, p);
      assert Filter(s, p) == (if p(s[0]) then [s[0]] else []) + Filter(s[1..], p);
    }
  }

  lemma FilterCons<T>(x: T, s: seq<T>, p: T -> bool)
    ensures Filter([x] + s, p) == (if p(x) then [x] else []) + Filter(s, p)
  {
    assert ([x] + s)[1..] == s;
  }

  /** A sorted sequence is left as it is, ties included. */
  lemma {:induction false} SortIsIdentityOnSorted<T, K>(s: seq<T>, key: T -> K, leq: (K, K) -> bool)
    requires Sorted(s, key, leq)
    ensures Sort(s, key, leq) == s
  {
    if |s| > 1 {
      assert leq(key(s[0]), key(s[1]));
    }
    if s != [] {
      SortIsIdentityOnSorted(s[1..], key, leq);
    }
  }
}
