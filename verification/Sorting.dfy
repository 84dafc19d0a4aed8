/** A stable sort by a number that each element carries. */
module Sorting {
  predicate Sorted<T>(key: T -> int, q: seq<T>) {
    forall i, j | 0 <= i < j < |q| :: key(q[i]) <= key(q[j])
  }

  /** Puts an element behind every element whose key is no larger. */
  function Insert<T>(key: T -> int, q: seq<T>, x: T): seq<T> {
    if q == [] || key(q[|q| - 1]) <= key(x) then q + [x] else Insert(key, q[..|q| - 1], x) + [q[|q| - 1]]
  }

  function SortBy<T>(key: T -> int, q: seq<T>): seq<T> {
    if q == [] then [] else Insert(key, SortBy(key, q[..|q| - 1]), q[|q| - 1])
  }

  lemma {:induction false} InsertAdds<T>(key: T -> int, q: seq<T>, x: T)
    ensures multiset(Insert(key, q, x)) == multiset(q) + multiset{x}
  {
    if q != [] && key(q[|q| - 1]) > key(x) {
      var n := |q| - 1;
      InsertAdds(key, q[..n], x);
      assert q == q[..n] + [q[n]];
    }
  }

  lemma InsertMembers<T>(key: T -> int, q: seq<T>, x: T, y: T)
    ensures y in Insert(key, q, x) <==> y == x || y in q
  {
    InsertAdds(key, q, x);
    assert y in Insert(key, q, x) <==> y in multiset(Insert(key, q, x));
    assert y in q <==> y in multiset(q);
  }

  lemma {:induction false} InsertSorts<T>(key: T -> int, q: seq<T>, x: T)
    requires Sorted(key, q)
    ensures Sorted(key, Insert(key, q, x))
  {
    if q != [] && key(q[|q| - 1]) > key(x) {
      var n := |q| - 1;
      var front := Insert(key, q[..n], x);
      InsertSorts(key, q[..n], x);
      forall i | 0 <= i < |front|
        ensures key(front[i]) <= key(q[n])
      {
        InsertMembers(key, q[..n], x, front[i]);
      }
    }
  }

  /** The same elements, in order of their keys. */
  lemma {:induction false} SortSorts<T>(key: T -> int, q: seq<T>)
    ensures Sorted(key, SortBy(key, q)) && multiset(SortBy(key, q)) == multiset(q)
  {
    hide Insert;
    if q != [] {
      var n := |q| - 1;
      SortSorts(key, q[..n]);
      InsertSorts(key, SortBy(key, q[..n]), q[n]);
      InsertAdds(key, SortBy(key, q[..n]), q[n]);
      assert q == q[..n] + [q[n]];
    }
  }

  lemma TailOfSorted<T>(key: T -> int, q: seq<T>)
    requires Sorted(key, q) && q != []
    ensures Sorted(key, q[1..]) && forall x | x in q :: key(q[0]) <= key(x)
    ensures (forall x | x in q :: x == q[0] || x in q[1..]) && forall x | x in q[1..] :: x in q
  {}

  /** The elements with one key, in order. */
  function WithKey<T>(key: T -> int, q: seq<T>, k: int): seq<T> {
    if q == [] then [] else WithKey(key, q[..|q| - 1], k) + if key(q[|q| - 1]) == k then [q[|q| - 1]] else []
  }

  lemma WithKeySnoc<T>(key: T -> int, q: seq<T>, x: T, k: int)
    ensures WithKey(key, q + [x], k) == WithKey(key, q, k) + if key(x) == k then [x] else []
  {
    assert (q + [x])[..|q|] == q;
  }

  lemma {:induction false} InsertBehind<T>(key: T -> int, q: seq<T>, x: T, k: int)
    requires Sorted(key, q)
    ensures WithKey(key, Insert(key, q, x), k) == WithKey(key, q, k) + if key(x) == k then [x] else []
  {
    if q == [] || key(q[|q| - 1]) <= key(x) {
      WithKeySnoc(key, q, x, k);
    } else {
      var n := |q| - 1;
      InsertBehind(key, q[..n], x, k);
      assert Insert(key, q, x) == Insert(key, q[..n], x) + [q[n]];
      WithKeySnoc(key, Insert(key, q[..n], x), q[n], k);
      WithKeySnoc(key, q[..n], q[n], k);
      assert q == q[..n] + [q[n]];
      hide Insert, WithKey;
    }
  }

  /** Elements with equal keys keep their order. */
  lemma {:induction false} SortIsStable<T>(key: T -> int, q: seq<T>, k: int)
    ensures WithKey(key, SortBy(key, q), k) == WithKey(key, q, k)
  {
    hide Insert;
    if q != [] {
      var n := |q| - 1;
      SortIsStable(key, q[..n], k);
      SortSorts(key, q[..n]);
      InsertBehind(key, SortBy(key, q[..n]), q[n], k);
    }
  }
}
