/** Sequences that hold the same items in another order, and what is collected along them. */
module Reordering {
  import opened HashTables

  // What a function yields along a sequence.
  function Collect<S, T>(f: S -> seq<T>, order: seq<S>): seq<T> {
    if order == [] then []
    else Collect(f, order[..|order| - 1]) + f(order[|order| - 1])
  }

  lemma CollectSnoc<S, T>(f: S -> seq<T>, order: seq<S>, x: S)
    ensures Collect(f, order + [x]) == Collect(f, order) + f(x)
  {
    assert (order + [x])[..|order|] == order;
  }

  lemma Assoc<T>(a: seq<T>, b: seq<T>, c: seq<T>)
    ensures a + (b + c) == (a + b) + c
  {
  }

  lemma {:induction false} CollectWithout<S, T>(f: S -> seq<T>, order: seq<S>, j: nat)
    requires j < |order|
    ensures multiset(Collect(f, order)) == multiset(Collect(f, order[..j] + order[j + 1..])) + multiset(f(order[j]))
  {
    var n := |order| - 1;
    var head, x := order[..n], order[n];
    assert order == head + [x];
    CollectSnoc(f, head, x);
    if j == n {
      assert order[..j] + order[j + 1..] == head;
    } else {
      var rest := head[..j] + head[j + 1..];
      CollectWithout(f, head, j);
      assert order[..j] + order[j + 1..] == rest + [x];
      CollectSnoc(f, rest, x);
    }
  }

  lemma WithoutOne<S>(order: seq<S>, j: nat)
    requires j < |order|
    ensures multiset(order[..j] + order[j + 1..]) == multiset(order) - multiset{order[j]}
  {
    assert order == order[..j] + [order[j]] + order[j + 1..];
  }

  /** The same items in another order yield the same. */
  lemma {:induction false} CollectSame<S, T>(f: S -> seq<T>, a: seq<S>, b: seq<S>)
    requires multiset(a) == multiset(b)
    ensures multiset(Collect(f, a)) == multiset(Collect(f, b))
    decreases |a|
  {
    if a == [] {
      assert |multiset(b)| == 0;
    } else {
      assert a == a[..|a| - 1] + [a[|a| - 1]];
      var front, x := a[..|a| - 1], a[|a| - 1];
      var j := Place(front, x, b);
      CollectWithout(f, b, j);
      CollectSame(f, front, b[..j] + b[j + 1..]);
    }
  }

  // The place of an item among the same items, which leaves the same others.
  lemma Place<S>(front: seq<S>, x: S, b: seq<S>) returns (j: nat)
    requires multiset(front + [x]) == multiset(b)
    ensures j < |b| && b[j] == x && multiset(front) == multiset(b[..j] + b[j + 1..])
  {
    assert x in multiset(b);
    j :| 0 <= j < |b| && b[j] == x;
    WithoutOne(b, j);
    assert multiset(front + [x]) == multiset(front) + multiset{x};
  }

  // A walk meets each entry once.
  lemma {:induction false} ListsCount<T(!new)>(order: seq<T>, items: set<T>, x: T)
    requires Lists(order, items)
    ensures multiset(order)[x] == if x in items then 1 else 0
  {
    if x in order {
      var j :| 0 <= j < |order| && order[j] == x;
      var rest := order[..j] + order[j + 1..];
      WithoutOne(order, j);
      assert x !in rest;
      assert x !in multiset(rest);
    }
  }

  /** Two walks of the same hash table collect the same. */
  lemma CollectAnyOrder<S(!new), T>(f: S -> seq<T>, a: seq<S>, b: seq<S>, items: set<S>)
    requires Lists(a, items) && Lists(b, items)
    ensures multiset(Collect(f, a)) == multiset(Collect(f, b))
  {
    forall x ensures multiset(a)[x] == multiset(b)[x] {
      ListsCount(a, items, x);
      ListsCount(b, items, x);
    }
    CollectSame(f, a, b);
  }

  // ---- sorted sequences ----

  ghost predicate Sorted(a: seq<int>) {
    forall i, j | 0 <= i < j < |a| :: a[i] <= a[j]
  }

  /** Sorting leaves no choice. */
  lemma {:induction false} SortedUnique(a: seq<int>, b: seq<int>)
    requires multiset(a) == multiset(b) && Sorted(a) && Sorted(b)
    ensures a == b
    decreases |a|
  {
    assert |a| == |multiset(a)| == |multiset(b)| == |b|;
    if a != [] {
      LastsAgree(a, b);
      WithoutLast(a);
      WithoutLast(b);
      SortedUnique(a[..|a| - 1], b[..|b| - 1]);
    }
  }

  lemma WithoutLast(a: seq<int>)
    requires a != [] && Sorted(a)
    ensures var front, last := a[..|a| - 1], a[|a| - 1];
            a == front + [last] && Sorted(front) && multiset(front) == multiset(a) - multiset{last}
  {
    assert a == a[..|a| - 1] + [a[|a| - 1]];
  }

  lemma LastsAgree(a: seq<int>, b: seq<int>)
    requires multiset(a) == multiset(b) && Sorted(a) && Sorted(b) && |a| == |b| > 0
    ensures a[|a| - 1] == b[|b| - 1]
  {
    assert a[|a| - 1] in multiset(b) && b[|b| - 1] in multiset(a);
  }
}
