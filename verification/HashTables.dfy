/** The program walks hash tables in an order nobody can rely on. Here a walk picks any entry
    it has not visited yet. */
module HashTables {

  // Whether a sequence lists a set, each element once: one of the orders in which a hash
  // table may be walked.
  ghost predicate Lists<T(!new)>(order: seq<T>, items: set<T>) {
    && (forall x :: x in order <==> x in items)
    && (forall i, j | 0 <= i < j < |order| :: order[i] != order[j])
  }

  // The next entry of a walk.
  method Pick<T>(items: set<T>) returns (x: T)
    requires items != {}
    ensures x in items
  {
    x :| x in items;
  }

  lemma ListsNext<T(!new)>(order: seq<T>, items: set<T>, left: set<T>, x: T)
    requires Lists(order, items - left) && x in left && left <= items
    ensures Lists(order + [x], items - (left - {x}))
  {
    forall y ensures y in order + [x] <==> y in items - (left - {x}) {
      assert y in order <==> y in items - left;
    }
  }

  /** Every set can be walked. */
  lemma {:induction false} SomeWalk<T(!new)>(items: set<T>)
    ensures exists order :: Lists(order, items)
  {
    if items == {} {
      assert Lists([], items);
    } else {
      var x :| x in items;
      SomeWalk(items - {x});
      var order :| Lists(order, items - {x});
      assert Lists(order + [x], items);
    }
  }

  // A walk may begin with any entries.
  lemma WalkFrom<T(!new)>(front: seq<T>, rest: seq<T>, items: set<T>)
    requires forall x | x in front :: x in items
    requires forall i, j | 0 <= i < j < |front| :: front[i] != front[j]
    requires Lists(rest, items - (set x | x in front))
    ensures Lists(front + rest, items)
  {
    var ends := set x | x in front;
    forall x ensures x in front + rest <==> x in items {
      assert x in rest <==> x in items - ends;
    }
    var all := front + rest;
    forall i, j | 0 <= i < j < |all| ensures all[i] != all[j] {
      if i < |front| <= j {
        assert all[i] in front && all[j] in rest;
        assert all[j] in items - ends;
      }
    }
  }
}
