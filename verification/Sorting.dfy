/** Python's sorted() and list.sort(): a stable sort by a total preorder. */
module Sorting {

  ghost predicate TotalPreorder<T(!new)>(le: (T, T) -> bool) {
    && (forall x, y :: le(x, y) || le(y, x))
    && (forall x, y, z :: le(x, y) && le(y, z) ==> le(x, z))
  }

  ghost predicate Ordered<T>(xs: seq<T>, le: (T, T) -> bool) {
    forall i, j :: 0 <= i < j < |xs| ==> le(xs[i], xs[j])
  }

  lemma {:induction false} LeastExists<T(!new)>(s: set<T>, le: (T, T) -> bool)
    requires s != {} && TotalPreorder(le)
    ensures exists x :: x in s && forall y :: y in s ==> le(x, y)
    decreases |s|
  {
    assert exists x :: x in s by {
      if forall x :: x !in s {
        assert false;
      }
    }
    var x :| x in s;
    var rest := s - {x};
    assert s == rest + {x};
    if rest == {} {
      assert x in s && forall y :: y in s ==> le(x, y);
    } else {
      LeastExists(rest, le);
      var z :| z in rest && forall y :: y in rest ==> le(z, y);
      var least := if le(x, z) then x else z;
      assert least in s && forall y :: y in s ==> le(least, y);
    }
  }

  /** Each element is at most its successor: the test Python code writes with pairwise(). */
  predicate Pairwise<T>(xs: seq<T>, le: (T, T) -> bool) {
    |xs| < 2 || (le(xs[0], xs[1]) && Pairwise(xs[1..], le))
  }

  /** Puts x before the first element it is at most: equal elements keep their order. */
  function Insert<T>(x: T, xs: seq<T>, le: (T, T) -> bool): (r: seq<T>)
    ensures multiset(r) == multiset([x] + xs)
  {
    if xs == [] || le(x, xs[0]) then
      [x] + xs
    else
      assert xs == [xs[0]] + xs[1..];
      [xs[0]] + Insert(x, xs[1..], le)
  }

  function StableSort<T>(xs: seq<T>, le: (T, T) -> bool): (r: seq<T>)
    ensures multiset(r) == multiset(xs)
  {
    if xs == [] then
      []
    else
      assert xs == [xs[0]] + xs[1..];
      Insert(xs[0], StableSort(xs[1..], le), le)
  }

  lemma SameElements<T>(xs: seq<T>, ys: seq<T>)
    requires multiset(xs) == multiset(ys)
    ensures |xs| == |ys|
    ensures forall x :: x in xs <==> x in ys
  {
    assert |multiset(xs)| == |xs|;
    assert |multiset(ys)| == |ys|;
    forall x
      ensures x in xs <==> x in ys
    {
      assert x in xs <==> x in multiset(xs);
      assert x in ys <==> x in multiset(ys);
    }
  }

  lemma {:induction false} InsertOrdered<T(!new)>(x: T, xs: seq<T>, le: (T, T) -> bool)
    requires TotalPreorder(le) && Ordered(xs, le)
    ensures Ordered(Insert(x, xs, le), le)
  {
    if xs == [] || le(x, xs[0]) {
    } else {
      var rest := Insert(x, xs[1..], le);
      InsertOrdered(x, xs[1..], le);
      SameElements(rest, [x] + xs[1..]);
      forall j | 0 <= j < |rest|
        ensures le(xs[0], rest[j])
      {
        assert rest[j] in [x] + xs[1..];
        if rest[j] != x {
          var i :| 1 <= i < |xs| && xs[i] == rest[j];
        }
      }
    }
  }

  lemma {:induction false} SortOrders<T(!new)>(xs: seq<T>, le: (T, T) -> bool)
    requires TotalPreorder(le)
    ensures Ordered(StableSort(xs, le), le)
  {
    if xs != [] {
      SortOrders(xs[1..], le);
      InsertOrdered(xs[0], StableSort(xs[1..], le), le);
    }
  }

  /** Sorting a sequence that passes the pairwise test changes nothing, so skipping the sort is safe. */
  lemma {:induction false} SortKeepsPairwise<T>(xs: seq<T>, le: (T, T) -> bool)
    requires Pairwise(xs, le)
    ensures StableSort(xs, le) == xs
  {
    if xs != [] {
      SortKeepsPairwise(xs[1..], le);
    }
  }

  lemma {:induction false} OrderedIsPairwise<T>(xs: seq<T>, le: (T, T) -> bool)
    requires Ordered(xs, le)
    ensures Pairwise(xs, le)
  {
    if |xs| >= 2 {
      OrderedIsPairwise(xs[1..], le);
    }
  }

  lemma SortKeepsOrdered<T>(xs: seq<T>, le: (T, T) -> bool)
    requires Ordered(xs, le)
    ensures StableSort(xs, le) == xs
  {
    OrderedIsPairwise(xs, le);
    SortKeepsPairwise(xs, le);
  }

  /** No two different elements are tied. */
  ghost predicate Untied<T(!new)>(xs: seq<T>, le: (T, T) -> bool) {
    forall a, b :: a in xs && b in xs && le(a, b) && le(b, a) ==> a == b
  }

  lemma {:induction false} SameTails<T>(xs: seq<T>, ys: seq<T>)
    requires multiset(xs) == multiset(ys) && xs != [] && ys != [] && xs[0] == ys[0]
    ensures multiset(xs[1..]) == multiset(ys[1..])
  {
    assert xs == [xs[0]] + xs[1..] && ys == [ys[0]] + ys[1..];
    assert multiset(xs[1..]) == multiset(xs) - multiset{xs[0]};
    assert multiset(ys[1..]) == multiset(ys) - multiset{ys[0]};
  }

  lemma {:induction false} LeastIsUnique<T(!new)>(xs: seq<T>, ys: seq<T>, le: (T, T) -> bool)
    requires xs != [] && ys != [] && ys[0] in xs && xs[0] in ys
    requires TotalPreorder(le) && Ordered(xs, le) && Ordered(ys, le) && Untied(xs, le)
    ensures xs[0] == ys[0]
  {
    var i :| 0 <= i < |xs| && xs[i] == ys[0];
    var j :| 0 <= j < |ys| && ys[j] == xs[0];
    assert le(xs[0], xs[i]) && le(ys[0], ys[j]);
  }

  /** Without ties there is only one ordering of the same elements. */
  lemma {:induction false} OrderingIsUnique<T(!new)>(xs: seq<T>, ys: seq<T>, le: (T, T) -> bool)
    requires multiset(xs) == multiset(ys) && TotalPreorder(le)
    requires Ordered(xs, le) && Ordered(ys, le) && Untied(xs, le)
    ensures xs == ys
  {
    SameElements(xs, ys);
    if xs != [] {
      LeastIsUnique(xs, ys, le);
      SameTails(xs, ys);
      OrderingIsUnique(xs[1..], ys[1..], le);
    }
  }

  /** So sorting untied elements forgets the order they were listed in. */
  lemma {:induction false} SortForgetsOrder<T(!new)>(xs: seq<T>, ys: seq<T>, le: (T, T) -> bool)
    requires multiset(xs) == multiset(ys) && TotalPreorder(le) && Untied(xs, le)
    ensures StableSort(xs, le) == StableSort(ys, le)
  {
    SortOrders(xs, le);
    SortOrders(ys, le);
    SameElements(StableSort(xs, le), xs);
    OrderingIsUnique(StableSort(xs, le), StableSort(ys, le), le);
  }
}
