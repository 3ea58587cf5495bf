/** Lists without repeated elements, and the sets they list. */
module Listings {

  ghost predicate NoRepeats<T>(xs: seq<T>) {
    forall i, j :: 0 <= i < j < |xs| ==> xs[i] != xs[j]
  }

  ghost predicate Precedes<T(!new)>(xs: seq<T>, a: T, b: T) {
    exists i, j :: 0 <= i < j < |xs| && xs[i] == a && xs[j] == b
  }

  function Elements<T>(xs: seq<T>): set<T> {
    set x | x in xs
  }

  lemma {:induction false} NoRepeatsSize<T>(xs: seq<T>)
    ensures |Elements(xs)| <= |xs|
    ensures |Elements(xs)| == |xs| <==> NoRepeats(xs)
  {
    if xs != [] {
      var front, last := xs[..|xs| - 1], xs[|xs| - 1];
      NoRepeatsSize(front);
      assert Elements(xs) == Elements(front) + {last};
      if last in Elements(front) {
        assert Elements(xs) == Elements(front);
        var i :| 0 <= i < |front| && front[i] == last;
        assert xs[i] == xs[|xs| - 1];
      }
      assert NoRepeats(xs) ==> NoRepeats(front);
    }
  }

  lemma AppendElement<T>(xs: seq<T>, x: T)
    ensures Elements(xs + [x]) == Elements(xs) + {x}
    ensures x in xs <==> x in Elements(xs)
    ensures NoRepeats(xs) && x !in xs ==> NoRepeats(xs + [x])
    ensures NoRepeats(xs + [x]) ==> NoRepeats(xs) && x !in xs
  {
    if NoRepeats(xs + [x]) {
      assert (xs + [x])[|xs|] == x;
      forall i | 0 <= i < |xs|
        ensures xs[i] == (xs + [x])[i] && xs[i] != x
      {
      }
    }
  }
}
