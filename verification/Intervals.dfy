/** Half-open nanosecond intervals and the number of nanoseconds they cover. */
module Intervals {
  import opened Common

  datatype Interval = Interval(from: int, to: int)

  ghost predicate CoversPoint(ivs: seq<Interval>, t: int) {
    exists i :: 0 <= i < |ivs| && ivs[i].from <= t < ivs[i].to
  }

  /** The nanoseconds of a window that some interval covers. */
  ghost function Points(ivs: seq<Interval>, windowStart: int, windowEnd: int): set<int> {
    set t | windowStart <= t < windowEnd && CoversPoint(ivs, t)
  }

  ghost function Range(from: int, to: int): (r: set<int>)
    ensures forall t :: t in r <==> from <= t < to
    ensures |r| == Max(0, to - from)
    decreases Max(0, to - from)
  {
    if from >= to then {} else Range(from, to - 1) + {to - 1}
  }

  lemma {:induction false} CoversConcat(a: seq<Interval>, b: seq<Interval>, t: int)
    ensures CoversPoint(a + b, t) <==> CoversPoint(a, t) || CoversPoint(b, t)
  {
    if CoversPoint(a, t) {
      var i :| 0 <= i < |a| && a[i].from <= t < a[i].to;
      assert (a + b)[i] == a[i];
    }
    if CoversPoint(b, t) {
      var i :| 0 <= i < |b| && b[i].from <= t < b[i].to;
      assert (a + b)[|a| + i] == b[i];
    }
    if CoversPoint(a + b, t) {
      var i :| 0 <= i < |a + b| && (a + b)[i].from <= t < (a + b)[i].to;
      if i < |a| {
        assert a[i] == (a + b)[i];
      } else {
        assert b[i - |a|] == (a + b)[i];
      }
    }
  }

  lemma PointsConcat(a: seq<Interval>, b: seq<Interval>, windowStart: int, windowEnd: int)
    ensures Points(a + b, windowStart, windowEnd) == Points(a, windowStart, windowEnd) + Points(b, windowStart, windowEnd)
  {
    forall t {
      CoversConcat(a, b, t);
    }
  }

  /** Cardinalities of a union and an intersection. */
  lemma {:induction false} InclusionExclusion(a: set<int>, b: set<int>)
    ensures |a + b| + |a * b| == |a| + |b|
  {
    assert a + b == a + (b - a);
    assert b == (b - a) + a * b;
    assert |b| == |b - a| + |a * b|;
  }

  /** A subset as large as the whole is the whole. */
  lemma {:induction false} SubsetSize(a: set<int>, b: set<int>)
    requires a <= b
    ensures |a| <= |b|
    ensures |a| == |b| ==> a == b
  {
    assert b == a + (b - a);
    assert |b| == |a| + |b - a|;
  }
}
