/**
 * What the day-by-day pieces of gaps add up to: the invalid time that the quality step derives from each day's ledger
 * tiles every gap exactly, when the gap's first closing comes after the last midnight it crossed (collector/gaps.py,
 * pipeline/quality.py).
 */
module GapTiling {
  import opened Wrappers
  import opened Sorting
  import opened Intervals
  import opened Ledger
  import opened Quality
  import opened GapRollover
  import opened GapRuns

  // ---- Gaps do not disturb each other ------------------------------------------------------------

  function OnlyGap(xs: seq<GapEvent>, g: int): seq<GapEvent> {
    if xs == [] then []
    else OnlyGap(xs[..|xs| - 1], g) + if xs[|xs| - 1].gapId == g then [xs[|xs| - 1]] else []
  }

  lemma {:induction false} OnlyGapCounts(xs: seq<GapEvent>, g: int)
    ensures forall e :: multiset(OnlyGap(xs, g))[e] == if e.gapId == g then multiset(xs)[e] else 0
  {
    if xs != [] {
      OnlyGapCounts(xs[..|xs| - 1], g);
      assert xs == xs[..|xs| - 1] + [xs[|xs| - 1]];
    }
  }

  lemma {:induction false} OnlyGapOrdered(xs: seq<GapEvent>, g: int, le: (GapEvent, GapEvent) -> bool)
    requires Ordered(xs, le)
    ensures Ordered(OnlyGap(xs, g), le)
  {
    if xs != [] {
      var front, e := xs[..|xs| - 1], xs[|xs| - 1];
      OnlyGapOrdered(front, g, le);
      OnlyGapCounts(front, g);
      var r := OnlyGap(front, g);
      forall i | 0 <= i < |r|
        ensures le(r[i], e)
      {
        assert multiset(r)[r[i]] > 0;
        assert r[i] in front;
        var j :| 0 <= j < |front| && front[j] == r[i];
        assert xs[j] == r[i];
      }
    }
  }

  /** The dict as a set of its entries. */
  lemma {:induction false} SetOpenEntries(o: seq<Opened>, id: int, start: int)
    requires Distinct(o)
    ensures forall x :: x in SetOpen(o, id, start) <==> x == Opened(id, start) || (x in o && x.gapId != id)
  {
    OpenEntries(o);
    if o != [] {
      assert o == [o[0]] + o[1..];
      OpenEntries(o[1..]);
      if o[0].gapId != id {
        SetOpenEntries(o[1..], id, start);
      }
    }
  }

  lemma {:induction false} DropOpenEntries(o: seq<Opened>, id: int)
    requires Distinct(o)
    ensures forall x :: x in DropOpen(o, id) <==> x in o && x.gapId != id
  {
    if o != [] {
      assert o == [o[0]] + o[1..];
      OpenEntries(o[1..]);
      if o[0].gapId != id {
        DropOpenEntries(o[1..], id);
      }
    }
  }

  lemma {:induction false} OpenEntries(o: seq<Opened>)
    requires Distinct(o)
    ensures forall x :: x in o ==> IsOpen(o, x.gapId) && StartOf(o, x.gapId) == x.start
    ensures forall g :: IsOpen(o, g) ==> Opened(g, StartOf(o, g)) in o
  {
    if o != [] {
      assert o == [o[0]] + o[1..];
      OpenEntries(o[1..]);
    }
  }

  function ClosedOf(xs: seq<GapEvent>, g: int): seq<Interval> {
    FoldGaps(OnlyGap(xs, g)).closed
  }

  /** The fold over all gaps holds what the folds over single gaps hold, put together. */
  ghost predicate Together(f: GapFold, xs: seq<GapEvent>) {
    && Distinct(f.openGaps)
    && (forall g :: Distinct(FoldGaps(OnlyGap(xs, g)).openGaps))
    && (forall g, x :: x in FoldGaps(OnlyGap(xs, g)).openGaps ==> x.gapId == g)
    && (forall x :: x in f.openGaps <==> x in FoldGaps(OnlyGap(xs, x.gapId)).openGaps)
    && (forall s :: s in f.closed <==> exists g :: s in ClosedOf(xs, g))
  }

  lemma {:induction false} FoldOfSnoc(xs: seq<GapEvent>, e: GapEvent)
    ensures FoldGaps(xs + [e]) == FoldGap(FoldGaps(xs), e)
    ensures forall g :: FoldGaps(OnlyGap(xs + [e], g)) == if g == e.gapId then FoldGap(FoldGaps(OnlyGap(xs, g)), e) else FoldGaps(OnlyGap(xs, g))
  {
    assert (xs + [e])[..|xs|] == xs;
    forall g
      ensures FoldGaps(OnlyGap(xs + [e], g)) == if g == e.gapId then FoldGap(FoldGaps(OnlyGap(xs, g)), e) else FoldGaps(OnlyGap(xs, g))
    {
      var r := OnlyGap(xs, g);
      assert (r + [e])[..|r|] == r;
      assert r + [] == r;
    }
  }

  lemma {:induction false} FoldKeepsTogether(f: GapFold, h: GapFold, e: GapEvent)
    requires Distinct(f.openGaps) && Distinct(h.openGaps) && forall x :: x in h.openGaps ==> x.gapId == e.gapId
    requires forall x: Opened :: x.gapId == e.gapId ==> (x in f.openGaps <==> x in h.openGaps)
    ensures var r, q := FoldGap(f, e), FoldGap(h, e);
            && Distinct(r.openGaps) && Distinct(q.openGaps)
            && (forall x :: x in q.openGaps ==> x.gapId == e.gapId)
            && (forall x: Opened :: x.gapId == e.gapId ==> (x in r.openGaps <==> x in q.openGaps))
            && (forall x: Opened :: x.gapId != e.gapId ==> (x in r.openGaps <==> x in f.openGaps))
            && |h.closed| <= |q.closed| && q.closed[..|h.closed|] == h.closed
            && r.closed == f.closed + q.closed[|h.closed|..]
  {
    OpenEntries(f.openGaps);
    OpenEntries(h.openGaps);
    SetOpenFacts(f.openGaps, e.gapId, QualityEffectiveNs(e));
    SetOpenFacts(h.openGaps, e.gapId, QualityEffectiveNs(e));
    SetOpenEntries(f.openGaps, e.gapId, QualityEffectiveNs(e));
    SetOpenEntries(h.openGaps, e.gapId, QualityEffectiveNs(e));
    DropOpenFacts(f.openGaps, e.gapId);
    DropOpenFacts(h.openGaps, e.gapId);
    DropOpenEntries(f.openGaps, e.gapId);
    DropOpenEntries(h.openGaps, e.gapId);
  }

  /** When one gap's closed spans grow by some elements, so do all gaps' spans. */
  lemma {:induction false} UnionGrows(all: seq<Interval>, grown: seq<Interval>, xs: seq<GapEvent>, ys: seq<GapEvent>, id: int, added: seq<Interval>)
    requires forall s :: s in all <==> exists g :: s in ClosedOf(xs, g)
    requires grown == all + added && ClosedOf(ys, id) == ClosedOf(xs, id) + added
    requires forall g :: g != id ==> ClosedOf(ys, g) == ClosedOf(xs, g)
    ensures forall s :: s in grown <==> exists g :: s in ClosedOf(ys, g)
  {
    hide ClosedOf;
    forall s
      ensures s in grown <==> exists g :: s in ClosedOf(ys, g)
    {
      if s in all {
        var g :| s in ClosedOf(xs, g);
        assert s in ClosedOf(ys, g);
      } else if s in added {
        assert s in ClosedOf(ys, id);
      } else {
        forall g
          ensures s !in ClosedOf(ys, g)
        {
          assert s !in ClosedOf(xs, g);
        }
      }
    }
  }

  lemma {:induction false} ClosedTogether(f: GapFold, xs: seq<GapEvent>, e: GapEvent)
    requires Together(f, xs)
    ensures forall s :: s in FoldGap(f, e).closed <==> exists g :: s in ClosedOf(xs + [e], g)
  {
    var h := FoldGaps(OnlyGap(xs, e.gapId));
    var q := FoldGap(h, e);
    FoldKeepsTogether(f, h, e);
    FoldOfSnoc(xs, e);
    hide FoldGap, FoldGaps, OnlyGap, Distinct;
    assert q.closed == h.closed + q.closed[|h.closed|..];
    UnionGrows(f.closed, FoldGap(f, e).closed, xs, xs + [e], e.gapId, q.closed[|h.closed|..]);
  }

  lemma {:induction false} StepKeepsTogether(f: GapFold, xs: seq<GapEvent>, e: GapEvent)
    requires Together(f, xs)
    ensures Together(FoldGap(f, e), xs + [e])
  {
    hide FoldGap, FoldGaps, OnlyGap, Distinct, ClosedOf;
    ClosedTogether(f, xs, e);
    FoldKeepsTogether(f, FoldGaps(OnlyGap(xs, e.gapId)), e);
    FoldOfSnoc(xs, e);
    var r := FoldGap(f, e);
    forall x
      ensures x in r.openGaps <==> x in FoldGaps(OnlyGap(xs + [e], x.gapId)).openGaps
    {
    }
    forall g, x | x in FoldGaps(OnlyGap(xs + [e], g)).openGaps
      ensures x.gapId == g
    {
    }
    assert forall g :: Distinct(FoldGaps(OnlyGap(xs + [e], g)).openGaps);
  }

  lemma {:induction false} NothingTogether()
    ensures Together(FoldGaps([]), [])
  {
    forall g
      ensures OnlyGap([], g) == []
    {
    }
    hide OnlyGap;
  }

  lemma {:induction false} GapsFoldTogether(xs: seq<GapEvent>)
    ensures Together(FoldGaps(xs), xs)
  {
    hide *;
    if xs == [] {
      NothingTogether();
    } else {
      var front, e := xs[..|xs| - 1], xs[|xs| - 1];
      GapsFoldTogether(front);
      StepKeepsTogether(FoldGaps(front), front, e);
      FoldOfSnoc(front, e);
      assert xs == front + [e];
    }
  }

  lemma {:induction false} SomeGapCovers(xs: seq<GapEvent>, windowEnd: int, t: int) returns (g: int)
    requires CoversPoint(GapSpans(xs, windowEnd), t)
    ensures CoversPoint(GapSpans(OnlyGap(xs, g), windowEnd), t)
  {
    GapsFoldTogether(xs);
    var f := FoldGaps(xs);
    CoveredByGaps(f, windowEnd, t);
    hide FoldGaps, OnlyGap, CoversPoint, StillOpen, Distinct;
    if s :| s in f.closed && s.from <= t < s.to {
      g :| s in ClosedOf(xs, g);
    } else {
      var x :| x in f.openGaps && x.start <= t < windowEnd;
      g := x.gapId;
    }
    CoveredByGaps(FoldGaps(OnlyGap(xs, g)), windowEnd, t);
  }

  lemma {:induction false} EachGapCovers(xs: seq<GapEvent>, windowEnd: int, t: int, g: int)
    requires CoversPoint(GapSpans(OnlyGap(xs, g), windowEnd), t)
    ensures CoversPoint(GapSpans(xs, windowEnd), t)
  {
    GapsFoldTogether(xs);
    var f, h := FoldGaps(xs), FoldGaps(OnlyGap(xs, g));
    CoveredByGaps(f, windowEnd, t);
    CoveredByGaps(h, windowEnd, t);
    hide FoldGaps, OnlyGap, CoversPoint, StillOpen, Distinct;
    if s :| s in h.closed && s.from <= t < s.to {
      assert s in ClosedOf(xs, g);
      assert s in f.closed;
    } else {
      var x :| x in h.openGaps && x.start <= t < windowEnd;
      assert x in f.openGaps;
    }
  }

  /** A nanosecond is explicitly invalid exactly when some one gap's events make it so. */
  lemma {:induction false} GapsAreIndependent(xs: seq<GapEvent>, windowEnd: int, t: int)
    ensures CoversPoint(GapSpans(xs, windowEnd), t) <==> exists g :: CoversPoint(GapSpans(OnlyGap(xs, g), windowEnd), t)
  {
    hide GapSpans, OnlyGap, CoversPoint;
    if CoversPoint(GapSpans(xs, windowEnd), t) {
      var g := SomeGapCovers(xs, windowEnd, t);
    }
    if g :| CoversPoint(GapSpans(OnlyGap(xs, g), windowEnd), t) {
      EachGapCovers(xs, windowEnd, t, g);
    }
  }

  // ---- One gap on one day ------------------------------------------------------------------------

  /** One opening among closings of the same gap: closings before it are stray, the first one after it ends it. */
  lemma {:induction false} SingleOpening(xs: seq<GapEvent>, i: nat, k: nat)
    requires i < |xs| && k <= |xs| && xs[i].state.Open?
    requires forall j :: 0 <= j < |xs| ==> xs[j].gapId == xs[i].gapId && (j != i ==> xs[j].state.Closed?)
    ensures FoldGaps(xs[..k]) ==
            if k <= i then GapFold([], [])
            else if k == i + 1 then GapFold([Opened(xs[i].gapId, QualityEffectiveNs(xs[i]))], [])
            else GapFold([], [Interval(QualityEffectiveNs(xs[i]), ClosedEnd(xs[i + 1]))])
  {
    if k > 0 {
      SingleOpening(xs, i, k - 1);
      assert xs[..k][..k - 1] == xs[..k - 1] && xs[..k][k - 1] == xs[k - 1];
    }
  }

  /** Every event of some kind is in a day's ledger once: the files of the day, in any order. */
  ghost predicate ListsDay(ledger: seq<GapEvent>, s: Store, day: int) {
    forall e :: multiset(ledger)[e] == if Stored(s, e) && EventDay(e) == day then 1 else 0
  }

  /** The events of one gap, as the quality step meets them on one day. */
  function DayOfGap(ledger: seq<GapEvent>, symbol: string, g: int): seq<GapEvent> {
    OnlyGap(StableSort(Select(ledger, symbol), ByQualityKey), g)
  }

  lemma {:induction false} DayOfGapFacts(ledger: seq<GapEvent>, symbol: string, s: Store, day: int, g: int)
    requires ListsDay(ledger, s, day)
    ensures var xs := DayOfGap(ledger, symbol, g);
            && Ordered(xs, ByQualityKey)
            && (forall e :: multiset(xs)[e] == if Stored(s, e) && EventDay(e) == day && Relevant(e, symbol) && e.gapId == g then 1 else 0)
  {
    var sorted := StableSort(Select(ledger, symbol), ByQualityKey);
    KeysAreTotal();
    SortOrders(Select(ledger, symbol), ByQualityKey);
    SelectCounts(ledger, symbol);
    OnlyGapOrdered(sorted, g, ByQualityKey);
    OnlyGapCounts(sorted, g);
  }

  function DayStart(day: int): int {
    day * DAY_NS
  }

  function DayEnd(day: int): int {
    (day + 1) * DAY_NS
  }

  predicate IsClosing(s: Store, gap: GapEvent, c: GapEvent) {
    Stored(s, c) && GoodClosing(c, gap)
  }

  /** One of the gap's closings lies between its opening on a day and t. */
  ghost predicate Separated(s: Store, gap: GapEvent, day: int, t: int) {
    exists c :: IsClosing(s, gap, c) && EventDay(c) == day && EffectiveNs(OpeningIn(gap, day)) < c.observedNs <= t
  }

  /** A gap's part of a day, as the quality step sees it: from its opening there to the first closing behind it. */
  ghost predicate InPart(s: Store, gap: GapEvent, day: int, t: int) {
    EffectiveNs(OpeningIn(gap, day)) <= t < DayEnd(day) && !Separated(s, gap, day, t)
  }

  lemma {:induction false} OnlyClosings(xs: seq<GapEvent>)
    requires forall j :: 0 <= j < |xs| ==> xs[j].state.Closed?
    ensures FoldGaps(xs) == GapFold([], [])
  {
    if xs != [] {
      OnlyClosings(xs[..|xs| - 1]);
    }
  }

  lemma {:induction false} OneSpan(span: Interval, t: int)
    ensures CoversPoint([span] + [], t) <==> span.from <= t < span.to
    ensures CoversPoint([] + [span], t) <==> span.from <= t < span.to
  {
    assert ([span] + [])[0] == span && ([] + [span])[0] == span;
  }

  lemma SameReading(gap: GapEvent, day: int)
    requires gap.state.Open? && gap.affectedFromNs != Some(0)
    ensures QualityEffectiveNs(OpeningIn(gap, day)) == EffectiveNs(OpeningIn(gap, day))
  {
  }

  /** An opening and closings of one gap. */
  predicate GoodGap(gap: GapEvent, closings: seq<GapEvent>) {
    GoodOpening(gap, gap.gapId) && forall i :: 0 <= i < |closings| ==> GoodClosing(closings[i], gap)
  }

  /** The quality step's events of one gap on one day: those stored there, once each, in order. */
  ghost predicate OnDay(xs: seq<GapEvent>, s: Store, g: int, day: int) {
    && Ordered(xs, ByQualityKey)
    && (forall e :: e in xs <==> Stored(s, e) && EventDay(e) == day && e.gapId == g)
    && (forall i, j :: 0 <= i < j < |xs| ==> xs[i] != xs[j])
  }

  lemma {:induction false} CountedOnce(xs: seq<GapEvent>)
    requires forall e :: multiset(xs)[e] <= 1
    ensures forall i, j :: 0 <= i < j < |xs| ==> xs[i] != xs[j]
  {
    forall i, j | 0 <= i < j < |xs|
      ensures xs[i] != xs[j]
    {
      assert xs == xs[..j] + [xs[j]] + xs[j + 1..];
      assert multiset(xs) == multiset(xs[..j]) + multiset{xs[j]} + multiset(xs[j + 1..]);
      var front := xs[..j];
      assert xs[i] == front[i];
      assert front[i] in multiset(front);
      assert multiset(xs)[xs[j]] == multiset(front)[xs[j]] + 1 + multiset(xs[j + 1..])[xs[j]];
    }
  }

  /** What is stored for a gap on a day: its opening if the day is one of its days, its closings, perhaps a cut. */
  lemma {:induction false} StoredOnDay(s: Store, gap: GapEvent, closings: seq<GapEvent>, last: int, day: int, e: GapEvent)
    requires GoodGap(gap, closings) && Pieces(s, gap, closings, last)
    requires Stored(s, e) && EventDay(e) == day && e.gapId == gap.gapId
    ensures IsClosing(s, gap, e) || (EventDay(gap) <= day <= last && (e == OpeningIn(gap, day) || e == CutBefore(gap, day + 1)))
    ensures e.state.Closed? || day <= last
  {
    assert IsPiece(gap, closings, last, s.events[KeyOf(e)]);
  }

  lemma ClosingIsKnown(s: Store, gap: GapEvent, closings: seq<GapEvent>, last: int, c: GapEvent)
    requires GoodGap(gap, closings) && Pieces(s, gap, closings, last)
    ensures IsClosing(s, gap, c) ==> c in closings
  {
    if IsClosing(s, gap, c) {
      assert IsPiece(gap, closings, last, s.events[KeyOf(c)]);
    }
  }

  lemma {:induction false} AfterOpening(xs: seq<GapEvent>, i: nat, j: nat)
    requires Ordered(xs, ByQualityKey) && i < |xs| && j < |xs| && xs[i].state.Open? && xs[j].state.Closed?
    requires QualityEffectiveNs(xs[i]) < QualityEffectiveNs(xs[j])
    ensures i < j && ClosedBefore(xs[i + 1], xs[j])
  {
    if j < i {
      assert false;
    }
  }

  /** Of a gap's closings and cuts, in the quality step's order. */
  predicate ClosedBefore(a: GapEvent, b: GapEvent) {
    a.state.Closed? ==> a.observedNs <= b.observedNs
  }

  /** The first closing behind the opening decides where the part ends; the midnight cut never comes before one. */
  lemma {:induction false} FirstClosingDecides(xs: seq<GapEvent>, i: nat, s: Store, gap: GapEvent, closings: seq<GapEvent>, last: int, day: int, t: int)
    requires GoodGap(gap, closings) && Pieces(s, gap, closings, last)
    requires OnDay(xs, s, gap.gapId, day) && EventDay(gap) <= day <= last
    requires i < |xs| && xs[i] == OpeningIn(gap, day) && EffectiveNs(xs[i]) <= t
    requires i + 1 < |xs| ==> xs[i + 1].state.Closed?
    ensures InPart(s, gap, day, t) <==> t < if i + 1 < |xs| then ClosedEnd(xs[i + 1]) else DayEnd(day)
  {
    OpeningFacts(gap, day);
    SameReading(gap, day);
    if Separated(s, gap, day, t) {
      var c :| IsClosing(s, gap, c) && EventDay(c) == day && EffectiveNs(OpeningIn(gap, day)) < c.observedNs <= t;
      ClosingCuts(xs, i, s, gap, closings, last, day, c);
    } else if i + 1 < |xs| {
      NextIsBehind(xs, i, s, gap, closings, last, day);
    }
  }

  /** The event after the opening ends the part no later than any closing behind the opening, and within the day. */
  lemma {:induction false} ClosingCuts(xs: seq<GapEvent>, i: nat, s: Store, gap: GapEvent, closings: seq<GapEvent>, last: int, day: int, c: GapEvent)
    requires GoodGap(gap, closings) && Pieces(s, gap, closings, last) && EventDay(gap) <= day <= last
    requires OnDay(xs, s, gap.gapId, day) && i < |xs| && xs[i] == OpeningIn(gap, day)
    requires i + 1 < |xs| ==> xs[i + 1].state.Closed?
    requires IsClosing(s, gap, c) && EventDay(c) == day && EffectiveNs(xs[i]) < c.observedNs
    ensures i + 1 < |xs| && ClosedEnd(xs[i + 1]) <= c.observedNs
  {
    OpeningFacts(gap, day);
    SameReading(gap, day);
    assert c in xs;
    var j :| 0 <= j < |xs| && xs[j] == c;
    AfterOpening(xs, i, j);
    var n := xs[i + 1];
    assert n in xs;
    StoredOnDay(s, gap, closings, last, day, n);
    if !IsClosing(s, gap, n) {
      assert false;
    }
  }

  /** The event after the opening is a closing behind it, or the cut at the day's end. */
  lemma {:induction false} NextIsBehind(xs: seq<GapEvent>, i: nat, s: Store, gap: GapEvent, closings: seq<GapEvent>, last: int, day: int)
    requires GoodGap(gap, closings) && Pieces(s, gap, closings, last) && EventDay(gap) <= day <= last
    requires OnDay(xs, s, gap.gapId, day) && i + 1 < |xs| && xs[i] == OpeningIn(gap, day) && xs[i + 1].state.Closed?
    ensures var n := xs[i + 1];
            if IsClosing(s, gap, n) then EventDay(n) == day && EffectiveNs(xs[i]) < n.observedNs == ClosedEnd(n) < DayEnd(day)
            else ClosedEnd(n) == DayEnd(day)
  {
    OpeningFacts(gap, day);
    SameReading(gap, day);
    var o, n := xs[i], xs[i + 1];
    assert n in xs;
    StoredOnDay(s, gap, closings, last, day, n);
    assert ByQualityKey(o, n);
  }

  /** One gap on one day: from its opening there to its end there. */
  lemma {:induction false} OneDay(xs: seq<GapEvent>, s: Store, gap: GapEvent, closings: seq<GapEvent>, last: int, day: int, t: int)
    requires GoodGap(gap, closings) && Pieces(s, gap, closings, last)
    requires OnDay(xs, s, gap.gapId, day)
    ensures CoversPoint(GapSpans(xs, DayEnd(day)), t) <==> EventDay(gap) <= day <= last && InPart(s, gap, day, t)
  {
    var o := OpeningIn(gap, day);
    forall j | 0 <= j < |xs|
      ensures xs[j].gapId == gap.gapId && ((EventDay(gap) <= day <= last && xs[j] == o) || xs[j].state.Closed?)
    {
      assert xs[j] in xs;
      StoredOnDay(s, gap, closings, last, day, xs[j]);
    }
    hide ByQualityKey, Ordered, OnDay, Separated;
    if EventDay(gap) <= day <= last {
      OpeningFacts(gap, day);
      SameReading(gap, day);
      assert Stored(s, o);
      OpeningIsListed(xs, s, gap.gapId, day, o);
      var i :| 0 <= i < |xs| && xs[i] == o;
      OthersDiffer(xs, s, gap.gapId, day, i);
      SingleOpening(xs, i, |xs|);
      assert xs[..|xs|] == xs;
      var end := if i + 1 < |xs| then ClosedEnd(xs[i + 1]) else DayEnd(day);
      if EffectiveNs(o) <= t {
        FirstClosingDecides(xs, i, s, gap, closings, last, day, t);
      }
      assert StillOpen([], DayEnd(day)) == [];
      assert [Opened(gap.gapId, EffectiveNs(o))][1..] == [];
      assert StillOpen([Opened(gap.gapId, EffectiveNs(o))], DayEnd(day)) == [Interval(EffectiveNs(o), DayEnd(day))];
      OneSpan(Interval(EffectiveNs(o), end), t);
    } else {
      OnlyClosings(xs);
    }
  }

  lemma OpeningIsListed(xs: seq<GapEvent>, s: Store, g: int, day: int, o: GapEvent)
    requires OnDay(xs, s, g, day) && Stored(s, o) && EventDay(o) == day && o.gapId == g
    ensures o in xs
  {
  }

  lemma OthersDiffer(xs: seq<GapEvent>, s: Store, g: int, day: int, i: nat)
    requires OnDay(xs, s, g, day) && i < |xs|
    ensures forall j :: 0 <= j < |xs| && j != i ==> xs[j] != xs[i]
  {
  }

  // ---- All days, all gaps ------------------------------------------------------------------------

  /** A nanosecond is invalid by one gap: so says the quality step from the ledger of its day. */
  ghost predicate InvalidBy(ledgerOf: int -> seq<GapEvent>, symbol: string, g: int, t: int) {
    CoversPoint(GapSpans(DayOfGap(ledgerOf(DayOf(t)), symbol, g), DayEnd(DayOf(t))), t)
  }

  /** Every day's ledger lists the stored events of that day, in some order. */
  ghost predicate ListsDays(ledgerOf: int -> seq<GapEvent>, s: Store) {
    forall day :: ListsDay(ledgerOf(day), s, day)
  }

  lemma {:induction false} StoredIsRelevant(s: Store, gap: GapEvent, closings: seq<GapEvent>, last: int, symbol: string, e: GapEvent)
    requires GoodGap(gap, closings) && Pieces(s, gap, closings, last)
    requires Relevant(gap, symbol) && Stored(s, e) && e.gapId == gap.gapId
    ensures Relevant(e, symbol)
  {
    StoredOnDay(s, gap, closings, last, EventDay(e), e);
  }

  lemma {:induction false} DayOfGapIsOnDay(ledger: seq<GapEvent>, symbol: string, s: Store, gap: GapEvent, closings: seq<GapEvent>, last: int, day: int)
    requires ListsDay(ledger, s, day) && Relevant(gap, symbol)
    requires GoodGap(gap, closings) && Pieces(s, gap, closings, last)
    ensures OnDay(DayOfGap(ledger, symbol, gap.gapId), s, gap.gapId, day)
  {
    hide DayOfGap, ByQualityKey, Ordered, Pieces, ListsDay, EffectiveNs, DayOf;
    var xs := DayOfGap(ledger, symbol, gap.gapId);
    DayOfGapFacts(ledger, symbol, s, day, gap.gapId);
    CountedOnce(xs);
    forall e
      ensures e in xs <==> Stored(s, e) && EventDay(e) == day && e.gapId == gap.gapId
    {
      assert e in xs <==> multiset(xs)[e] > 0;
      if Stored(s, e) && EventDay(e) == day && e.gapId == gap.gapId {
        StoredIsRelevant(s, gap, closings, last, symbol, e);
      }
    }
  }

  lemma {:induction false} InvalidByIs(ledgerOf: int -> seq<GapEvent>, symbol: string, s: Store, gap: GapEvent, closings: seq<GapEvent>, last: int, t: int)
    requires ListsDays(ledgerOf, s) && Relevant(gap, symbol)
    requires GoodGap(gap, closings) && Pieces(s, gap, closings, last)
    ensures InvalidBy(ledgerOf, symbol, gap.gapId, t) <==>
            EventDay(gap) <= DayOf(t) <= last && InPart(s, gap, DayOf(t), t)
  {
    var day := DayOf(t);
    DayOfGapIsOnDay(ledgerOf(day), symbol, s, gap, closings, last, day);
    OneDay(DayOfGap(ledgerOf(day), symbol, gap.gapId), s, gap, closings, last, day, t);
  }

  /** A closing comes after each opening of the gap: after its start and the last midnight it was carried over. */
  ghost predicate ClosesLast(s: Store, gap: GapEvent, closing: GapEvent) {
    forall k :: k in s.events && k.gapId == gap.gapId && s.events[k].state.Open? ==> EffectiveNs(s.events[k]) < closing.observedNs
  }

  /** A closing that comes behind the gap's opening on its own day. */
  ghost predicate EndsItsDay(s: Store, gap: GapEvent, c: GapEvent) {
    && IsClosing(s, gap, c)
    && (exists k :: k in s.events && k.gapId == gap.gapId && s.events[k].state.Open?
                    && EventDay(s.events[k]) == EventDay(c) && EffectiveNs(s.events[k]) < c.observedNs)
  }

  /** The closing comes after every opening, and no earlier closing ended a day's part. */
  ghost predicate EndsAll(s: Store, gap: GapEvent, closing: GapEvent) {
    && IsClosing(s, gap, closing) && ClosesLast(s, gap, closing)
    && (forall c :: EndsItsDay(s, gap, c) ==> closing.observedNs <= c.observedNs)
  }

  lemma DaysAscend(a: int, b: int)
    ensures a <= b ==> DayOf(a) <= DayOf(b)
    ensures DayOf(a) < DayOf(b) ==> a < b
  {
  }

  /** Of a gap's openings the last is the latest. */
  lemma {:induction false} OpenPieceIsEarlier(gap: GapEvent, closings: seq<GapEvent>, last: int, e: GapEvent)
    requires GoodGap(gap, closings) && EventDay(gap) <= last
    requires IsPiece(gap, closings, last, e) && e.state.Open?
    ensures EventDay(gap) <= EventDay(e) <= last && e == OpeningIn(gap, EventDay(e))
    ensures EffectiveNs(e) <= EffectiveNs(OpeningIn(gap, last))
  {
    var day := EventDay(e);
    assert EventDay(gap) <= day <= last && e == OpeningIn(gap, day);
    OpeningFacts(gap, last);
    DaysAscend(EffectiveNs(e), EffectiveNs(OpeningIn(gap, last)));
  }

  lemma {:induction false} ClosesLastMeans(s: Store, gap: GapEvent, closings: seq<GapEvent>, closing: GapEvent, last: int)
    requires GoodGap(gap, closings) && Pieces(s, gap, closings, last) && IsClosing(s, gap, closing)
    ensures ClosesLast(s, gap, closing) <==> EffectiveNs(OpeningIn(gap, last)) < closing.observedNs
    ensures ClosesLast(s, gap, closing) ==> EventDay(closing) == last
  {
    OpeningFacts(gap, last);
    var o := OpeningIn(gap, last);
    StoredOnDay(s, gap, closings, last, EventDay(closing), closing);
    assert EventDay(o) == last && EventDay(closing) <= last && EffectiveNs(closing) == closing.observedNs;
    assert Stored(s, o);
    DaysAscend(EffectiveNs(o), closing.observedNs);
    hide OpeningIn, DayOf, GoodOpening, GoodClosing;
    forall k | k in s.events && k.gapId == gap.gapId && s.events[k].state.Open?
      ensures EffectiveNs(s.events[k]) <= EffectiveNs(o)
    {
      assert IsPiece(gap, closings, last, s.events[k]);
      OpenPieceIsEarlier(gap, closings, last, s.events[k]);
    }
  }

  /** A closing of one of the gap's days ends that day's part exactly if it comes behind the opening there. */
  lemma {:induction false} EndsItsDayMeans(s: Store, gap: GapEvent, closings: seq<GapEvent>, last: int, c: GapEvent)
    requires GoodGap(gap, closings) && Pieces(s, gap, closings, last) && IsClosing(s, gap, c)
    ensures EndsItsDay(s, gap, c) <==> EventDay(gap) <= EventDay(c) <= last && EffectiveNs(OpeningIn(gap, EventDay(c))) < c.observedNs
  {
    var day := EventDay(c);
    if EventDay(gap) <= day <= last {
      OpeningFacts(gap, day);
      assert Stored(s, OpeningIn(gap, day));
    }
    if EndsItsDay(s, gap, c) {
      var k :| k in s.events && k.gapId == gap.gapId && s.events[k].state.Open? && EventDay(s.events[k]) == day && EffectiveNs(s.events[k]) < c.observedNs;
      assert IsPiece(gap, closings, last, s.events[k]);
      OpenPieceIsEarlier(gap, closings, last, s.events[k]);
    }
  }

  /** The days' pieces tile the gap up to a closing exactly if and only if that closing comes last and no other before it. */
  lemma {:induction false} GapTiles(ledgerOf: int -> seq<GapEvent>, symbol: string, s: Store, gap: GapEvent, closings: seq<GapEvent>, last: int, closing: GapEvent)
    requires ListsDays(ledgerOf, s) && Relevant(gap, symbol)
    requires GoodGap(gap, closings) && Pieces(s, gap, closings, last) && IsClosing(s, gap, closing)
    ensures (forall t :: InvalidBy(ledgerOf, symbol, gap.gapId, t) <==> EffectiveNs(gap) <= t < closing.observedNs)
            <==> EndsAll(s, gap, closing)
  {
    hide InvalidBy, ListsDays, ClosesLast, EndsItsDay, IsClosing, GoodGap, Pieces, EffectiveNs, Relevant;
    if EndsAll(s, gap, closing) {
      forall t {
        EndedTiles(ledgerOf, symbol, s, gap, closings, last, closing, t);
      }
    } else if !ClosesLast(s, gap, closing) {
      var t := InvalidBeyondTheClosing(ledgerOf, symbol, s, gap, closings, last, closing);
      assert InvalidBy(ledgerOf, symbol, gap.gapId, t);
    } else {
      var c :| EndsItsDay(s, gap, c) && c.observedNs < closing.observedNs;
      WithinDay(s, gap, c);
      HoleBehind(ledgerOf, symbol, s, gap, closings, last, c, c.observedNs);
      assert !InvalidBy(ledgerOf, symbol, gap.gapId, c.observedNs);
    }
  }

  /** A part that starts within a day lies in it up to its end. */
  lemma WithinItsDay(start: int, day: int, t: int)
    requires DayOf(start) == day
    ensures start < DayEnd(day)
    ensures day <= DayOf(t) <= day && start <= t < DayEnd(DayOf(t)) <==> start <= t < DayEnd(day)
  {
  }

  lemma {:induction false} InvalidBeyondTheClosing(ledgerOf: int -> seq<GapEvent>, symbol: string, s: Store, gap: GapEvent, closings: seq<GapEvent>, last: int, closing: GapEvent)
    returns (t: int)
    requires ListsDays(ledgerOf, s) && Relevant(gap, symbol)
    requires GoodGap(gap, closings) && Pieces(s, gap, closings, last) && IsClosing(s, gap, closing)
    requires !ClosesLast(s, gap, closing)
    ensures closing.observedNs <= t && InvalidBy(ledgerOf, symbol, gap.gapId, t)
  {
    ClosesLastMeans(s, gap, closings, closing, last);
    t := EffectiveNs(OpeningIn(gap, last));
    InvalidFromItsOpening(ledgerOf, symbol, s, gap, closings, last, last);
  }

  /** Each of a gap's days is invalid at the gap's opening there. */
  lemma {:induction false} InvalidFromItsOpening(ledgerOf: int -> seq<GapEvent>, symbol: string, s: Store, gap: GapEvent, closings: seq<GapEvent>, last: int, day: int)
    requires ListsDays(ledgerOf, s) && Relevant(gap, symbol)
    requires GoodGap(gap, closings) && Pieces(s, gap, closings, last) && EventDay(gap) <= day <= last
    ensures InvalidBy(ledgerOf, symbol, gap.gapId, EffectiveNs(OpeningIn(gap, day)))
  {
    var t := EffectiveNs(OpeningIn(gap, day));
    OpeningStartsItsDay(gap, day);
    WithinItsDay(t, day, t);
    hide ListsDays, Pieces, Relevant, DayOf, DayEnd, EventDay, OpeningIn, EffectiveNs, InvalidBy, GoodGap;
    InvalidByIs(ledgerOf, symbol, s, gap, closings, last, t);
  }

  /** Behind a closing that ended a day's part nothing of that day is invalid by the gap. */
  lemma {:induction false} HoleBehind(ledgerOf: int -> seq<GapEvent>, symbol: string, s: Store, gap: GapEvent, closings: seq<GapEvent>, last: int, c: GapEvent, t: int)
    requires ListsDays(ledgerOf, s) && Relevant(gap, symbol)
    requires GoodGap(gap, closings) && Pieces(s, gap, closings, last)
    requires EndsItsDay(s, gap, c) && c.observedNs <= t < DayEnd(EventDay(c))
    ensures !InvalidBy(ledgerOf, symbol, gap.gapId, t) && EffectiveNs(gap) < c.observedNs
  {
    EndsItsDayMeans(s, gap, closings, last, c);
    SameDay(c, t);
    NoEarlierOpening(gap, EventDay(c));
    hide ListsDays, Pieces, Relevant, DayOf, DayEnd, OpeningIn, EffectiveNs, InvalidBy, GoodGap;
    InvalidByIs(ledgerOf, symbol, s, gap, closings, last, t);
  }

  lemma WithinDay(s: Store, gap: GapEvent, c: GapEvent)
    requires EndsItsDay(s, gap, c)
    ensures c.observedNs < DayEnd(EventDay(c))
  {
  }

  lemma SameDay(c: GapEvent, t: int)
    requires c.state.Closed? && c.observedNs <= t < DayEnd(EventDay(c))
    ensures DayOf(t) == EventDay(c)
  {
  }

  lemma NoEarlierOpening(gap: GapEvent, day: int)
    requires GoodOpening(gap, gap.gapId) && EventDay(gap) <= day
    ensures EffectiveNs(gap) <= EffectiveNs(OpeningIn(gap, day))
  {
  }

  lemma OpeningStartsItsDay(gap: GapEvent, day: int)
    requires GoodOpening(gap, gap.gapId) && EventDay(gap) <= day
    ensures DayOf(EffectiveNs(OpeningIn(gap, day))) == day
  {
    OpeningFacts(gap, day);
  }

  lemma {:induction false} EndedTiles(ledgerOf: int -> seq<GapEvent>, symbol: string, s: Store, gap: GapEvent, closings: seq<GapEvent>, last: int, closing: GapEvent, t: int)
    requires ListsDays(ledgerOf, s) && Relevant(gap, symbol)
    requires GoodGap(gap, closings) && Pieces(s, gap, closings, last)
    requires EndsAll(s, gap, closing)
    ensures InvalidBy(ledgerOf, symbol, gap.gapId, t) <==> EffectiveNs(gap) <= t < closing.observedNs
  {
    ClosesLastMeans(s, gap, closings, closing, last);
    InvalidByIs(ledgerOf, symbol, s, gap, closings, last, t);
    hide InvalidBy, ListsDays, ClosesLast;
    if EventDay(gap) <= DayOf(t) <= last {
      SeparatedByEarlier(s, gap, closings, last, closing, t);
    }
    hide Pieces, Separated, EndsItsDay, EndsAll;
    PartsMakeTheWhole(s, gap, closing, last, t);
  }

  /** Only the last closing separates a nanosecond from its day's opening. */
  lemma {:induction false} SeparatedByEarlier(s: Store, gap: GapEvent, closings: seq<GapEvent>, last: int, closing: GapEvent, t: int)
    requires GoodGap(gap, closings) && Pieces(s, gap, closings, last) && EndsAll(s, gap, closing)
    requires EventDay(closing) == last && EventDay(gap) <= DayOf(t) <= last && EffectiveNs(OpeningIn(gap, last)) < closing.observedNs
    ensures Separated(s, gap, DayOf(t), t) ==> closing.observedNs <= t
    ensures DayOf(t) == last && closing.observedNs <= t ==> Separated(s, gap, DayOf(t), t)
  {
    var day := DayOf(t);
    if Separated(s, gap, day, t) {
      var c :| IsClosing(s, gap, c) && EventDay(c) == day && EffectiveNs(OpeningIn(gap, day)) < c.observedNs <= t;
      EndsItsDayMeans(s, gap, closings, last, c);
    }
  }

  /** Day by day from opening to part end, or in one stretch from start to closing: the same nanoseconds. */
  lemma {:induction false} PartsMakeTheWhole(s: Store, gap: GapEvent, closing: GapEvent, last: int, t: int)
    requires GoodOpening(gap, gap.gapId) && GoodClosing(closing, gap) && EventDay(gap) <= last == EventDay(closing)
    requires EffectiveNs(OpeningIn(gap, last)) < closing.observedNs
    requires EventDay(gap) <= DayOf(t) <= last ==> (Separated(s, gap, DayOf(t), t) ==> closing.observedNs <= t)
    requires DayOf(t) == last && closing.observedNs <= t ==> Separated(s, gap, DayOf(t), t)
    ensures EventDay(gap) <= DayOf(t) <= last && InPart(s, gap, DayOf(t), t) <==> EffectiveNs(gap) <= t < closing.observedNs
  {
    hide Separated;
  }

  /**
   * What a crash between a CLOSED and the removal of its state file can do: the gap is ended once more on a later day.
   * Its state was carried there, so the gap is invalid time up to the first closing, is not to the next midnight, and is
   * again from there.
   */
  lemma {:induction false} ClosingTwiceLeavesAHole(ledgerOf: int -> seq<GapEvent>, symbol: string, s: Store, gap: GapEvent, closings: seq<GapEvent>, last: int, first: GapEvent, t: int)
    requires ListsDays(ledgerOf, s) && Relevant(gap, symbol)
    requires GoodGap(gap, closings) && Pieces(s, gap, closings, last)
    requires EndsItsDay(s, gap, first) && EventDay(first) < last
    ensures first.observedNs <= t < DayEnd(EventDay(first)) ==> !InvalidBy(ledgerOf, symbol, gap.gapId, t)
    ensures InvalidBy(ledgerOf, symbol, gap.gapId, DayEnd(EventDay(first)))
    ensures EffectiveNs(gap) < first.observedNs < DayEnd(EventDay(first))
  {
    var day := EventDay(first);
    EndsItsDayMeans(s, gap, closings, last, first);
    OpeningFacts(gap, day);
    OpeningFacts(gap, day + 1);
    assert EffectiveNs(OpeningIn(gap, day + 1)) == DayEnd(day);
    hide ListsDays, Pieces, Relevant, OpeningIn, InvalidBy, GoodGap, EndsItsDay;
    HoleBehind(ledgerOf, symbol, s, gap, closings, last, first, first.observedNs);
    if first.observedNs <= t < DayEnd(day) {
      HoleBehind(ledgerOf, symbol, s, gap, closings, last, first, t);
    }
    InvalidFromItsOpening(ledgerOf, symbol, s, gap, closings, last, day + 1);
  }

  /** What quality reports for a symbol, day by day, is the union over the gaps that concern the symbol. */
  lemma {:induction false} InvalidTimeIsTheUnion(ledgerOf: int -> seq<GapEvent>, symbol: string, t: int)
    ensures CoversPoint(ExplicitInvalid(ledgerOf(DayOf(t)), symbol, DayStart(DayOf(t)), DayEnd(DayOf(t))), t)
            <==> exists g :: InvalidBy(ledgerOf, symbol, g, t)
  {
    var day := DayOf(t);
    var sorted := StableSort(Select(ledgerOf(day), symbol), ByQualityKey);
    GapsAreIndependent(sorted, DayEnd(day), t);
    var spans := GapSpans(sorted, DayEnd(day));
    hide GapSpans, OnlyGap, CoversPoint, Clip, StableSort, Select, ByQualityKey;
    ClipKeepsPoints(spans, DayStart(day), DayEnd(day));
    assert DayStart(day) <= t < DayEnd(day);
    var invalid := ExplicitInvalid(ledgerOf(day), symbol, DayStart(day), DayEnd(day));
    assert invalid == Clip(spans, DayStart(day), DayEnd(day));
    assert CoversPoint(invalid, t) <==> t in Points(invalid, DayStart(day), DayEnd(day));
    assert CoversPoint(spans, t) <==> t in Points(spans, DayStart(day), DayEnd(day));
    hide Points, ExplicitInvalid;
    assert CoversPoint(invalid, t) <==> CoversPoint(spans, t);
    if CoversPoint(spans, t) {
      var g :| CoversPoint(GapSpans(OnlyGap(sorted, g), DayEnd(day)), t);
      assert InvalidBy(ledgerOf, symbol, g, t);
    }
    if g :| InvalidBy(ledgerOf, symbol, g, t) {
      assert CoversPoint(GapSpans(OnlyGap(sorted, g), DayEnd(day)), t);
    }
  }

  lemma {:induction false} UnknownGapsAreSilent(ledgerOf: int -> seq<GapEvent>, symbol: string, w: World, g: int, t: int)
    requires ListsDays(ledgerOf, w.store) && InOrder(w)
    requires InvalidBy(ledgerOf, symbol, g, t)
    ensures g in w.openedBy && Relevant(w.openedBy[g], symbol)
  {
    var day := DayOf(t);
    var xs := DayOfGap(ledgerOf(day), symbol, g);
    DayOfGapFacts(ledgerOf(day), symbol, w.store, day, g);
    assert xs != [] by {
      if xs == [] {
        OnlyClosings(xs);
        assert false;
      }
    }
    var e := xs[0];
    assert e in multiset(xs);
    assert multiset(xs)[e] == 1;
    assert KeyOf(e) in w.store.events;
    assert GapInOrder(w, g);
    SameScopeEverywhere(w, g, e);
  }

  /** Every event of a gap has its scope, and what a roll adds has its reason and says so. */
  lemma {:induction false} SameScopeEverywhere(w: World, g: int, e: GapEvent)
    requires InOrder(w) && g in w.openedBy && Stored(w.store, e) && e.gapId == g
    ensures SameScope(e, w.openedBy[g])
    ensures e != w.openedBy[g] && e !in w.ClosingsOf(g) ==>
              e.reason == w.openedBy[g].reason && e.detail == if e.state.Open? then CONTINUED else CONTINUES
  {
    var last := PiecesOf(w, g);
    assert IsPiece(w.openedBy[g], w.ClosingsOf(g), last, w.store.events[KeyOf(e)]);
  }

  lemma {:induction false} PiecesOf(w: World, g: int) returns (last: int)
    requires InOrder(w) && g in w.openedBy
    ensures GoodGap(w.openedBy[g], w.ClosingsOf(g)) && Pieces(w.store, w.openedBy[g], w.ClosingsOf(g), last)
    ensures Forgotten(w, g) ==> last == EventDay(w.openedBy[g])
  {
    assert GapInOrder(w, g);
    var gap, closings := w.openedBy[g], w.ClosingsOf(g);
    hide Pieces;
    if g in w.store.openStates {
      last :| Carried(w.store, gap, closings, w.store.openStates[g], last);
    } else if closings == [] {
      last := EventDay(gap);
    } else {
      last :| Pieces(w.store, gap, closings, last);
    }
  }

  /** Where a gap ends: at its first closing, or at the end of its first day when it was forgotten. */
  function EndOf(w: World, g: int): int
    requires g in w.openedBy
  {
    var closings := w.ClosingsOf(g);
    if closings != [] then closings[0].observedNs else DayEnd(EventDay(w.openedBy[g]))
  }

  /** A gap that a crash left without a state file is invalid time until midnight, and not on any later day. */
  lemma {:induction false} ForgottenEndsAtMidnight(ledgerOf: int -> seq<GapEvent>, symbol: string, w: World, g: int, t: int)
    requires ListsDays(ledgerOf, w.store) && InOrder(w) && Forgotten(w, g) && Relevant(w.openedBy[g], symbol)
    ensures InvalidBy(ledgerOf, symbol, g, t) <==> EffectiveNs(w.openedBy[g]) <= t < EndOf(w, g)
  {
    var gap := w.openedBy[g];
    var last := PiecesOf(w, g);
    NothingSeparates(w.store, gap, last, DayOf(t), t);
    hide InvalidBy, ListsDays, Pieces, InOrder, Relevant, DayOf, EffectiveNs, DayEnd, Separated;
    InvalidByIs(ledgerOf, symbol, w.store, gap, [], last, t);
    WithinItsDay(EffectiveNs(gap), last, t);
  }

  lemma {:induction false} NothingSeparates(s: Store, gap: GapEvent, last: int, day: int, t: int)
    requires GoodGap(gap, []) && Pieces(s, gap, [], last)
    ensures !Separated(s, gap, day, t)
  {
    forall c
      ensures !IsClosing(s, gap, c)
    {
      ClosingIsKnown(s, gap, [], last, c);
    }
  }

  /** A run that gets there. */
  lemma {:induction false} ForgottenHappens()
    ensures var gap := GapEvent(7, Open, 5, None, "network", [], [], "");
            var w := After([CrashWhileAnnouncing(gap)]);
            w.Some? && Forgotten(w.value, 7) && EffectiveNs(w.value.openedBy[7]) == 5 && EndOf(w.value, 7) == DAY_NS
  {
    var gap := GapEvent(7, Open, 5, None, "network", [], [], "");
    assert [CrashWhileAnnouncing(gap)][..0] == [];
    assert After([CrashWhileAnnouncing(gap)][..0]) == Some(Beginning());
    assert After([CrashWhileAnnouncing(gap)]) == Some(Do(Beginning(), CrashWhileAnnouncing(gap)));
  }

  /**
   * For every run of the journal after which no gap is open, if each ended one ended for good with its first closing: on
   * every day, the invalid nanoseconds quality derives for a symbol are exactly those inside some gap that concerns it, a
   * forgotten gap ending with its day.
   */
  lemma {:induction false} LedgersTileTheGaps(ops: seq<Op>, ledgerOf: int -> seq<GapEvent>, symbol: string, t: int)
    requires After(ops).Some?
    requires var w := After(ops).value;
             && ListsDays(ledgerOf, w.store) && w.store.openStates == map[]
             && (forall g :: g in w.openedBy && w.ClosingsOf(g) != [] ==> EndsAll(w.store, w.openedBy[g], w.ClosingsOf(g)[0]))
    ensures var w := After(ops).value;
            CoversPoint(ExplicitInvalid(ledgerOf(DayOf(t)), symbol, DayStart(DayOf(t)), DayEnd(DayOf(t))), t)
            <==> exists g :: g in w.openedBy && Relevant(w.openedBy[g], symbol) && EffectiveNs(w.openedBy[g]) <= t < EndOf(w, g)
  {
    var w := After(ops).value;
    EveryRunIsInOrder(ops);
    InvalidTimeIsTheUnion(ledgerOf, symbol, t);
    hide After, InvalidBy, ListsDays, Pieces, EndsAll, ExplicitInvalid, CoversPoint, InOrder, GoodGap;
    forall g
      ensures InvalidBy(ledgerOf, symbol, g, t) <==>
              g in w.openedBy && Relevant(w.openedBy[g], symbol) && EffectiveNs(w.openedBy[g]) <= t < EndOf(w, g)
    {
      if InvalidBy(ledgerOf, symbol, g, t) {
        UnknownGapsAreSilent(ledgerOf, symbol, w, g, t);
      }
      if g in w.openedBy && Relevant(w.openedBy[g], symbol) {
        if w.ClosingsOf(g) != [] {
          var last := PiecesOf(w, g);
          EndedTiles(ledgerOf, symbol, w.store, w.openedBy[g], w.ClosingsOf(g), last, w.ClosingsOf(g)[0], t);
        } else {
          ForgottenEndsAtMidnight(ledgerOf, symbol, w, g, t);
        }
      }
    }
  }

  /** While the clock does not step back, further closings of the same day change nothing: only where the first one lies counts. */
  lemma {:induction false} FirstClosingCounts(s: Store, gap: GapEvent, closings: seq<GapEvent>, last: int)
    requires GoodGap(gap, closings) && Pieces(s, gap, closings, last) && closings != [] && IsClosing(s, gap, closings[0])
    requires forall i :: 0 <= i < |closings| ==> closings[0].observedNs <= closings[i].observedNs
    ensures EndsAll(s, gap, closings[0]) <==> ClosesLast(s, gap, closings[0])
  {
    hide ClosesLast, Pieces, IsClosing, GoodGap;
    forall c | EndsItsDay(s, gap, c)
      ensures closings[0].observedNs <= c.observedNs
    {
      ClosingIsKnown(s, gap, closings, last, c);
    }
  }

  lemma LastClosingIsStored(w: World, g: int)
    requires InOrder(w) && g in w.openedBy && g !in w.store.openStates && w.ClosingsOf(g) != []
    ensures IsClosing(w.store, w.openedBy[g], w.ClosingsOf(g)[|w.ClosingsOf(g)| - 1])
  {
    hide Pieces;
    assert GapInOrder(w, g);
  }

  /** Without a crash while ending, a gap has one closing, and it ended for good if and only if that comes last. */
  lemma {:induction false} OneClosingEndsAll(w: World, g: int)
    requires InOrder(w) && g in w.openedBy && g !in w.store.openStates && |w.ClosingsOf(g)| == 1
    ensures EndsAll(w.store, w.openedBy[g], w.ClosingsOf(g)[0]) <==> ClosesLast(w.store, w.openedBy[g], w.ClosingsOf(g)[0])
  {
    hide *;
    LastClosingIsStored(w, g);
    var last := PiecesOf(w, g);
    FirstClosingCounts(w.store, w.openedBy[g], w.ClosingsOf(g), last);
  }

  /** A gap that closes exactly at a midnight, where CLOSED sorts before OPEN, makes the whole new day invalid. */
  lemma {:induction false} ClosingAtMidnightFloodsTheDay(ledgerOf: int -> seq<GapEvent>, symbol: string, s: Store, gap: GapEvent, closing: GapEvent, last: int, t: int)
    requires ListsDays(ledgerOf, s) && Relevant(gap, symbol)
    requires GoodGap(gap, [closing]) && Pieces(s, gap, [closing], last)
    requires EventDay(gap) < last && closing.observedNs == DayStart(last) && DayStart(last) <= t < DayEnd(last)
    ensures InvalidBy(ledgerOf, symbol, gap.gapId, t)
  {
    OpeningFacts(gap, last);
    OnlySeparator(s, gap, closing, last, last, t);
    hide Separated;
    InvalidByIs(ledgerOf, symbol, s, gap, [closing], last, t);
  }

  lemma {:induction false} OnlySeparator(s: Store, gap: GapEvent, closing: GapEvent, last: int, day: int, t: int)
    requires GoodGap(gap, [closing]) && Pieces(s, gap, [closing], last)
    ensures Separated(s, gap, day, t) ==> EffectiveNs(OpeningIn(gap, day)) < closing.observedNs
  {
    if Separated(s, gap, day, t) {
      var c :| IsClosing(s, gap, c) && EventDay(c) == day && EffectiveNs(OpeningIn(gap, day)) < c.observedNs <= t;
      ClosingIsKnown(s, gap, [closing], last, c);
    }
  }

  /** A run that gets there: opened five nanoseconds into day zero, closed at the next midnight. */
  lemma {:induction false} ClosingAtMidnightHappens()
    ensures var gap := GapEvent(7, Open, 5, None, "network", [], [], "");
            var closing := GapEvent(7, Closed, DAY_NS, None, "network", [], [], "");
            var w := After([Announce(gap), End(closing)]);
            && w.Some? && w.value.closings == map[7 := [closing]]
            && !ClosesLast(w.value.store, gap, closing)
  {
    var gap := GapEvent(7, Open, 5, None, "network", [], [], "");
    var closing := GapEvent(7, Closed, DAY_NS, None, "network", [], [], "");
    var w1 := Do(Beginning(), Announce(gap));
    assert After([Announce(gap)][..0]) == Some(Beginning());
    assert After([Announce(gap)]) == Some(w1);
    assert NextDay(gap) == 1 && DayOf(DAY_NS) == 1;
    var carried := RollDay(w1.store, gap, 1).0;
    assert RollFrom(carried, ContinuedAt(gap, 1), 2, 1) == (carried, true);
    assert Roll(w1.store, 7, 1) == (carried, true);
    assert Stored(carried, ContinuedAt(gap, 1));
    var w := Do(w1, End(closing));
    assert w1.ClosingsOf(7) + [closing] == [closing];
    assert w.closings == map[7 := [closing]];
    assert [Announce(gap), End(closing)][..1] == [Announce(gap)];
    assert After([Announce(gap), End(closing)]) == Some(w);
    assert Stored(w.store, ContinuedAt(gap, 1));
    assert EffectiveNs(w.store.events[KeyOf(ContinuedAt(gap, 1))]) == DAY_NS;
  }

  lemma {:induction false} OneMoreOp(ops: seq<Op>, op: Op)
    requires After(ops).Some? && Proper(After(ops).value, op)
    ensures After(ops + [op]) == Some(Do(After(ops).value, op))
  {
    assert (ops + [op])[..|ops|] == ops;
  }

  /** Ended on day zero, but a crash kept the state file. */
  function EndedOnDayZero(gap: GapEvent, first: GapEvent): World {
    World(Store(map[KeyOf(gap) := gap][KeyOf(first) := first], map[7 := gap], {}), map[7 := gap], map[7 := [first]])
  }

  lemma {:induction false} EndingOnDayZero(gap: GapEvent, first: GapEvent)
    requires gap == GapEvent(7, Open, 5, None, "network", [], [], "") && first == GapEvent(7, Closed, 9, None, "network", [], [], "")
    ensures After([Announce(gap), CrashWhileEnding(first)]) == Some(EndedOnDayZero(gap, first))
  {
    var w1 := World(Store(map[KeyOf(gap) := gap], map[7 := gap], {}), map[7 := gap], map[]);
    assert Do(Beginning(), Announce(gap)) == w1;
    OneMoreOp([], Announce(gap));
    assert [] + [Announce(gap)] == [Announce(gap)];
    assert NextDay(gap) == 1 && DayOf(9) == 0;
    assert Roll(w1.store, 7, 0) == (w1.store, true);
    assert w1.ClosingsOf(7) + [first] == [first];
    assert Do(w1, CrashWhileEnding(first)) == EndedOnDayZero(gap, first);
    OneMoreOp([Announce(gap)], CrashWhileEnding(first));
    assert [Announce(gap)] + [CrashWhileEnding(first)] == [Announce(gap), CrashWhileEnding(first)];
  }

  ghost predicate HasHole(s: Store, gap: GapEvent, first: GapEvent, second: GapEvent) {
    EndsItsDay(s, gap, first) && !ClosesLast(s, gap, first) && ClosesLast(s, gap, second)
  }

  lemma {:induction false} HoleFacts(s: Store, gap: GapEvent, first: GapEvent, second: GapEvent)
    requires gap == GapEvent(7, Open, 5, None, "network", [], [], "") && first == GapEvent(7, Closed, 9, None, "network", [], [], "")
    requires second == GapEvent(7, Closed, DAY_NS + 5, None, "network", [], [], "")
    requires Stored(s, gap) && Stored(s, first) && Stored(s, ContinuedAt(gap, 1))
    requires forall k :: k in s.events && s.events[k].state.Open? ==> s.events[k] == gap || s.events[k] == ContinuedAt(gap, 1)
    ensures HasHole(s, gap, first, second)
  {
    assert EffectiveNs(s.events[KeyOf(gap)]) == 5 && EffectiveNs(s.events[KeyOf(ContinuedAt(gap, 1))]) == DAY_NS;
  }

  lemma {:induction false} EndingOnDayOne(gap: GapEvent, first: GapEvent, second: GapEvent)
    requires gap == GapEvent(7, Open, 5, None, "network", [], [], "") && first == GapEvent(7, Closed, 9, None, "network", [], [], "")
    requires second == GapEvent(7, Closed, DAY_NS + 5, None, "network", [], [], "")
    ensures var w := EndedOnDayZero(gap, first);
            && Proper(w, End(second))
            && var r := Do(w, End(second));
            && r.store.openStates == map[] && r.closings == map[7 := [first, second]]
            && HasHole(r.store, gap, first, second)
  {
    var w := EndedOnDayZero(gap, first);
    assert NextDay(gap) == 1 && DayOf(DAY_NS + 5) == 1 && DayOf(DAY_NS) == 1;
    var carried := RollDay(w.store, gap, 1).0;
    assert RollFrom(carried, ContinuedAt(gap, 1), 2, 1) == (carried, true);
    assert Roll(w.store, 7, 1) == (carried, true);
    assert w.ClosingsOf(7) + [second] == [first, second];
    HoleFacts(Do(w, End(second)).store, gap, first, second);
  }

  /** A run that leaves a hole: ended on day zero, but a crash kept the state file; ended again on day one. */
  lemma {:induction false} ClosingTwiceHappens()
    ensures var gap := GapEvent(7, Open, 5, None, "network", [], [], "");
            var first := GapEvent(7, Closed, 9, None, "network", [], [], "");
            var second := GapEvent(7, Closed, DAY_NS + 5, None, "network", [], [], "");
            var w := After([Announce(gap), CrashWhileEnding(first), End(second)]);
            && w.Some? && w.value.store.openStates == map[] && w.value.closings == map[7 := [first, second]]
            && HasHole(w.value.store, gap, first, second)
  {
    var gap := GapEvent(7, Open, 5, None, "network", [], [], "");
    var first := GapEvent(7, Closed, 9, None, "network", [], [], "");
    var second := GapEvent(7, Closed, DAY_NS + 5, None, "network", [], [], "");
    EndingOnDayZero(gap, first);
    hide *;
    EndingOnDayOne(gap, first, second);
    OneMoreOp([Announce(gap), CrashWhileEnding(first)], End(second));
    assert [Announce(gap), CrashWhileEnding(first)] + [End(second)] == [Announce(gap), CrashWhileEnding(first), End(second)];
  }
}
