/** Day quality: how much of the window is valid, explicitly invalid, in conflict or unclassified (pipeline/quality.py). */
module Quality {
  import opened Common
  import opened Wrappers
  import opened Sorting
  import opened Intervals
  import opened Ledger

  const MINIMUM_VALID_PER_MILLE := 999

  predicate ByStart(a: Interval, b: Interval) {
    a.from < b.from || (a.from == b.from && a.to <= b.to)
  }

  lemma ByStartIsTotal()
    ensures TotalPreorder(ByStart)
  {
  }

  /** The non-empty parts of intervals inside a window. */
  function Clip(ivs: seq<Interval>, windowStart: int, windowEnd: int): (r: seq<Interval>)
    ensures forall i :: 0 <= i < |r| ==> windowStart <= r[i].from < r[i].to <= windowEnd
  {
    if ivs == [] then []
    else
      var from, to := Max(ivs[0].from, windowStart), Min(ivs[0].to, windowEnd);
      (if from < to then [Interval(from, to)] else []) + Clip(ivs[1..], windowStart, windowEnd)
  }

  lemma {:induction false} ClipKeepsPoints(ivs: seq<Interval>, windowStart: int, windowEnd: int)
    ensures Points(Clip(ivs, windowStart, windowEnd), windowStart, windowEnd) == Points(ivs, windowStart, windowEnd)
  {
    if ivs != [] {
      var head := Clip([ivs[0]], windowStart, windowEnd);
      ClipKeepsPoints(ivs[1..], windowStart, windowEnd);
      assert [ivs[0]][1..] == [];
      assert Clip([], windowStart, windowEnd) == [];
      assert head == (if Max(ivs[0].from, windowStart) < Min(ivs[0].to, windowEnd)
                      then [Interval(Max(ivs[0].from, windowStart), Min(ivs[0].to, windowEnd))] else []);
      SinglePoints(ivs[0], windowStart, windowEnd);
      PointsConcat([ivs[0]], ivs[1..], windowStart, windowEnd);
      PointsConcat(head, Clip(ivs[1..], windowStart, windowEnd), windowStart, windowEnd);
      assert ivs == [ivs[0]] + ivs[1..];
    }
  }

  lemma {:induction false} SinglePoints(iv: Interval, windowStart: int, windowEnd: int)
    ensures var from, to := Max(iv.from, windowStart), Min(iv.to, windowEnd);
            && Points([iv], windowStart, windowEnd) == Range(from, to)
            && Points(if from < to then [Interval(from, to)] else [], windowStart, windowEnd) == Range(from, to)
  {
    var from, to := Max(iv.from, windowStart), Min(iv.to, windowEnd);
    forall t
      ensures CoversPoint([iv], t) <==> iv.from <= t < iv.to
      ensures CoversPoint([Interval(from, to)], t) <==> from <= t < to
    {
      assert [iv][0] == iv && [Interval(from, to)][0] == Interval(from, to);
    }
  }

  lemma {:induction false} SortKeepsPoints(ivs: seq<Interval>, windowStart: int, windowEnd: int)
    ensures Points(StableSort(ivs, ByStart), windowStart, windowEnd) == Points(ivs, windowStart, windowEnd)
  {
    var sorted := StableSort(ivs, ByStart);
    SameElements(sorted, ivs);
    forall t
      ensures CoversPoint(sorted, t) <==> CoversPoint(ivs, t)
    {
      if CoversPoint(sorted, t) {
        var i :| 0 <= i < |sorted| && sorted[i].from <= t < sorted[i].to;
        assert sorted[i] in ivs;
      }
      if CoversPoint(ivs, t) {
        var i :| 0 <= i < |ivs| && ivs[i].from <= t < ivs[i].to;
        assert ivs[i] in sorted;
      }
    }
  }

  /** The sweep over sorted, clipped intervals counts every covered nanosecond once. */
  method UnionDuration(ivs: seq<Interval>, windowStart: int, windowEnd: int) returns (total: int)
    ensures total == |Points(ivs, windowStart, windowEnd)|
  {
    var clipped := StableSort(Clip(ivs, windowStart, windowEnd), ByStart);
    ByStartIsTotal();
    SortOrders(Clip(ivs, windowStart, windowEnd), ByStart);
    SameElements(clipped, Clip(ivs, windowStart, windowEnd));
    ClipKeepsPoints(ivs, windowStart, windowEnd);
    SortKeepsPoints(Clip(ivs, windowStart, windowEnd), windowStart, windowEnd);
    forall i | 0 <= i < |clipped|
      ensures windowStart <= clipped[i].from < clipped[i].to <= windowEnd
    {
      assert clipped[i] in Clip(ivs, windowStart, windowEnd);
    }
    total := Sweep(clipped, windowStart, windowEnd);
  }

  lemma {:induction false} PointsOfPrefix(ivs: seq<Interval>, i: nat, windowStart: int, windowEnd: int)
    requires i < |ivs| && windowStart <= ivs[i].from < ivs[i].to <= windowEnd
    ensures Points(ivs[..i + 1], windowStart, windowEnd) == Points(ivs[..i], windowStart, windowEnd) + Range(ivs[i].from, ivs[i].to)
  {
    assert ivs[..i + 1] == ivs[..i] + [ivs[i]];
    PointsConcat(ivs[..i], [ivs[i]], windowStart, windowEnd);
    SinglePoints(ivs[i], windowStart, windowEnd);
  }

  lemma {:induction false} TouchingRanges(from: int, to: int, start: int, end: int)
    requires from <= start <= to && start <= end
    ensures Range(from, to) + Range(start, end) == Range(from, Max(to, end))
  {
  }

  /** The state of a sweep: what was counted, then one open stretch, together the points so far. */
  ghost predicate Swept(points: set<int>, done: set<int>, from: int, to: int) {
    && from < to
    && (forall t :: t in done ==> t < from)
    && points == done + Range(from, to)
  }

  lemma {:induction false} SweptSize(points: set<int>, done: set<int>, from: int, to: int)
    requires Swept(points, done, from, to)
    ensures |points| == |done| + (to - from)
  {
    assert done !! Range(from, to);
  }

  method Sweep(clipped: seq<Interval>, windowStart: int, windowEnd: int) returns (total: int)
    requires Ordered(clipped, ByStart)
    requires forall i :: 0 <= i < |clipped| ==> windowStart <= clipped[i].from < clipped[i].to <= windowEnd
    ensures total == |Points(clipped, windowStart, windowEnd)|
  {
    hide Points, Range, Ordered, ByStart;
    total := 0;
    if clipped == [] {
      NoPoints(windowStart, windowEnd);
      return;
    }
    var currentStart, currentEnd := clipped[0].from, clipped[0].to;
    var i := 1;
    ghost var done: set<int> := {};
    PointsOfPrefix(clipped, 0, windowStart, windowEnd);
    NoPoints(windowStart, windowEnd);
    assert clipped[..0] == [];
    while i < |clipped|
      invariant 1 <= i <= |clipped|
      invariant currentStart <= clipped[i - 1].from
      invariant Swept(Points(clipped[..i], windowStart, windowEnd), done, currentStart, currentEnd)
      invariant total == |done|
    {
      var start, end := clipped[i].from, clipped[i].to;
      PointsOfPrefix(clipped, i, windowStart, windowEnd);
      OrderedStarts(clipped, i);
      if start <= currentEnd {
        TouchingRanges(currentStart, currentEnd, start, end);
        currentEnd := Max(currentEnd, end);
      } else {
        SweptSize(Points(clipped[..i], windowStart, windowEnd), done, currentStart, currentEnd);
        total := total + (currentEnd - currentStart);
        done := Points(clipped[..i], windowStart, windowEnd);
        currentStart, currentEnd := start, end;
      }
      i := i + 1;
    }
    assert clipped[..i] == clipped;
    SweptSize(Points(clipped, windowStart, windowEnd), done, currentStart, currentEnd);
    total := total + (currentEnd - currentStart);
  }

  lemma {:induction false} NoPoints(windowStart: int, windowEnd: int)
    ensures Points([], windowStart, windowEnd) == {}
  {
  }

  lemma {:induction false} OrderedStarts(ivs: seq<Interval>, i: nat)
    requires 0 < i < |ivs| && Ordered(ivs, ByStart)
    ensures ivs[i - 1].from <= ivs[i].from
  {
    assert ByStart(ivs[i - 1], ivs[i]);
  }

  function Overlaps(iv: Interval, others: seq<Interval>): seq<Interval> {
    if others == [] then []
    else
      var from, to := Max(iv.from, others[0].from), Min(iv.to, others[0].to);
      (if from < to then [Interval(from, to)] else []) + Overlaps(iv, others[1..])
  }

  function Intersections(left: seq<Interval>, right: seq<Interval>): seq<Interval> {
    if left == [] then [] else Overlaps(left[0], right) + Intersections(left[1..], right)
  }

  lemma {:induction false} OverlapsCover(iv: Interval, others: seq<Interval>, t: int)
    ensures CoversPoint(Overlaps(iv, others), t) <==> iv.from <= t < iv.to && CoversPoint(others, t)
  {
    if others != [] {
      OverlapsCover(iv, others[1..], t);
      var from, to := Max(iv.from, others[0].from), Min(iv.to, others[0].to);
      var head := if from < to then [Interval(from, to)] else [];
      CoversConcat(head, Overlaps(iv, others[1..]), t);
      CoversConcat([others[0]], others[1..], t);
      assert others == [others[0]] + others[1..];
      assert CoversPoint([others[0]], t) <==> others[0].from <= t < others[0].to by {
        assert [others[0]][0] == others[0];
      }
      assert CoversPoint(head, t) <==> from <= t < to by {
        if from < to {
          assert head[0] == Interval(from, to);
        }
      }
    }
  }

  lemma {:induction false} IntersectionsCover(left: seq<Interval>, right: seq<Interval>, t: int)
    ensures CoversPoint(Intersections(left, right), t) <==> CoversPoint(left, t) && CoversPoint(right, t)
  {
    if left != [] {
      IntersectionsCover(left[1..], right, t);
      OverlapsCover(left[0], right, t);
      CoversConcat(Overlaps(left[0], right), Intersections(left[1..], right), t);
      CoversConcat([left[0]], left[1..], t);
      assert left == [left[0]] + left[1..];
      assert CoversPoint([left[0]], t) <==> left[0].from <= t < left[0].to by {
        assert [left[0]][0] == left[0];
      }
    }
  }

  method IntersectionDuration(left: seq<Interval>, right: seq<Interval>, windowStart: int, windowEnd: int) returns (total: int)
    ensures total == |Points(left, windowStart, windowEnd) * Points(right, windowStart, windowEnd)|
  {
    total := UnionDuration(Intersections(left, right), windowStart, windowEnd);
    forall t {
      IntersectionsCover(left, right, t);
    }
    assert Points(Intersections(left, right), windowStart, windowEnd)
        == Points(left, windowStart, windowEnd) * Points(right, windowStart, windowEnd);
  }

  // ---- Explicit invalid intervals -------------------------------------------------------------

  /** The openGaps dict: (gap id, start) in insertion order. */
  datatype Opened = Opened(gapId: int, start: int)

  predicate IsOpen(openGaps: seq<Opened>, gapId: int) {
    openGaps != [] && (openGaps[0].gapId == gapId || IsOpen(openGaps[1..], gapId))
  }

  function StartOf(openGaps: seq<Opened>, gapId: int): int
    requires IsOpen(openGaps, gapId)
  {
    if openGaps[0].gapId == gapId then openGaps[0].start else StartOf(openGaps[1..], gapId)
  }

  /** Assignment to a key: in place when the key exists, at the end when it does not. */
  function SetOpen(openGaps: seq<Opened>, gapId: int, start: int): seq<Opened> {
    if openGaps == [] then [Opened(gapId, start)]
    else if openGaps[0].gapId == gapId then [Opened(gapId, start)] + openGaps[1..]
    else [openGaps[0]] + SetOpen(openGaps[1..], gapId, start)
  }

  function DropOpen(openGaps: seq<Opened>, gapId: int): seq<Opened> {
    if openGaps == [] then []
    else if openGaps[0].gapId == gapId then openGaps[1..]
    else [openGaps[0]] + DropOpen(openGaps[1..], gapId)
  }

  datatype GapFold = GapFold(openGaps: seq<Opened>, closed: seq<Interval>)

  /** A gap that continues into the next day is stamped one nanosecond early; that nanosecond is added back. */
  function ClosedEnd(e: GapEvent): int {
    QualityEffectiveNs(e) + if e.detail == CONTINUES then 1 else 0
  }

  function FoldGap(f: GapFold, e: GapEvent): GapFold {
    if e.state.Open? then
      f.(openGaps := SetOpen(f.openGaps, e.gapId, QualityEffectiveNs(e)))
    else if IsOpen(f.openGaps, e.gapId) then
      GapFold(DropOpen(f.openGaps, e.gapId), f.closed + [Interval(StartOf(f.openGaps, e.gapId), ClosedEnd(e))])
    else
      f
  }

  function FoldGaps(events: seq<GapEvent>): GapFold {
    if events == [] then GapFold([], [])
    else FoldGap(FoldGaps(events[..|events| - 1]), events[|events| - 1])
  }

  function StillOpen(openGaps: seq<Opened>, windowEnd: int): (r: seq<Interval>)
    ensures |r| == |openGaps|
    ensures forall i :: 0 <= i < |r| ==> r[i] == Interval(openGaps[i].start, windowEnd)
  {
    if openGaps == [] then [] else [Interval(openGaps[0].start, windowEnd)] + StillOpen(openGaps[1..], windowEnd)
  }

  /** The invalid intervals of ordered gap events, before clipping. */
  function GapSpans(ordered: seq<GapEvent>, windowEnd: int): seq<Interval> {
    var f := FoldGaps(ordered);
    f.closed + StillOpen(f.openGaps, windowEnd)
  }

  function ExplicitInvalid(ledger: seq<GapEvent>, symbol: string, windowStart: int, windowEnd: int): seq<Interval> {
    Clip(GapSpans(StableSort(Select(ledger, symbol), ByQualityKey), windowEnd), windowStart, windowEnd)
  }

  method ExplicitInvalidIntervals(ledger: seq<GapEvent>, symbol: string, windowStart: int, windowEnd: int)
    returns (invalid: seq<Interval>)
    ensures invalid == ExplicitInvalid(ledger, symbol, windowStart, windowEnd)
  {
    hide StableSort, Select, ByQualityKey, Clip, SetOpen, DropOpen;
    var events := StableSort(Select(ledger, symbol), ByQualityKey);
    var openGaps: seq<Opened> := [];
    var intervals: seq<Interval> := [];
    var i := 0;
    while i < |events|
      invariant 0 <= i <= |events|
      invariant GapFold(openGaps, intervals) == FoldGaps(events[..i])
    {
      var e := events[i];
      if e.state.Open? {
        openGaps := SetOpen(openGaps, e.gapId, QualityEffectiveNs(e));
      } else if IsOpen(openGaps, e.gapId) {
        var end := QualityEffectiveNs(e) + if e.detail == CONTINUES then 1 else 0;
        intervals := intervals + [Interval(StartOf(openGaps, e.gapId), end)];
        openGaps := DropOpen(openGaps, e.gapId);
      }
      assert events[..i + 1][..i] == events[..i];
      i := i + 1;
    }
    assert events[..i] == events;
    intervals := intervals + StillOpen(openGaps, windowEnd);
    invalid := Clip(intervals, windowStart, windowEnd);
  }

  // ---- The dict of open gaps -------------------------------------------------------------------

  lemma {:induction false} SetOpenFacts(o: seq<Opened>, id: int, start: int)
    ensures forall x :: IsOpen(SetOpen(o, id, start), x) <==> x == id || IsOpen(o, x)
    ensures forall g :: g in SetOpen(o, id, start) ==> g == Opened(id, start) || g in o
    ensures Distinct(o) ==> Distinct(SetOpen(o, id, start))
  {
    if o != [] && o[0].gapId != id {
      SetOpenFacts(o[1..], id, start);
      assert o == [o[0]] + o[1..];
    }
  }

  predicate Distinct(o: seq<Opened>) {
    o == [] || (!IsOpen(o[1..], o[0].gapId) && Distinct(o[1..]))
  }

  lemma {:induction false} DropOpenFacts(o: seq<Opened>, id: int)
    requires Distinct(o)
    ensures forall x :: IsOpen(DropOpen(o, id), x) <==> x != id && IsOpen(o, x)
    ensures forall g :: g in DropOpen(o, id) ==> g in o
    ensures Distinct(DropOpen(o, id))
    ensures IsOpen(o, id) ==> Opened(id, StartOf(o, id)) in o
  {
    if o != [] && o[0].gapId != id {
      DropOpenFacts(o[1..], id);
      assert o == [o[0]] + o[1..];
    }
  }

  lemma {:induction false} CoveredByGaps(f: GapFold, windowEnd: int, t: int)
    ensures CoversPoint(f.closed + StillOpen(f.openGaps, windowEnd), t) <==>
            (exists s :: s in f.closed && s.from <= t < s.to) || (exists g :: g in f.openGaps && g.start <= t < windowEnd)
  {
    var still := StillOpen(f.openGaps, windowEnd);
    CoversConcat(f.closed, still, t);
    if CoversPoint(f.closed, t) {
      var i :| 0 <= i < |f.closed| && f.closed[i].from <= t < f.closed[i].to;
      assert f.closed[i] in f.closed;
    }
    if s :| s in f.closed && s.from <= t < s.to {
      var i :| 0 <= i < |f.closed| && f.closed[i] == s;
      assert CoversPoint(f.closed, t);
    }
    if CoversPoint(still, t) {
      var i :| 0 <= i < |still| && still[i].from <= t < still[i].to;
      assert f.openGaps[i] in f.openGaps;
    }
    if g :| g in f.openGaps && g.start <= t < windowEnd {
      var i :| 0 <= i < |f.openGaps| && f.openGaps[i] == g;
      assert still[i].from <= t < still[i].to;
    }
  }

  // ---- Extension until the book is valid again -------------------------------------------------

  /** First valid start that is not before a time, in start order; the window end when there is none. */
  function NextStart(valid: seq<Interval>, end: int, windowEnd: int): int {
    if valid == [] then windowEnd
    else if valid[0].from >= end then valid[0].from
    else NextStart(valid[1..], end, windowEnd)
  }

  function ExtendedEnd(end: int, valid: seq<Interval>, windowEnd: int): int {
    if exists i :: 0 <= i < |valid| && valid[i].from <= end < valid[i].to then end
    else NextStart(StableSort(valid, ByStart), end, windowEnd)
  }

  function Extended(invalid: seq<Interval>, valid: seq<Interval>, windowEnd: int): (r: seq<Interval>)
    ensures |r| == |invalid|
    ensures forall i :: 0 <= i < |r| ==> r[i] == Interval(invalid[i].from, ExtendedEnd(invalid[i].to, valid, windowEnd))
  {
    if invalid == [] then []
    else [Interval(invalid[0].from, ExtendedEnd(invalid[0].to, valid, windowEnd))] + Extended(invalid[1..], valid, windowEnd)
  }

  method ExtendInvalidUntilValid(invalid: seq<Interval>, valid: seq<Interval>, windowEnd: int) returns (extended: seq<Interval>)
    ensures extended == Extended(invalid, valid, windowEnd)
  {
    var sorted := StableSort(valid, ByStart);
    SameElements(sorted, valid);
    extended := [];
    var i := 0;
    while i < |invalid|
      invariant 0 <= i <= |invalid|
      invariant |extended| == i
      invariant forall j :: 0 <= j < i ==> extended[j] == Interval(invalid[j].from, ExtendedEnd(invalid[j].to, valid, windowEnd))
    {
      var end := invalid[i].to;
      var inside := exists j :: 0 <= j < |sorted| && sorted[j].from <= end < sorted[j].to;
      InsideEither(sorted, valid, end);
      if !inside {
        end := NextStart(sorted, end, windowEnd);
      }
      extended := extended + [Interval(invalid[i].from, end)];
      i := i + 1;
    }
  }

  lemma {:induction false} InsideEither(xs: seq<Interval>, ys: seq<Interval>, t: int)
    requires forall x :: x in xs <==> x in ys
    ensures (exists j :: 0 <= j < |xs| && xs[j].from <= t < xs[j].to) <==> (exists j :: 0 <= j < |ys| && ys[j].from <= t < ys[j].to)
  {
    if j :| 0 <= j < |xs| && xs[j].from <= t < xs[j].to {
      assert xs[j] in ys;
    }
    if j :| 0 <= j < |ys| && ys[j].from <= t < ys[j].to {
      assert ys[j] in xs;
    }
  }

  lemma {:induction false} NextStartSkipsNothing(sorted: seq<Interval>, end: int, windowEnd: int, iv: Interval)
    requires Ordered(sorted, ByStart) && iv in sorted && end <= iv.from
    ensures end <= NextStart(sorted, end, windowEnd) <= iv.from
  {
    if sorted[0].from >= end {
      var i :| 0 <= i < |sorted| && sorted[i] == iv;
      if i > 0 {
        assert ByStart(sorted[0], sorted[i]);
      }
    } else {
      NextStartSkipsNothing(sorted[1..], end, windowEnd, iv);
    }
  }

  /** The stretch added behind an invalid interval holds no valid nanosecond. */
  lemma {:induction false} StretchIsNotValid(end: int, valid: seq<Interval>, windowEnd: int, t: int)
    requires end <= t < ExtendedEnd(end, valid, windowEnd)
    ensures !CoversPoint(valid, t)
  {
    if CoversPoint(valid, t) {
      var i :| 0 <= i < |valid| && valid[i].from <= t < valid[i].to;
      var sorted := StableSort(valid, ByStart);
      SameElements(sorted, valid);
      assert valid[i] in sorted;
      if valid[i].from >= end {
        ByStartIsTotal();
        SortOrders(valid, ByStart);
        NextStartSkipsNothing(sorted, end, windowEnd, valid[i]);
      }
      assert false;
    }
  }

  lemma {:induction false} NextStartIsNotBefore(sorted: seq<Interval>, end: int, windowEnd: int)
    requires end <= windowEnd
    ensures end <= NextStart(sorted, end, windowEnd)
  {
    if sorted != [] && sorted[0].from < end {
      NextStartIsNotBefore(sorted[1..], end, windowEnd);
    }
  }

  /** The extension step adds no conflict and removes no invalid nanosecond. */
  lemma {:induction false} ExtensionAddsNoConflict(invalid: seq<Interval>, valid: seq<Interval>, windowStart: int, windowEnd: int)
    requires forall i :: 0 <= i < |invalid| ==> invalid[i].to <= windowEnd
    ensures var extended := Extended(invalid, valid, windowEnd);
            && Points(invalid, windowStart, windowEnd) <= Points(extended, windowStart, windowEnd)
            && Points(valid, windowStart, windowEnd) * Points(extended, windowStart, windowEnd)
               == Points(valid, windowStart, windowEnd) * Points(invalid, windowStart, windowEnd)
  {
    var extended := Extended(invalid, valid, windowEnd);
    forall t | CoversPoint(invalid, t)
      ensures CoversPoint(extended, t)
    {
      var i :| 0 <= i < |invalid| && invalid[i].from <= t < invalid[i].to;
      NextStartIsNotBefore(StableSort(valid, ByStart), invalid[i].to, windowEnd);
      assert extended[i].from <= t < extended[i].to;
    }
    forall t | CoversPoint(extended, t) && CoversPoint(valid, t)
      ensures CoversPoint(invalid, t)
    {
      var i :| 0 <= i < |extended| && extended[i].from <= t < extended[i].to;
      if t >= invalid[i].to {
        StretchIsNotValid(invalid[i].to, valid, windowEnd, t);
        assert false;
      }
      assert invalid[i].from <= t < invalid[i].to;
    }
  }

  ghost predicate NonEmptyRows(valid: seq<Interval>) {
    forall i :: 0 <= i < |valid| ==> valid[i].from < valid[i].to
  }

  /** An invalid interval has ended, and nothing has been valid since. */
  ghost predicate AwaitsValid(invalid: seq<Interval>, valid: seq<Interval>, t: int) {
    exists i :: 0 <= i < |invalid| && invalid[i].to <= t && forall u :: invalid[i].to <= u <= t ==> !CoversPoint(valid, u)
  }

  /** What the extension is for: the invalid nanoseconds, and those after them until one is valid. */
  ghost function InvalidUntilValid(invalid: seq<Interval>, valid: seq<Interval>, windowStart: int, windowEnd: int): set<int> {
    set t | windowStart <= t < windowEnd && (CoversPoint(invalid, t) || AwaitsValid(invalid, valid, t))
  }

  lemma {:induction false} NextStartIsAStart(sorted: seq<Interval>, end: int, windowEnd: int)
    ensures var next := NextStart(sorted, end, windowEnd);
            next == windowEnd || exists i :: 0 <= i < |sorted| && sorted[i].from == next && end <= next
  {
    if sorted != [] && sorted[0].from < end {
      NextStartIsAStart(sorted[1..], end, windowEnd);
      var next := NextStart(sorted, end, windowEnd);
      if i :| 0 <= i < |sorted[1..]| && sorted[1..][i].from == next && end <= next {
        assert sorted[i + 1].from == next;
      }
    }
  }

  /** Up to the first valid nanosecond after its end an interval is extended. */
  lemma {:induction false} StretchIsAdded(end: int, valid: seq<Interval>, windowEnd: int, t: int)
    requires NonEmptyRows(valid) && end <= t < windowEnd
    requires forall u :: end <= u <= t ==> !CoversPoint(valid, u)
    ensures t < ExtendedEnd(end, valid, windowEnd)
  {
    assert !CoversPoint(valid, end);
    var sorted := StableSort(valid, ByStart);
    SameElements(sorted, valid);
    NextStartIsAStart(sorted, end, windowEnd);
    var next := NextStart(sorted, end, windowEnd);
    if next != windowEnd {
      var i :| 0 <= i < |sorted| && sorted[i].from == next && end <= next;
      assert sorted[i] in valid;
      var j :| 0 <= j < |valid| && valid[j] == sorted[i];
      assert CoversPoint(valid, next);
    }
  }

  /** Main result: the extension adds exactly the nanoseconds after an invalid interval until one is valid. */
  lemma {:induction false} ExtensionIsExact(invalid: seq<Interval>, valid: seq<Interval>, windowStart: int, windowEnd: int)
    requires NonEmptyRows(valid) && forall i :: 0 <= i < |invalid| ==> invalid[i].from <= invalid[i].to <= windowEnd
    ensures Points(Extended(invalid, valid, windowEnd), windowStart, windowEnd) == InvalidUntilValid(invalid, valid, windowStart, windowEnd)
  {
    hide ExtendedEnd;
    var extended := Extended(invalid, valid, windowEnd);
    forall t | windowStart <= t < windowEnd
      ensures CoversPoint(extended, t) <==> CoversPoint(invalid, t) || AwaitsValid(invalid, valid, t)
    {
      if CoversPoint(extended, t) && !CoversPoint(invalid, t) {
        var i :| 0 <= i < |extended| && extended[i].from <= t < extended[i].to;
        var end := invalid[i].to;
        forall u | end <= u <= t {
          StretchIsNotValid(end, valid, windowEnd, u);
        }
      }
      if i :| 0 <= i < |invalid| && invalid[i].from <= t < invalid[i].to {
        EndIsNotBefore(invalid[i].to, valid, windowEnd);
        assert extended[i].from <= t < extended[i].to;
      }
      if i :| 0 <= i < |invalid| && invalid[i].to <= t && forall u :: invalid[i].to <= u <= t ==> !CoversPoint(valid, u) {
        StretchIsAdded(invalid[i].to, valid, windowEnd, t);
        assert extended[i].from <= t < extended[i].to;
      }
    }
  }

  lemma ExplicitExtension(ledger: seq<GapEvent>, symbol: string, valid: seq<Interval>, windowStart: int, windowEnd: int)
    ensures var explicit := ExplicitInvalid(ledger, symbol, windowStart, windowEnd);
            NonEmptyRows(valid) ==>
              Points(Extended(explicit, valid, windowEnd), windowStart, windowEnd) == InvalidUntilValid(explicit, valid, windowStart, windowEnd)
  {
    hide InvalidUntilValid, Points, Extended;
    if NonEmptyRows(valid) {
      ExtensionIsExact(ExplicitInvalid(ledger, symbol, windowStart, windowEnd), valid, windowStart, windowEnd);
    }
  }

  lemma EndIsNotBefore(end: int, valid: seq<Interval>, windowEnd: int)
    requires end <= windowEnd
    ensures end <= ExtendedEnd(end, valid, windowEnd)
  {
    NextStartIsNotBefore(StableSort(valid, ByStart), end, windowEnd);
  }

  // ---- Validity rows and the verdict ----------------------------------------------------------

  /** Validity rows are non-empty, inside the day and in order without overlap. */
  ghost predicate ProperRows(rows: seq<Interval>, dayStart: int, dayEnd: int) {
    && (forall i :: 0 <= i < |rows| ==> dayStart <= rows[i].from < rows[i].to <= dayEnd)
    && (forall i :: 0 < i < |rows| ==> rows[i - 1].to <= rows[i].from)
  }

  method ValidateValidity(rows: seq<Interval>, dayStart: int, dayEnd: int) returns (ok: bool)
    ensures ok <==> ProperRows(rows, dayStart, dayEnd)
  {
    var previousEnd: Option<int> := None;
    var i := 0;
    while i < |rows|
      invariant 0 <= i <= |rows|
      invariant previousEnd == if i == 0 then None else Some(rows[i - 1].to)
      invariant forall j :: 0 <= j < i ==> dayStart <= rows[j].from < rows[j].to <= dayEnd
      invariant forall j :: 0 < j < i ==> rows[j - 1].to <= rows[j].from
    {
      var start, end := rows[i].from, rows[i].to;
      if !(dayStart <= start < end <= dayEnd) || (previousEnd.Some? && start < previousEnd.value) {
        return false;
      }
      previousEnd := Some(end);
      i := i + 1;
    }
    return true;
  }

  datatype Coverage = Coverage(expectedNs: int, validNs: int, invalidNs: int, conflictingNs: int, unclassifiedNs: int)

  /** Valid and invalid nanoseconds split the window between them. */
  ghost predicate Partition(valid: set<int>, invalid: set<int>, window: set<int>) {
    valid + invalid == window && valid * invalid == {}
  }

  /** One symbol's coverage; it passes exactly when the window is partitioned and at least 999 per mille valid. */
  method AssessSymbol(valid: seq<Interval>, ledger: seq<GapEvent>, symbol: string, windowStart: int, windowEnd: int)
    returns (coverage: Coverage, passes: bool)
    requires windowStart < windowEnd
    ensures var v := Points(valid, windowStart, windowEnd);
            var explicit := ExplicitInvalid(ledger, symbol, windowStart, windowEnd);
            var x := Points(Extended(explicit, valid, windowEnd), windowStart, windowEnd);
            && (NonEmptyRows(valid) ==> x == InvalidUntilValid(explicit, valid, windowStart, windowEnd))
            && coverage.expectedNs == windowEnd - windowStart
            && coverage.validNs == |v|
            && coverage.invalidNs == |x|
            && coverage.conflictingNs == |v * x|
            && coverage.unclassifiedNs == |Range(windowStart, windowEnd) - (v + x)|
            && coverage.expectedNs == coverage.validNs + coverage.invalidNs - coverage.conflictingNs + coverage.unclassifiedNs
            && (passes <==> Partition(v, x, Range(windowStart, windowEnd))
                            && coverage.expectedNs * MINIMUM_VALID_PER_MILLE <= coverage.validNs * 1000)
  {
    var invalid := ExplicitInvalidIntervals(ledger, symbol, windowStart, windowEnd);
    ExplicitExtension(ledger, symbol, valid, windowStart, windowEnd);
    hide Extended, InvalidUntilValid, ExplicitInvalid, NonEmptyRows, CoversPoint;
    invalid := ExtendInvalidUntilValid(invalid, valid, windowEnd);
    var validNs := UnionDuration(valid, windowStart, windowEnd);
    var invalidNs := UnionDuration(invalid, windowStart, windowEnd);
    var accountedNs := UnionDuration(valid + invalid, windowStart, windowEnd);
    var conflictingNs := IntersectionDuration(valid, invalid, windowStart, windowEnd);
    var expectedNs := windowEnd - windowStart;
    var unclassifiedNs := expectedNs - accountedNs;
    coverage := Coverage(expectedNs, validNs, invalidNs, conflictingNs, unclassifiedNs);
    passes := !(validNs * 1000 < expectedNs * MINIMUM_VALID_PER_MILLE || unclassifiedNs != 0 || conflictingNs != 0);

    ghost var v, x := Points(valid, windowStart, windowEnd), Points(invalid, windowStart, windowEnd);
    ghost var window := Range(windowStart, windowEnd);
    PointsConcat(valid, invalid, windowStart, windowEnd);
    InclusionExclusion(v, x);
    SubsetSize(v + x, window);
    assert window == (v + x) + (window - (v + x));
  }
}
