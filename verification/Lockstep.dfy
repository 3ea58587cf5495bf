/**
 * The collector's SnapshotBridgeTracker and the pipeline's ConnectionBook implement the same rule.
 * They agree on one connection's events until a buffered discontinuity has diffs behind it.
 */
module Lockstep {
  import opened Wrappers
  import opened Sorting
  import opened Bridge
  import opened Book
  import opened Shortcut

  /** The tracker holds what the eager book holds. */
  ghost predicate Matches(t: Tracker, e: BookValue) {
    && t.pending == Spans(e.pending)
    && t.previousId == (if e.state.Valid? then e.previous else None)
    && t.snapshotId == (if e.anchor.Some? then Some(e.anchor.value.lastUpdateId) else None)
    && (e.state.Valid? ==> e.anchor.None?)
    && e.WellFormed()
  }

  /** The observable part of the agreement. */
  ghost predicate Agree(t: Tracker, b: BookValue) {
    && (t.IsBridged() <==> b.state.Valid?)
    && (b.state.Valid? ==> t.previousId == b.previous)
  }

  /** A buffered discontinuity with diffs behind it: the tracker keeps them, the book drops them. */
  predicate Diverges(t: Tracker, r: BridgeResult) {
    r.status.SequenceGap? && |t.pending| > 1
  }

  lemma {:induction false} SpansOrdered(diffs: seq<DepthDiff>)
    requires Ordered(diffs, ByReceive)
    ensures StableSort(Spans(diffs), BySequence) == Spans(diffs)
  {
    assert Ordered(Spans(diffs), BySequence) by {
      forall i, j | 0 <= i < j < |diffs|
        ensures BySequence(Spans(diffs)[i], Spans(diffs)[j])
      {
        assert ByReceive(diffs[i], diffs[j]);
      }
    }
    SortKeepsOrdered(Spans(diffs), BySequence);
  }

  lemma {:induction false} EvaluatePairwise(t: Tracker, id: int)
    requires t.snapshotId == Some(id) && StableSort(t.pending, BySequence) == t.pending
    ensures EvaluateSnapshot(t) == EvaluateSorted(t, id, t.pending)
  {
    hide EvaluateSorted;
  }

  /** Where the tracker's evaluation of a located bridge leaves it. */
  function Bridging(t: Tracker, kept: seq<UpdateSpan>): Tracker
    requires kept != []
  {
    var k := ChainBreak(kept);
    if k < |kept| then t.(pending := kept[k..], snapshotId := None)
    else t.(pending := [], snapshotId := None, previousId := Some(kept[|kept| - 1].final))
  }

  /** The three outcomes of the tracker's evaluation over a buffer in receive order. */
  lemma {:induction false} EvaluateCases(t: Tracker, id: int)
    requires t.snapshotId == Some(id) && StableSort(t.pending, BySequence) == t.pending
    ensures var c, r := DiscardCount(id, t.pending), EvaluateSnapshot(t);
            && (c == |t.pending| ==> r == (t.(pending := []), Outcome(WaitingForEvents, c)))
            && (c < |t.pending| && id < t.pending[c].first ==>
                  r == (t.(pending := t.pending[c..], snapshotId := None), Outcome(StaleSnapshot, c)))
            && (c < |t.pending| && t.pending[c].Covers(id) ==>
                  && r.0 == Bridging(t, t.pending[c..])
                  && (r.1.status.SequenceGap? <==> ChainBreak(t.pending[c..]) < |t.pending[c..]|))
  {
    hide EvaluateSnapshot, StableSort;
    EvaluatePairwise(t, id);
    assert t.pending[|t.pending|..] == [];
  }

  lemma {:induction false} SpansSuffix(diffs: seq<DepthDiff>, k: nat)
    requires k <= |diffs|
    ensures Spans(diffs)[k..] == Spans(diffs[k..])
  {
  }

  lemma {:induction false} ReplayCases(b: BookValue, anchor: Anchor, chain: seq<DepthDiff>)
    requires chain != []
    ensures var k, r := ChainBreak(Spans(chain)), ReplayBridge(b, anchor, chain).0;
            && r.anchor == None
            && (k < |chain| ==> r.state == Gapped && r.pending == [chain[k]])
            && (k == |chain| ==> r.state == Valid && r.pending == [] && r.previous == Some(chain[|chain| - 1].span.final))
  {
    ApplyAllFrame(b, chain);
  }

  /** Evaluating a snapshot keeps the two together, except for the tail behind a discontinuity. */
  lemma {:induction false} EvaluateMatches(t: Tracker, e: BookValue)
    requires e.WellFormed() && !e.state.Valid? && e.anchor.Some? && Ordered(e.pending, ByReceive)
    requires t.pending == Spans(e.pending) && t.previousId == None
    requires t.snapshotId == Some(e.anchor.value.lastUpdateId)
    ensures var (t', r) := EvaluateSnapshot(t);
            var e' := TryBridge(e).0;
            Agree(t', e') && (!Diverges(t', r) ==> Matches(t', e'))
  {
    hide TryBridge, ReplayBridge, EvaluateSnapshot, StableSort, Bridging;
    var c, id := Cut(e), e.anchor.value.lastUpdateId;
    TryBridgeWellFormed(e);
    SpansOrdered(e.pending);
    EvaluateCases(t, id);
    SpansSuffix(e.pending, c);
    SearchCases(e);
    assert Spans([]) == [];
    if c < |e.pending| && e.pending[c].span.Covers(id) {
      BridgingMatches(t, e, e.anchor.value, e.pending[c..]);
    }
  }

  lemma {:induction false} BridgingMatches(t: Tracker, e: BookValue, anchor: Anchor, chain: seq<DepthDiff>)
    requires chain != [] && t.previousId == None
    ensures var t', e' := Bridging(t, Spans(chain)), ReplayBridge(e, anchor, chain).0;
            && Agree(t', e')
            && (!(ChainBreak(Spans(chain)) < |chain| && |t'.pending| > 1) ==> Matches(t', e'))
  {
    hide ReplayBridge;
    ReplayCases(e, anchor, chain);
    var spans := Spans(chain);
    var k := ChainBreak(spans);
    assert Spans([]) == [];
    if k < |chain| && |spans[k..]| == 1 {
      assert spans[k..] == Spans([chain[k]]);
    }
  }

  function TrackerStep(t: Tracker, e: BookEvent): (Tracker, BridgeResult) {
    match e
    case Diff(d) => TrackerOnDiff(t, d.span)
    case Snapshot(s) => TrackerOnSnapshot(t, s.lastUpdateId)
  }

  function TrackerRun(t: Tracker, events: seq<BookEvent>): Tracker
    decreases events
  {
    if events == [] then t else TrackerRun(TrackerStep(t, events[0]).0, events[1..])
  }

  /**
   * One connection's events as the collector sees them: distinct diffs in receive order that fit
   * the buffer, non-decreasing snapshot ids, no snapshot while bridged, and nothing after a divergence.
   */
  predicate Aligned(t: Tracker, l: BookValue, events: seq<BookEvent>, lastSeq: int, lastId: int)
    requires l.WellFormed()
    decreases events
  {
    events == [] ||
    (&& AlignedEvent(t, l, events[0], lastSeq, lastId)
     && var (t', r) := TrackerStep(t, events[0]);
     if Diverges(t', r) then
       |events| == 1
     else
       StepKeepsWellFormed(l, events[0]);
       Aligned(t', Step(l, events[0]).0, events[1..], SeqAfter(events[0], lastSeq), IdAfter(events[0], lastId)))
  }

  predicate AlignedEvent(t: Tracker, l: BookValue, e: BookEvent, lastSeq: int, lastId: int) {
    match e
    case Diff(d) => lastSeq <= d.span.receiveSeq && IdentityOf(d) !in l.seen && (t.IsBridged() || |t.pending| < t.maximum)
    case Snapshot(s) => lastId <= s.lastUpdateId && !t.IsBridged()
  }

  lemma {:induction false} DiffMatches(t: Tracker, e: BookValue, d: DepthDiff)
    requires Matches(t, e) && IdentityOf(d) !in e.seen && (t.IsBridged() || |t.pending| < t.maximum)
    requires Ordered(e.pending + [d], ByReceive)
    ensures var (t', r) := TrackerOnDiff(t, d.span);
            var e' := EagerOnDiff(e, d).0;
            Agree(t', e') && (!Diverges(t', r) ==> Matches(t', e'))
  {
    hide TryBridge, ReplayBridge, EvaluateSorted;
    if e.state.Valid? {
      assert Spans([d]) == [d.span];
    } else {
      var buffered := Buffering(e, d);
      assert Spans(buffered.pending) == t.pending + [d.span];
      if e.anchor.Some? {
        EvaluateMatches(t.(pending := t.pending + [d.span]), buffered);
      } else {
        StaleDoesNotSearch(buffered);
      }
    }
  }

  lemma {:induction false} SnapshotMatches(t: Tracker, e: BookValue, s: DepthSnapshot)
    requires Matches(t, e) && !t.IsBridged()
    requires Ordered(e.pending, ByReceive)
    ensures var (t', r) := TrackerOnSnapshot(t, s.lastUpdateId);
            var e' := OnSnapshot(e, s).0;
            Agree(t', e') && (!Diverges(t', r) ==> Matches(t', e'))
  {
    hide TryBridge, ReplayBridge, EvaluateSorted, EvaluateSnapshot;
    EvaluateMatches(t.(snapshotId := Some(s.lastUpdateId), previousId := None), Anchoring(e, s));
  }

  /** The eager book's buffer is part of the lazy book's, so it is in receive order too. */
  lemma {:induction false} EagerTimely(l: BookValue, e: BookValue, lastSeq: int, lastId: int)
    requires Related(l, e) && Timely(l, lastSeq, lastId)
    ensures Timely(e, lastSeq, lastId)
  {
    hide TryBridge;
    if l.Anchored() {
      TryBridgeKeepsTimely(l, lastSeq, lastId);
    }
  }

  lemma {:induction false} EagerSeen(l: BookValue, e: BookValue)
    requires Related(l, e) && Ordered(l.pending, ByReceive)
    ensures e.seen == l.seen
    ensures e.state == l.state && (l.state.Valid? ==> e == l)
  {
    hide TryBridge;
    if l.Anchored() {
      SearchCases(l);
    }
  }

  /** Main result: on aligned events the tracker is bridged exactly when the book is VALID, at the same update id. */
  lemma {:induction false} TrackerAndBookAgree(t: Tracker, l: BookValue, e: BookValue, events: seq<BookEvent>, lastSeq: int, lastId: int)
    requires l.WellFormed() && Related(l, e) && Timely(l, lastSeq, lastId) && Matches(t, e)
    requires Aligned(t, l, events, lastSeq, lastId)
    ensures Agree(TrackerRun(t, events), Run(l, events).0)
    decreases events
  {
    hide OnDiff, OnSnapshot, EagerOnDiff, TrackerOnDiff, TrackerOnSnapshot, TryBridge;
    EagerSeen(l, e);
    if events != [] {
      var event := events[0];
      var (t', r) := TrackerStep(t, event);
      var l', e' := Step(l, event).0, EagerStep(e, event).0;
      EagerTimely(l, e, lastSeq, lastId);
      if event.Diff? {
        DiffMatches(t, e, event.diff);
      } else {
        SnapshotMatches(t, e, event.snapshot);
      }
      StepRefines(l, e, event, lastSeq, lastId);
      StepKeepsWellFormed(l, event);
      StepKeepsTimely(l, event, lastSeq, lastId);
      EagerSeen(l', e');
      assert Agree(t', e') && Agree(t', l');
      if Diverges(t', r) {
        assert events[1..] == [];
      } else {
        TrackerAndBookAgree(t', l', e', events[1..], SeqAfter(event, lastSeq), IdAfter(event, lastId));
      }
    }
  }

  /** The agreement from the start of a connection. */
  lemma TrackerAndBookAgreeFromStart(maximum: nat, connectionId: string, events: seq<BookEvent>, lastSeq: int, lastId: int)
    requires Aligned(Tracker(maximum, [], None, None), FreshBook(connectionId), events, lastSeq, lastId)
    ensures Agree(TrackerRun(Tracker(maximum, [], None, None), events), Run(FreshBook(connectionId), events).0)
  {
    TrackerAndBookAgree(Tracker(maximum, [], None, None), FreshBook(connectionId), FreshBook(connectionId), events, lastSeq, lastId);
  }

  /** Why the agreement ends there: a bridge over the kept tail that the book can no longer make. */
  lemma {:induction false} DivergenceWitness(maximum: nat)
    requires 4 <= maximum
    ensures var events := DivergingEvents();
            && TrackerRun(Tracker(maximum, [], None, None), events).IsBridged()
            && !Run(FreshBook("a"), events).0.state.Valid?
  {
    TrackerDivergence(maximum);
    BookDivergence();
  }

  function DivergingEvents(): seq<BookEvent> {
    [Diff(SpanDiff(1, 10, 20, 9)), Diff(SpanDiff(2, 30, 40, 25)), Diff(SpanDiff(3, 41, 50, 40)),
     Snapshot(DepthSnapshot(4, 15, [], [])), Diff(SpanDiff(5, 51, 60, 50)), Snapshot(DepthSnapshot(6, 35, [], []))]
  }

  /** A snapshot covered by the first buffered span: the tracker bridges, or keeps everything behind the break. */
  lemma {:induction false} SnapshotOverHead(t: Tracker, id: int)
    requires t.pending != [] && Pairwise(t.pending, BySequence) && t.pending[0].Covers(id)
    ensures var k, t' := ChainBreak(t.pending), TrackerOnSnapshot(t, id).0;
            t' == if k < |t.pending|
                  then t.(pending := t.pending[k..], snapshotId := None, previousId := None)
                  else t.(pending := [], snapshotId := None, previousId := Some(t.pending[k - 1].final))
  {
    hide EvaluateSnapshot, StableSort;
    SortKeepsPairwise(t.pending, BySequence);
    EvaluateCases(t.(snapshotId := Some(id), previousId := None), id);
    assert DiscardCount(id, t.pending) == 0;
    assert t.pending[0..] == t.pending;
  }

  lemma {:induction false} TrackerBuffers(t: Tracker, d: DepthDiff, events: seq<BookEvent>)
    requires t.previousId == None && t.snapshotId == None && |t.pending| < t.maximum
    requires events != [] && events[0] == Diff(d)
    ensures TrackerRun(t, events) == TrackerRun(t.(pending := t.pending + [d.span]), events[1..])
  {
  }

  lemma {:induction false} TrackerDivergence(maximum: nat)
    requires 4 <= maximum
    ensures TrackerRun(Tracker(maximum, [], None, None), DivergingEvents()).IsBridged()
  {
    hide TrackerOnSnapshot, TrackerOnDiff;
    var a, b, c, d := UpdateSpan(1, 10, 20, 9), UpdateSpan(2, 30, 40, 25), UpdateSpan(3, 41, 50, 40), UpdateSpan(5, 51, 60, 50);
    var events := DivergingEvents();
    var t0 := Tracker(maximum, [], None, None);
    TrackerBuffers(t0, SpanDiff(1, 10, 20, 9), events);
    assert [] + [a] == [a];
    TrackerBuffers(t0.(pending := [a]), SpanDiff(2, 30, 40, 25), events[1..]);
    assert [a] + [b] == [a, b] && events[1..][1..] == events[2..];
    TrackerBuffers(t0.(pending := [a, b]), SpanDiff(3, 41, 50, 40), events[2..]);
    assert [a, b] + [c] == [a, b, c] && events[2..][1..] == events[3..];
    TrackerDivergenceTail(t0, a, b, c, d, events[3..]);
  }

  lemma {:induction false} TrackerDivergenceTail(t0: Tracker, a: UpdateSpan, b: UpdateSpan, c: UpdateSpan, d: UpdateSpan, events: seq<BookEvent>)
    requires t0.pending == [] && t0.snapshotId == None && t0.previousId == None && 4 <= t0.maximum
    requires a == UpdateSpan(1, 10, 20, 9) && b == UpdateSpan(2, 30, 40, 25) && c == UpdateSpan(3, 41, 50, 40) && d == UpdateSpan(5, 51, 60, 50)
    requires events == DivergingEvents()[3..]
    ensures TrackerRun(t0.(pending := [a, b, c]), events).IsBridged()
  {
    hide TrackerOnSnapshot, TrackerOnDiff, DivergingEvents;
    assert events == [Snapshot(DepthSnapshot(4, 15, [], [])), Diff(SpanDiff(5, 51, 60, 50)), Snapshot(DepthSnapshot(6, 35, [], []))] by {
      TailEvents();
    }
    assert [a, b, c][1..] == [b, c] && [b, c][1..] == [c];
    assert [b, c, d][1..] == [c, d] && [c, d][1..] == [d];
    assert Pairwise([c], BySequence) && Pairwise([d], BySequence);
    assert Pairwise([b, c], BySequence);
    assert Pairwise([c, d], BySequence);
    var t3, t4, t5 := t0.(pending := [a, b, c]), t0.(pending := [b, c]), t0.(pending := [b, c, d]);
    SnapshotOverHead(t3, 15);
    assert ChainBreak([a, b, c]) == 1;
    assert TrackerRun(t3, events) == TrackerRun(t4, events[1..]);
    assert [b, c] + [d] == [b, c, d];
    TrackerBuffers(t4, SpanDiff(5, 51, 60, 50), events[1..]);
    SnapshotOverHead(t5, 35);
    assert ChainBreak([b, c, d]) == 3;
    assert events[1..][1..] == events[2..] && events[2..][1..] == [];
    assert TrackerRun(t5, events[2..]) == TrackerRun(TrackerStep(t5, events[2]).0, []);
  }

  lemma {:induction false} TailEvents()
    ensures DivergingEvents()[3..] == [Snapshot(DepthSnapshot(4, 15, [], [])), Diff(SpanDiff(5, 51, 60, 50)), Snapshot(DepthSnapshot(6, 35, [], []))]
  {
  }

  /** A snapshot over a buffer whose second diff does not continue its first. */
  lemma {:induction false} SnapshotOverBreak(b: BookValue, s: DepthSnapshot, first: DepthDiff, second: DepthDiff, rest: seq<DepthDiff>)
    requires b.pending == [first, second] + rest && Ordered(b.pending, ByReceive)
    requires first.span.Covers(s.lastUpdateId) && second.span.previous != first.span.final
    ensures OnSnapshot(b, s).0 == Invalidated(b).(pending := [second])
  {
    hide TryBridge, Cut;
    var anchored := Anchoring(b, s);
    SearchCases(anchored);
    assert anchored.pending[0] == first && Cut(anchored) == 0;
    assert b.pending[0..] == b.pending;
    assert ChainBreak(Spans(b.pending)) == 1;
  }

  lemma {:induction false} BookBuffers(b: BookValue, d: DepthDiff, events: seq<BookEvent>)
    requires b.WellFormed() && !b.state.Valid? && b.anchor.None? && IdentityOf(d) !in b.seen
    requires events != [] && events[0] == Diff(d)
    ensures Run(b, events).0 == Run(Buffering(b, d), events[1..]).0
  {
    BufferedStep(b, d);
  }

  lemma {:induction false} BookDivergence()
    ensures !Run(FreshBook("a"), DivergingEvents()).0.state.Valid?
  {
    hide OnDiff, OnSnapshot, Run;
    var a, b, c := SpanDiff(1, 10, 20, 9), SpanDiff(2, 30, 40, 25), SpanDiff(3, 41, 50, 40);
    var events := DivergingEvents();
    var b0 := FreshBook("a");
    var b1 := Buffering(b0, a);
    var b2 := Buffering(b1, b);
    var b3 := Buffering(b2, c);
    BookBuffers(b0, a, events);
    BookBuffers(b1, b, events[1..]);
    assert events[1..][1..] == events[2..];
    BookBuffers(b2, c, events[2..]);
    assert events[2..][1..] == events[3..];
    assert b3.pending == [a, b, c] == [a, b] + [c];
    BookDivergenceTail(b3, a, b, c, events[3..]);
  }

  lemma {:induction false} BookDivergenceTail(b3: BookValue, a: DepthDiff, b: DepthDiff, c: DepthDiff, events: seq<BookEvent>)
    requires b3.WellFormed() && b3.pending == [a, b] + [c] && b3.seen == {IdentityOf(a), IdentityOf(b), IdentityOf(c)}
    requires a == SpanDiff(1, 10, 20, 9) && b == SpanDiff(2, 30, 40, 25) && c == SpanDiff(3, 41, 50, 40)
    requires events == DivergingEvents()[3..]
    ensures !Run(b3, events).0.state.Valid?
  {
    hide OnDiff, OnSnapshot, DivergingEvents;
    var d := SpanDiff(5, 51, 60, 50);
    assert events == [Snapshot(DepthSnapshot(4, 15, [], [])), Diff(d), Snapshot(DepthSnapshot(6, 35, [], []))] by {
      TailEvents();
    }
    SnapshotOverBreak(b3, DepthSnapshot(4, 15, [], []), a, b, [c]);
    var b4 := Invalidated(b3).(pending := [b]);
    assert Run(b3, events).0 == Run(b4, events[1..]).0;
    BookBuffers(b4, d, events[1..]);
    var b5 := Buffering(b4, d);
    assert b5.pending == [b, d] == [b, d] + [];
    SnapshotOverBreak(b5, DepthSnapshot(6, 35, [], []), b, d, []);
    assert events[1..][1..] == events[2..] && events[2..][1..] == [];
    var b6 := Step(b5, events[2]).0;
    assert Run(b5, events[2..]).0 == Run(b6, []).0;
  }

  lemma {:induction false} BufferedStep(b: BookValue, d: DepthDiff)
    requires !b.state.Valid? && b.anchor.None? && IdentityOf(d) !in b.seen
    ensures OnDiff(b, d) == (Buffering(b, d), None)
  {
  }
}
