/**
 * The collector's tracker and the pipeline's book stay together exactly until a buffered discontinuity with diffs
 * behind it (orderbook/bridge.py, pipeline/l2.py).
 */
module Divergence {
  import opened Wrappers
  import opened Sorting
  import opened Bridge
  import opened Book
  import opened Shortcut
  import opened Lockstep

  /** Spans as the exchange sends them: U <= u, and each u beyond the one before. */
  predicate Rising(events: seq<BookEvent>, lastFinal: int)
    decreases events
  {
    events == [] ||
    match events[0]
    case Diff(d) => d.span.first <= d.span.final && lastFinal < d.span.final && Rising(events[1..], d.span.final)
    case Snapshot(_) => Rising(events[1..], lastFinal)
  }

  function FinalAfter(e: BookEvent, lastFinal: int): int {
    if e.Diff? then e.diff.span.final else lastFinal
  }

  function SeqEnd(events: seq<BookEvent>, lastSeq: int): int {
    if events == [] then lastSeq else SeqEnd(events[1..], SeqAfter(events[0], lastSeq))
  }

  function IdEnd(events: seq<BookEvent>, lastId: int): int {
    if events == [] then lastId else IdEnd(events[1..], IdAfter(events[0], lastId))
  }

  /** Some step of the run leaves diffs behind a buffered discontinuity. */
  predicate Diverged(t: Tracker, events: seq<BookEvent>)
    decreases events
  {
    events != [] && var (t', r) := TrackerStep(t, events[0]); Diverges(t', r) || Diverged(t', events[1..])
  }

  /** On every aligned continuation the two agree. */
  ghost predicate StayTogether(t: Tracker, l: BookValue, lastSeq: int, lastId: int)
    requires l.WellFormed()
  {
    forall more :: Aligned(t, l, more, lastSeq, lastId) ==> Agree(TrackerRun(t, more), Run(l, more).0)
  }

  // ---- What the tracker buffers ------------------------------------------------------------------

  ghost predicate Ascending(spans: seq<UpdateSpan>, lastFinal: int) {
    && (forall i :: 0 <= i < |spans| ==> spans[i].first <= spans[i].final <= lastFinal)
    && (forall i, j :: 0 <= i < j < |spans| ==> spans[i].final < spans[j].final)
  }

  ghost predicate TrackerAscends(t: Tracker, lastSeq: int, lastId: int, lastFinal: int) {
    && Ascending(t.pending, lastFinal) && (t.snapshotId.Some? ==> t.snapshotId.value == lastId)
    && Ordered(t.pending, BySequence) && forall i :: 0 <= i < |t.pending| ==> t.pending[i].receiveSeq <= lastSeq
  }

  lemma {:induction false} SuffixAscends(t: Tracker, r: Tracker, k: nat, lastSeq: int, lastId: int, lastFinal: int)
    requires TrackerAscends(t, lastSeq, lastId, lastFinal) && k <= |t.pending| && r.pending == t.pending[k..]
    requires r.snapshotId.Some? ==> r.snapshotId == t.snapshotId
    ensures TrackerAscends(r, lastSeq, lastId, lastFinal)
  {
  }

  lemma {:induction false} EvaluateAscends(t: Tracker, lastSeq: int, lastId: int, lastFinal: int)
    requires t.snapshotId.Some? && TrackerAscends(t, lastSeq, lastId, lastFinal)
    ensures var (t', r) := EvaluateSnapshot(t);
            && TrackerAscends(t', lastSeq, lastId, lastFinal)
            && (Diverges(t', r) ==> t'.snapshotId.None? && t'.previousId == t.previousId && lastId < t'.pending[0].final)
  {
    hide EvaluateSnapshot, StableSort, ChainBreak;
    var c := DiscardCount(lastId, t.pending);
    SortKeepsOrdered(t.pending, BySequence);
    EvaluateCases(t, lastId);
    hide TrackerAscends;
    assert t.pending[|t.pending|..] == [];
    var (t', r) := EvaluateSnapshot(t);
    if c == |t.pending| {
      SuffixAscends(t, t', c, lastSeq, lastId, lastFinal);
    } else if lastId < t.pending[c].first {
      SuffixAscends(t, t', c, lastSeq, lastId, lastFinal);
    } else {
      CoversAscends(t, t', c, lastSeq, lastId, lastFinal);
    }
  }

  lemma {:induction false} CoversAscends(t: Tracker, r: Tracker, c: nat, lastSeq: int, lastId: int, lastFinal: int)
    requires TrackerAscends(t, lastSeq, lastId, lastFinal) && c < |t.pending| && r == Bridging(t, t.pending[c..])
    requires lastId <= t.pending[c].final
    ensures TrackerAscends(r, lastSeq, lastId, lastFinal) && r.snapshotId.None?
    ensures ChainBreak(t.pending[c..]) < |t.pending[c..]| ==> r.previousId == t.previousId && lastId < r.pending[0].final
  {
    hide ChainBreak;
    var kept := t.pending[c..];
    var k := ChainBreak(kept);
    if k < |kept| {
      assert kept[k..] == t.pending[c + k..];
      SuffixAscends(t, r, c + k, lastSeq, lastId, lastFinal);
    } else {
      assert t.pending[|t.pending|..] == [];
      SuffixAscends(t, r, |t.pending|, lastSeq, lastId, lastFinal);
    }
  }

  /** The tracker's buffer stays in receive order with rising final ids, and its snapshot is the newest one. */
  lemma {:induction false} StepAscends(t: Tracker, event: BookEvent, lastSeq: int, lastId: int, lastFinal: int)
    requires TrackerAscends(t, lastSeq, lastId, lastFinal) && (t.IsBridged() ==> t.pending == [])
    requires event.Diff? ==> lastSeq <= event.diff.span.receiveSeq && (t.IsBridged() || |t.pending| < t.maximum)
                             && event.diff.span.first <= event.diff.span.final && lastFinal < event.diff.span.final
    requires event.Snapshot? ==> !t.IsBridged()
    ensures var (t', r) := TrackerStep(t, event);
            && TrackerAscends(t', SeqAfter(event, lastSeq), IdAfter(event, lastId), FinalAfter(event, lastFinal))
            && (Diverges(t', r) ==> t'.snapshotId.None? && t'.previousId.None? && IdAfter(event, lastId) < t'.pending[0].final)
  {
    match event
    case Snapshot(s) =>
      hide EvaluateSorted, EvaluateSnapshot;
      EvaluateAscends(t.(snapshotId := Some(s.lastUpdateId), previousId := None), lastSeq, s.lastUpdateId, lastFinal);
    case Diff(d) =>
      hide EvaluateSorted;
      if !t.IsBridged() {
        var buffered := t.(pending := t.pending + [d.span]);
        assert TrackerAscends(buffered, d.span.receiveSeq, lastId, d.span.final);
        if t.snapshotId.Some? {
          hide EvaluateSnapshot;
          EvaluateAscends(buffered, d.span.receiveSeq, lastId, d.span.final);
        }
      }
  }

  // ---- Apart after a divergence ------------------------------------------------------------------

  /** The tracker kept several spans and the book only the first of them. */
  ghost predicate Split(t: Tracker, l: BookValue, lastId: int) {
    && t.snapshotId.None? && t.previousId.None? && |t.pending| > 1 && Ordered(t.pending, BySequence)
    && !l.state.Valid? && |l.pending| == 1 && t.pending[0] == l.pending[0].span
    && t.pending[0].first <= t.pending[0].final && t.pending[0].final != t.pending[|t.pending| - 1].final
    && lastId <= t.pending[0].final
  }

  /** Any snapshot that the first kept span covers makes the book VALID, and never the tracker bridged at the same id. */
  lemma {:induction false} SplitDisagrees(t: Tracker, l: BookValue, lastId: int, s: DepthSnapshot)
    requires Split(t, l, lastId) && t.pending[0].Covers(s.lastUpdateId)
    ensures !Agree(TrackerOnSnapshot(t, s.lastUpdateId).0, OnSnapshot(l, s).0)
  {
    hide TryBridge, ReplayBridge, TrackerOnSnapshot;
    OrderedIsPairwise(t.pending, BySequence);
    SnapshotOverHead(t, s.lastUpdateId);
    var anchored := Anchoring(l, s);
    SearchCases(anchored);
    assert anchored.pending[0..] == anchored.pending;
    ReplayCases(anchored, anchored.anchor.value, anchored.pending);
  }

  lemma {:induction false} SplitParts(t: Tracker, l: BookValue, lastSeq: int, lastId: int)
    requires l.WellFormed() && Split(t, l, lastId)
    ensures !StayTogether(t, l, lastSeq, lastId)
  {
    hide TrackerOnSnapshot, OnSnapshot, TrackerRun;
    var s := DepthSnapshot(0, t.pending[0].final, [], []);
    var more := [Snapshot(s)];
    SplitDisagrees(t, l, lastId, s);
    assert more[1..] == [];
    StepKeepsWellFormed(l, more[0]);
    OneStep(t, l, s);
    assert Aligned(t, l, more, lastSeq, lastId);
  }

  lemma OneStep(t: Tracker, l: BookValue, s: DepthSnapshot)
    requires l.WellFormed()
    ensures TrackerRun(t, [Snapshot(s)]) == TrackerOnSnapshot(t, s.lastUpdateId).0
    ensures Run(l, [Snapshot(s)]).0 == OnSnapshot(l, s).0
  {
    hide TrackerOnSnapshot, OnSnapshot;
    var more := [Snapshot(s)];
    assert more[1..] == [];
    StepKeepsWellFormed(l, more[0]);
    assert TrackerRun(t, more) == TrackerRun(TrackerStep(t, more[0]).0, []);
    assert Run(l, more).0 == Run(Step(l, more[0]).0, []).0;
  }

  // ---- The step that diverges --------------------------------------------------------------------

  /** A search that changes an unbridged book's state leaves it without an anchor. */
  lemma {:induction false} ChangeDropsAnchor(b: BookValue)
    requires Ordered(b.pending, ByReceive)
    ensures TryBridge(b).1.Some? ==> TryBridge(b).0.anchor.None?
  {
    hide TryBridge, ReplayBridge;
    if b.anchor.Some? {
      SearchCases(b);
      var c := Cut(b);
      if c < |b.pending| && b.pending[c].span.Covers(b.anchor.value.lastUpdateId) {
        ReplayCases(b, b.anchor.value, b.pending[c..]);
      }
    } else {
      StaleDoesNotSearch(b);
    }
  }

  /** Where the tracker's evaluation leaves a tail, the book's search leaves the first diff of it. */
  lemma {:induction false} EvaluateSplits(t: Tracker, e: BookValue)
    requires e.WellFormed() && !e.state.Valid? && Ordered(e.pending, ByReceive)
    requires t.pending == Spans(e.pending) && t.previousId == None
    requires e.anchor.Some? && t.snapshotId == Some(e.anchor.value.lastUpdateId)
    ensures var (t', r), (e', change) := EvaluateSnapshot(t), TryBridge(e);
            Diverges(t', r) ==> change.Some? && !e'.state.Valid? && |e'.pending| == 1 && e'.pending[0].span == t'.pending[0]
  {
    hide TryBridge, ReplayBridge, EvaluateSnapshot, StableSort, Bridging, ChainBreak;
    var c, id := Cut(e), e.anchor.value.lastUpdateId;
    SpansOrdered(e.pending);
    EvaluateCases(t, id);
    SpansSuffix(e.pending, c);
    SearchCases(e);
    if c < |e.pending| && e.pending[c].span.Covers(id) {
      BridgingSplits(t, e, e.anchor.value, e.pending[c..]);
    }
  }

  lemma {:induction false} BridgingSplits(t: Tracker, e: BookValue, anchor: Anchor, chain: seq<DepthDiff>)
    requires chain != []
    ensures var t', (e', change) := Bridging(t, Spans(chain)), ReplayBridge(e, anchor, chain);
            ChainBreak(Spans(chain)) < |chain| ==> change.Some? && !e'.state.Valid? && |e'.pending| == 1 && t'.pending != [] && e'.pending[0].span == t'.pending[0]
  {
    ReplayCases(e, anchor, chain);
  }

  lemma {:induction false} LazySearchChanges(l: BookValue, event: BookEvent, lastSeq: int, lastId: int)
    requires l.WellFormed() && !l.state.Valid? && Timely(l, lastSeq, lastId)
    requires event.Diff? ==> lastSeq <= event.diff.span.receiveSeq
    ensures Step(l, event).1.Some? ==> Step(l, event).0.anchor.None?
  {
    hide TryBridge;
    match event
    case Diff(d) => ChangeDropsAnchor(Buffering(l, d));
    case Snapshot(s) => ChangeDropsAnchor(Anchoring(l, s));
  }

  lemma NoSnapshotNoBreak(t: Tracker)
    requires t.snapshotId.None?
    ensures !EvaluateSnapshot(t).1.status.SequenceGap?
  {
  }

  lemma {:induction false} EagerStepSplits(t: Tracker, e: BookValue, event: BookEvent)
    requires Matches(t, e)
    requires event.Diff? ==> IdentityOf(event.diff) !in e.seen && (t.IsBridged() || |t.pending| < t.maximum)
                             && Ordered(e.pending + [event.diff], ByReceive)
    requires event.Snapshot? ==> !t.IsBridged() && Ordered(e.pending, ByReceive)
    ensures var (t', r), (e', change) := TrackerStep(t, event), EagerStep(e, event);
            Diverges(t', r) ==> change.Some? && !e.state.Valid? && !e'.state.Valid? && |e'.pending| == 1 && e'.pending[0].span == t'.pending[0]
  {
    hide TryBridge, EvaluateSnapshot;
    match event
    case Diff(d) =>
      if !e.state.Valid? {
        var buffered := Buffering(e, d);
        assert Spans(buffered.pending) == t.pending + [d.span];
        if e.anchor.Some? {
          EvaluateSplits(t.(pending := t.pending + [d.span]), buffered);
        } else {
          NoSnapshotNoBreak(t.(pending := t.pending + [d.span]));
        }
      }
    case Snapshot(s) =>
      EvaluateSplits(t.(snapshotId := Some(s.lastUpdateId), previousId := None), Anchoring(e, s));
  }

  lemma {:induction false} StepSplits(t: Tracker, l: BookValue, e: BookValue, event: BookEvent, lastSeq: int, lastId: int, lastFinal: int)
    requires l.WellFormed() && Related(l, e) && Timely(l, lastSeq, lastId) && Matches(t, e) && AlignedEvent(t, l, event, lastSeq, lastId)
    requires TrackerAscends(t, lastSeq, lastId, lastFinal) && Rising([event], lastFinal)
    ensures var (t', r) := TrackerStep(t, event);
            Diverges(t', r) ==> Split(t', Step(l, event).0, IdAfter(event, lastId))
  {
    hide TryBridge, OnDiff, OnSnapshot, EagerOnDiff, TrackerOnDiff, TrackerOnSnapshot;
    EagerSeen(l, e);
    EagerTimely(l, e, lastSeq, lastId);
    assert [event][1..] == [];
    assert t.IsBridged() ==> t.pending == [] by {
      assert Spans([]) == [];
    }
    StepAscends(t, event, lastSeq, lastId, lastFinal);
    var (t', r) := TrackerStep(t, event);
    if Diverges(t', r) {
      EagerStepSplits(t, e, event);
      StepRefines(l, e, event, lastSeq, lastId);
      LazySearchChanges(l, event, lastSeq, lastId);
      assert Step(l, event).0 == EagerStep(e, event).0;
    }
  }

  // ---- The theorem ---------------------------------------------------------------------------------

  /**
   * Main result: after an aligned run of rising diffs, tracker and book agree on every aligned continuation if and only
   * if the run has not left diffs behind a buffered discontinuity.
   */
  lemma {:induction false} TogetherExactly(t: Tracker, l: BookValue, e: BookValue, events: seq<BookEvent>, lastSeq: int, lastId: int, lastFinal: int)
    requires l.WellFormed() && Related(l, e) && Timely(l, lastSeq, lastId) && Matches(t, e)
    requires Aligned(t, l, events, lastSeq, lastId)
    requires TrackerAscends(t, lastSeq, lastId, lastFinal) && Rising(events, lastFinal)
    ensures Run(l, events).0.WellFormed()
    ensures StayTogether(TrackerRun(t, events), Run(l, events).0, SeqEnd(events, lastSeq), IdEnd(events, lastId)) <==> !Diverged(t, events)
    decreases events
  {
    hide OnDiff, OnSnapshot, EagerOnDiff, TrackerOnDiff, TrackerOnSnapshot, TryBridge;
    if events == [] {
      forall more | Aligned(t, l, more, lastSeq, lastId)
        ensures Agree(TrackerRun(t, more), Run(l, more).0)
      {
        TrackerAndBookAgree(t, l, e, more, lastSeq, lastId);
      }
    } else {
      var event, rest := events[0], events[1..];
      var (t', r) := TrackerStep(t, event);
      var l', e' := Step(l, event).0, EagerStep(e, event).0;
      var nextSeq, nextId, nextFinal := SeqAfter(event, lastSeq), IdAfter(event, lastId), FinalAfter(event, lastFinal);
      StepKeepsWellFormed(l, event);
      hide StayTogether, Split;
      if Diverges(t', r) {
        assert rest == [] && Rising([event], lastFinal);
        StepSplits(t, l, e, event, lastSeq, lastId, lastFinal);
        SplitParts(t', l', nextSeq, nextId);
        RunsOn(t, l, events);
      } else {
        EagerTimely(l, e, lastSeq, lastId);
        EagerSeen(l, e);
        BridgedIsEmpty(t, e);
        if event.Diff? {
          DiffMatches(t, e, event.diff);
        } else {
          SnapshotMatches(t, e, event.snapshot);
        }
        StepRefines(l, e, event, lastSeq, lastId);
        StepKeepsTimely(l, event, lastSeq, lastId);
        StepAscends(t, event, lastSeq, lastId, lastFinal);
        TogetherExactly(t', l', e', rest, nextSeq, nextId, nextFinal);
        RunsOn(t, l, events);
      }
    }
  }

  lemma BridgedIsEmpty(t: Tracker, e: BookValue)
    requires Matches(t, e)
    ensures t.IsBridged() ==> t.pending == []
  {
    assert Spans([]) == [];
  }

  lemma RunsOn(t: Tracker, l: BookValue, events: seq<BookEvent>)
    requires events != [] && l.WellFormed()
    ensures Step(l, events[0]).0.WellFormed()
    ensures TrackerRun(t, events) == TrackerRun(TrackerStep(t, events[0]).0, events[1..])
    ensures Run(l, events).0 == Run(Step(l, events[0]).0, events[1..]).0
  {
    hide TrackerStep, Step;
    StepKeepsWellFormed(l, events[0]);
  }

  /** The same from the start of a connection. */
  lemma TogetherExactlyFromStart(maximum: nat, connectionId: string, events: seq<BookEvent>, lastSeq: int, lastId: int, lastFinal: int)
    requires Aligned(Tracker(maximum, [], None, None), FreshBook(connectionId), events, lastSeq, lastId) && Rising(events, lastFinal)
    ensures var t, l := Tracker(maximum, [], None, None), FreshBook(connectionId);
            && Run(l, events).0.WellFormed()
            && (StayTogether(TrackerRun(t, events), Run(l, events).0, SeqEnd(events, lastSeq), IdEnd(events, lastId)) <==> !Diverged(t, events))
  {
    var t, l := Tracker(maximum, [], None, None), FreshBook(connectionId);
    TogetherExactly(t, l, l, events, lastSeq, lastId, lastFinal);
  }
}
