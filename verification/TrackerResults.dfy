/**
 * What the collector's tracker answers (orderbook/bridge.py) against what the pipeline's book reports (pipeline/l2.py):
 * along an aligned run it announces the book's changes, and a gap names the update ids on both sides of it.
 */
module TrackerResults {
  import opened Wrappers
  import opened Sorting
  import opened Bridge
  import opened Book
  import opened Shortcut
  import opened Lockstep

  /** Behind the bridge of a snapshot every span continues its predecessor up to j, which does not. */
  ghost predicate BreaksAt(spans: seq<UpdateSpan>, id: int, j: int) {
    exists i: nat :: OfficialBridge(id, spans, i) && i < j < |spans|
      && (forall m :: i < m < j ==> spans[m].previous == spans[m - 1].final)
      && spans[j].previous != spans[j - 1].final
  }

  /** A gap found in a buffer: the ids on both sides of the break, and what follows it kept. */
  ghost predicate NamesBreak(spans: seq<UpdateSpan>, id: int, r: BridgeResult, kept: seq<UpdateSpan>) {
    exists j :: BreaksAt(spans, id, j) && 0 < j < |spans| && kept == spans[j..]
      && r.expectedPrevious == Some(spans[j - 1].final) && r.receivedPrevious == Some(spans[j].previous)
  }

  /** The buffer a tracker evaluates after an event, and the snapshot it evaluates it against. */
  function Heard(t: Tracker, event: BookEvent): seq<UpdateSpan> {
    match event
    case Diff(d) => t.pending + [d.span]
    case Snapshot(_) => t.pending
  }

  function SnapshotAfter(t: Tracker, event: BookEvent): Option<int> {
    match event
    case Diff(_) => t.snapshotId
    case Snapshot(s) => Some(s.lastUpdateId)
  }

  /** What a step's answer says: of the change it reports, and of the ids when that is a gap. */
  ghost predicate Tells(t: Tracker, event: BookEvent, t': Tracker, r: BridgeResult, change: Option<StateChange>) {
    && (r.status.SequenceGap? <==> change.Some? && change.value.state.Gapped?)
    && (r.status.Bridged? <==> change.Some? && change.value.state.Valid?)
    && (change.Some? ==> r.status.SequenceGap? || r.status.Bridged?)
    && (r.status.Contiguous? <==> t.IsBridged() && t'.IsBridged())
    && (r.status.StaleSnapshot? <==> !t.IsBridged() && SnapshotAfter(t, event).Some? && t'.snapshotId.None? && change.None?)
    && (r.status.SequenceGap? <==> r.expectedPrevious.Some?) && (r.status.SequenceGap? <==> r.receivedPrevious.Some?)
    && (r.status.SequenceGap? ==> t'.pending != [] && change.value.updateId == Some(t'.pending[0].final) && NamesGap(t, event, t', r))
  }

  ghost predicate NamesGap(t: Tracker, event: BookEvent, t': Tracker, r: BridgeResult) {
    if t.IsBridged() then
      event.Diff? && r.expectedPrevious == t.previousId && r.receivedPrevious == Some(event.diff.span.previous)
      && event.diff.span.previous != t.previousId.value && t'.pending == [event.diff.span]
    else
      SnapshotAfter(t, event).Some? && NamesBreak(Heard(t, event), SnapshotAfter(t, event).value, r, t'.pending)
  }

  // ---- One evaluation ------------------------------------------------------------------------------

  /** The answer of an evaluation whose snapshot is covered. */
  lemma {:induction false} BridgingResult(t: Tracker, id: int)
    requires t.snapshotId == Some(id) && StableSort(t.pending, BySequence) == t.pending
    ensures var c := DiscardCount(id, t.pending);
            c < |t.pending| && t.pending[c].Covers(id) ==>
              var kept := t.pending[c..];
              var k := ChainBreak(kept);
              EvaluateSnapshot(t).1 == if k < |kept| then BridgeResult(SequenceGap, Some(0), 0, Some(kept[k - 1].final), Some(kept[k].previous))
                                       else BridgeResult(Bridged, Some(0), 0, None, None)
  {
    hide EvaluateSnapshot, StableSort;
    EvaluatePairwise(t, id);
  }

  lemma {:induction false} BreakIsNamed(spans: seq<UpdateSpan>, id: int, c: nat, r: BridgeResult)
    requires OfficialBridge(id, spans, c) && ChainBreak(spans[c..]) < |spans[c..]|
    requires var kept, k := spans[c..], ChainBreak(spans[c..]);
             r.expectedPrevious == Some(kept[k - 1].final) && r.receivedPrevious == Some(kept[k].previous)
    ensures NamesBreak(spans, id, r, spans[c..][ChainBreak(spans[c..])..])
  {
    var kept, k := spans[c..], ChainBreak(spans[c..]);
    var j := c + k;
    assert kept[k..] == spans[j..] && kept[k] == spans[j] && kept[k - 1] == spans[j - 1];
    forall m | c < m < j
      ensures spans[m].previous == spans[m - 1].final
    {
      assert kept[m - c] == spans[m] && kept[m - c - 1] == spans[m - 1];
    }
    assert BreaksAt(spans, id, j);
  }

  ghost predicate EvaluationTells(t: Tracker, id: int, t': Tracker, r: BridgeResult, change: Option<StateChange>) {
    && (r.status.SequenceGap? <==> change.Some? && change.value.state.Gapped?)
    && (r.status.Bridged? <==> change.Some? && change.value.state.Valid?)
    && (change.Some? ==> r.status.SequenceGap? || r.status.Bridged?)
    && !r.status.Contiguous? && (r.status.StaleSnapshot? <==> t'.snapshotId.None? && change.None?)
    && (r.status.SequenceGap? <==> r.expectedPrevious.Some?) && (r.status.SequenceGap? <==> r.receivedPrevious.Some?)
    && (r.status.SequenceGap? ==> t'.pending != [] && change.value.updateId == Some(t'.pending[0].final) && NamesBreak(t.pending, id, r, t'.pending))
  }

  lemma {:induction false} EvaluationTellsTheChange(t: Tracker, e: BookValue, id: int)
    requires e.WellFormed() && !e.state.Valid? && e.anchor.Some? && Ordered(e.pending, ByReceive)
    requires t.pending == Spans(e.pending) && t.previousId == None && t.snapshotId == Some(id) && id == e.anchor.value.lastUpdateId
    ensures EvaluationTells(t, id, EvaluateSnapshot(t).0, EvaluateSnapshot(t).1, TryBridge(e).1)
  {
    SpansOrdered(e.pending);
    hide TryBridge, ReplayBridge, EvaluateSnapshot, StableSort, ChainBreak, NamesBreak, EvaluationTells;
    EvaluateCases(t, id);
    SearchCases(e);
    var c := Cut(e);
    if c < |e.pending| && e.pending[c].span.Covers(id) {
      BridgingTells(t, e, id, c);
    } else {
      NoBridgeTells(t, id, c, EvaluateSnapshot(t).0, EvaluateSnapshot(t).1);
    }
  }

  lemma NoBridgeTells(t: Tracker, id: int, c: nat, t': Tracker, r: BridgeResult)
    requires t.snapshotId == Some(id) && c <= |t.pending|
    requires if c == |t.pending| then t' == t.(pending := []) && r == Outcome(WaitingForEvents, c)
             else t' == t.(pending := t.pending[c..], snapshotId := None) && r == Outcome(StaleSnapshot, c)
    ensures EvaluationTells(t, id, t', r, None)
  {
  }

  lemma {:induction false} BridgingTells(t: Tracker, e: BookValue, id: int, c: nat)
    requires e.anchor.Some? && id == e.anchor.value.lastUpdateId && c < |e.pending| && e.pending[c].span.Covers(id)
    requires t.pending == Spans(e.pending) && StableSort(t.pending, BySequence) == t.pending && t.snapshotId == Some(id)
    requires c == DiscardCount(id, t.pending) && EvaluateSnapshot(t).0 == Bridging(t, t.pending[c..])
    requires TryBridge(e) == ReplayBridge(e, e.anchor.value, e.pending[c..])
    ensures EvaluationTells(t, id, EvaluateSnapshot(t).0, EvaluateSnapshot(t).1, TryBridge(e).1)
  {
    hide TryBridge, ReplayBridge, EvaluateSnapshot, StableSort, ChainBreak, NamesBreak, EvaluationTells;
    BridgingResult(t, id);
    SpansSuffix(e.pending, c);
    var chain := e.pending[c..];
    ReplayChange(e, e.anchor.value, chain);
    assert Spans(chain) == t.pending[c..];
    if ChainBreak(t.pending[c..]) < |t.pending[c..]| {
      BreakTells(t, id, c, EvaluateSnapshot(t).0, EvaluateSnapshot(t).1, TryBridge(e).1);
    } else {
      NoBreakTells(t, id, EvaluateSnapshot(t).0, EvaluateSnapshot(t).1, TryBridge(e).1);
    }
  }

  lemma {:induction false} BreakTells(t: Tracker, id: int, c: nat, t': Tracker, r: BridgeResult, change: Option<StateChange>)
    requires OfficialBridge(id, t.pending, c) && ChainBreak(t.pending[c..]) < |t.pending[c..]|
    requires var kept, k := t.pending[c..], ChainBreak(t.pending[c..]);
             && t' == t.(pending := kept[k..], snapshotId := None)
             && r == BridgeResult(SequenceGap, Some(0), 0, Some(kept[k - 1].final), Some(kept[k].previous))
             && change.Some? && change.value.state.Gapped? && change.value.updateId == Some(kept[k].final)
    ensures EvaluationTells(t, id, t', r, change)
  {
    hide ChainBreak, NamesBreak, OfficialBridge;
    BreakIsNamed(t.pending, id, c, r);
  }

  lemma NoBreakTells(t: Tracker, id: int, t': Tracker, r: BridgeResult, change: Option<StateChange>)
    requires t'.snapshotId == None && r == BridgeResult(Bridged, Some(0), 0, None, None) && change.Some? && change.value.state.Valid?
    ensures EvaluationTells(t, id, t', r, change)
  {
  }

  lemma {:induction false} ReplayChange(b: BookValue, anchor: Anchor, chain: seq<DepthDiff>)
    requires chain != []
    ensures var k, change := ChainBreak(Spans(chain)), ReplayBridge(b, anchor, chain).1;
            change.Some? && if k < |chain| then change.value.state.Gapped? && change.value.updateId == Some(chain[k].span.final)
                            else change.value.state.Valid?
  {
  }

  // ---- One step ------------------------------------------------------------------------------------

  lemma {:induction false} EagerDiffTells(t: Tracker, e: BookValue, d: DepthDiff)
    requires Matches(t, e) && IdentityOf(d) !in e.seen && (t.IsBridged() || |t.pending| < t.maximum)
    requires Ordered(e.pending + [d], ByReceive)
    ensures Tells(t, Diff(d), TrackerOnDiff(t, d.span).0, TrackerOnDiff(t, d.span).1, EagerOnDiff(e, d).1)
  {
    hide TryBridge, ReplayBridge, EvaluateSorted, NamesBreak;
    if !e.state.Valid? {
      var buffered, heard := Buffering(e, d), t.(pending := t.pending + [d.span]);
      assert Spans(buffered.pending) == t.pending + [d.span];
      if e.anchor.Some? {
        EvaluationTellsTheChange(heard, buffered, t.snapshotId.value);
        StillUnbridged(heard, buffered);
      } else {
        StaleDoesNotSearch(buffered);
      }
    }
  }

  /** An evaluation bridges exactly when it says so. */
  lemma {:induction false} StillUnbridged(t: Tracker, e: BookValue)
    requires t.previousId == None
    ensures EvaluateSnapshot(t).0.IsBridged() <==> EvaluateSnapshot(t).1.status.Bridged?
  {
  }

  lemma {:induction false} EagerSnapshotTells(t: Tracker, e: BookValue, s: DepthSnapshot)
    requires Matches(t, e) && !t.IsBridged() && Ordered(e.pending, ByReceive)
    ensures Tells(t, Snapshot(s), TrackerOnSnapshot(t, s.lastUpdateId).0, TrackerOnSnapshot(t, s.lastUpdateId).1, OnSnapshot(e, s).1)
  {
    hide TryBridge, ReplayBridge, EvaluateSorted, EvaluateSnapshot, NamesBreak;
    EvaluationTellsTheChange(t.(snapshotId := Some(s.lastUpdateId), previousId := None), Anchoring(e, s), s.lastUpdateId);
  }

  /** What a step of an aligned run answers. */
  lemma {:induction false} StepTells(t: Tracker, l: BookValue, e: BookValue, event: BookEvent, lastSeq: int, lastId: int)
    requires l.WellFormed() && Related(l, e) && Timely(l, lastSeq, lastId) && Matches(t, e) && AlignedEvent(t, l, event, lastSeq, lastId)
    ensures Tells(t, event, TrackerStep(t, event).0, TrackerStep(t, event).1, Step(l, event).1)
  {
    hide OnDiff, OnSnapshot, EagerOnDiff, TrackerOnDiff, TrackerOnSnapshot, TryBridge, Tells;
    EagerSeen(l, e);
    EagerTimely(l, e, lastSeq, lastId);
    StepRefines(l, e, event, lastSeq, lastId);
    match event
    case Diff(d) => EagerDiffTells(t, e, d);
    case Snapshot(s) => EagerSnapshotTells(t, e, s);
  }

  // ---- The run -------------------------------------------------------------------------------------

  function Answers(t: Tracker, events: seq<BookEvent>): seq<BridgeResult>
    decreases events
  {
    if events == [] then [] else [TrackerStep(t, events[0]).1] + Answers(TrackerStep(t, events[0]).0, events[1..])
  }

  /** The changes of state that answers announce: a gap, or a bridge. */
  function Announced(answers: seq<BridgeResult>): seq<L2State> {
    if answers == [] then []
    else
      var rest := Announced(answers[1..]);
      match answers[0].status
      case SequenceGap => [Gapped] + rest
      case Bridged => [Valid] + rest
      case _ => rest
  }

  function StatesOf(changes: seq<StateChange>): seq<L2State> {
    if changes == [] then [] else [changes[0].state] + StatesOf(changes[1..])
  }

  /** Every step of the run answers so. */
  ghost predicate EveryStepTells(t: Tracker, l: BookValue, events: seq<BookEvent>)
    requires l.WellFormed()
    decreases events
  {
    events == [] ||
    var (t', r), (l', change) := TrackerStep(t, events[0]), Step(l, events[0]);
    && Tells(t, events[0], t', r, change)
    && (StepKeepsWellFormed(l, events[0]); EveryStepTells(t', l', events[1..]))
  }

  /**
   * Main result: along an aligned run the tracker announces a gap exactly where the book reports one, a bridge exactly
   * where it becomes VALID, in one order and at every step, and each gap with its ids.
   */
  lemma {:induction false} AnswersAreTheChanges(t: Tracker, l: BookValue, e: BookValue, events: seq<BookEvent>, lastSeq: int, lastId: int)
    requires l.WellFormed() && Related(l, e) && Timely(l, lastSeq, lastId) && Matches(t, e)
    requires Aligned(t, l, events, lastSeq, lastId)
    ensures EveryStepTells(t, l, events)
    ensures Announced(Answers(t, events)) == StatesOf(Run(l, events).1)
    decreases events
  {
    hide OnDiff, OnSnapshot, EagerOnDiff, TrackerOnDiff, TrackerOnSnapshot, TryBridge, Matches, Related, Timely;
    if events != [] {
      var event, rest := events[0], events[1..];
      var (t', r) := TrackerStep(t, event);
      var (l', change) := Step(l, event);
      StepTells(t, l, e, event, lastSeq, lastId);
      StepKeepsWellFormed(l, event);
      if Diverges(t', r) {
        assert rest == [];
      } else {
        AlignedStepMatches(t, l, e, event, lastSeq, lastId);
        MatchedIsWellFormed(t, e);
        AnswersAreTheChanges(t', l', EagerStep(e, event).0, rest, SeqAfter(event, lastSeq), IdAfter(event, lastId));
      }
      OneMoreAnswer(r, Answers(t', rest), change, Run(l', rest).1);
    }
  }

  lemma {:induction false} AlignedStepMatches(t: Tracker, l: BookValue, e: BookValue, event: BookEvent, lastSeq: int, lastId: int)
    requires l.WellFormed() && Related(l, e) && Timely(l, lastSeq, lastId) && Matches(t, e) && AlignedEvent(t, l, event, lastSeq, lastId)
    requires !Diverges(TrackerStep(t, event).0, TrackerStep(t, event).1)
    ensures var l', e' := Step(l, event).0, EagerStep(e, event).0;
            l'.WellFormed() && Related(l', e') && Timely(l', SeqAfter(event, lastSeq), IdAfter(event, lastId)) && Matches(TrackerStep(t, event).0, e')
  {
    hide OnDiff, OnSnapshot, EagerOnDiff, TrackerOnDiff, TrackerOnSnapshot, TryBridge;
    EagerSeen(l, e);
    EagerTimely(l, e, lastSeq, lastId);
    StepRefines(l, e, event, lastSeq, lastId);
    StepKeepsWellFormed(l, event);
    StepKeepsTimely(l, event, lastSeq, lastId);
    match event
    case Diff(d) => DiffMatches(t, e, d);
    case Snapshot(s) => SnapshotMatches(t, e, s);
  }

  lemma MatchedIsWellFormed(t: Tracker, e: BookValue)
    requires Matches(t, e)
    ensures e.WellFormed()
  {
  }

  lemma {:induction false} OneMoreAnswer(r: BridgeResult, answers: seq<BridgeResult>, change: Option<StateChange>, changes: seq<StateChange>)
    requires Announced(answers) == StatesOf(changes)
    requires r.status.SequenceGap? <==> change.Some? && change.value.state.Gapped?
    requires r.status.Bridged? <==> change.Some? && change.value.state.Valid?
    requires change.Some? ==> !change.value.state.Unanchored?
    ensures Announced([r] + answers) == StatesOf((if change.Some? then [change.value] else []) + changes)
  {
    assert ([r] + answers)[1..] == answers;
    if change.Some? {
      assert ([change.value] + changes)[1..] == changes;
    } else {
      assert [] + changes == changes;
    }
  }

  /** The same from the start of a connection. */
  lemma AnswersAreTheChangesFromStart(maximum: nat, connectionId: string, events: seq<BookEvent>, lastSeq: int, lastId: int)
    requires Aligned(Tracker(maximum, [], None, None), FreshBook(connectionId), events, lastSeq, lastId)
    ensures EveryStepTells(Tracker(maximum, [], None, None), FreshBook(connectionId), events)
    ensures Announced(Answers(Tracker(maximum, [], None, None), events)) == StatesOf(Run(FreshBook(connectionId), events).1)
  {
    AnswersAreTheChanges(Tracker(maximum, [], None, None), FreshBook(connectionId), FreshBook(connectionId), events, lastSeq, lastId);
  }

  // ---- The buffer ----------------------------------------------------------------------------------

  function Feed(diffs: seq<DepthDiff>): (r: seq<BookEvent>)
    ensures |r| == |diffs| && forall i :: 0 <= i < |r| ==> r[i] == BookEvent.Diff(diffs[i])
  {
    seq(|diffs|, (i: nat) requires i < |diffs| => BookEvent.Diff(diffs[i]))
  }

  /** The newest spans that fit, in the order they came: the end of what was heard, all of it if it fits. */
  predicate NewestOf(kept: seq<UpdateSpan>, heard: seq<UpdateSpan>, maximum: nat) {
    && |kept| == (if |heard| < maximum then |heard| else maximum)
    && kept == heard[|heard| - |kept|..]
  }

  lemma {:induction false} NewestOfNewest(kept: seq<UpdateSpan>, middle: seq<UpdateSpan>, heard: seq<UpdateSpan>, rest: seq<UpdateSpan>, maximum: nat)
    requires NewestOf(middle, heard, maximum) && NewestOf(kept, middle + rest, maximum)
    ensures NewestOf(kept, heard + rest, maximum)
  {
    assert middle + rest == (heard + rest)[|heard| - |middle|..];
  }

  lemma BufferStep(t: Tracker, span: UpdateSpan)
    requires t.previousId.None? && t.snapshotId.None?
    ensures var r := TrackerOnDiff(t, span).0; r == t.(pending := r.pending) && NewestOf(r.pending, t.pending + [span], t.maximum)
  {
  }

  lemma FeedFirst(t: Tracker, diffs: seq<DepthDiff>)
    requires diffs != []
    ensures TrackerRun(t, Feed(diffs)) == TrackerRun(TrackerOnDiff(t, diffs[0].span).0, Feed(diffs[1..]))
    ensures Spans(diffs) == [diffs[0].span] + Spans(diffs[1..])
  {
    hide TrackerOnDiff;
    assert Feed(diffs)[1..] == Feed(diffs[1..]);
  }

  /** A tracker without a snapshot keeps the newest spans that fit its buffer. */
  lemma {:induction false} NewestAreKept(t: Tracker, diffs: seq<DepthDiff>)
    requires t.previousId.None? && t.snapshotId.None? && |t.pending| <= t.maximum
    ensures var r := TrackerRun(t, Feed(diffs));
            r == t.(pending := r.pending) && NewestOf(r.pending, t.pending + Spans(diffs), t.maximum)
    decreases |diffs|
  {
    hide *;
    if diffs == [] {
      NothingFed(t, diffs);
    } else {
      var span, rest := diffs[0].span, diffs[1..];
      var t' := TrackerOnDiff(t, span).0;
      BufferStep(t, span);
      FeedFirst(t, diffs);
      NewestFits(t'.pending, t.pending + [span], t.maximum);
      NewestAreKept(t', rest);
      var r := TrackerRun(t', Feed(rest)).pending;
      NewestOfNewest(r, t'.pending, t.pending + [span], Spans(rest), t.maximum);
      Regroup(t.pending, [span], Spans(rest));
    }
  }

  lemma Regroup<T>(a: seq<T>, b: seq<T>, c: seq<T>)
    ensures a + (b + c) == a + b + c
  {
  }

  lemma NothingFed(t: Tracker, diffs: seq<DepthDiff>)
    requires diffs == [] && |t.pending| <= t.maximum
    ensures TrackerRun(t, Feed(diffs)) == t && NewestOf(t.pending, t.pending + Spans(diffs), t.maximum)
  {
    assert t.pending + Spans(diffs) == t.pending;
    assert Feed(diffs) == [];
  }

  lemma NewestFits(kept: seq<UpdateSpan>, heard: seq<UpdateSpan>, maximum: nat)
    requires NewestOf(kept, heard, maximum)
    ensures |kept| <= maximum
  {
  }
}
