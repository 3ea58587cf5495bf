/**
 * The shortcut of ConnectionBook.on_diff is invisible exactly while each snapshot is beyond what its predecessor let the
 * book discard (pipeline/l2.py).
 */
module ShortcutLimits {
  import opened Wrappers
  import opened Sorting
  import opened Bridge
  import opened Book
  import opened Shortcut

  /** U <= u, as the exchange sends it. */
  predicate Forward(diffs: seq<DepthDiff>) {
    forall i :: 0 <= i < |diffs| ==> diffs[i].span.first <= diffs[i].span.final
  }

  /** Diffs in receive order with U <= u, and any snapshots. */
  predicate Exchanged(events: seq<BookEvent>, lastSeq: int)
    decreases events
  {
    events == [] ||
    (&& (events[0].Diff? ==> lastSeq <= events[0].diff.span.receiveSeq && events[0].diff.span.first <= events[0].diff.span.final)
     && Exchanged(events[1..], SeqAfter(events[0], lastSeq)))
  }

  /** On every steady run from here the lazy and the eager book emit the same changes. */
  ghost predicate Indistinct(l: BookValue, e: BookValue, lastSeq: int)
    requires l.WellFormed() && e.WellFormed()
  {
    forall rest :: Steady(l, rest, lastSeq) ==> Run(l, rest).1 == EagerRun(e, rest).1
  }

  /** Along a run the two emit the same changes, and after each event nothing tells them apart. */
  ghost predicate Together(l: BookValue, e: BookValue, events: seq<BookEvent>, lastSeq: int)
    requires l.WellFormed() && e.WellFormed()
    decreases events
  {
    && Indistinct(l, e, lastSeq)
    && (events != [] ==>
          (StepKeepsWellFormed(l, events[0]);
           && Step(l, events[0]).1 == EagerStep(e, events[0]).1
           && Together(Step(l, events[0]).0, EagerStep(e, events[0]).0, events[1..], SeqAfter(events[0], lastSeq))))
  }

  // ---- A snapshot at or before what is discarded ---------------------------------------------------------

  /** No snapshot up to a bound is bridged by the buffer, now or after another such snapshot. */
  ghost predicate Blocked(b: BookValue, bound: int) {
    && !b.state.Valid? && Ordered(b.pending, ByReceive)
    && (b.pending != [] ==> bound < b.pending[0].span.first && bound <= b.pending[0].span.final)
  }

  lemma {:induction false} BlockedStays(b: BookValue, bound: int, s: DepthSnapshot)
    requires Blocked(b, bound) && s.lastUpdateId <= bound
    ensures OnSnapshot(b, s).1 == None && Blocked(OnSnapshot(b, s).0, bound)
  {
    hide TryBridge, ReplayBridge;
    var anchored := Anchoring(b, s);
    SearchCases(anchored);
    assert b.pending[0..] == b.pending;
  }

  /** What the eager book holds has nothing up to the old anchor. */
  lemma {:induction false} EagerIsBlocked(l: BookValue)
    requires Unbridgeable(l) && Ordered(l.pending, ByReceive)
    ensures Blocked(TryBridge(l).0, l.anchor.value.lastUpdateId)
  {
    hide TryBridge, ReplayBridge;
    SearchCases(l);
    var k := Cut(l);
    if k < |l.pending| {
      assert l.pending[k..][0] == l.pending[k];
    }
  }

  /** The first buffered diff that such a snapshot keeps was discarded before. */
  lemma {:induction false} FirstKept(l: BookValue, s: DepthSnapshot)
    requires Forward(l.pending) && !Frees(l, s)
    ensures var j := Cut(Anchoring(l, s));
            && l.Anchored() && j < |l.pending| && s.lastUpdateId <= l.pending[j].span.final < l.anchor.value.lastUpdateId
            && l.pending[j].span.first <= l.pending[j].span.final && l.pending[j..][0] == l.pending[j]
  {
    var i :| 0 <= i < Cut(l) && s.lastUpdateId <= l.pending[i].span.final;
    assert Cut(Anchoring(l, s)) <= i;
  }

  /** The lazy book's search under a snapshot that does not free what is discarded: a change, or stale in front of a diff. */
  lemma {:induction false} LazySearch(l: BookValue, s: DepthSnapshot)
    requires l.Anchored() && Ordered(l.pending, ByReceive) && Forward(l.pending) && !Frees(l, s)
    ensures var r := OnSnapshot(l, s);
            || r.1.Some?
            || (&& r.1 == None && !r.0.state.Valid? && r.0.anchor.None? && r.0.pending != [] && Ordered(r.0.pending, ByReceive)
                && r.0.pending[0].span.first <= r.0.pending[0].span.final < l.anchor.value.lastUpdateId)
  {
    hide TryBridge, ReplayBridge, Cut, Frees, Forward;
    var anchored := Anchoring(l, s);
    FirstKept(l, s);
    SearchCases(anchored);
    var j := Cut(anchored);
    if l.pending[j].span.Covers(s.lastUpdateId) {
      ReplayChanges(anchored, anchored.anchor.value, l.pending[j..]);
    }
  }

  lemma ReplayChanges(b: BookValue, anchor: Anchor, chain: seq<DepthDiff>)
    requires chain != []
    ensures ReplayBridge(b, anchor, chain).1.Some?
  {
  }

  lemma {:induction false} HeadBridges(b: BookValue, s: DepthSnapshot)
    requires !b.state.Valid? && b.pending != [] && Ordered(b.pending, ByReceive) && b.pending[0].span.Covers(s.lastUpdateId)
    ensures OnSnapshot(b, s).1.Some?
  {
    hide TryBridge, ReplayBridge;
    var anchored := Anchoring(b, s);
    SearchCases(anchored);
    assert b.pending[0..] == b.pending;
    ReplayChanges(anchored, anchored.anchor.value, b.pending);
  }

  lemma RunOne(b: BookValue, s: DepthSnapshot)
    requires b.WellFormed()
    ensures Run(b, [Snapshot(s)]).1 == if OnSnapshot(b, s).1.Some? then [OnSnapshot(b, s).1.value] else []
    ensures EagerRun(b, [Snapshot(s)]).1 == Run(b, [Snapshot(s)]).1
  {
    hide OnSnapshot;
    var events := [Snapshot(s)];
    assert events[1..] == [];
    StepKeepsWellFormed(b, events[0]);
    assert Run(Step(b, events[0]).0, events[1..]).1 == [];
    assert EagerRun(Step(b, events[0]).0, events[1..]).1 == [];
  }

  lemma {:induction false} UnfreedIsEarlier(l: BookValue, s: DepthSnapshot)
    requires !Frees(l, s)
    ensures l.Anchored() && s.lastUpdateId < l.anchor.value.lastUpdateId
  {
    var i :| 0 <= i < Cut(l) && s.lastUpdateId <= l.pending[i].span.final;
  }

  lemma {:induction false} NextSnapshotTells(l: BookValue, e: BookValue, bound: int, lastSeq: int)
    requires l.WellFormed() && e.WellFormed() && Blocked(e, bound)
    requires !l.state.Valid? && l.anchor.None? && l.pending != [] && Ordered(l.pending, ByReceive)
    requires l.pending[0].span.first <= l.pending[0].span.final < bound
    ensures !Indistinct(l, e, lastSeq)
  {
    hide OnSnapshot, Blocked, Run, EagerRun, Steady;
    var next := DepthSnapshot(0, l.pending[0].span.final, [], []);
    HeadBridges(l, next);
    BlockedStays(e, bound, next);
    RunOne(l, next);
    RunOne(e, next);
    OneSnapshotIsSteady(l, next, lastSeq);
    assert Run(l, [Snapshot(next)]).1 != EagerRun(e, [Snapshot(next)]).1;
  }

  /** Where such a snapshot leaves the two: their changes differ, or the next snapshot can tell them apart. */
  lemma {:induction false} UnfreedIsSeen(l: BookValue, e: BookValue, s: DepthSnapshot, lastSeq: int)
    requires l.WellFormed() && e.WellFormed() && Related(l, e) && Ordered(l.pending, ByReceive) && Forward(l.pending) && !Frees(l, s)
    ensures OnSnapshot(l, s).0.WellFormed() && OnSnapshot(e, s).0.WellFormed()
    ensures OnSnapshot(l, s).1 != OnSnapshot(e, s).1 || !Indistinct(OnSnapshot(l, s).0, OnSnapshot(e, s).0, lastSeq)
  {
    hide OnSnapshot, TryBridge, Frees, Cut, Blocked, Indistinct;
    StepKeepsWellFormed(l, Snapshot(s));
    StepKeepsWellFormed(e, Snapshot(s));
    UnfreedIsEarlier(l, s);
    var bound := l.anchor.value.lastUpdateId;
    EagerIsBlocked(l);
    BlockedStays(e, bound, s);
    LazySearch(l, s);
    if OnSnapshot(l, s).1.None? {
      NextSnapshotTells(OnSnapshot(l, s).0, OnSnapshot(e, s).0, bound, lastSeq);
    }
  }

  lemma OneSnapshotIsSteady(b: BookValue, s: DepthSnapshot, lastSeq: int)
    requires b.WellFormed() && b.anchor.None?
    ensures Steady(b, [Snapshot(s)], lastSeq)
  {
    hide OnSnapshot;
    var events := [Snapshot(s)];
    assert events[1..] == [];
    StepKeepsWellFormed(b, events[0]);
    assert Steady(Step(b, events[0]).0, events[1..], lastSeq);
  }

  lemma RunFirst(b: BookValue, event: BookEvent, rest: seq<BookEvent>)
    requires b.WellFormed()
    ensures Step(b, event).0.WellFormed()
    ensures Run(b, [event] + rest).1 == (if Step(b, event).1.Some? then [Step(b, event).1.value] else []) + Run(Step(b, event).0, rest).1
    ensures EagerRun(b, [event] + rest).1
            == (if EagerStep(b, event).1.Some? then [EagerStep(b, event).1.value] else []) + EagerRun(EagerStep(b, event).0, rest).1
  {
    hide Step, EagerStep;
    StepKeepsWellFormed(b, event);
    assert ([event] + rest)[1..] == rest;
  }

  /** A snapshot is beyond what is discarded if and only if on every steady continuation the two emit the same changes. */
  lemma {:induction false} FreesExactly(l: BookValue, e: BookValue, s: DepthSnapshot, lastSeq: int)
    requires l.WellFormed() && e.WellFormed() && Related(l, e) && Received(l, lastSeq) && Forward(l.pending)
    ensures Step(l, Snapshot(s)).0.WellFormed()
    ensures Frees(l, s) <==>
            forall rest :: Steady(Step(l, Snapshot(s)).0, rest, lastSeq) ==>
              Run(l, [Snapshot(s)] + rest).1 == EagerRun(e, [Snapshot(s)] + rest).1
  {
    hide OnSnapshot, Related, Frees, Run, EagerRun, Steady;
    StepKeepsWellFormed(l, Snapshot(s));
    StepKeepsWellFormed(e, Snapshot(s));
    var l1, e1 := Step(l, Snapshot(s)).0, EagerStep(e, Snapshot(s)).0;
    if Frees(l, s) {
      SteadyStepRefines(l, e, Snapshot(s), lastSeq);
      StepKeepsReceived(l, Snapshot(s), lastSeq);
      forall rest | Steady(l1, rest, lastSeq)
        ensures Run(l, [Snapshot(s)] + rest).1 == EagerRun(e, [Snapshot(s)] + rest).1
      {
        RunFirst(l, Snapshot(s), rest);
        RunFirst(e, Snapshot(s), rest);
        ShortcutRefines(l1, e1, rest, lastSeq);
      }
    } else {
      UnfreedIsSeen(l, e, s, lastSeq);
      if OnSnapshot(l, s).1 != OnSnapshot(e, s).1 {
        NothingIsSteady(l1, e1, lastSeq);
        RunFirst(l, Snapshot(s), []);
        RunFirst(e, Snapshot(s), []);
        DifferentChanges(OnSnapshot(l, s).1, OnSnapshot(e, s).1);
        assert Run(l, [Snapshot(s)] + []).1 != EagerRun(e, [Snapshot(s)] + []).1;
      } else {
        var rest :| Steady(l1, rest, lastSeq) && Run(l1, rest).1 != EagerRun(e1, rest).1;
        RunFirst(l, Snapshot(s), rest);
        RunFirst(e, Snapshot(s), rest);
        SameHead(if OnSnapshot(l, s).1.Some? then [OnSnapshot(l, s).1.value] else [], Run(l1, rest).1, EagerRun(e1, rest).1);
      }
    }
  }

  lemma DifferentChanges(a: Option<StateChange>, b: Option<StateChange>)
    ensures a != b ==> (if a.Some? then [a.value] else []) + [] != (if b.Some? then [b.value] else []) + []
  {
    if a.Some? && b.Some? {
      assert ([a.value] + [])[0] == a.value && ([b.value] + [])[0] == b.value;
    }
  }

  lemma NothingIsSteady(l: BookValue, e: BookValue, lastSeq: int)
    requires l.WellFormed() && e.WellFormed()
    ensures Steady(l, [], lastSeq) && Run(l, []).1 == [] && EagerRun(e, []).1 == []
  {
  }

  lemma SameHead(head: seq<StateChange>, a: seq<StateChange>, b: seq<StateChange>)
    ensures head + a == head + b ==> a == b
  {
    assert (head + a)[|head|..] == a && (head + b)[|head|..] == b;
  }

  // ---- The theorem -----------------------------------------------------------------------------------------

  lemma {:induction false} LeftForward(left: seq<DepthDiff>, pending: seq<DepthDiff>)
    requires LeftBy(left, pending) && Forward(pending)
    ensures Forward(left)
  {
  }

  lemma {:induction false} StepKeepsForward(b: BookValue, event: BookEvent)
    requires b.WellFormed() && Ordered(b.pending, ByReceive) && Forward(b.pending)
    requires event.Diff? ==> event.diff.span.first <= event.diff.span.final
    requires event.Diff? ==> Ordered(b.pending + [event.diff], ByReceive)
    ensures Forward(Step(b, event).0.pending)
  {
    hide TryBridge;
    match event
    case Diff(d) =>
      if IdentityOf(d) !in b.seen && !b.state.Valid? {
        TryBridgeBuffer(Buffering(b, d));
        LeftForward(TryBridge(Buffering(b, d)).0.pending, Buffering(b, d).pending);
      }
    case Snapshot(s) =>
      TryBridgeBuffer(Anchoring(b, s));
      LeftForward(TryBridge(Anchoring(b, s)).0.pending, b.pending);
  }

  /**
   * Main result: along a run of diffs in receive order, the lazy and the eager book emit the same changes and stay
   * indistinguishable if and only if each snapshot is beyond what its predecessor let the book discard.
   */
  lemma {:induction false} InvisibleExactly(l: BookValue, e: BookValue, events: seq<BookEvent>, lastSeq: int)
    requires l.WellFormed() && e.WellFormed() && Related(l, e) && Received(l, lastSeq) && Forward(l.pending)
    requires Exchanged(events, lastSeq)
    ensures Steady(l, events, lastSeq) <==> Together(l, e, events, lastSeq)
    decreases events
  {
    hide OnDiff, OnSnapshot, EagerOnDiff, Related, Frees, TryBridge;
    forall rest | Steady(l, rest, lastSeq)
      ensures Run(l, rest).1 == EagerRun(e, rest).1
    {
      ShortcutRefines(l, e, rest, lastSeq);
    }
    assert Indistinct(l, e, lastSeq);
    if events != [] {
      var event := events[0];
      StepKeepsWellFormed(l, event);
      if event.Snapshot? && !Frees(l, event.snapshot) {
        UnfreedIsSeen(l, e, event.snapshot, lastSeq);
        assert !Together(l, e, events, lastSeq);
      } else {
        SteadyStepRefines(l, e, event, lastSeq);
        StepKeepsReceived(l, event, lastSeq);
        StepKeepsForward(l, event);
        hide Indistinct;
        InvisibleExactly(Step(l, event).0, EagerStep(e, event).0, events[1..], SeqAfter(event, lastSeq));
      }
    }
  }

  /** The same from a fresh book. */
  lemma InvisibleExactlyFromStart(connectionId: string, events: seq<BookEvent>, lastSeq: int)
    requires Exchanged(events, lastSeq)
    ensures Steady(FreshBook(connectionId), events, lastSeq) <==> Together(FreshBook(connectionId), FreshBook(connectionId), events, lastSeq)
  {
    InvisibleExactly(FreshBook(connectionId), FreshBook(connectionId), events, lastSeq);
  }
}
