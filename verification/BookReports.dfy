/** What a book reports of its steps, which diffs it ignores, and what its snapshot levels mean (pipeline/l2.py). */
module BookReports {
  import opened Wrappers
  import opened Sorting
  import opened Bridge
  import opened Book

  // ---- Changes -------------------------------------------------------------------------------------

  /** A change names the state it leads to, the update id that state starts from, and its cause. */
  ghost predicate Named(b: BookValue, r: BookValue, c: StateChange) {
    && c.connectionId == b.connectionId && c.state == r.state
    && (c.state.Valid? ==> !b.state.Valid? && c.reason == SnapshotBridge && c.updateId == r.previous)
    && (c.state.Gapped? ==> && |r.pending| == 1 && c.updateId == Some(r.pending[0].span.final) && c.atNs == r.pending[0].receivedNs
                            && c.reason == if b.state.Valid? then PuDiscontinuity else BufferedPuDiscontinuity)
    && !c.state.Unanchored?
  }

  lemma {:induction false} ReplayIsNamed(b: BookValue, anchor: Anchor, chain: seq<DepthDiff>)
    requires chain != [] && !b.state.Valid?
    ensures var (r, change) := ReplayBridge(b, anchor, chain); change.Some? && Named(b, r, change.value)
  {
    ApplyAllFrame(b, chain);
  }

  lemma {:induction false} SearchIsNamed(b: BookValue)
    requires !b.state.Valid?
    ensures var (r, change) := TryBridge(b);
            (change.Some? ==> Named(b, r, change.value)) && (change.None? ==> r.state == b.state)
  {
    hide StableSort, ReplayBridge, Named;
    if b.anchor.Some? {
      var sorted := StableSort(b.pending, ByReceive);
      var kept := sorted[DiscardCount(b.anchor.value.lastUpdateId, Spans(sorted))..];
      if kept != [] {
        ReplayIsNamed(b, b.anchor.value, kept);
      }
    }
  }

  /** Every change of a step is named so, and without one the state stays. */
  lemma {:induction false} ChangesAreNamed(b: BookValue, e: BookEvent)
    requires b.WellFormed()
    ensures var (r, change) := Step(b, e);
            (change.Some? ==> Named(b, r, change.value)) && (change.None? ==> r.state == b.state)
  {
    hide TryBridge;
    match e
    case Diff(d) =>
      if !b.state.Valid? {
        SearchIsNamed(Buffering(b, d));
      }
    case Snapshot(s) =>
      if b.state.Valid? {
        ValidSearchKeeps(Anchoring(b, s));
      } else {
        SearchIsNamed(Anchoring(b, s));
      }
  }

  // ---- Repeats -------------------------------------------------------------------------------------

  lemma {:induction false} SearchKeepsSeen(b: BookValue)
    ensures TryBridge(b).0.seen == b.seen
  {
    hide StableSort;
    if b.anchor.Some? {
      var sorted := StableSort(b.pending, ByReceive);
      var kept := sorted[DiscardCount(b.anchor.value.lastUpdateId, Spans(sorted))..];
      if kept != [] {
        ApplyAllFrame(b, kept);
      }
    }
  }

  /** A step sees no more than its own diff. */
  lemma {:induction false} StepSees(b: BookValue, e: BookEvent)
    requires b.WellFormed()
    ensures Step(b, e).0.seen == if e.Diff? then b.seen + {IdentityOf(e.diff)} else b.seen
  {
    hide TryBridge;
    match e
    case Diff(d) =>
      if !b.state.Valid? {
        SearchKeepsSeen(Buffering(b, d));
      }
    case Snapshot(s) => SearchKeepsSeen(Anchoring(b, s));
  }

  /** The same update: equal ids and an equal payload. */
  predicate SameUpdate(a: DepthDiff, d: DepthDiff) {
    && a.span.first == d.span.first && a.span.final == d.span.final && a.span.previous == d.span.previous
    && a.payloadHash == d.payloadHash
  }

  ghost predicate Repeats(events: seq<BookEvent>, d: DepthDiff) {
    exists i :: 0 <= i < |events| && events[i].Diff? && SameUpdate(events[i].diff, d)
  }

  lemma {:induction false} RunSees(b: BookValue, events: seq<BookEvent>, d: DepthDiff)
    requires b.WellFormed()
    ensures Run(b, events).0.WellFormed()
    ensures IdentityOf(d) in Run(b, events).0.seen <==> IdentityOf(d) in b.seen || Repeats(events, d)
    decreases events
  {
    if events != [] {
      StepKeepsWellFormed(b, events[0]);
      StepSees(b, events[0]);
      RunSees(Step(b, events[0]).0, events[1..], d);
      hide Step, Run, SameUpdate;
      forall i | 0 <= i < |events|
        ensures events[i] == if i == 0 then events[0] else events[1..][i - 1]
      {
      }
      if Repeats(events[1..], d) {
        var i :| 0 <= i < |events[1..]| && events[1..][i].Diff? && SameUpdate(events[1..][i].diff, d);
        assert events[i + 1] == events[1..][i];
      }
      assert events[0].Diff? ==> (IdentityOf(events[0].diff) == IdentityOf(d) <==> SameUpdate(events[0].diff, d)) by {
        SameIdentity(events[0], d);
      }
    }
  }

  lemma SameIdentity(e: BookEvent, d: DepthDiff)
    ensures e.Diff? ==> (IdentityOf(e.diff) == IdentityOf(d) <==> SameUpdate(e.diff, d))
  {
  }

  /** A diff leaves the book as it is, without a change, exactly when the connection has sent the same update before. */
  lemma {:induction false} RepeatsAreIgnoredExactly(connectionId: string, events: seq<BookEvent>, d: DepthDiff)
    ensures var b := Run(FreshBook(connectionId), events).0;
            b.WellFormed() && (Step(b, BookEvent.Diff(d)) == (b, None) <==> Repeats(events, d))
  {
    var start := FreshBook(connectionId);
    RunSees(start, events, d);
    StepSees(Run(start, events).0, BookEvent.Diff(d));
    hide Run, TryBridge, Repeats;
  }

  // ---- Snapshot levels -----------------------------------------------------------------------------

  /** In a snapshot a zero level is skipped, so the last level of a price that is not zero decides. */
  lemma {:induction false} LastNonZeroLevelDecides(levels: seq<Level>, price: Price, last: int)
    requires -1 <= last < |levels|
    requires last >= 0 ==> levels[last].price == price && !IsZero(levels[last].quantity)
    requires forall j :: last < j < |levels| ==> levels[j].price != price || IsZero(levels[j].quantity)
    ensures price in BookSide(levels) <==> last >= 0
    ensures last >= 0 ==> BookSide(levels)[price] == levels[last].quantity
  {
    hide IsZero;
    var n := |levels| - 1;
    if last < n {
      LastNonZeroLevelDecides(levels[..n], price, last);
      assert levels[n].price != price || IsZero(levels[n].quantity);
    }
  }
}
