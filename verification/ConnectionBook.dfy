/** The mutable connection book; every method is proved against the value functions of module Book. */
module ConnectionBooks {
  import opened Common
  import opened Wrappers
  import opened Sorting
  import opened Bridge
  import opened Book
  import opened Checkpoint

  method SideOf(levels: seq<Level>) returns (side: Side)
    ensures side == BookSide(levels)
  {
    side := map[];
    var i := 0;
    while i < |levels|
      invariant 0 <= i <= |levels|
      invariant side == BookSide(levels[..i])
    {
      if !IsZero(levels[i].quantity) {
        side := side[levels[i].price := levels[i].quantity];
      }
      assert levels[..i + 1][..i] == levels[..i];
      i := i + 1;
    }
    assert levels[..i] == levels;
  }

  method UpdatedSide(side: Side, levels: seq<Level>) returns (updated: Side)
    ensures updated == ApplyLevels(side, levels)
  {
    updated := side;
    var i := 0;
    while i < |levels|
      invariant 0 <= i <= |levels|
      invariant updated == ApplyLevels(side, levels[..i])
    {
      if IsZero(levels[i].quantity) {
        updated := updated - {levels[i].price};
      } else {
        updated := updated[levels[i].price := levels[i].quantity];
      }
      assert levels[..i + 1][..i] == levels[..i];
      i := i + 1;
    }
    assert levels[..i] == levels;
  }

  class ConnectionBook {
    const connectionId: string
    var state: L2State
    var bids: Side
    var asks: Side
    var previousUpdateId: Option<int>
    var pending: seq<DepthDiff>
    var seenDiffs: set<Identity>
    var anchorLastUpdateId: Option<int>
    var anchorReceivedNs: Option<int>

    /** Both anchor fields are set or neither is, and a VALID book is well formed. */
    ghost predicate Invariant()
      reads this
    {
      && (anchorLastUpdateId.Some? <==> anchorReceivedNs.Some?)
      && Value().WellFormed()
    }

    ghost function Value(): BookValue
      reads this
    {
      BookValue(connectionId, state, bids, asks, previousUpdateId, pending, seenDiffs,
                if anchorLastUpdateId.Some? && anchorReceivedNs.Some?
                then Some(Anchor(anchorLastUpdateId.value, anchorReceivedNs.value))
                else None)
    }

    constructor (connectionId: string)
      ensures Invariant() && Value() == FreshBook(connectionId)
    {
      this.connectionId := connectionId;
      state, bids, asks, previousUpdateId := Unanchored, map[], map[], None;
      pending, seenDiffs := [], {};
      anchorLastUpdateId, anchorReceivedNs := None, None;
    }

    constructor FromCheckpoint(c: ValidCheckpoint)
      ensures Invariant() && Value() == RestoreValid(c)
    {
      var b := SideOf(c.bids);
      var a := SideOf(c.asks);
      connectionId := c.connectionId;
      state, bids, asks, previousUpdateId := Valid, b, a, Some(c.previousUpdateId);
      pending, seenDiffs := [], {};
      anchorLastUpdateId, anchorReceivedNs := None, None;
    }

    constructor FromAnchorCheckpoint(c: AnchoredCheckpoint)
      requires !c.state.Valid?
      ensures Invariant() && Value() == RestoreAnchored(c)
    {
      var b := SideOf(c.bids);
      var a := SideOf(c.asks);
      connectionId := c.connectionId;
      state, bids, asks, previousUpdateId := c.state, b, a, Some(c.previousUpdateId);
      pending, seenDiffs := c.pending, {};
      anchorLastUpdateId, anchorReceivedNs := Some(c.anchor.lastUpdateId), Some(c.anchor.receivedNs);
    }

    method OnDiff(diff: DepthDiff) returns (change: Option<StateChange>)
      requires Invariant()
      modifies this
      ensures Invariant()
      ensures (Value(), change) == Book.OnDiff(old(Value()), diff)
    {
      StepKeepsWellFormed(Value(), BookEvent.Diff(diff));
      var identity := IdentityOf(diff);
      if identity in seenDiffs {
        return None;
      }
      seenDiffs := seenDiffs + {identity};
      if !state.Valid? {
        pending := pending + [diff];
        if anchorLastUpdateId.Some? && !diff.span.Covers(anchorLastUpdateId.value) {
          return None;
        }
        change := TryBridge();
        return;
      }
      var expectedPrevious := previousUpdateId.value;
      if !SequenceContinues(expectedPrevious, diff.span.previous) {
        Invalidate();
        pending := [diff];
        return Some(StateChange(connectionId, diff.receivedNs, Gapped, Some(diff.span.final), PuDiscontinuity));
      }
      ApplyDiff(diff);
      return None;
    }

    method Invalidate()
      modifies this
      ensures Invariant()
      ensures Value() == Invalidated(old(Value()))
    {
      state := Gapped;
      bids, asks := map[], map[];
      previousUpdateId := None;
      pending := [];
      anchorLastUpdateId, anchorReceivedNs := None, None;
    }

    method OnSnapshot(snapshot: DepthSnapshot) returns (change: Option<StateChange>)
      requires Invariant()
      modifies this
      ensures Invariant()
      ensures (Value(), change) == Book.OnSnapshot(old(Value()), snapshot)
    {
      bids := SideOf(snapshot.bids);
      asks := SideOf(snapshot.asks);
      previousUpdateId := Some(snapshot.lastUpdateId);
      anchorLastUpdateId := Some(snapshot.lastUpdateId);
      anchorReceivedNs := Some(snapshot.receivedNs);
      assert Value() == Anchoring(old(Value()), snapshot);
      change := TryBridge();
    }

    method TryBridge() returns (change: Option<StateChange>)
      requires Invariant()
      modifies this
      ensures Invariant()
      ensures (Value(), change) == Book.TryBridge(old(Value()))
    {
      hide TryBridgeSorted, StableSort;
      if anchorLastUpdateId.None? || anchorReceivedNs.None? {
        return None;
      }
      var candidates := pending;
      if !Pairwise(candidates, ByReceive) {
        candidates := StableSort(candidates, ByReceive);
      } else {
        SortKeepsPairwise(candidates, ByReceive);
      }
      TryBridgeWellFormed(Value());
      change := BridgeOver(candidates);
    }

    /** The search over candidates in receive order. */
    method BridgeOver(candidates: seq<DepthDiff>) returns (change: Option<StateChange>)
      requires Invariant() && anchorLastUpdateId.Some?
      requires TryBridgeSorted(Value(), Value().anchor.value, candidates).0.WellFormed()
      modifies this
      ensures Invariant()
      ensures (Value(), change) == TryBridgeSorted(old(Value()), old(Value()).anchor.value, candidates)
    {
      hide ReplayBridge;
      var decision := LocateSnapshotBridge(anchorLastUpdateId.value, Spans(candidates));
      var kept := candidates[decision.discardCount..];
      if decision.status.WaitingForEvents? {
        pending := kept;
        return None;
      }
      if decision.status.StaleSnapshot? {
        bids, asks := map[], map[];
        previousUpdateId := None;
        anchorLastUpdateId, anchorReceivedNs := None, None;
        pending := kept;
        return None;
      }
      change := Replay(kept);
    }

    /** The bridging diff is applied, then each buffered diff that continues the sequence. */
    method Replay(candidates: seq<DepthDiff>) returns (change: Option<StateChange>)
      requires Invariant() && candidates != []
      requires anchorReceivedNs.Some?
      modifies this
      ensures Invariant()
      ensures (Value(), change) == ReplayBridge(old(Value()), old(Value()).anchor.value, candidates)
    {
      ghost var before := Value();
      var bridge := candidates[0];
      var k := ApplyContinuous(candidates);
      ApplyAllFrame(before, candidates[..k]);
      if k < |candidates| {
        var diff := candidates[k];
        Invalidate();
        pending := [diff];
        return Some(StateChange(connectionId, diff.receivedNs, Gapped, Some(diff.span.final), BufferedPuDiscontinuity));
      }
      assert candidates[..k] == candidates;
      pending := [];
      state := Valid;
      var validAt := Max(anchorReceivedNs.value, bridge.receivedNs);
      anchorLastUpdateId, anchorReceivedNs := None, None;
      return Some(StateChange(connectionId, validAt, Valid, previousUpdateId, SnapshotBridge));
    }

    /** Applies diffs up to the first one whose pu is not the id just reached. */
    method ApplyContinuous(candidates: seq<DepthDiff>) returns (k: nat)
      requires candidates != []
      modifies this`bids, this`asks, this`previousUpdateId
      ensures k == ChainBreak(Spans(candidates))
      ensures Value() == ApplyAll(old(Value()), candidates[..k])
    {
      ghost var before := Value();
      ApplyDiff(candidates[0]);
      assert candidates[..1][..0] == [];
      k := 1;
      while k < |candidates|
        invariant 1 <= k <= |candidates|
        invariant Value() == ApplyAll(before, candidates[..k])
        invariant previousUpdateId == Some(candidates[k - 1].span.final)
        invariant k <= ChainBreak(Spans(candidates))
      {
        if !SequenceContinues(previousUpdateId.value, candidates[k].span.previous) {
          return;
        }
        ApplyDiff(candidates[k]);
        assert candidates[..k + 1][..k] == candidates[..k];
        k := k + 1;
      }
    }

    method ApplyDiff(diff: DepthDiff)
      modifies this`bids, this`asks, this`previousUpdateId
      ensures Value() == Apply(old(Value()), diff)
    {
      bids := UpdatedSide(bids, diff.bids);
      asks := UpdatedSide(asks, diff.asks);
      previousUpdateId := Some(diff.span.final);
    }
  }
}
