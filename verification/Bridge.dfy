/** The exchange's snapshot bridge rule and the collector's per-symbol tracker (orderbook/bridge.py). */
module Bridge {
  import opened Wrappers
  import opened Sorting

  datatype UpdateSpan = UpdateSpan(receiveSeq: int, first: int, final: int, previous: int)
  {
    /** The span covers a snapshot id: U <= lastUpdateId <= u. */
    predicate Covers(lastUpdateId: int) {
      first <= lastUpdateId <= final
    }
  }

  datatype BridgeStatus = WaitingForEvents | StaleSnapshot | Bridged | Contiguous | SequenceGap

  datatype BridgeResult = BridgeResult(
    status: BridgeStatus,
    bridgeIndex: Option<nat>,
    discardCount: nat,
    expectedPrevious: Option<int>,
    receivedPrevious: Option<int>)

  predicate SequenceContinues(expectedPrevious: int, receivedPrevious: int) {
    receivedPrevious == expectedPrevious
  }

  /** Number of leading spans that end before the snapshot id. */
  function DiscardCount(lastUpdateId: int, spans: seq<UpdateSpan>): (k: nat)
    ensures k <= |spans|
    ensures forall i :: 0 <= i < k ==> spans[i].final < lastUpdateId
    ensures k < |spans| ==> lastUpdateId <= spans[k].final
  {
    if spans == [] || lastUpdateId <= spans[0].final then 0 else 1 + DiscardCount(lastUpdateId, spans[1..])
  }

  /** Plain results carry only a status and a discard count. */
  function Outcome(status: BridgeStatus, discardCount: nat): BridgeResult {
    BridgeResult(status, None, discardCount, None, None)
  }

  function LocateSnapshotBridge(lastUpdateId: int, spans: seq<UpdateSpan>): BridgeResult {
    var k := DiscardCount(lastUpdateId, spans);
    if k == |spans| then
      Outcome(WaitingForEvents, k)
    else if spans[k].first > lastUpdateId then
      Outcome(StaleSnapshot, k)
    else
      BridgeResult(Bridged, Some(k), k, None, None)
  }

  /**
   * The exchange's documented rule, stated without the search: k is the bridge when every
   * earlier event ends before the snapshot id and event k is the first that does not, and covers it.
   */
  ghost predicate OfficialBridge(lastUpdateId: int, spans: seq<UpdateSpan>, k: nat) {
    && k < |spans|
    && (forall i :: 0 <= i < k ==> spans[i].final < lastUpdateId)
    && spans[k].Covers(lastUpdateId)
  }

  lemma LocateMeetsOfficialRule(lastUpdateId: int, spans: seq<UpdateSpan>)
    ensures var r := LocateSnapshotBridge(lastUpdateId, spans);
            && (r.status.Bridged? <==> exists k: nat :: OfficialBridge(lastUpdateId, spans, k))
            && (r.status.Bridged? ==> r.bridgeIndex == Some(r.discardCount) && OfficialBridge(lastUpdateId, spans, r.discardCount))
            && (r.status.WaitingForEvents? <==> forall i :: 0 <= i < |spans| ==> spans[i].final < lastUpdateId)
            && (r.status.StaleSnapshot? <==>
                 exists k :: 0 <= k < |spans|
                   && (forall i :: 0 <= i < k ==> spans[i].final < lastUpdateId)
                   && lastUpdateId <= spans[k].final && lastUpdateId < spans[k].first)
  {
    var r := LocateSnapshotBridge(lastUpdateId, spans);
    var c := DiscardCount(lastUpdateId, spans);
    if k: nat :| OfficialBridge(lastUpdateId, spans, k) {
      assert c <= k;
      assert k <= c;
    }
    if r.status.Bridged? {
      assert OfficialBridge(lastUpdateId, spans, c);
    }
  }

  /** Index of the first span that does not continue its predecessor; the length when all do. */
  function ChainBreak(spans: seq<UpdateSpan>): (k: nat)
    requires spans != []
    ensures 1 <= k <= |spans|
    ensures forall i :: 1 <= i < k ==> SequenceContinues(spans[i - 1].final, spans[i].previous)
    ensures k < |spans| ==> !SequenceContinues(spans[k - 1].final, spans[k].previous)
  {
    if |spans| == 1 then 1
    else if !SequenceContinues(spans[0].final, spans[1].previous) then 1
    else
      var rest := spans[1..];
      assert forall i :: 1 <= i < |spans| ==> spans[i] == rest[i - 1];
      1 + ChainBreak(rest)
  }

  /** The scan for a pu discontinuity in a buffered chain. */
  method FirstDiscontinuity(spans: seq<UpdateSpan>) returns (k: nat)
    requires spans != []
    ensures k == ChainBreak(spans)
  {
    var previous := spans[0].final;
    k := 1;
    while k < |spans|
      invariant 1 <= k <= |spans|
      invariant previous == spans[k - 1].final
      invariant k <= ChainBreak(spans)
    {
      if !SequenceContinues(previous, spans[k].previous) {
        return;
      }
      previous := spans[k].final;
      k := k + 1;
    }
  }

  predicate BySequence(a: UpdateSpan, b: UpdateSpan) {
    a.receiveSeq <= b.receiveSeq
  }

  /** The tracker's value: what the fields of a SnapshotBridgeTracker hold. */
  datatype Tracker = Tracker(maximum: nat, pending: seq<UpdateSpan>, snapshotId: Option<int>, previousId: Option<int>)
  {
    predicate IsBridged() { previousId.Some? }
  }

  function EvaluateSnapshot(t: Tracker): (r: (Tracker, BridgeResult)) {
    match t.snapshotId
    case None => (t, Outcome(WaitingForEvents, 0))
    case Some(id) => EvaluateSorted(t, id, StableSort(t.pending, BySequence))
  }

  function EvaluateSorted(t: Tracker, id: int, sorted: seq<UpdateSpan>): (r: (Tracker, BridgeResult)) {
    var decision := LocateSnapshotBridge(id, sorted);
    var kept := sorted[decision.discardCount..];
    if decision.status.WaitingForEvents? then
      (t.(pending := kept), decision)
    else if decision.status.StaleSnapshot? then
      (t.(pending := kept, snapshotId := None), decision)
    else
      var k := ChainBreak(kept);
      if k < |kept| then
        (t.(pending := kept[k..], snapshotId := None),
         BridgeResult(SequenceGap, Some(0), 0, Some(kept[k - 1].final), Some(kept[k].previous)))
      else
        (t.(pending := [], snapshotId := None, previousId := Some(kept[|kept| - 1].final)),
         BridgeResult(Bridged, Some(0), 0, None, None))
  }

  /** The newest spans that fit the buffer. */
  function Capped(spans: seq<UpdateSpan>, maximum: nat): seq<UpdateSpan> {
    if |spans| > maximum then spans[|spans| - maximum..] else spans
  }

  function TrackerOnSnapshot(t: Tracker, lastUpdateId: int): (Tracker, BridgeResult) {
    EvaluateSnapshot(t.(snapshotId := Some(lastUpdateId), previousId := None))
  }

  function TrackerOnDiff(t: Tracker, span: UpdateSpan): (Tracker, BridgeResult) {
    match t.previousId
    case Some(expected) =>
      if !SequenceContinues(expected, span.previous) then
        (t.(previousId := None, snapshotId := None, pending := [span]),
         BridgeResult(SequenceGap, None, 0, Some(expected), Some(span.previous)))
      else
        (t.(previousId := Some(span.final)), Outcome(Contiguous, 0))
    case None =>
      EvaluateSnapshot(t.(pending := Capped(t.pending + [span], t.maximum)))
  }

  class SnapshotBridgeTracker {
    const maximum: nat
    var pending: seq<UpdateSpan>
    var snapshotId: Option<int>
    var previousId: Option<int>

    ghost function Value(): Tracker
      reads this
    {
      Tracker(maximum, pending, snapshotId, previousId)
    }

    constructor (maximum: nat)
      requires 1 <= maximum
      ensures Value() == Tracker(maximum, [], None, None)
    {
      this.maximum := maximum;
      pending := [];
      snapshotId := None;
      previousId := None;
    }

    method OnSnapshot(lastUpdateId: int) returns (result: BridgeResult)
      modifies this
      ensures (Value(), result) == TrackerOnSnapshot(old(Value()), lastUpdateId)
    {
      snapshotId := Some(lastUpdateId);
      previousId := None;
      result := Evaluate();
    }

    method OnDiff(span: UpdateSpan) returns (result: BridgeResult)
      modifies this
      ensures (Value(), result) == TrackerOnDiff(old(Value()), span)
    {
      if previousId.Some? {
        var expected := previousId.value;
        if !SequenceContinues(expected, span.previous) {
          previousId := None;
          snapshotId := None;
          pending := [span];
          return BridgeResult(SequenceGap, None, 0, Some(expected), Some(span.previous));
        }
        previousId := Some(span.final);
        return Outcome(Contiguous, 0);
      }
      pending := pending + [span];
      if |pending| > maximum {
        pending := pending[|pending| - maximum..];
      }
      result := Evaluate();
    }

    method Invalidate()
      modifies this
      ensures Value() == old(Value()).(pending := [], snapshotId := None, previousId := None)
    {
      pending := [];
      snapshotId := None;
      previousId := None;
    }

    method Evaluate() returns (result: BridgeResult)
      modifies this
      ensures (Value(), result) == EvaluateSnapshot(old(Value()))
    {
      hide EvaluateSorted, StableSort;
      if snapshotId.None? {
        return Outcome(WaitingForEvents, 0);
      }
      if |pending| > 1 && !Pairwise(pending, BySequence) {
        pending := StableSort(pending, BySequence);
      }
      assert pending == StableSort(old(pending), BySequence) by {
        if Pairwise(old(pending), BySequence) {
          SortKeepsPairwise(old(pending), BySequence);
        }
      }
      EvaluationIgnoresBuffer(old(Value()), snapshotId.value, pending);
      result := EvaluateOrdered();
    }

    method EvaluateOrdered() returns (result: BridgeResult)
      requires snapshotId.Some?
      modifies this
      ensures (Value(), result) == EvaluateSorted(old(Value()), old(snapshotId).value, old(pending))
    {
      var decision := LocateSnapshotBridge(snapshotId.value, pending);
      pending := pending[decision.discardCount..];
      if decision.status.WaitingForEvents? {
        return decision;
      }
      if decision.status.StaleSnapshot? {
        snapshotId := None;
        return decision;
      }
      var index := FirstDiscontinuity(pending);
      if index < |pending| {
        var expected, received := pending[index - 1].final, pending[index].previous;
        snapshotId := None;
        pending := pending[index..];
        return BridgeResult(SequenceGap, Some(0), 0, Some(expected), Some(received));
      }
      previousId := Some(pending[|pending| - 1].final);
      snapshotId := None;
      pending := [];
      return BridgeResult(Bridged, Some(0), 0, None, None);
    }
  }

  /** The evaluation of a sorted buffer does not look at the tracker's own buffer. */
  lemma {:induction false} EvaluationIgnoresBuffer(t: Tracker, id: int, sorted: seq<UpdateSpan>)
    ensures EvaluateSorted(t, id, sorted) == EvaluateSorted(t.(pending := sorted), id, sorted)
  {
  }
}
