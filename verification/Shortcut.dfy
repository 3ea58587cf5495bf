/**
 * ConnectionBook.on_diff skips the bridge search for a diff that does not cover the anchor.
 * On diffs in receive order, when each snapshot's id is beyond what its predecessor let the book discard, this shortcut
 * changes nothing that a reader of the book's state changes can see; non-decreasing snapshot ids are enough.
 */
module Shortcut {
  import opened Wrappers
  import opened Sorting
  import opened Bridge
  import opened Book

  /** on_diff without the shortcut: an unbridged book always searches for its bridge. */
  function EagerOnDiff(b: BookValue, d: DepthDiff): (BookValue, Option<StateChange>)
    requires b.WellFormed()
  {
    if b.state.Valid? || IdentityOf(d) in b.seen then OnDiff(b, d) else TryBridge(Buffering(b, d))
  }

  function EagerStep(b: BookValue, e: BookEvent): (r: (BookValue, Option<StateChange>))
    requires b.WellFormed()
    ensures r.0.WellFormed()
  {
    StepKeepsWellFormed(b, e);
    match e
    case Diff(d) =>
      if !b.state.Valid? then TryBridgeWellFormed(Buffering(b, d)); EagerOnDiff(b, d) else EagerOnDiff(b, d)
    case Snapshot(s) => OnSnapshot(b, s)
  }

  function EagerRun(b: BookValue, events: seq<BookEvent>): (BookValue, seq<StateChange>)
    requires b.WellFormed()
    decreases events
  {
    if events == [] then
      (b, [])
    else
      var (b1, change) := EagerStep(b, events[0]);
      var (b2, changes) := EagerRun(b1, events[1..]);
      (b2, (if change.Some? then [change.value] else []) + changes)
  }

  /** Diffs arrive in receive order and snapshot ids never go back. */
  predicate InOrder(events: seq<BookEvent>, lastSeq: int, lastId: int)
    decreases events
  {
    events == [] ||
    match events[0]
    case Diff(d) => lastSeq <= d.span.receiveSeq && InOrder(events[1..], d.span.receiveSeq, lastId)
    case Snapshot(s) => lastId <= s.lastUpdateId && InOrder(events[1..], lastSeq, s.lastUpdateId)
  }

  function SeqAfter(e: BookEvent, lastSeq: int): int {
    if e.Diff? then e.diff.span.receiveSeq else lastSeq
  }

  function IdAfter(e: BookEvent, lastId: int): int {
    if e.Snapshot? then e.snapshot.lastUpdateId else lastId
  }

  /** The buffer is in receive order. */
  ghost predicate Received(b: BookValue, lastSeq: int) {
    && Ordered(b.pending, ByReceive)
    && (forall i :: 0 <= i < |b.pending| ==> b.pending[i].span.receiveSeq <= lastSeq)
  }

  /** Nor is the book's anchor newer than the last snapshot. */
  ghost predicate Timely(b: BookValue, lastSeq: int, lastId: int) {
    Received(b, lastSeq) && (b.anchor.Some? ==> b.anchor.value.lastUpdateId <= lastId)
  }

  lemma {:induction false} DiscardCountOfSuffix(id: int, spans: seq<UpdateSpan>, k: nat)
    requires k <= |spans|
    requires forall i :: 0 <= i < k ==> spans[i].final < id
    ensures DiscardCount(id, spans) == k + DiscardCount(id, spans[k..])
  {
    if k > 0 {
      assert forall i :: 0 <= i < k - 1 ==> spans[1..][i] == spans[i + 1];
      DiscardCountOfSuffix(id, spans[1..], k - 1);
      assert spans[1..][k - 1..] == spans[k..];
    } else {
      assert spans[0..] == spans;
    }
  }

  /** How many buffered diffs the anchor discards. */
  function Cut(b: BookValue): (c: nat)
    requires b.anchor.Some?
    ensures c <= |b.pending|
    ensures forall i :: 0 <= i < c ==> b.pending[i].span.final < b.anchor.value.lastUpdateId
    ensures c < |b.pending| ==> b.anchor.value.lastUpdateId <= b.pending[c].span.final
  {
    var c := DiscardCount(b.anchor.value.lastUpdateId, Spans(b.pending));
    assert forall i :: 0 <= i < |b.pending| ==> Spans(b.pending)[i] == b.pending[i].span;
    c
  }

  /** A snapshot beyond every buffered diff that the anchor before it discards. */
  predicate Frees(b: BookValue, s: DepthSnapshot) {
    b.Anchored() ==> forall i :: 0 <= i < Cut(b) ==> b.pending[i].span.final < s.lastUpdateId
  }

  /** A run of diffs in receive order and snapshots that are each beyond what is discarded when they arrive. */
  predicate Steady(b: BookValue, events: seq<BookEvent>, lastSeq: int)
    requires b.WellFormed()
    decreases events
  {
    events == [] ||
    (&& (events[0].Diff? ==> lastSeq <= events[0].diff.span.receiveSeq)
     && (events[0].Snapshot? ==> Frees(b, events[0].snapshot))
     && (StepKeepsWellFormed(b, events[0]); Steady(Step(b, events[0]).0, events[1..], SeqAfter(events[0], lastSeq))))
  }

  function Stale(b: BookValue, pending: seq<DepthDiff>): BookValue {
    b.(bids := map[], asks := map[], previous := None, anchor := None, pending := pending)
  }

  lemma {:induction false} SortedSearch(b: BookValue)
    requires b.anchor.Some? && Ordered(b.pending, ByReceive)
    ensures TryBridge(b) == TryBridgeSorted(b, b.anchor.value, b.pending)
  {
    hide TryBridgeSorted;
    SortKeepsOrdered(b.pending, ByReceive);
  }

  /** The three outcomes of a bridge search over a buffer in receive order. */
  lemma {:induction false} SearchCases(b: BookValue)
    requires b.anchor.Some? && Ordered(b.pending, ByReceive)
    ensures var c, id := Cut(b), b.anchor.value.lastUpdateId;
            && (c == |b.pending| ==> TryBridge(b) == (b.(pending := []), None))
            && (c < |b.pending| && id < b.pending[c].span.first ==> TryBridge(b) == (Stale(b, b.pending[c..]), None))
            && (c < |b.pending| && b.pending[c].span.Covers(id) ==> TryBridge(b) == ReplayBridge(b, b.anchor.value, b.pending[c..]))
  {
    hide ReplayBridge, TryBridge, StableSort;
    SortedSearch(b);
    var c := Cut(b);
    if c == |b.pending| {
      assert b.pending[c..] == [];
    } else {
      assert Spans(b.pending)[c] == b.pending[c].span;
    }
  }

  lemma {:induction false} CutOfSuffix(b: BookValue, k: nat)
    requires b.anchor.Some? && k <= |b.pending|
    requires forall i :: 0 <= i < k ==> b.pending[i].span.final < b.anchor.value.lastUpdateId
    ensures Cut(b) == k + Cut(b.(pending := b.pending[k..]))
  {
    DiscardCountOfSuffix(b.anchor.value.lastUpdateId, Spans(b.pending), k);
    assert Spans(b.pending)[k..] == Spans(b.pending[k..]);
  }

  lemma {:induction false} ApplyAllIgnoresBuffer(b: BookValue, pending: seq<DepthDiff>, diffs: seq<DepthDiff>)
    ensures ApplyAll(b.(pending := pending), diffs) == ApplyAll(b, diffs).(pending := pending)
  {
    if diffs != [] {
      ApplyAllIgnoresBuffer(b, pending, diffs[..|diffs| - 1]);
    }
  }

  lemma {:induction false} ReplayIgnoresBuffer(b: BookValue, pending: seq<DepthDiff>, anchor: Anchor, chain: seq<DepthDiff>)
    requires chain != []
    ensures ReplayBridge(b, anchor, chain) == ReplayBridge(b.(pending := pending), anchor, chain)
  {
    ApplyAllIgnoresBuffer(b, pending, chain);
  }

  /** Dropping buffered diffs that end before the anchor does not change the outcome of the search. */
  lemma {:induction false} DroppingStaleIsInvisible(b: BookValue, k: nat)
    requires b.anchor.Some? && Ordered(b.pending, ByReceive)
    requires k <= |b.pending|
    requires forall i :: 0 <= i < k ==> b.pending[i].span.final < b.anchor.value.lastUpdateId
    ensures TryBridge(b.(pending := b.pending[k..])) == TryBridge(b)
  {
    hide TryBridge, ReplayBridge, Cut;
    var dropped := b.(pending := b.pending[k..]);
    CutOfSuffix(b, k);
    SearchCases(b);
    SearchCases(dropped);
    var c := Cut(dropped);
    assert dropped.pending[c..] == b.pending[k + c..];
    if c < |dropped.pending| && dropped.pending[c].span.Covers(b.anchor.value.lastUpdateId) {
      ReplayIgnoresBuffer(b, b.pending[k..], b.anchor.value, b.pending[k + c..]);
    }
  }

  /** An anchored book none of whose buffered diffs covers the anchor: the search finds no bridge. */
  ghost predicate Unbridgeable(b: BookValue) {
    && b.Anchored()
    && forall i :: 0 <= i < |b.pending| ==> !b.pending[i].span.Covers(b.anchor.value.lastUpdateId)
  }

  /** The lazy book l and the eager book e: equal, or e has already done the search l still owes. */
  ghost predicate Related(l: BookValue, e: BookValue) {
    if l.Anchored() then Unbridgeable(l) && e == TryBridge(l).0 else l == e
  }

  /** Searching before a diff is buffered and again after it equals searching once, after it. */
  lemma {:induction false} SearchOnceIsEnough(l: BookValue, d: DepthDiff)
    requires Unbridgeable(l) && Ordered(l.pending + [d], ByReceive)
    ensures TryBridge(Buffering(TryBridge(l).0, d)) == TryBridge(Buffering(l, d))
    ensures !d.span.Covers(l.anchor.value.lastUpdateId) ==> TryBridge(Buffering(l, d)).1 == None
  {
    hide TryBridge, ReplayBridge, Cut, Buffering;
    OrderedFront(l.pending, d);
    if Cut(l) == |l.pending| {
      SearchAfterDraining(l, d);
    } else {
      SearchAfterBlocking(l, d);
    }
  }

  lemma {:induction false} SearchAfterDraining(l: BookValue, d: DepthDiff)
    requires Unbridgeable(l) && Ordered(l.pending + [d], ByReceive) && Ordered(l.pending, ByReceive)
    requires Cut(l) == |l.pending|
    ensures TryBridge(Buffering(TryBridge(l).0, d)) == TryBridge(Buffering(l, d))
    ensures !d.span.Covers(l.anchor.value.lastUpdateId) ==> TryBridge(Buffering(l, d)).1 == None
  {
    hide TryBridge, ReplayBridge, Cut;
    var k := |l.pending|;
    var buffered := Buffering(l, d);
    SearchCases(l);
    SearchCases(buffered);
    assert forall i :: 0 <= i < k ==> buffered.pending[i] == l.pending[i];
    DroppingStaleIsInvisible(buffered, k);
    assert buffered.pending[k..] == [d] == [] + [d];
    assert Buffering(TryBridge(l).0, d) == buffered.(pending := buffered.pending[k..]);
  }

  lemma {:induction false} SearchAfterBlocking(l: BookValue, d: DepthDiff)
    requires Unbridgeable(l) && Ordered(l.pending + [d], ByReceive) && Ordered(l.pending, ByReceive)
    requires Cut(l) < |l.pending|
    ensures TryBridge(Buffering(TryBridge(l).0, d)) == TryBridge(Buffering(l, d))
    ensures TryBridge(Buffering(l, d)).1 == None
  {
    hide TryBridge, ReplayBridge, Cut;
    var k := Cut(l);
    var buffered := Buffering(l, d);
    SearchCases(l);
    SearchCases(buffered);
    assert forall i :: 0 <= i < |l.pending| ==> buffered.pending[i] == l.pending[i];
    assert Cut(buffered) == k;
    assert buffered.pending[k..] == l.pending[k..] + [d];
    StaleDoesNotSearch(Buffering(TryBridge(l).0, d));
  }

  lemma {:induction false} OrderedFront(diffs: seq<DepthDiff>, d: DepthDiff)
    requires Ordered(diffs + [d], ByReceive)
    ensures Ordered(diffs, ByReceive)
  {
    forall i, j | 0 <= i < j < |diffs|
      ensures ByReceive(diffs[i], diffs[j])
    {
      assert ByReceive((diffs + [d])[i], (diffs + [d])[j]);
    }
  }

  lemma {:induction false} StaleDoesNotSearch(b: BookValue)
    requires b.anchor.None?
    ensures TryBridge(b) == (b, None)
  {
  }

  /** A newer snapshot leads both books to the same value. */
  lemma {:induction false} SnapshotReunites(l: BookValue, e: BookValue, s: DepthSnapshot)
    requires Related(l, e) && Ordered(l.pending, ByReceive) && Frees(l, s)
    ensures OnSnapshot(l, s) == OnSnapshot(e, s)
  {
    hide TryBridge, ReplayBridge, Cut;
    if l.Anchored() {
      SearchCases(l);
      var k := Cut(l);
      assert l.pending[|l.pending|..] == [];
      DroppingStaleIsInvisible(Anchoring(l, s), k);
      assert Anchoring(e, s) == Anchoring(l, s).(pending := l.pending[k..]);
    }
  }

  /** What a search can leave in the buffer: a suffix of it, one of its diffs, or nothing. */
  ghost predicate LeftBy(left: seq<DepthDiff>, pending: seq<DepthDiff>) {
    left == [] || exists k :: 0 <= k < |pending| && (left == pending[k..] || left == [pending[k]])
  }

  lemma {:induction false} TryBridgeBuffer(b: BookValue)
    requires Ordered(b.pending, ByReceive)
    ensures LeftBy(TryBridge(b).0.pending, b.pending)
    ensures TryBridge(b).0.anchor.Some? ==> TryBridge(b).0.anchor == b.anchor && TryBridge(b).0.pending == []
  {
    if b.anchor.Some? {
      hide TryBridge, ReplayBridge, Cut;
      SearchCases(b);
      var c := Cut(b);
      if c < |b.pending| && b.pending[c].span.Covers(b.anchor.value.lastUpdateId) {
        ReplayBuffer(b, b.anchor.value, b.pending[c..]);
        var left := TryBridge(b).0.pending;
        if left != [] {
          var i :| 0 <= i < |b.pending[c..]| && left == [b.pending[c..][i]];
          assert left == [b.pending[c + i]];
        }
      }
    } else if b.pending != [] {
      assert b.pending == b.pending[0..];
    }
  }

  lemma {:induction false} ReplayBuffer(b: BookValue, anchor: Anchor, chain: seq<DepthDiff>)
    requires chain != []
    ensures var r := ReplayBridge(b, anchor, chain).0;
            && r.anchor == None
            && (r.pending == [] || exists i :: 0 <= i < |chain| && r.pending == [chain[i]])
  {
  }

  lemma {:induction false} TryBridgeKeepsTimely(b: BookValue, lastSeq: int, lastId: int)
    requires Timely(b, lastSeq, lastId)
    ensures Timely(TryBridge(b).0, lastSeq, lastId)
  {
    hide TryBridge;
    TryBridgeBuffer(b);
  }

  lemma {:induction false} StepKeepsTimely(b: BookValue, e: BookEvent, lastSeq: int, lastId: int)
    requires b.WellFormed() && Timely(b, lastSeq, lastId)
    requires e.Diff? ==> lastSeq <= e.diff.span.receiveSeq
    requires e.Snapshot? ==> lastId <= e.snapshot.lastUpdateId
    ensures Timely(Step(b, e).0, SeqAfter(e, lastSeq), IdAfter(e, lastId))
  {
    match e
    case Diff(d) =>
      if IdentityOf(d) !in b.seen && !b.state.Valid? {
        TryBridgeKeepsTimely(Buffering(b, d), d.span.receiveSeq, lastId);
      }
    case Snapshot(s) =>
      TryBridgeKeepsTimely(Anchoring(b, s), lastSeq, s.lastUpdateId);
  }

  lemma {:induction false} StepKeepsReceived(b: BookValue, e: BookEvent, lastSeq: int)
    requires b.WellFormed() && Received(b, lastSeq) && (e.Diff? ==> lastSeq <= e.diff.span.receiveSeq)
    ensures Received(Step(b, e).0, SeqAfter(e, lastSeq))
  {
    hide TryBridge;
    match e
    case Diff(d) =>
      if IdentityOf(d) !in b.seen && !b.state.Valid? {
        TryBridgeBuffer(Buffering(b, d));
      }
    case Snapshot(s) =>
      TryBridgeBuffer(Anchoring(b, s));
  }

  /** One event: equal changes, and the books stay related. */
  lemma {:induction false} SteadyStepRefines(l: BookValue, e: BookValue, event: BookEvent, lastSeq: int)
    requires l.WellFormed() && e.WellFormed() && Related(l, e) && Received(l, lastSeq)
    requires event.Diff? ==> lastSeq <= event.diff.span.receiveSeq
    requires event.Snapshot? ==> Frees(l, event.snapshot)
    ensures Step(l, event).1 == EagerStep(e, event).1
    ensures Related(Step(l, event).0, EagerStep(e, event).0)
  {
    hide TryBridge, ReplayBridge;
    if l.Anchored() {
      SearchCases(l);
    }
    match event
    case Diff(d) =>
      if IdentityOf(d) !in l.seen && !l.state.Valid? {
        BufferingRefines(l, e, d);
      }
    case Snapshot(s) =>
      SnapshotReunites(l, e, s);
      SettledAfterSearch(Anchoring(l, s));
  }

  /** Non-decreasing snapshot ids are beyond what is discarded. */
  lemma {:induction false} LaterIdFrees(b: BookValue, s: DepthSnapshot, lastId: int)
    requires b.anchor.Some? ==> b.anchor.value.lastUpdateId <= lastId
    requires lastId <= s.lastUpdateId
    ensures Frees(b, s)
  {
  }

  lemma StepRefines(l: BookValue, e: BookValue, event: BookEvent, lastSeq: int, lastId: int)
    requires l.WellFormed() && e.WellFormed() && Related(l, e) && Timely(l, lastSeq, lastId)
    requires event.Diff? ==> lastSeq <= event.diff.span.receiveSeq
    requires event.Snapshot? ==> lastId <= event.snapshot.lastUpdateId
    ensures Step(l, event).1 == EagerStep(e, event).1
    ensures Related(Step(l, event).0, EagerStep(e, event).0)
  {
    hide Step, EagerStep, Frees, Related;
    if event.Snapshot? {
      LaterIdFrees(l, event.snapshot, lastId);
    }
    SteadyStepRefines(l, e, event, lastSeq);
  }

  /** A run in order is steady. */
  lemma {:induction false} OrderedRunIsSteady(b: BookValue, events: seq<BookEvent>, lastSeq: int, lastId: int)
    requires b.WellFormed() && Timely(b, lastSeq, lastId) && InOrder(events, lastSeq, lastId)
    ensures Steady(b, events, lastSeq)
    decreases events
  {
    hide Step, Frees;
    if events != [] {
      var event := events[0];
      StepKeepsWellFormed(b, event);
      StepKeepsTimely(b, event, lastSeq, lastId);
      if event.Snapshot? {
        LaterIdFrees(b, event.snapshot, lastId);
      }
      OrderedRunIsSteady(Step(b, event).0, events[1..], SeqAfter(event, lastSeq), IdAfter(event, lastId));
    }
  }

  lemma {:induction false} BufferingRefines(l: BookValue, e: BookValue, d: DepthDiff)
    requires l.WellFormed() && Related(l, e)
    requires IdentityOf(d) !in l.seen && !l.state.Valid?
    requires Ordered(l.pending + [d], ByReceive)
    ensures !e.state.Valid? && e.seen == l.seen
    ensures e.WellFormed()
    ensures OnDiff(l, d).1 == EagerOnDiff(e, d).1
    ensures Related(OnDiff(l, d).0, EagerOnDiff(e, d).0)
  {
    hide TryBridge, ReplayBridge;
    var buffered := Buffering(l, d);
    if l.Anchored() {
      OrderedFront(l.pending, d);
      SearchCases(l);
      SearchOnceIsEnough(l, d);
      if d.span.Covers(l.anchor.value.lastUpdateId) {
        SettledAfterSearch(buffered);
      }
    } else {
      StaleDoesNotSearch(buffered);
    }
  }

  /** After a search the lazy book owes nothing. */
  lemma {:induction false} SettledAfterSearch(b: BookValue)
    requires Ordered(b.pending, ByReceive)
    ensures Related(TryBridge(b).0, TryBridge(b).0)
  {
    hide TryBridge, ReplayBridge;
    TryBridgeBuffer(b);
    var r := TryBridge(b).0;
    if r.Anchored() {
      SearchCases(r);
      assert r.(pending := []) == r;
    }
  }

  /** Main result: on every steady run the lazy book emits the eager book's changes, in order. */
  lemma {:induction false} ShortcutRefines(l: BookValue, e: BookValue, events: seq<BookEvent>, lastSeq: int)
    requires l.WellFormed() && e.WellFormed() && Related(l, e) && Received(l, lastSeq)
    requires Steady(l, events, lastSeq)
    ensures Run(l, events).1 == EagerRun(e, events).1
    ensures Related(Run(l, events).0, EagerRun(e, events).0)
    decreases events
  {
    hide OnDiff, OnSnapshot, EagerOnDiff, Related, Received, Frees;
    if events != [] {
      var event := events[0];
      SteadyStepRefines(l, e, event, lastSeq);
      StepKeepsWellFormed(l, event);
      StepKeepsReceived(l, event, lastSeq);
      ShortcutRefines(Step(l, event).0, EagerStep(e, event).0, events[1..], SeqAfter(event, lastSeq));
    }
  }

  /** From an empty book: same changes, same state, and the same whole book whenever it is VALID. */
  lemma ShortcutIsInvisible(connectionId: string, events: seq<BookEvent>, lastSeq: int)
    requires Steady(FreshBook(connectionId), events, lastSeq)
    ensures var start := FreshBook(connectionId);
            var lazy, eager := Run(start, events), EagerRun(start, events);
            && lazy.1 == eager.1
            && lazy.0.state == eager.0.state
            && (lazy.0.state.Valid? ==> lazy.0 == eager.0)
  {
    var start := FreshBook(connectionId);
    ShortcutRefines(start, start, events, lastSeq);
    var l := Run(start, events).0;
    if l.Anchored() {
      var e := EagerRun(start, events).0;
      SteadyRunReceived(start, events, lastSeq);
      SearchCases(l);
    }
  }

  lemma {:induction false} SteadyRunReceived(b: BookValue, events: seq<BookEvent>, lastSeq: int)
    requires b.WellFormed() && Received(b, lastSeq) && Steady(b, events, lastSeq)
    ensures Ordered(Run(b, events).0.pending, ByReceive)
    decreases events
  {
    if events != [] {
      StepKeepsWellFormed(b, events[0]);
      StepKeepsReceived(b, events[0], lastSeq);
      SteadyRunReceived(Step(b, events[0]).0, events[1..], SeqAfter(events[0], lastSeq));
    }
  }

  function SpanDiff(receiveSeq: int, first: int, final: int, previous: int): DepthDiff {
    DepthDiff(UpdateSpan(receiveSeq, first, final, previous), receiveSeq, "h", [], [])
  }

  /** A snapshot id at or before what was discarded matters: only the lazy book still holds the old diff. */
  lemma {:induction false} SnapshotStepBackTellsThemApart()
    ensures var events := [Snapshot(DepthSnapshot(1, 100, [], [])), Diff(SpanDiff(2, 40, 50, 39)), Snapshot(DepthSnapshot(3, 45, [], []))];
            var start := FreshBook("a");
            Run(start, events).0.state.Valid? && !EagerRun(start, events).0.state.Valid?
  {
    hide OnDiff, OnSnapshot, EagerOnDiff;
    var d := SpanDiff(2, 40, 50, 39);
    var s1, s2 := DepthSnapshot(1, 100, [], []), DepthSnapshot(3, 45, [], []);
    var start := FreshBook("a");
    WaitingWitness(start, s1);
    var anchored := Anchoring(start, s1);
    OldDiffWitness(anchored, d);
    BridgeWitness(anchored, d, s2);
    RunThree(start, Snapshot(s1), Diff(d), Snapshot(s2));
  }

  lemma {:induction false} WaitingWitness(b: BookValue, s: DepthSnapshot)
    requires b.pending == []
    ensures OnSnapshot(b, s) == (Anchoring(b, s), None)
  {
    hide TryBridge, ReplayBridge;
    SearchCases(Anchoring(b, s));
    assert Anchoring(b, s).(pending := []) == Anchoring(b, s);
  }

  lemma {:induction false} OldDiffWitness(b: BookValue, d: DepthDiff)
    requires b.WellFormed() && b.Anchored() && b.pending == [] && b.seen == {}
    requires d.span.final < b.anchor.value.lastUpdateId
    ensures OnDiff(b, d) == (Buffering(b, d), None)
    ensures EagerOnDiff(b, d) == (Buffering(b, d).(pending := []), None)
  {
    hide TryBridge, ReplayBridge;
    SearchCases(Buffering(b, d));
  }

  lemma {:induction false} BridgeWitness(b: BookValue, d: DepthDiff, s: DepthSnapshot)
    requires b.Anchored() && b.pending == []
    requires d.span.Covers(s.lastUpdateId)
    ensures OnSnapshot(Buffering(b, d), s).0.state.Valid?
    ensures !OnSnapshot(Buffering(b, d).(pending := []), s).0.state.Valid?
  {
    hide TryBridge, ReplayBridge;
    var lazy := Anchoring(Buffering(b, d), s);
    SearchCases(lazy);
    assert lazy.pending == [d] && [d][0..] == [d];
    OneDiffBridges(lazy, lazy.anchor.value, d);
    WaitingWitness(Buffering(b, d).(pending := []), s);
  }

  lemma {:induction false} OneDiffBridges(b: BookValue, anchor: Anchor, d: DepthDiff)
    ensures ReplayBridge(b, anchor, [d]).0.state.Valid?
  {
  }

  lemma {:induction false} RunThree(b: BookValue, e0: BookEvent, e1: BookEvent, e2: BookEvent)
    requires b.WellFormed()
    requires Step(b, e0).0.WellFormed() && Step(Step(b, e0).0, e1).0.WellFormed()
    ensures EagerStep(b, e0).0 == Step(b, e0).0 ==>
      Run(b, [e0, e1, e2]).0 == Step(Step(Step(b, e0).0, e1).0, e2).0
      && EagerRun(b, [e0, e1, e2]).0 == EagerStep(EagerStep(Step(b, e0).0, e1).0, e2).0
  {
    hide OnDiff, OnSnapshot;
    var b1 := Step(b, e0).0;
    StepKeepsWellFormed(Step(b1, e1).0, e2);
    assert [e0, e1, e2][1..] == [e1, e2] && [e1, e2][1..] == [e2] && [e2][1..] == [];
    if EagerStep(b, e0).0 == b1 {
      assert Run(b1, [e1, e2]).0 == Run(Step(b1, e1).0, [e2]).0;
      assert Run(Step(b1, e1).0, [e2]).0 == Run(Step(Step(b1, e1).0, e2).0, []).0;
      assert EagerRun(b1, [e1, e2]).0 == EagerRun(EagerStep(b1, e1).0, [e2]).0;
      assert EagerRun(EagerStep(b1, e1).0, [e2]).0 == EagerRun(EagerStep(EagerStep(b1, e1).0, e2).0, []).0;
    }
  }
}
