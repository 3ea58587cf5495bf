/**
 * Midnight: a book restored from its day-end checkpoint behaves on the next day as the book that
 * was never interrupted, although the checkpoint forgets the seen diffs and part of the buffer.
 */
module Handoff {
  import opened Wrappers
  import opened Sorting
  import opened Bridge
  import opened Book
  import opened Shortcut
  import opened Checkpoint

  ghost predicate Clean(b: BookValue) {
    NoZeroes(b.bids) && NoZeroes(b.asks)
  }

  lemma {:induction false} ApplyAllKeepsClean(b: BookValue, chain: seq<DepthDiff>)
    requires Clean(b)
    ensures Clean(ApplyAll(b, chain))
  {
    if chain != [] {
      var n := |chain| - 1;
      ApplyAllKeepsClean(b, chain[..n]);
      ApplyLevelsNoZeroes(ApplyAll(b, chain[..n]).bids, chain[n].bids);
      ApplyLevelsNoZeroes(ApplyAll(b, chain[..n]).asks, chain[n].asks);
    }
  }

  lemma {:induction false} ReplayKeepsClean(b: BookValue, anchor: Anchor, chain: seq<DepthDiff>)
    requires Clean(b) && chain != []
    ensures Clean(ReplayBridge(b, anchor, chain).0)
  {
    ApplyAllKeepsClean(b, chain);
  }

  lemma {:induction false} TryBridgeKeepsClean(b: BookValue)
    requires Clean(b)
    ensures Clean(TryBridge(b).0)
  {
    hide StableSort, ReplayBridge;
    if b.anchor.Some? {
      var sorted := StableSort(b.pending, ByReceive);
      var chain := sorted[DiscardCount(b.anchor.value.lastUpdateId, Spans(sorted))..];
      if chain != [] {
        ReplayKeepsClean(b, b.anchor.value, chain);
      }
    }
  }

  /** No book of any run stores a zero quantity. */
  lemma {:induction false} RunKeepsClean(b: BookValue, events: seq<BookEvent>)
    requires b.WellFormed() && Clean(b)
    ensures Clean(Run(b, events).0)
    decreases events
  {
    hide TryBridge, BookSide, ApplyLevels;
    if events != [] {
      StepKeepsWellFormed(b, events[0]);
      match events[0] {
        case Diff(d) =>
          if b.state.Valid? {
            ApplyLevelsNoZeroes(b.bids, d.bids);
            ApplyLevelsNoZeroes(b.asks, d.asks);
          } else {
            TryBridgeKeepsClean(Buffering(b, d));
          }
        case Snapshot(s) =>
          BookSideNoZeroes(s.bids);
          BookSideNoZeroes(s.asks);
          TryBridgeKeepsClean(Anchoring(b, s));
      }
      RunKeepsClean(Step(b, events[0]).0, events[1..]);
    }
  }

  /** Everything a book shows: all of it but the seen set and the buffer. */
  ghost predicate SameView(l: BookValue, r: BookValue) {
    r == l.(seen := r.seen, pending := r.pending)
  }

  /**
   * The interrupted book r mirrors the uninterrupted l: same view, r forgot exactly the diffs seen
   * before the cut, and its buffer lacks only diffs that end before the anchor.
   */
  ghost predicate Mirrors(l: BookValue, r: BookValue, forgotten: set<Identity>, k: nat) {
    && SameView(l, r)
    && l.seen == r.seen + forgotten
    && k <= |l.pending|
    && r.pending == l.pending[k..]
    && (if l.Anchored() then forall i :: 0 <= i < k ==> l.pending[i].span.final < l.anchor.value.lastUpdateId else k == 0)
  }

  lemma {:induction false} ReplayIgnoresSeen(b: BookValue, seen: set<Identity>, anchor: Anchor, chain: seq<DepthDiff>)
    requires chain != []
    ensures var r := ReplayBridge(b, anchor, chain);
            ReplayBridge(b.(seen := seen), anchor, chain) == (r.0.(seen := seen), r.1)
  {
    ApplyAllIgnoresSeen(b, seen, chain);
  }

  lemma {:induction false} SearchIgnoresSeen(b: BookValue, seen: set<Identity>)
    requires Ordered(b.pending, ByReceive)
    ensures TryBridge(b.(seen := seen)) == (TryBridge(b).0.(seen := seen), TryBridge(b).1)
  {
    hide TryBridge, ReplayBridge;
    var other := b.(seen := seen);
    if b.anchor.Some? {
      SearchCases(b);
      SearchCases(other);
      var c := Cut(b);
      assert Cut(other) == c;
      if c < |b.pending| {
        ReplayIgnoresSeen(b, seen, b.anchor.value, b.pending[c..]);
      }
    } else {
      StaleDoesNotSearch(b);
      StaleDoesNotSearch(other);
    }
  }

  lemma {:induction false} ApplyAllIgnoresSeen(b: BookValue, seen: set<Identity>, diffs: seq<DepthDiff>)
    ensures ApplyAll(b.(seen := seen), diffs) == ApplyAll(b, diffs).(seen := seen)
  {
    if diffs != [] {
      ApplyAllIgnoresSeen(b, seen, diffs[..|diffs| - 1]);
    }
  }

  /** A search over mirrored buffers: same change, and nothing is missing afterwards. */
  lemma {:induction false} SearchMirrors(l: BookValue, r: BookValue, k: nat)
    requires l.anchor.Some? && Ordered(l.pending, ByReceive)
    requires SameView(l, r) && k <= |l.pending| && r.pending == l.pending[k..]
    requires forall i :: 0 <= i < k ==> l.pending[i].span.final < l.anchor.value.lastUpdateId
    ensures TryBridge(l).1 == TryBridge(r).1
    ensures TryBridge(l).0 == TryBridge(r).0.(seen := l.seen) && TryBridge(r).0.seen == r.seen
  {
    hide TryBridge;
    DroppingStaleIsInvisible(l, k);
    var shorter := l.(pending := l.pending[k..]);
    SearchIgnoresSeen(shorter, r.seen);
    SearchIgnoresSeen(shorter, l.seen);
    assert shorter.(seen := r.seen) == r;
    assert shorter.(seen := l.seen) == shorter;
  }

  /** How much of the uninterrupted buffer the interrupted book still misses after an event. */
  function MissingAfter(l: BookValue, e: BookEvent, k: nat): nat {
    if l.Anchored() && e.Diff? && !(IdentityOf(e.diff) !in l.seen && e.diff.span.Covers(l.anchor.value.lastUpdateId)) then k else 0
  }

  lemma {:induction false} StepMirrors(l: BookValue, r: BookValue, e: BookEvent, lastSeq: int, lastId: int, forgotten: set<Identity>, k: nat)
    requires l.WellFormed() && r.WellFormed() && Mirrors(l, r, forgotten, k) && Timely(l, lastSeq, lastId)
    requires e.Diff? ==> lastSeq <= e.diff.span.receiveSeq && IdentityOf(e.diff) !in forgotten
    requires e.Snapshot? ==> lastId <= e.snapshot.lastUpdateId
    ensures Step(l, e).1 == Step(r, e).1
    ensures Mirrors(Step(l, e).0, Step(r, e).0, forgotten, MissingAfter(l, e, k))
  {
    hide TryBridge;
    match e
    case Diff(d) =>
      if IdentityOf(d) !in l.seen && !l.state.Valid? {
        var bl, br := Buffering(l, d), Buffering(r, d);
        assert bl.pending[k..] == br.pending;
        if l.anchor.None? {
          StaleDoesNotSearch(bl);
          StaleDoesNotSearch(br);
        } else if d.span.Covers(l.anchor.value.lastUpdateId) {
          SearchMirrors(bl, br, k);
        }
      }
    case Snapshot(s) =>
      SearchMirrors(Anchoring(l, s), Anchoring(r, s), k);
  }

  predicate NoneForgotten(events: seq<BookEvent>, forgotten: set<Identity>) {
    forall i :: 0 <= i < |events| && events[i].Diff? ==> IdentityOf(events[i].diff) !in forgotten
  }

  /** Main result: mirrored books emit the same changes on every later run and keep the same view. */
  lemma {:induction false} MirrorsForever(l: BookValue, r: BookValue, events: seq<BookEvent>, lastSeq: int, lastId: int, forgotten: set<Identity>, k: nat)
    requires l.WellFormed() && r.WellFormed() && Mirrors(l, r, forgotten, k) && Timely(l, lastSeq, lastId)
    requires InOrder(events, lastSeq, lastId) && NoneForgotten(events, forgotten)
    ensures Run(l, events).1 == Run(r, events).1
    ensures SameView(Run(l, events).0, Run(r, events).0)
    decreases events
  {
    hide OnDiff, OnSnapshot;
    if events != [] {
      var e := events[0];
      StepMirrors(l, r, e, lastSeq, lastId, forgotten, k);
      StepKeepsWellFormed(l, e);
      StepKeepsWellFormed(r, e);
      StepKeepsTimely(l, e, lastSeq, lastId);
      MirrorsForever(Step(l, e).0, Step(r, e).0, events[1..], SeqAfter(e, lastSeq), IdAfter(e, lastId), forgotten, MissingAfter(l, e, k));
    }
  }

  ghost predicate FinalsAscend(diffs: seq<DepthDiff>) {
    forall i, j :: 0 <= i < j < |diffs| ==> diffs[i].span.final <= diffs[j].span.final
  }

  /** Over ascending final ids the checkpoint's filter drops exactly a prefix. */
  lemma {:induction false} NotBeforeIsSuffix(diffs: seq<DepthDiff>, id: int)
    returns (k: nat)
    requires FinalsAscend(diffs)
    ensures k <= |diffs| && NotBefore(diffs, id) == diffs[k..]
    ensures forall i :: 0 <= i < k ==> diffs[i].span.final < id
  {
    if diffs == [] {
      k := 0;
    } else {
      var j := NotBeforeIsSuffix(diffs[1..], id);
      if diffs[0].span.final >= id {
        assert j == 0;
        k := 0;
        assert diffs[0..] == [diffs[0]] + diffs[1..][0..];
      } else {
        k := j + 1;
        assert diffs[1..][j..] == diffs[k..];
        forall i | 0 <= i < k
          ensures diffs[i].span.final < id
        {
          if i > 0 {
            assert diffs[i] == diffs[1..][i - 1];
          }
        }
      }
    }
  }

  /** A VALID book and its restoration mirror each other. */
  lemma {:induction false} RestoredValidMirrors(l: BookValue)
    requires l.WellFormed() && l.state.Valid? && l.anchor.None? && Clean(l)
    ensures Mirrors(l, RestoreValid(ValidCheckpointOf(l)), l.seen, 0)
  {
    SideRoundTrip(l.bids);
    SideRoundTrip(l.asks);
  }

  /** An anchored book and its restoration mirror each other. */
  lemma {:induction false} RestoredAnchoredMirrors(l: BookValue)
    returns (k: nat)
    requires AnchoredCheckpointOf(l).Ok? && Clean(l) && FinalsAscend(l.pending)
    ensures Mirrors(l, RestoreAnchored(AnchoredCheckpointOf(l).value), l.seen, k)
  {
    SideRoundTrip(l.bids);
    SideRoundTrip(l.asks);
    k := NotBeforeIsSuffix(l.pending, l.anchor.value.lastUpdateId);
  }

  /** The diffs of a run carry non-decreasing final update ids. */
  predicate RunAscends(events: seq<BookEvent>, lastFinal: int)
    decreases events
  {
    events == [] ||
    match events[0]
    case Diff(d) => lastFinal <= d.span.final && RunAscends(events[1..], d.span.final)
    case Snapshot(_) => RunAscends(events[1..], lastFinal)
  }

  ghost predicate AscendsTo(diffs: seq<DepthDiff>, lastFinal: int) {
    FinalsAscend(diffs) && forall i :: 0 <= i < |diffs| ==> diffs[i].span.final <= lastFinal
  }

  /** What a run leaves in the buffer is in receive order and ascends. */
  lemma {:induction false} RunKeepsBufferOrder(b: BookValue, events: seq<BookEvent>, lastSeq: int, lastId: int, lastFinal: int)
    returns (seqNow: int, idNow: int)
    requires b.WellFormed() && Timely(b, lastSeq, lastId) && AscendsTo(b.pending, lastFinal)
    requires InOrder(events, lastSeq, lastId) && RunAscends(events, lastFinal)
    ensures Timely(Run(b, events).0, seqNow, idNow) && FinalsAscend(Run(b, events).0.pending)
    ensures Run(b, events).0.WellFormed()
    ensures forall later :: InOrder(events + later, lastSeq, lastId) ==> InOrder(later, seqNow, idNow)
    decreases events
  {
    hide TryBridge;
    if events == [] {
      seqNow, idNow := lastSeq, lastId;
      forall later | InOrder(events + later, lastSeq, lastId)
        ensures InOrder(later, seqNow, idNow)
      {
        assert events + later == later;
      }
    } else {
      var e := events[0];
      StepKeepsWellFormed(b, e);
      StepKeepsTimely(b, e, lastSeq, lastId);
      var final := if e.Diff? then e.diff.span.final else lastFinal;
      StepKeepsAscending(b, e, lastFinal);
      seqNow, idNow := RunKeepsBufferOrder(Step(b, e).0, events[1..], SeqAfter(e, lastSeq), IdAfter(e, lastId), final);
      forall later | InOrder(events + later, lastSeq, lastId)
        ensures InOrder(later, seqNow, idNow)
      {
        assert (events + later)[0] == e && (events + later)[1..] == events[1..] + later;
      }
    }
  }

  lemma {:induction false} LeftAscends(left: seq<DepthDiff>, pending: seq<DepthDiff>, lastFinal: int)
    requires LeftBy(left, pending) && AscendsTo(pending, lastFinal)
    ensures AscendsTo(left, lastFinal)
  {
  }

  lemma {:induction false} StepKeepsAscending(b: BookValue, e: BookEvent, lastFinal: int)
    requires b.WellFormed() && AscendsTo(b.pending, lastFinal) && Ordered(b.pending, ByReceive)
    requires e.Diff? ==> lastFinal <= e.diff.span.final && Ordered(b.pending + [e.diff], ByReceive)
    ensures AscendsTo(Step(b, e).0.pending, if e.Diff? then e.diff.span.final else lastFinal)
  {
    hide TryBridge, LeftBy;
    match e
    case Diff(d) =>
      if IdentityOf(d) !in b.seen && !b.state.Valid? {
        var buffered := Buffering(b, d);
        assert AscendsTo(buffered.pending, d.span.final);
        TryBridgeBuffer(buffered);
        LeftAscends(TryBridge(buffered).0.pending, buffered.pending, d.span.final);
      }
    case Snapshot(s) =>
      TryBridgeBuffer(Anchoring(b, s));
      LeftAscends(TryBridge(Anchoring(b, s)).0.pending, b.pending, lastFinal);
  }

  lemma {:induction false} RunConcat(b: BookValue, first: seq<BookEvent>, second: seq<BookEvent>)
    requires b.WellFormed()
    ensures Run(b, first).0.WellFormed()
    ensures Run(b, first + second) == (Run(Run(b, first).0, second).0, Run(b, first).1 + Run(Run(b, first).0, second).1)
    decreases first
  {
    hide OnDiff, OnSnapshot;
    if first == [] {
      assert first + second == second;
      assert [] + Run(b, second).1 == Run(b, second).1;
    } else {
      StepKeepsWellFormed(b, first[0]);
      var (b1, change) := Step(b, first[0]);
      var head := if change.Some? then [change.value] else [];
      RunConcat(b1, first[1..], second);
      assert (first + second)[0] == first[0] && (first + second)[1..] == first[1..] + second;
      var rest := Run(b1, first[1..]);
      var tail := Run(rest.0, second);
      assert Run(b, first + second) == (tail.0, head + (rest.1 + tail.1));
      assert head + (rest.1 + tail.1) == (head + rest.1) + tail.1;
    }
  }

  /** The book a new day starts from, when the old one left a VALID or an anchored book. */
  function Restored(l: BookValue): Option<BookValue>
    requires l.WellFormed()
  {
    if l.state.Valid? then
      if l.anchor.None? then Some(RestoreValid(ValidCheckpointOf(l))) else None
    else
      match AnchoredCheckpointOf(l)
      case Ok(c) => Some(RestoreAnchored(c))
      case Err(_) => None
  }

  /** Two days with a checkpoint between them equal two days without: same changes, same final view. */
  lemma {:induction false} MidnightIsInvisible(connectionId: string, today: seq<BookEvent>, tomorrow: seq<BookEvent>, lastSeq: int, lastId: int, lastFinal: int)
    requires InOrder(today + tomorrow, lastSeq, lastId) && InOrder(today, lastSeq, lastId)
    requires RunAscends(today, lastFinal)
    requires var l := Run(FreshBook(connectionId), today).0; NoneForgotten(tomorrow, l.seen)
    ensures var start := FreshBook(connectionId);
            var l := Run(start, today).0;
            l.WellFormed() &&
            (Restored(l).Some? ==>
               var r := Restored(l).value;
               && r.WellFormed()
               && Run(start, today + tomorrow).1 == Run(start, today).1 + Run(r, tomorrow).1
               && SameView(Run(start, today + tomorrow).0, Run(r, tomorrow).0))
  {
    hide OnDiff, OnSnapshot;
    var start := FreshBook(connectionId);
    var seqNow, idNow := RunKeepsBufferOrder(start, today, lastSeq, lastId, lastFinal);
    RunKeepsClean(start, today);
    RunConcat(start, today, tomorrow);
    var l := Run(start, today).0;
    if Restored(l).Some? {
      var r := Restored(l).value;
      var k := 0;
      if l.state.Valid? {
        RestoredValidMirrors(l);
      } else {
        k := RestoredAnchoredMirrors(l);
      }
      MirrorsForever(l, r, tomorrow, seqNow, idNow, l.seen, k);
    }
  }
}
