/**
 * What a VALID book means: one snapshot of the run, replayed with a contiguous chain of the run's
 * diffs whose head overlaps the snapshot id or links to it exactly, no diff applied twice.
 */
module Replay {
  import opened Wrappers
  import opened Sorting
  import opened Bridge
  import opened Book

  /** Every level of the chain, in order. */
  function AllBids(chain: seq<DepthDiff>): seq<Level> {
    if chain == [] then [] else AllBids(chain[..|chain| - 1]) + chain[|chain| - 1].bids
  }

  function AllAsks(chain: seq<DepthDiff>): seq<Level> {
    if chain == [] then [] else AllAsks(chain[..|chain| - 1]) + chain[|chain| - 1].asks
  }

  ghost predicate DistinctDiffs(diffs: seq<DepthDiff>) {
    forall i, j :: 0 <= i < j < |diffs| ==> IdentityOf(diffs[i]) != IdentityOf(diffs[j])
  }

  /** Each diff continues the one before it. */
  ghost predicate Contiguous(chain: seq<DepthDiff>) {
    forall i :: 0 < i < |chain| ==> chain[i].span.previous == chain[i - 1].span.final
  }

  /** The first diff covers the snapshot id, or names it as its predecessor. */
  ghost predicate LinksTo(snapshot: DepthSnapshot, chain: seq<DepthDiff>) {
    chain == [] || chain[0].span.Covers(snapshot.lastUpdateId) || chain[0].span.previous == snapshot.lastUpdateId
  }

  datatype Provenance = Provenance(snapshot: DepthSnapshot, chain: seq<DepthDiff>)

  /** The book is the snapshot replayed with the chain, both taken from the history. */
  ghost predicate Explains(history: seq<BookEvent>, b: BookValue, p: Provenance) {
    && BookEvent.Snapshot(p.snapshot) in history
    && (forall i :: 0 <= i < |p.chain| ==> BookEvent.Diff(p.chain[i]) in history)
    && Contiguous(p.chain)
    && LinksTo(p.snapshot, p.chain)
    && DistinctDiffs(p.chain)
    && b.bids == ApplyLevels(BookSide(p.snapshot.bids), AllBids(p.chain))
    && b.asks == ApplyLevels(BookSide(p.snapshot.asks), AllAsks(p.chain))
    && b.previous == Some(if p.chain == [] then p.snapshot.lastUpdateId else p.chain[|p.chain| - 1].span.final)
  }

  /** The invariant of a run: a book with a state to show is explained, and its buffer is new history. */
  ghost predicate Tracked(history: seq<BookEvent>, b: BookValue, p: Provenance) {
    && b.WellFormed()
    && (b.state.Valid? || b.anchor.Some? ==> Explains(history, b, p))
    && (!b.state.Valid? && b.anchor.Some? ==> p.chain == [] && p.snapshot.lastUpdateId == b.anchor.value.lastUpdateId)
    && (b.state.Valid? ==> forall i :: 0 <= i < |p.chain| ==> IdentityOf(p.chain[i]) in b.seen)
    && Buffered(history, b)
  }

  ghost predicate Buffered(history: seq<BookEvent>, b: BookValue) {
    && DistinctDiffs(b.pending)
    && forall i :: 0 <= i < |b.pending| ==> BookEvent.Diff(b.pending[i]) in history && IdentityOf(b.pending[i]) in b.seen
  }

  /** The reference meaning of replayed levels: the last level of a price decides, and without one the side does. */
  lemma {:induction false} LastLevelDecides(side: Side, levels: seq<Level>, price: Price, last: int)
    requires -1 <= last < |levels|
    requires last >= 0 ==> levels[last].price == price
    requires forall j :: last < j < |levels| ==> levels[j].price != price
    ensures var r := ApplyLevels(side, levels);
            if last < 0 then
              (price in r <==> price in side) && (price in side ==> r[price] == side[price])
            else
              (price in r <==> !IsZero(levels[last].quantity)) && (price in r ==> r[price] == levels[last].quantity)
  {
    var n := |levels| - 1;
    if last < n {
      LastLevelDecides(side, levels[..n], price, last);
      assert levels[n].price != price;
    }
  }

  lemma {:induction false} ApplyLevelsConcat(side: Side, a: seq<Level>, b: seq<Level>)
    ensures ApplyLevels(side, a + b) == ApplyLevels(ApplyLevels(side, a), b)
  {
    if b == [] {
      assert a + b == a;
    } else {
      var n := |b| - 1;
      ApplyLevelsConcat(side, a, b[..n]);
      assert (a + b)[..|a + b| - 1] == a + b[..n];
    }
  }

  lemma {:induction false} ApplyAllIsReplay(b: BookValue, chain: seq<DepthDiff>)
    ensures ApplyAll(b, chain).bids == ApplyLevels(b.bids, AllBids(chain))
    ensures ApplyAll(b, chain).asks == ApplyLevels(b.asks, AllAsks(chain))
  {
    if chain != [] {
      var n := |chain| - 1;
      ApplyAllIsReplay(b, chain[..n]);
      ApplyLevelsConcat(b.bids, AllBids(chain[..n]), chain[n].bids);
      ApplyLevelsConcat(b.asks, AllAsks(chain[..n]), chain[n].asks);
    }
  }

  lemma {:induction false} InsertDistinct(d: DepthDiff, diffs: seq<DepthDiff>)
    requires DistinctDiffs([d] + diffs)
    ensures DistinctDiffs(Insert(d, diffs, ByReceive))
  {
    if diffs == [] || ByReceive(d, diffs[0]) {
    } else {
      var all := [d] + diffs;
      var rest := Insert(d, diffs[1..], ByReceive);
      assert DistinctDiffs([d] + diffs[1..]) by {
        forall i, j | 0 <= i < j < |[d] + diffs[1..]|
          ensures IdentityOf(([d] + diffs[1..])[i]) != IdentityOf(([d] + diffs[1..])[j])
        {
          assert ([d] + diffs[1..])[j] == all[j + 1];
          assert ([d] + diffs[1..])[i] == (if i == 0 then all[0] else all[i + 1]);
        }
      }
      InsertDistinct(d, diffs[1..]);
      SameElements(rest, [d] + diffs[1..]);
      forall j | 0 <= j < |rest|
        ensures IdentityOf(diffs[0]) != IdentityOf(rest[j])
      {
        assert rest[j] in [d] + diffs[1..];
        if rest[j] == d {
          assert IdentityOf(all[0]) != IdentityOf(all[1]);
        } else {
          var i :| 0 <= i < |diffs[1..]| && diffs[1..][i] == rest[j];
          assert IdentityOf(all[1]) != IdentityOf(all[i + 2]);
        }
      }
    }
  }

  lemma {:induction false} SortDistinct(diffs: seq<DepthDiff>)
    requires DistinctDiffs(diffs)
    ensures DistinctDiffs(StableSort(diffs, ByReceive))
  {
    if diffs != [] {
      var rest := StableSort(diffs[1..], ByReceive);
      SortDistinct(diffs[1..]);
      SameElements(rest, diffs[1..]);
      forall j | 0 <= j < |rest|
        ensures IdentityOf(diffs[0]) != IdentityOf(rest[j])
      {
        assert rest[j] in diffs[1..];
        var i :| 0 <= i < |diffs[1..]| && diffs[1..][i] == rest[j];
        assert diffs[i + 1] == rest[j];
      }
      InsertDistinct(diffs[0], rest);
    }
  }

  /** The facts about a buffer survive sorting and dropping a prefix. */
  lemma {:induction false} SortedBuffer(history: seq<BookEvent>, b: BookValue, k: nat)
    requires Buffered(history, b) && k <= |b.pending|
    ensures |StableSort(b.pending, ByReceive)| == |b.pending|
    ensures Buffered(history, b.(pending := StableSort(b.pending, ByReceive)[k..]))
  {
    var sorted := StableSort(b.pending, ByReceive);
    SortDistinct(b.pending);
    SameElements(sorted, b.pending);
    forall i | 0 <= i < |sorted|
      ensures BookEvent.Diff(sorted[i]) in history && IdentityOf(sorted[i]) in b.seen
    {
      assert sorted[i] in b.pending;
    }
  }

  lemma {:induction false} ChainIsContiguous(chain: seq<DepthDiff>)
    requires chain != [] && ChainBreak(Spans(chain)) == |chain|
    ensures Contiguous(chain)
  {
    forall i | 0 < i < |chain|
      ensures chain[i].span.previous == chain[i - 1].span.final
    {
      assert SequenceContinues(Spans(chain)[i - 1].final, Spans(chain)[i].previous);
    }
  }

  lemma {:induction false} BridgeIsExplained(history: seq<BookEvent>, b: BookValue, anchor: Anchor, chain: seq<DepthDiff>, p: Provenance)
    returns (p': Provenance)
    requires b.anchor == Some(anchor) && Explains(history, b, p) && p.chain == [] && p.snapshot.lastUpdateId == anchor.lastUpdateId
    requires chain != [] && chain[0].span.Covers(anchor.lastUpdateId)
    requires Buffered(history, b.(pending := chain))
    ensures Tracked(history, ReplayBridge(b, anchor, chain).0, p')
  {
    p' := Provenance(p.snapshot, chain);
    var k := ChainBreak(Spans(chain));
    if k == |chain| {
      ApplyAllFrame(b, chain);
      ApplyAllIsReplay(b, chain);
      ChainIsContiguous(chain);
    }
  }

  lemma {:induction false} SearchIsTracked(history: seq<BookEvent>, b: BookValue, p: Provenance)
    returns (p': Provenance)
    requires Tracked(history, b, p) || (b.anchor.Some? && b.WellFormed() && Explains(history, b, p) && p.chain == []
                                        && p.snapshot.lastUpdateId == b.anchor.value.lastUpdateId && Buffered(history, b))
    ensures Tracked(history, TryBridge(b).0, p')
  {
    hide ReplayBridge, StableSort;
    p' := p;
    if b.anchor.Some? && !b.state.Valid? {
      var sorted := StableSort(b.pending, ByReceive);
      var id := b.anchor.value.lastUpdateId;
      var c := DiscardCount(id, Spans(sorted));
      SameElements(sorted, b.pending);
      SortedBuffer(history, b, c);
      if c < |sorted| && Spans(sorted)[c].first <= id {
        assert sorted[c..][0].span == Spans(sorted)[c];
        p' := BridgeIsExplained(history, b, b.anchor.value, sorted[c..], p);
      }
    } else if b.anchor.Some? {
      ValidSearchKeeps(b);
    }
  }

  /** History only grows. */
  lemma {:induction false} TrackedLater(history: seq<BookEvent>, e: BookEvent, b: BookValue, p: Provenance)
    requires Tracked(history, b, p)
    ensures Tracked(history + [e], b, p)
  {
  }

  lemma {:induction false} DiffIsTracked(history: seq<BookEvent>, b: BookValue, d: DepthDiff, p: Provenance)
    returns (p': Provenance)
    requires Tracked(history, b, p) && BookEvent.Diff(d) in history
    ensures Tracked(history, OnDiff(b, d).0, p')
  {
    hide TryBridge, ApplyLevels;
    p' := p;
    if IdentityOf(d) !in b.seen {
      if !b.state.Valid? {
        var buffered := Buffering(b, d);
        assert Tracked(history, buffered, p);
        if b.anchor.None? || d.span.Covers(b.anchor.value.lastUpdateId) {
          p' := SearchIsTracked(history, buffered, p);
        }
      } else if SequenceContinues(b.previous.value, d.span.previous) {
        p' := Provenance(p.snapshot, p.chain + [d]);
        assert p'.chain[..|p'.chain| - 1] == p.chain;
        ApplyLevelsConcat(BookSide(p.snapshot.bids), AllBids(p.chain), d.bids);
        ApplyLevelsConcat(BookSide(p.snapshot.asks), AllAsks(p.chain), d.asks);
      }
    }
  }

  lemma {:induction false} SnapshotIsTracked(history: seq<BookEvent>, b: BookValue, s: DepthSnapshot, p: Provenance)
    returns (p': Provenance)
    requires Tracked(history, b, p) && BookEvent.Snapshot(s) in history
    ensures Tracked(history, OnSnapshot(b, s).0, p')
  {
    hide TryBridge;
    p' := SearchIsTracked(history, Anchoring(b, s), Provenance(s, []));
  }

  /** Main result, with the history so far: the invariant survives every run. */
  lemma {:induction false} RunIsTracked(history: seq<BookEvent>, b: BookValue, events: seq<BookEvent>, p: Provenance)
    returns (p': Provenance)
    requires Tracked(history, b, p)
    ensures Tracked(history + events, Run(b, events).0, p')
    decreases events
  {
    hide OnDiff, OnSnapshot, Tracked;
    if events == [] {
      assert history + events == history;
      p' := p;
    } else {
      var e := events[0];
      var now := history + [e];
      TrackedLater(history, e, b, p);
      StepKeepsWellFormed(b, e);
      var q;
      match e {
        case Diff(d) => q := DiffIsTracked(now, b, d, p);
        case Snapshot(s) => q := SnapshotIsTracked(now, b, s, p);
      }
      p' := RunIsTracked(now, Step(b, e).0, events[1..], q);
      assert now + events[1..] == history + events;
    }
  }

  /** On every run of a new connection, whatever its order, a VALID book is an explained replay. */
  lemma {:induction false} ValidBookIsReplay(connectionId: string, events: seq<BookEvent>)
    returns (p: Provenance)
    ensures var b := Run(FreshBook(connectionId), events).0;
            b.state.Valid? ==> Explains(events, b, p)
  {
    p := Provenance(DepthSnapshot(0, 0, [], []), []);
    p := RunIsTracked([], FreshBook(connectionId), events, p);
    assert [] + events == events;
  }
}
