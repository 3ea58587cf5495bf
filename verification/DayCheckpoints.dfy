/**
 * What a day's checkpoint holds and what the next day takes from it (pipeline/l2.py): the authority if its book has both
 * sides, and every anchored book with both sides, each as a book that mirrors the one it was taken from.
 */
module DayCheckpoints {
  import opened Wrappers
  import opened Book
  import opened Checkpoint
  import opened Handoff
  import opened Ledger
  import opened Day
  import opened DayFacts

  predicate BothSides(b: BookValue) {
    b.bids != map[] && b.asks != map[]
  }

  /** The books that a day end's checkpoint keeps. */
  predicate Kept(st: DayValue, c: string) {
    c in st.books && BothSides(st.books[c]) && (st.books[c].anchor.Some? || st.authority == Some(c))
  }

  // ---- What is written -----------------------------------------------------------------------------

  /** The VALID part is the authority's book, if it has both sides. */
  lemma {:induction false} ValidPartIsTheAuthority(st: DayValue, dayStart: int, now: int)
    requires Sound(st, dayStart, now) && BuildCheckpoint(st).Ok?
    ensures var valid := BuildCheckpoint(st).value.valid;
            && (valid.Some? <==> st.authority.Some? && BothSides(st.books[st.authority.value]))
            && (valid.Some? ==>
                  var b := st.books[st.authority.value];
                  && valid.value.connectionId == st.authority.value && b.previous == Some(valid.value.previousUpdateId)
                  && Ascending(valid.value.bids) && Lists(valid.value.bids, b.bids)
                  && Ascending(valid.value.asks) && Lists(valid.value.asks, b.asks))
  {
    hide Settled, AnchoredBooks, CheckpointLevels, Ascending, Lists, RowsInOrder;
    if st.authority.Some? {
      CheckpointLevelsAreSorted(st.books[st.authority.value].bids);
      CheckpointLevelsAreSorted(st.books[st.authority.value].asks);
    }
  }

  lemma AnchoredNamesItsBook(b: BookValue)
    ensures AnchoredCheckpointOf(b).Ok? ==> AnchoredCheckpointOf(b).value.connectionId == b.connectionId
  {
  }

  ghost predicate TakenFrom(a: AnchoredCheckpoint, order: seq<string>, books: map<string, BookValue>) {
    var c := a.connectionId;
    c in order && c in books && KeepsAnchor(books[c]) && AnchoredCheckpointOf(books[c]) == Ok(a)
  }

  predicate Holds(anchored: seq<AnchoredCheckpoint>, c: string) {
    exists i :: 0 <= i < |anchored| && anchored[i].connectionId == c
  }

  /** The anchored part holds each anchored book with both sides, and nothing else. */
  lemma {:induction false} AnchoredMembers(order: seq<string>, books: map<string, BookValue>)
    requires forall c :: c in order ==> c in books && books[c].connectionId == c
    requires AnchoredBooks(order, books).Ok?
    ensures var anchored := AnchoredBooks(order, books).value;
            && (forall i :: 0 <= i < |anchored| ==> TakenFrom(anchored[i], order, books))
            && (forall c :: c in order && KeepsAnchor(books[c]) ==> Holds(anchored, c))
  {
    hide KeepsAnchor, AnchoredCheckpointOf;
    if order != [] {
      var front, last := order[..|order| - 1], order[|order| - 1];
      assert order == front + [last];
      AnchoredMembers(front, books);
      AnchoredNamesItsBook(books[last]);
      var before, anchored := AnchoredBooks(front, books).value, AnchoredBooks(order, books).value;
      assert forall i :: 0 <= i < |before| ==> anchored[i] == before[i];
      forall i | 0 <= i < |anchored|
        ensures TakenFrom(anchored[i], order, books)
      {
        if i < |before| {
          assert TakenFrom(before[i], front, books);
        }
      }
      forall c | c in order && KeepsAnchor(books[c])
        ensures Holds(anchored, c)
      {
        if c in front {
          assert Holds(before, c);
          var i :| 0 <= i < |before| && before[i].connectionId == c;
          assert anchored[i].connectionId == c;
        } else {
          assert anchored[|anchored| - 1].connectionId == c;
        }
      }
    }
  }

  // ---- What is restored ----------------------------------------------------------------------------

  lemma {:induction false} StartedBooks(st: DayValue, anchored: seq<AnchoredCheckpoint>)
    requires st.Keyed() && StartAnchored(st, anchored).Ok?
    ensures var r := StartAnchored(st, anchored).value;
            && r == st.(order := r.order, books := r.books)
            && (forall c :: c in st.books ==> c in r.books && r.books[c] == st.books[c])
            && (forall i :: 0 <= i < |anchored| ==>
                  anchored[i].connectionId in r.books && anchored[i].connectionId !in st.books && r.books[anchored[i].connectionId] == RestoreAnchored(anchored[i]))
            && (forall c :: c in r.books ==> c in st.books || Holds(anchored, c))
  {
    hide RestoreAnchored, KeyedBooks;
    if anchored != [] {
      var front, last := anchored[..|anchored| - 1], anchored[|anchored| - 1];
      StartedBooks(st, front);
      var before, r := StartAnchored(st, front).value, StartAnchored(st, anchored).value;
      forall c | c in r.books && c !in st.books
        ensures Holds(anchored, c)
      {
        if c != last.connectionId {
          assert Holds(front, c);
          var i :| 0 <= i < |front| && front[i].connectionId == c;
          assert anchored[i].connectionId == c;
        } else {
          assert anchored[|anchored| - 1].connectionId == c;
        }
      }
      forall i | 0 <= i < |anchored|
        ensures anchored[i].connectionId in r.books && anchored[i].connectionId !in st.books && r.books[anchored[i].connectionId] == RestoreAnchored(anchored[i])
      {
        if i < |front| {
          assert anchored[i] == front[i];
        }
      }
    }
  }

  /** The book that a kept one becomes on the next day. */
  ghost predicate BecomesMirror(l: BookValue, r: BookValue) {
    exists k :: Mirrors(l, r, l.seen, k)
  }

  /** What the next day starts with: exactly the kept books, each a mirror, and the old authority if its book is kept. */
  lemma {:induction false} NextDayHolds(st: DayValue, mayStartEmpty: bool, dayStart: int, dayEnd: int)
    requires Sound(st, dayStart, dayEnd) && BuildCheckpoint(st).Ok?
    requires Start(Some(BuildCheckpoint(st).value), mayStartEmpty, dayEnd).Ok?
    requires forall c :: c in st.books ==> Clean(st.books[c]) && FinalsAscend(st.books[c].pending)
    ensures var next := Start(Some(BuildCheckpoint(st).value), mayStartEmpty, dayEnd).value;
            && (forall c :: c in next.books <==> Kept(st, c))
            && (forall c :: c in next.books ==> BecomesMirror(st.books[c], next.books[c]))
            && next.authority == (if st.authority.Some? && Kept(st, st.authority.value) then st.authority else None)
            && next.lastValid == next.authority && next.validFrom == (if next.authority.Some? then Some(dayEnd) else None)
            && next.activeGaps == {} && next.changes == [] && next.intervals == []
  {
    var checkpoint := BuildCheckpoint(st).value;
    var first, next := StartValid(checkpoint.valid, dayEnd), Start(Some(checkpoint), mayStartEmpty, dayEnd).value;
    ValidPartIsTheAuthority(st, dayStart, dayEnd);
    AnchoredMembers(st.order, st.books);
    StartedBooks(first, checkpoint.anchored);
    assert forall c :: c in st.order <==> c in st.books;
    hide Sound, AnchoredBooks, CheckpointLevels, StartAnchored, KeepsAnchor, BecomesMirror, Ascending, Lists;
    forall c
      ensures c in next.books <==> Kept(st, c)
      ensures c in next.books ==> BecomesMirror(st.books[c], next.books[c])
    {
      KeptMeans(st, c);
      if c in first.books {
        AuthorityIsMirrored(st, dayStart, dayEnd, dayEnd);
      } else if c in next.books {
        var i :| 0 <= i < |checkpoint.anchored| && checkpoint.anchored[i].connectionId == c;
        assert TakenFrom(checkpoint.anchored[i], st.order, st.books);
        AnchoredIsMirrored(st.books[c], checkpoint.anchored[i]);
      }
    }
  }

  /** The authority's book, when it is written, holds no anchor, so it is restored as a mirror. */
  lemma {:induction false} AuthorityIsMirrored(st: DayValue, dayStart: int, now: int, nextStart: int)
    requires Sound(st, dayStart, now) && BuildCheckpoint(st).Ok? && BuildCheckpoint(st).value.valid.Some?
    requires forall c :: c in st.books ==> Clean(st.books[c])
    ensures st.authority.Some? && Kept(st, st.authority.value)
    ensures var first := StartValid(BuildCheckpoint(st).value.valid, nextStart);
            && first.books.Keys == {st.authority.value}
            && BecomesMirror(st.books[st.authority.value], first.books[st.authority.value])
  {
    ValidPartIsTheAuthority(st, dayStart, now);
    AnchoredMembers(st.order, st.books);
    var b := st.books[st.authority.value];
    hide Settled, AnchoredBooks, CheckpointLevels, RowsInOrder, Ascending, Lists, Mirrors, Clean, NotBefore, BookSide;
    if b.anchor.Some? {
      assert false;
    }
    RestoredValidMirrors(b);
  }

  lemma KeptMeans(st: DayValue, c: string)
    requires st.Keyed()
    ensures Kept(st, c) <==> c in st.books && (KeepsAnchor(st.books[c]) || (st.authority == Some(c) && BothSides(st.books[c])))
  {
  }

  lemma AnchoredIsMirrored(l: BookValue, c: AnchoredCheckpoint)
    requires AnchoredCheckpointOf(l) == Ok(c) && Clean(l) && FinalsAscend(l.pending)
    ensures BecomesMirror(l, RestoreAnchored(c))
  {
    hide AnchoredCheckpointOf, RestoreAnchored, Mirrors, Clean, FinalsAscend;
    var k := RestoredAnchoredMirrors(l);
  }

  // ---- Which checkpoints are refused ---------------------------------------------------------------

  /** A connection that the checkpoint already named before its i-th anchored book. */
  predicate NamedBefore(valid: Option<ValidCheckpoint>, anchored: seq<AnchoredCheckpoint>, i: nat)
    requires i < |anchored|
  {
    (valid.Some? && valid.value.connectionId == anchored[i].connectionId) || Holds(anchored[..i], anchored[i].connectionId)
  }

  predicate Acceptable(valid: Option<ValidCheckpoint>, anchored: seq<AnchoredCheckpoint>, i: nat)
    requires i < |anchored|
  {
    !NamedBefore(valid, anchored, i) && !anchored[i].state.Valid?
  }

  ghost predicate AllAcceptable(valid: Option<ValidCheckpoint>, anchored: seq<AnchoredCheckpoint>) {
    forall i: nat :: i < |anchored| ==> Acceptable(valid, anchored, i)
  }

  function Fault(valid: Option<ValidCheckpoint>, anchored: seq<AnchoredCheckpoint>, i: nat): CheckpointError
    requires i < |anchored|
  {
    if NamedBefore(valid, anchored, i) then RepeatedConnection else AnchoredBookIsValid
  }

  /** The first book that cannot be restored, and why. */
  ghost predicate Refused(valid: Option<ValidCheckpoint>, anchored: seq<AnchoredCheckpoint>, error: CheckpointError) {
    exists i: nat :: i < |anchored| && !Acceptable(valid, anchored, i) && AllAcceptable(valid, anchored[..i]) && error == Fault(valid, anchored, i)
  }

  lemma PrefixAcceptable(valid: Option<ValidCheckpoint>, anchored: seq<AnchoredCheckpoint>, n: nat, i: nat)
    requires i < n <= |anchored|
    ensures Acceptable(valid, anchored[..n], i) == Acceptable(valid, anchored, i) && Fault(valid, anchored[..n], i) == Fault(valid, anchored, i)
  {
    assert anchored[..n][..i] == anchored[..i];
  }

  lemma {:induction false} LastAcceptable(valid: Option<ValidCheckpoint>, anchored: seq<AnchoredCheckpoint>)
    requires anchored != []
    ensures var n := |anchored| - 1;
            && (AllAcceptable(valid, anchored) <==> AllAcceptable(valid, anchored[..n]) && Acceptable(valid, anchored, n))
            && (AllAcceptable(valid, anchored[..n]) && !Acceptable(valid, anchored, n) ==> Refused(valid, anchored, Fault(valid, anchored, n)))
            && (forall e :: Refused(valid, anchored[..n], e) ==> Refused(valid, anchored, e))
  {
    hide Acceptable, Fault;
    var n := |anchored| - 1;
    forall i: nat | i < n
      ensures Acceptable(valid, anchored[..n], i) == Acceptable(valid, anchored, i) && Fault(valid, anchored[..n], i) == Fault(valid, anchored, i)
      ensures anchored[..n][..i] == anchored[..i]
    {
      PrefixAcceptable(valid, anchored, n, i);
    }
  }

  lemma StartStep(st: DayValue, anchored: seq<AnchoredCheckpoint>)
    requires st.Keyed() && anchored != []
    ensures var last := anchored[|anchored| - 1];
            var before, r := StartAnchored(st, anchored[..|anchored| - 1]), StartAnchored(st, anchored);
            && (before.Err? ==> r == before)
            && (before.Ok? ==> (r.Ok? <==> last.connectionId !in before.value.books && !last.state.Valid?)
                               && (r.Err? ==> r.error == if last.connectionId in before.value.books then RepeatedConnection else AnchoredBookIsValid))
  {
    hide RestoreAnchored;
  }

  lemma {:induction false} LastStarted(valid: Option<ValidCheckpoint>, anchored: seq<AnchoredCheckpoint>, dayStart: int)
    requires anchored != []
    ensures var n, first := |anchored| - 1, StartValid(valid, dayStart);
            var before, r := StartAnchored(first, anchored[..n]), StartAnchored(first, anchored);
            && (before.Err? ==> r == before)
            && (before.Ok? ==> (r.Ok? <==> Acceptable(valid, anchored, n)) && (r.Err? ==> r.error == Fault(valid, anchored, n)))
  {
    hide *;
    var first, front := StartValid(valid, dayStart), anchored[..|anchored| - 1];
    StartStep(first, anchored);
    if StartAnchored(first, front).Ok? {
      StartedBooks(first, front);
      KnownConnections(first, StartAnchored(first, front).value, valid, anchored, dayStart);
      FaultMeans(valid, anchored, |anchored| - 1);
    }
  }

  lemma FaultMeans(valid: Option<ValidCheckpoint>, anchored: seq<AnchoredCheckpoint>, i: nat)
    requires i < |anchored|
    ensures Acceptable(valid, anchored, i) <==> !NamedBefore(valid, anchored, i) && !anchored[i].state.Valid?
    ensures Fault(valid, anchored, i) == if NamedBefore(valid, anchored, i) then RepeatedConnection else AnchoredBookIsValid
  {
  }

  lemma {:induction false} AnchoredStart(valid: Option<ValidCheckpoint>, anchored: seq<AnchoredCheckpoint>, dayStart: int)
    ensures var r := StartAnchored(StartValid(valid, dayStart), anchored);
            (r.Ok? <==> AllAcceptable(valid, anchored)) && (r.Err? ==> Refused(valid, anchored, r.error))
  {
    if anchored != [] {
      AnchoredStart(valid, anchored[..|anchored| - 1], dayStart);
      LastStarted(valid, anchored, dayStart);
      LastAcceptable(valid, anchored);
      hide *;
    }
  }

  lemma KnownConnections(first: DayValue, before: DayValue, valid: Option<ValidCheckpoint>, anchored: seq<AnchoredCheckpoint>, dayStart: int)
    requires anchored != [] && first == StartValid(valid, dayStart)
    requires forall c :: c in first.books ==> c in before.books
    requires forall i :: 0 <= i < |anchored| - 1 ==> anchored[i].connectionId in before.books
    requires forall c :: c in before.books ==> c in first.books || Holds(anchored[..|anchored| - 1], c)
    ensures anchored[|anchored| - 1].connectionId in before.books <==> NamedBefore(valid, anchored, |anchored| - 1)
  {
  }

  /**
   * A day starts unless it has no checkpoint and needs one, or a checkpoint names a connection twice or has an anchored book
   * that is VALID; the first such book decides the error.
   */
  lemma StartIsExact(checkpoint: Option<DayCheckpoint>, mayStartEmpty: bool, dayStart: int)
    ensures var r := Start(checkpoint, mayStartEmpty, dayStart);
            && (checkpoint.None? ==> (r.Ok? <==> mayStartEmpty) && (r.Ok? ==> r.value == EMPTY_DAY) && (r.Err? ==> r.error == MissingPreviousCheckpoint))
            && (checkpoint.Some? ==>
                  && (r.Ok? <==> AllAcceptable(checkpoint.value.valid, checkpoint.value.anchored))
                  && (r.Err? ==> Refused(checkpoint.value.valid, checkpoint.value.anchored, r.error)))
  {
    if checkpoint.Some? {
      AnchoredStart(checkpoint.value.valid, checkpoint.value.anchored, dayStart);
      hide AllAcceptable, Refused, StartAnchored, StartValid;
    }
  }

  // ---- The order of the books ----------------------------------------------------------------------

  ghost predicate Covered(rows: seq<Row>, order: seq<string>) {
    forall i :: 0 <= i < |rows| ==> rows[i].connectionId in order
  }

  /** Books come in the order of their first row, and none is ever forgotten: the order only grows, at its end. */
  lemma {:induction false} OrderGrows(st: DayValue, rows: seq<Row>, gaps: seq<GapEvent>)
    requires st.Keyed()
    ensures st.order <= Walk(st, rows, gaps).order && Covered(rows, Walk(st, rows, gaps).order)
    decreases |rows| + |gaps|
  {
    if gaps != [] && (rows == [] || EffectiveNs(gaps[0]) <= rows[0].ReceivedNs()) {
      GapKeepsKeyed(st, gaps[0]);
      OrderGrows(HandleGap(st, gaps[0]), rows, gaps[1..]);
      GapKeepsOrder(st, gaps[0]);
      hide HandleRow, HandleGap, Covered;
    } else if rows != [] {
      RowKeepsKeyed(st, rows[0]);
      OrderGrows(HandleRow(st, rows[0]), rows[1..], gaps);
      RowExtendsOrder(st, rows[0]);
      hide HandleRow, HandleGap, Covered;
      OneMoreCovered(rows, HandleRow(st, rows[0]).order, Walk(st, rows, gaps).order);
    }
  }

  lemma OneMoreCovered(rows: seq<Row>, before: seq<string>, order: seq<string>)
    requires rows != [] && rows[0].connectionId in before && before <= order && Covered(rows[1..], order)
    ensures Covered(rows, order)
  {
    forall i | 0 <= i < |rows|
      ensures rows[i].connectionId in order
    {
      if i > 0 {
        assert rows[i] == rows[1..][i - 1];
      }
    }
  }

  lemma GapKeepsOrder(st: DayValue, e: GapEvent)
    requires st.Keyed()
    ensures HandleGap(st, e).order == st.order
  {
  }

  lemma {:induction false} RowExtendsOrder(st: DayValue, row: Row)
    requires st.Keyed()
    ensures var r := HandleRow(st, row).order;
            && st.order <= r && row.connectionId in r && (row.connectionId in st.order ==> r == st.order)
            && |r| <= |st.order| + 1
  {
    hide Step;
  }
}
