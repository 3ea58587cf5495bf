/**
 * What midnight loses (pipeline/l2.py): a book that is neither in the checkpoint nor without anything to lose shows it, by
 * the change that a single row of the next day causes in the uncut book only.
 */
module MidnightLimits {
  import opened Common
  import opened Wrappers
  import opened Sorting
  import opened Bridge
  import opened Book
  import opened Shortcut
  import opened ShortcutLimits
  import opened Checkpoint
  import opened Handoff
  import opened Day
  import opened DayFacts
  import opened DayCheckpoints
  import opened Midnight
  import opened EndToEnd
  import opened TwoDays

  // ---- A diff that has not been seen ---------------------------------------------------------------

  /** A final update id beyond all that were seen. */
  lemma {:induction false} BeyondSeen(seen: set<Identity>) returns (n: int)
    ensures forall i :: i in seen ==> i.final < n
    decreases |seen|
  {
    if seen == {} {
      n := 0;
    } else {
      var i :| i in seen;
      var m := BeyondSeen(seen - {i});
      n := Max(m, i.final + 1);
      forall j | j in seen
        ensures j.final < n
      {
        if j != i {
          assert j in seen - {i};
        }
      }
    }
  }

  /** A row that may come next: later than all the book holds, and not seen by it. */
  predicate MayCome(l: BookValue, row: Row, midnight: int) {
    midnight <= row.ReceivedNs() && row.connectionId == l.connectionId && LaterThanBook(l, row) && (row.DepthRow? ==> IdentityOf(row.diff) !in l.seen)
  }

  /** A row that changes the book and not a fresh one. */
  ghost predicate GivesAway(l: BookValue, row: Row, midnight: int)
    requires l.WellFormed()
  {
    MayCome(l, row, midnight) && Step(l, row.Event()).1.Some? && Step(FreshBook(l.connectionId), row.Event()).1.None?
  }

  // ---- The three books that midnight can lose ------------------------------------------------------

  lemma {:induction false} FreshIsSilent(c: string, e: BookEvent)
    ensures Step(FreshBook(c), e).1.None?
  {
    match e
    case Diff(d) => StaleDoesNotSearch(Buffering(FreshBook(c), d));
    case Snapshot(s) =>
      hide TryBridge;
      SearchCases(Anchoring(FreshBook(c), s));
  }

  /** A diff at the end of what a book holds, covering an id. */
  function DiffAt(l: BookValue, midnight: int, first: int, final: int, previous: int): Row {
    DepthRow(l.connectionId, DepthDiff(UpdateSpan(LastSeq(l), first, final, previous), midnight, "", [], []))
  }

  lemma {:induction false} DiffMayCome(l: BookValue, midnight: int, first: int, final: int, previous: int)
    requires Orderly(l) && LastFinal(l) <= final && forall i :: i in l.seen ==> i.final < final
    ensures MayCome(l, DiffAt(l, midnight, first, final, previous), midnight)
  {
    if l.pending != [] {
      assert forall i :: 0 <= i < |l.pending| - 1 ==> ByReceive(l.pending[i], l.pending[|l.pending| - 1]);
    }
  }

  /** A VALID book is broken by a diff that does not continue it. */
  lemma {:induction false} ValidGivesAway(l: BookValue, midnight: int) returns (row: Row)
    requires l.WellFormed() && Orderly(l) && l.state.Valid?
    ensures GivesAway(l, row, midnight)
  {
    var n := BeyondSeen(l.seen);
    row := DiffAt(l, midnight, n, Max(n, 0), l.previous.value + 1);
    DiffMayCome(l, midnight, n, Max(n, 0), l.previous.value + 1);
    FreshIsSilent(l.connectionId, row.Event());
  }

  /** A snapshot at the last buffered id bridges the buffer, or shows where it breaks. */
  lemma {:induction false} SnapshotSpeaks(l: BookValue, s: DepthSnapshot)
    requires Ordered(l.pending, ByReceive) && FinalsAscend(l.pending) && Forward(l.pending) && l.pending != [] && s.lastUpdateId == LastFinal(l)
    ensures OnSnapshot(l, s).1.Some?
  {
    var anchored := Anchoring(l, s);
    hide TryBridge, ReplayBridge;
    SearchCases(anchored);
    var c := Cut(anchored);
    assert anchored.pending[|l.pending| - 1].span.final == s.lastUpdateId;
    assert c < |anchored.pending|;
    assert l.pending[c].span.first <= l.pending[c].span.final <= LastFinal(l) <= l.pending[c].span.final;
    ReplaySpeaks(anchored, anchored.anchor.value, anchored.pending[c..]);
  }

  lemma {:induction false} BufferGivesAway(l: BookValue, midnight: int) returns (row: Row)
    requires l.WellFormed() && Orderly(l) && Forward(l.pending) && !l.state.Valid? && l.pending != []
    requires l.anchor.Some? ==> l.anchor.value.lastUpdateId <= LastFinal(l)
    ensures GivesAway(l, row, midnight)
  {
    var s := DepthSnapshot(midnight, LastFinal(l), [], []);
    row := SnapshotRow(l.connectionId, s);
    FreshIsSilent(l.connectionId, row.Event());
    SnapshotSpeaks(l, s);
    hide TryBridge, Clean, Ordered;
  }

  lemma ReplaySpeaks(b: BookValue, anchor: Anchor, chain: seq<DepthDiff>)
    requires chain != []
    ensures ReplayBridge(b, anchor, chain).1.Some?
  {
  }

  /** A diff that covers an anchor bridges it when everything buffered ends before it. */
  lemma {:induction false} AnchorBridges(l: BookValue, d: DepthDiff)
    requires l.anchor.Some? && d.span.Covers(l.anchor.value.lastUpdateId) && Ordered(l.pending + [d], ByReceive)
    requires forall i :: 0 <= i < |l.pending| ==> l.pending[i].span.final < l.anchor.value.lastUpdateId
    ensures TryBridge(Buffering(l, d)).1.Some?
  {
    var buffered, k := Buffering(l, d), |l.pending|;
    CutAtNewest(l, d);
    hide TryBridge, ReplayBridge, Cut, Buffering;
    SearchCases(buffered);
    ReplaySpeaks(buffered, buffered.anchor.value, buffered.pending[k..]);
  }

  lemma CutAtNewest(l: BookValue, d: DepthDiff)
    requires l.anchor.Some? && d.span.Covers(l.anchor.value.lastUpdateId)
    requires forall i :: 0 <= i < |l.pending| ==> l.pending[i].span.final < l.anchor.value.lastUpdateId
    ensures var r := Buffering(l, d);
            && r.anchor == l.anchor && r.state == l.state && r.previous == l.previous && r.pending == l.pending + [d] && Cut(r) == |l.pending|
  {
    var r := Buffering(l, d);
    assert forall i :: 0 <= i < |l.pending| ==> r.pending[i] == l.pending[i];
    assert r.pending[|l.pending|] == d && 0 <= Cut(r) <= |l.pending| + 1;
    hide Cut;
  }

  lemma {:induction false} AnchorGivesAway(l: BookValue, midnight: int) returns (row: Row)
    requires l.WellFormed() && Orderly(l) && l.Anchored() && (l.pending == [] || LastFinal(l) < AnchorId(l))
    ensures GivesAway(l, row, midnight)
  {
    var n := BeyondSeen(l.seen);
    var id := l.anchor.value.lastUpdateId;
    var final := Max(Max(n, id), LastFinal(l));
    row := DiffAt(l, midnight, id, final, 0);
    DiffMayCome(l, midnight, id, final, 0);
    FreshIsSilent(l.connectionId, row.Event());
    OrderedWith(l, row);
    assert forall i :: 0 <= i < |l.pending| ==> l.pending[i].span.final <= LastFinal(l);
    AnchorBridges(l, row.diff);
    hide TryBridge, Clean, Ordered;
  }

  /** Every book with something to lose gives itself away by one row. */
  lemma {:induction false} LostBooksShow(l: BookValue, midnight: int) returns (row: Row)
    requires l.WellFormed() && Orderly(l) && Forward(l.pending) && !Idle(l)
    ensures GivesAway(l, row, midnight)
  {
    if l.state.Valid? {
      row := ValidGivesAway(l, midnight);
    } else if l.anchor.Some? && (l.pending == [] || LastFinal(l) < AnchorId(l)) {
      row := AnchorGivesAway(l, midnight);
    } else {
      row := BufferGivesAway(l, midnight);
    }
  }

  // ---- The condition, exactly ----------------------------------------------------------------------

  lemma {:induction false} StepNamesItsBook(b: BookValue, e: BookEvent)
    requires b.WellFormed()
    ensures Step(b, e).1.Some? ==> Step(b, e).1.value.connectionId == b.connectionId
  {
    hide StableSort, ApplyAll;
  }

  /** A row that may come next on its connection. */
  predicate MayFollow(st: DayValue, row: Row, midnight: int)
    requires st.Keyed()
  {
    MayCome(BookOf(st, row.connectionId), row, midnight)
  }

  lemma RowAddsItsChange(st: DayValue, row: Row)
    requires st.Keyed()
    ensures var b := BookOf(st, row.connectionId);
            b.WellFormed() && HandleRow(st, row).changes == st.changes + if Step(b, row.Event()).1.Some? then [Step(b, row.Event()).1.value] else []
  {
    hide Step;
    RowIsAStep(st, row);
    assert st.changes + [] == st.changes;
  }

  lemma {:induction false} SameStepSameChanges(st: DayValue, next: DayValue, row: Row)
    requires st.Keyed() && next.Keyed() && next.changes == []
    requires Step(BookOf(st, row.connectionId), row.Event()).1 == Step(BookOf(next, row.connectionId), row.Event()).1
    ensures ChangesTwin(st.changes, HandleRow(st, row).changes, HandleRow(next, row).changes)
  {
    RowAddsItsChange(st, row);
    RowAddsItsChange(next, row);
    hide Step, HandleRow;
    var change := Step(BookOf(st, row.connectionId), row.Event()).1;
    assert ChangesTwin(st.changes, st.changes, []);
    if change.Some? {
      OneMoreChange(st.changes, st.changes, [], change.value);
    }
  }

  lemma {:induction false} LoneChangeDiffers(st: DayValue, next: DayValue, row: Row)
    requires st.Keyed() && next.Keyed() && next.changes == []
    requires Step(BookOf(st, row.connectionId), row.Event()).1.Some? && Step(BookOf(next, row.connectionId), row.Event()).1.None?
    ensures !ChangesTwin(st.changes, HandleRow(st, row).changes, HandleRow(next, row).changes)
  {
    var c := row.connectionId;
    RowAddsItsChange(st, row);
    RowAddsItsChange(next, row);
    StepNamesItsBook(BookOf(st, c), row.Event());
    assert BookOf(st, c).connectionId == c;
    hide Step, HandleRow;
    var change := Step(BookOf(st, c), row.Event()).1.value;
    ChangesOfConcat(st.changes, [change], c);
    assert [change][..0] == [];
    assert ChangesOf([change], c) == [change];
    assert ChangesOf([], c) == [];
  }

  /**
   * Main result: the next day's first row causes the same changes as it would without midnight, whatever row it is, if and
   * only if every book is in the checkpoint or has nothing to lose.
   */
  lemma {:induction false} MidnightIsInvisibleExactly(st: DayValue, mayStartEmpty: bool, dayStart: int, midnight: int)
    requires Sound(st, dayStart, midnight) && Tidy(st) && BuildCheckpoint(st).Ok? && forall c :: c in st.books ==> Forward(st.books[c].pending)
    ensures var next := Start(Some(BuildCheckpoint(st).value), mayStartEmpty, midnight);
            next.Ok? &&
            (BooksSurvive(st) <==>
             forall row :: MayFollow(st, row, midnight) ==> ChangesTwin(st.changes, HandleRow(st, row).changes, HandleRow(next.value, row).changes))
  {
    NextDayStarts(st, mayStartEmpty, midnight);
    KeyedOfSound(st, dayStart, midnight);
    var next := Start(Some(BuildCheckpoint(st).value), mayStartEmpty, midnight).value;
    NextDayHolds(st, mayStartEmpty, dayStart, midnight);
    hide Sound, BuildCheckpoint, Start, HandleRow, ChangesTwin, Step, BecomesMirror, Kept, Idle;
    if BooksSurvive(st) {
      CutBooksAlike(st, next);
      forall row | MayFollow(st, row, midnight)
        ensures ChangesTwin(st.changes, HandleRow(st, row).changes, HandleRow(next, row).changes)
      {
        SurvivorsStepAlike(st, next, row, midnight);
      }
    } else {
      var c :| c in st.books && !Kept(st, c) && !Idle(st.books[c]);
      var row := LostBooksShow(st.books[c], midnight);
      LoneChangeDiffers(st, next, row);
      assert MayFollow(st, row, midnight);
    }
  }

  lemma BookOfIsWellFormed(st: DayValue, c: string)
    requires st.Keyed()
    ensures BookOf(st, c).WellFormed() && BookOf(st, c).connectionId == c
  {
  }

  lemma BooksOfAlike(st: DayValue, next: DayValue, c: string)
    requires BooksAlike(st, next, ForgottenBy(st))
    ensures SomeAlike(BookOf(st, c), BookOf(next, c), Forgot(ForgottenBy(st), c))
  {
    FreshIsAlike(c);
    hide SomeAlike;
  }

  lemma FollowingRowFits(st: DayValue, row: Row, midnight: int)
    requires st.Keyed() && Tidy(st) && MayFollow(st, row, midnight)
    ensures Fits(BookOf(st, row.connectionId), row.connectionId, [row] + [])
    ensures row.DepthRow? ==> IdentityOf(row.diff) !in Forgot(ForgottenBy(st), row.connectionId)
  {
    FreshIsReady(row.connectionId, [row], []);
    hide Orderly, LaterThanBook, KeyedBooks;
    assert Orderly(BookOf(st, row.connectionId));
  }

  lemma {:induction false} SurvivorsStepAlike(st: DayValue, next: DayValue, row: Row, midnight: int)
    requires st.Keyed() && next.Keyed() && Tidy(st) && next.changes == [] && BooksAlike(st, next, ForgottenBy(st)) && MayFollow(st, row, midnight)
    ensures ChangesTwin(st.changes, HandleRow(st, row).changes, HandleRow(next, row).changes)
  {
    FollowingRowFits(st, row, midnight);
    BooksOfAlike(st, next, row.connectionId);
    BookOfIsWellFormed(st, row.connectionId);
    BookOfIsWellFormed(next, row.connectionId);
    hide *;
    RowStepsAlike(BookOf(st, row.connectionId), BookOf(next, row.connectionId), row, [], Forgot(ForgottenBy(st), row.connectionId));
    SameStepSameChanges(st, next, row);
  }

  // ---- Days that get there -------------------------------------------------------------------------

  lemma OneRow(row: Row)
    ensures EMPTY_DAY.Keyed() && Walk(EMPTY_DAY, [row], []) == HandleRow(EMPTY_DAY, row)
  {
    hide HandleRow;
    RowKeepsKeyed(EMPTY_DAY, row);
    assert [row][1..] == [];
    assert Walk(EMPTY_DAY, [row], []) == Walk(HandleRow(EMPTY_DAY, row), [], []);
  }

  /** A day of one diff whose snapshot does not come before midnight: the diff is lost. */
  lemma {:induction false} BufferIsLost(at: int)
    ensures EMPTY_DAY.Keyed()
    ensures var d := DepthDiff(UpdateSpan(1, 10, 20, 9), at, "", [], []);
            var st := Walk(EMPTY_DAY, [DepthRow("c", d)], []);
            st.Keyed() && BuildCheckpoint(st) == Ok(DayCheckpoint(None, [])) && !BooksSurvive(st)
  {
    var d := DepthDiff(UpdateSpan(1, 10, 20, 9), at, "", [], []);
    var row := DepthRow("c", d);
    OneRow(row);
    RowKeepsKeyed(EMPTY_DAY, row);
    StaleDoesNotSearch(Buffering(FreshBook("c"), d));
    var b := Buffering(FreshBook("c"), d);
    var st := HandleRow(EMPTY_DAY, row);
    assert st == EMPTY_DAY.(order := [] + ["c"], books := map["c" := b]);
    assert st.order[..|st.order| - 1] == [];
    assert AnchoredBooks([], st.books) == Ok([]);
    assert "c" in st.books && !Kept(st, "c") && !Idle(st.books["c"]);
  }

  const BID := [Level(1.0, "1")]
  const ASK := [Level(2.0, "1")]

  lemma OneLevelSide(level: Level)
    requires level.quantity == "1"
    ensures BookSide([level]) == map[level.price := "1"]
  {
    var one := "1";
    assert one[1..] == "" && Mantissa(one) == [one[0]] + Mantissa("");
    assert Mantissa(one) == one && StripSigns(one) == one && one[0] in one;
    assert !IsZero(one);
    assert [level][..0] == [];
  }

  /** A snapshot and a diff that bridges it: the book is VALID at the diff's id. */
  lemma {:induction false} SnapshotThenDiff(s: DepthSnapshot, d: DepthDiff)
    requires s.bids == BID && s.asks == ASK && s.lastUpdateId == 15 && d.span == UpdateSpan(1, 10, 20, 9) && d.bids == [] && d.asks == []
    ensures var b := OnDiff(Anchoring(FreshBook("c"), s), d);
            && b.1.Some? && b.1.value.state.Valid? && b.0.state.Valid? && b.0.connectionId == "c" && b.0.anchor.None? && b.0.previous == Some(20)
            && b.0.bids == map[1.0 := "1"] && b.0.asks == map[2.0 := "1"]
  {
    var anchored := Anchoring(FreshBook("c"), s);
    OneLevelSide(Level(1.0, "1"));
    OneLevelSide(Level(2.0, "1"));
    var buffered := Buffering(anchored, d);
    assert buffered.pending == [d] && [d][0..] == [d];
    hide TryBridge, BookSide;
    SearchCases(buffered);
    assert ChainBreak(Spans([d])) == 1;
    assert [d][..0] == [] && ApplyAll(buffered, [d]) == Apply(buffered, d);
  }

  lemma OneLevelListed(price: Price)
    ensures CheckpointLevels(map[price := "1"]) == [Level(price, "1")]
  {
    var side: Side := map[price := "1"];
    assert side.Keys == {price} && side - {price} == map[];
  }

  lemma FirstRow(row: Row, x: BookValue)
    requires row.connectionId == "c" && Step(FreshBook("c"), row.Event()) == (x, None)
    ensures EMPTY_DAY.Keyed() && HandleRow(EMPTY_DAY, row) == EMPTY_DAY.(order := ["c"], books := map["c" := x])
  {
    hide Step;
    assert [] + ["c"] == ["c"];
  }

  lemma SecondRow(st: DayValue, row: Row, x: BookValue, y: BookValue)
    requires st.Keyed() && st == EMPTY_DAY.(order := ["c"], books := map["c" := x]) && row.connectionId == "c" && x.WellFormed()
    requires Step(x, row.Event()).0 == y && Step(x, row.Event()).1.Some? && Step(x, row.Event()).1.value.state.Valid?
    ensures var r := HandleRow(st, row);
            r.order == ["c"] && r.books == map["c" := y] && r.authority == Some("c") && r.activeGaps == {}
  {
    hide Step;
    assert WithBook(st, "c") == st;
  }

  lemma {:induction false} TwoRows(a: Row, b: Row, x: BookValue, y: BookValue, at: int)
    requires a.connectionId == "c" == b.connectionId && b.ReceivedNs() == at + 1
    requires Step(FreshBook("c"), a.Event()) == (x, None) && x.WellFormed()
    requires Step(x, b.Event()).0 == y && Step(x, b.Event()).1.Some? && Step(x, b.Event()).1.value.state.Valid?
    ensures EMPTY_DAY.Keyed() && var r := Walk(EMPTY_DAY, [a, b], []);
            r.Keyed() && r.order == ["c"] && r.books == map["c" := y] && r.authority == Some("c") && r.activeGaps == {}
  {
    hide HandleRow, Step;
    FirstRow(a, x);
    RowKeepsKeyed(EMPTY_DAY, a);
    var r1 := HandleRow(EMPTY_DAY, a);
    RowKeepsKeyed(r1, b);
    var r2 := HandleRow(r1, b);
    SecondRow(r1, b, x, y);
    assert [a, b][1..] == [b] && [b][1..] == [];
    assert Walk(EMPTY_DAY, [a, b], []) == Walk(r1, [b], []);
    assert Walk(r1, [b], []) == Walk(r2, [], []);
  }

  lemma {:induction false} OneValidBook(st: DayValue, y: BookValue)
    requires st.Keyed() && st.order == ["c"] && st.books == map["c" := y] && st.authority == Some("c") && st.activeGaps == {}
    requires y.state.Valid? && y.anchor.None? && y.previous == Some(20) && y.bids == map[1.0 := "1"] && y.asks == map[2.0 := "1"]
    ensures Survives(st) && BuildCheckpoint(st) == Ok(DayCheckpoint(Some(ValidCheckpoint("c", 20, BID, ASK)), []))
  {
    OneLevelListed(1.0);
    OneLevelListed(2.0);
    hide CheckpointLevels;
    assert 1.0 in y.bids && 2.0 in y.asks;
    assert st.order[..0] == [] && AnchoredBooks([], st.books) == Ok([]);
    assert AnchoredBooks(st.order, st.books) == Ok([]);
    assert Kept(st, "c");
  }

  /** A day that ends VALID writes its book, and loses nothing. */
  lemma {:induction false} AuthorityIsWritten(at: int)
    ensures EMPTY_DAY.Keyed()
    ensures var s, d := DepthSnapshot(at, 15, BID, ASK), DepthDiff(UpdateSpan(1, 10, 20, 9), at + 1, "", [], []);
            var st := Walk(EMPTY_DAY, [SnapshotRow("c", s), DepthRow("c", d)], []);
            && st.Keyed() && Survives(st)
            && BuildCheckpoint(st) == Ok(DayCheckpoint(Some(ValidCheckpoint("c", 20, BID, ASK)), []))
  {
    var s, d := DepthSnapshot(at, 15, BID, ASK), DepthDiff(UpdateSpan(1, 10, 20, 9), at + 1, "", [], []);
    var x := Anchoring(FreshBook("c"), s);
    WaitingWitness(FreshBook("c"), s);
    SnapshotThenDiff(s, d);
    var y := OnDiff(x, d).0;
    hide OnSnapshot, OnDiff, Walk, BuildCheckpoint, Survives;
    TwoRows(SnapshotRow("c", s), DepthRow("c", d), x, y, at);
    OneValidBook(Walk(EMPTY_DAY, [SnapshotRow("c", s), DepthRow("c", d)], []), y);
  }
}
