/** Runs of a day, from its start, that reach what the day's theorems allow for (pipeline/l2.py, pipeline/quality.py). */
module DayWitnesses {
  import opened Wrappers
  import opened Sorting
  import opened Bridge
  import opened Book
  import opened Checkpoint
  import opened Shortcut
  import opened Ledger
  import opened Day
  import opened DayFacts
  import opened Intervals
  import opened Quality
  import opened EndToEnd
  import opened Completeness

  const CONNECTION := "c"

  function FirstSnapshot(at: int): DepthSnapshot {
    DepthSnapshot(at, 100, [], [])
  }

  function FirstDiff(at: int): DepthDiff {
    DepthDiff(UpdateSpan(1, 90, 110, 89), at, "h", [], [])
  }

  /** A snapshot, and a nanosecond later a diff that bridges it. */
  function BridgingRows(at: int): seq<Row> {
    [SnapshotRow(CONNECTION, FirstSnapshot(at)), DepthRow(CONNECTION, FirstDiff(at + 1))]
  }

  lemma BridgingTimes(at: int)
    ensures var rows := BridgingRows(at);
            rows == [rows[0], rows[1]] && rows[0].ReceivedNs() == at && rows[1].ReceivedNs() == at + 1
  {
  }

  lemma {:induction false} OneDiffBridgesAt(b: BookValue, anchor: Anchor, d: DepthDiff)
    requires anchor.receivedNs <= d.receivedNs
    ensures var r := ReplayBridge(b, anchor, [d]);
            r.0.state.Valid? && r.1.Some? && r.1.value.state.Valid? && r.1.value.atNs == d.receivedNs
  {
    assert ChainBreak(Spans([d])) == 1;
  }

  lemma {:induction false} DiffBridges(b: BookValue, d: DepthDiff)
    requires b.WellFormed() && b.Anchored() && b.pending == [] && IdentityOf(d) !in b.seen
    requires d.span.Covers(b.anchor.value.lastUpdateId) && b.anchor.value.receivedNs <= d.receivedNs
    ensures var r := OnDiff(b, d);
            r.0.state.Valid? && r.1.Some? && r.1.value.state.Valid? && r.1.value.atNs == d.receivedNs
  {
    hide TryBridge, ReplayBridge;
    var buffered := Buffering(b, d);
    assert buffered.pending == [d] && [d][0..] == [d];
    SearchCases(buffered);
    OneDiffBridgesAt(buffered, buffered.anchor.value, d);
  }

  /** A day's value with one book, in a state where no row is open. */
  function OneBook(st: DayValue, b: BookValue): DayValue {
    st.(order := [CONNECTION], books := map[CONNECTION := b])
  }

  ghost predicate Bare(st: DayValue) {
    st.order == [] && st.books == map[] && st.authority.None? && st.validFrom.None? && st.intervals == []
  }

  lemma {:induction false} SnapshotRowAnchors(st: DayValue, s: DepthSnapshot)
    requires Bare(st)
    ensures st.Keyed() && HandleRow(st, SnapshotRow(CONNECTION, s)) == OneBook(st, Anchoring(FreshBook(CONNECTION), s))
  {
    hide OnSnapshot, Anchoring;
    WaitingWitness(FreshBook(CONNECTION), s);
    assert WithBook(st, CONNECTION) == OneBook(st, FreshBook(CONNECTION));
  }

  lemma {:induction false} DiffRowBridges(st: DayValue, b: BookValue, d: DepthDiff)
    requires Bare(st) && b.connectionId == CONNECTION && b.WellFormed() && b.Anchored() && b.pending == [] && IdentityOf(d) !in b.seen
    requires d.span.Covers(b.anchor.value.lastUpdateId) && b.anchor.value.receivedNs <= d.receivedNs
    ensures OneBook(st, b).Keyed()
    ensures var r := HandleRow(OneBook(st, b), DepthRow(CONNECTION, d));
            && r.Keyed() && CONNECTION in r.books && r.books[CONNECTION].state.Valid?
            && r.lastValid == Some(CONNECTION) && r.activeGaps == st.activeGaps && r.intervals == []
            && (if st.activeGaps == {} then r.authority == Some(CONNECTION) && r.validFrom == Some(d.receivedNs) else r.authority.None?)
  {
    hide OnDiff;
    DiffBridges(b, d);
    assert WithBook(OneBook(st, b), CONNECTION) == OneBook(st, b);
    RowKeepsKeyed(OneBook(st, b), DepthRow(CONNECTION, d));
  }

  /** The state after those rows, from a state without books and rows. */
  lemma {:induction false} RowsBridge(st: DayValue, at: int) returns (r1: DayValue, r: DayValue)
    requires Bare(st)
    ensures st.Keyed() && r1.Keyed() && r.Keyed()
    ensures r1 == HandleRow(st, BridgingRows(at)[0]) && r == HandleRow(r1, BridgingRows(at)[1])
    ensures CONNECTION in r.books && r.books[CONNECTION].state.Valid?
    ensures r.lastValid == Some(CONNECTION) && r.activeGaps == st.activeGaps && r.intervals == []
    ensures if st.activeGaps == {} then r.authority == Some(CONNECTION) && r.validFrom == Some(at + 1) else r.authority.None?
  {
    hide HandleRow;
    var b := Anchoring(FreshBook(CONNECTION), FirstSnapshot(at));
    SnapshotRowAnchors(st, FirstSnapshot(at));
    DiffRowBridges(st, b, FirstDiff(at + 1));
    r1 := OneBook(st, b);
    r := HandleRow(r1, DepthRow(CONNECTION, FirstDiff(at + 1)));
  }

  /** Two rows, and a gap event after them. */
  lemma {:induction false} TwoRowsThenGap(st: DayValue, a: Row, b: Row, e: GapEvent)
    requires st.Keyed() && a.ReceivedNs() < EffectiveNs(e) && b.ReceivedNs() < EffectiveNs(e)
    ensures var r1 := HandleRow(st, a);
            && r1.Keyed()
            && var r2 := HandleRow(r1, b);
            && r2.Keyed() && Walk(st, [a, b], [e]) == HandleGap(r2, e) && Lost(st, [a, b], [e]) == LostBy(r2, e)
  {
    hide HandleRow, HandleGap, KeyedBooks, EffectiveNs, LostBy;
    RowKeepsKeyed(st, a);
    var r1 := HandleRow(st, a);
    RowKeepsKeyed(r1, b);
    var r2 := HandleRow(r1, b);
    GapKeepsKeyed(r2, e);
    assert [a, b][1..] == [b] && [b][1..] == [] && [e][1..] == [];
    assert Lost(HandleGap(r2, e), [], []) == [];
    assert Lost(r2, [], [e]) == LostBy(r2, e) + [];
    assert Lost(r1, [b], [e]) == Lost(r2, [], [e]);
    assert Walk(r2, [], [e]) == Walk(HandleGap(r2, e), [], []);
    assert Walk(r1, [b], [e]) == Walk(r2, [], [e]);
  }

  // ---- A gap cut at midnight ---------------------------------------------------------------------

  function Opening(at: int): GapEvent {
    GapEvent(1, Open, at, None, "r", [], [], "")
  }

  function Closing(at: int, detail: string): GapEvent {
    GapEvent(1, Closed, at, None, "r", [], [], detail)
  }

  /** The book bridges while the gap is open, and the gap is cut at the day's end. */
  function CutLedger(dayStart: int, dayEnd: int): seq<GapEvent> {
    [Opening(dayStart), Closing(dayEnd - 1, CONTINUES)]
  }

  lemma {:induction false} CutLedgerFolds(dayStart: int, dayEnd: int)
    ensures CutAtMidnight(FoldGaps(CutLedger(dayStart, dayEnd)), dayEnd)
  {
    var l, open, closed := CutLedger(dayStart, dayEnd), Opening(dayStart), Closing(dayEnd - 1, CONTINUES);
    assert l[..1] == [open] && [open][..0] == [];
    assert FoldGaps([open]) == FoldGap(FoldGaps([]), open);
    assert FoldGaps(l) == FoldGap(FoldGaps([open]), closed);
    assert FoldGaps(l).closed == [] + [Interval(dayStart, dayEnd)];
    assert Interval(dayStart, dayEnd) in FoldGaps(l).closed;
  }

  lemma {:induction false} CutLedgerIsSorted(dayStart: int, dayEnd: int)
    requires dayStart + 3 < dayEnd
    ensures var l := CutLedger(dayStart, dayEnd); Select(l, "s") == l && StableSort(l, ByKey) == l
  {
    var l, open, closed := CutLedger(dayStart, dayEnd), Opening(dayStart), Closing(dayEnd - 1, CONTINUES);
    assert l == [open] + [closed];
    assert l[1..] == [closed] && [closed][1..] == [];
    assert Select([closed], "s") == [closed] + Select([], "s");
    assert Select(l, "s") == [open] + Select([closed], "s");
    assert Pairwise(l, ByKey);
    hide Select, ByKey;
    SortKeepsPairwise(l, ByKey);
  }

  lemma {:induction false} CutLedgerInDay(dayStart: int, dayEnd: int)
    requires dayStart + 3 < dayEnd
    ensures InDay(BridgingRows(dayStart + 1), CutLedger(dayStart, dayEnd), dayStart, dayEnd)
  {
    var l := CutLedger(dayStart, dayEnd);
    BridgingTimes(dayStart + 1);
    hide BridgingRows, FirstDiff, FirstSnapshot;
    assert forall e :: e in l ==> e == l[0] || e == l[1];
  }

  lemma OpeningLeavesBare(at: int)
    ensures EMPTY_DAY.Keyed() && Bare(HandleGap(EMPTY_DAY, Opening(at))) && HandleGap(EMPTY_DAY, Opening(at)).activeGaps == {1}
  {
  }

  lemma ClosingRestores(st: DayValue, at: int, detail: string)
    requires st.Keyed() && CONNECTION in st.books && st.books[CONNECTION].state.Valid?
    requires st.lastValid == Some(CONNECTION) && st.activeGaps == {1}
    ensures HandleGap(st, Closing(at, detail)).Keyed() && HandleGap(st, Closing(at, detail)).authority.Some?
  {
    assert st.activeGaps - {1} == {};
  }

  lemma CutLedgerOpens(dayStart: int, dayEnd: int)
    ensures var l := CutLedger(dayStart, dayEnd);
            && GapFirst(BridgingRows(dayStart + 1), l) && l[0] == Opening(dayStart) && l[1..] == [Closing(dayEnd - 1, CONTINUES)]
            && EffectiveNs(Closing(dayEnd - 1, CONTINUES)) == dayEnd - 1
  {
  }

  lemma {:induction false} CutDayEndsValid(dayStart: int, dayEnd: int)
    requires dayStart + 3 < dayEnd
    ensures EMPTY_DAY.Keyed() && Walk(EMPTY_DAY, BridgingRows(dayStart + 1), CutLedger(dayStart, dayEnd)).authority.Some?
  {
    hide *;
    OpeningLeavesBare(dayStart);
    BridgingTimes(dayStart + 1);
    CutLedgerOpens(dayStart, dayEnd);
    var rows, l, closed := BridgingRows(dayStart + 1), CutLedger(dayStart, dayEnd), Closing(dayEnd - 1, CONTINUES);
    var st := HandleGap(EMPTY_DAY, Opening(dayStart));
    WalksOn(EMPTY_DAY, rows, l);
    var r1, r2 := RowsBridge(st, dayStart + 1);
    TwoRowsThenGap(st, rows[0], rows[1], closed);
    ClosingRestores(r2, dayEnd - 1, CONTINUES);
  }

  /** On such a day, of any length, the conflict that quality measures is the nanosecond before midnight. */
  lemma {:induction false} CutGapConflicts(dayStart: int, dayEnd: int)
    requires dayStart + 3 < dayEnd
    ensures var rows, ledger := BridgingRows(dayStart + 1), CutLedger(dayStart, dayEnd);
            && InDay(rows, Select(ledger, "s"), dayStart, dayEnd)
            && var st := Walk(Start(None, true, dayStart).value, rows, StableSort(Select(ledger, "s"), ByKey));
            Conflict(st, ExplicitInvalid(ledger, "s", dayStart, dayEnd), dayEnd, dayStart, dayEnd) == {dayEnd - 1}
  {
    hide Walk, Select, StableSort, InDay, Conflict, ExplicitInvalid, FoldGaps, CutAtMidnight, BridgingRows, CutLedger;
    CutLedgerIsSorted(dayStart, dayEnd);
    CutLedgerInDay(dayStart, dayEnd);
    CutLedgerFolds(dayStart, dayEnd);
    CutDayEndsValid(dayStart, dayEnd);
    RowsNeverMeetGaps(None, true, BridgingRows(dayStart + 1), CutLedger(dayStart, dayEnd), "s", dayStart, dayEnd, dayStart, dayEnd);
  }

  // ---- A CLOSED event without an open gap --------------------------------------------------------

  /** The book bridges two nanoseconds into the day, and a CLOSED event without an OPEN follows. */
  lemma {:induction false} StrayCloseLosesTime(dayStart: int, at: int, dayEnd: int)
    requires dayStart + 2 < at < dayEnd
    ensures var rows, ledger := BridgingRows(dayStart + 1), [Closing(at, "")];
            && InDay(rows, Select(ledger, "s"), dayStart, dayEnd)
            && var start, gaps := Start(None, true, dayStart).value, StableSort(Select(ledger, "s"), ByKey);
            && Lost(start, rows, gaps) == [Interval(dayStart + 2, at)]
            && forall t :: dayStart + 2 <= t < at ==>
                 LastValidHolds(StateAt(start, rows, gaps, t)) && !CoversPoint(Written(Walk(start, rows, gaps), dayEnd), t)
  {
    var rows, ledger := BridgingRows(dayStart + 1), [Closing(at, "")];
    assert ledger[1..] == [];
    assert Select(ledger, "s") == ledger;
    SortKeepsPairwise(ledger, ByKey);
    assert InDay(rows, ledger, dayStart, dayEnd);
    assert EMPTY_DAY.Keyed();
    StrayIsLost(dayStart, at);
    hide Lost, Walk, StateAt, LastValidHolds, InDay, Select, StableSort, BridgingRows, Begins, Written;
    EveryDayBegins(None, true, rows, ledger, "s", dayStart, dayEnd);
    forall t | dayStart + 2 <= t < at
      ensures LastValidHolds(StateAt(EMPTY_DAY, rows, ledger, t)) && !CoversPoint(Written(Walk(EMPTY_DAY, rows, ledger), dayEnd), t)
    {
      RowsAreComplete(EMPTY_DAY, rows, ledger, dayStart, dayEnd, t);
      assert [Interval(dayStart + 2, at)][0].from <= t < [Interval(dayStart + 2, at)][0].to;
    }
  }

  lemma {:induction false} StrayIsLost(dayStart: int, at: int)
    requires dayStart + 2 < at
    ensures EMPTY_DAY.Keyed() && Lost(EMPTY_DAY, BridgingRows(dayStart + 1), [Closing(at, "")]) == [Interval(dayStart + 2, at)]
  {
    var rows, e := BridgingRows(dayStart + 1), Closing(at, "");
    BridgingTimes(dayStart + 1);
    assert EffectiveNs(e) == at;
    assert Bare(EMPTY_DAY);
    hide FirstDiff, FirstSnapshot, BridgingRows, HandleRow, KeyedBooks, Walk, Lost;
    var r1, r2 := RowsBridge(EMPTY_DAY, dayStart + 1);
    TwoRowsThenGap(EMPTY_DAY, rows[0], rows[1], e);
  }

  // ---- An opening at zero --------------------------------------------------------------------------

  /** On day zero: a gap with a zero affected_from, observed later and then closed. */
  function ZeroLedger(observed: int, closed: int): seq<GapEvent> {
    [GapEvent(1, Open, observed, Some(0), "r", [], [], ""), Closing(closed, "")]
  }

  lemma {:induction false} ZeroLedgerIsSorted(observed: int, closed: int)
    requires 0 < observed < closed
    ensures var l := ZeroLedger(observed, closed);
            Select(l, "s") == l && StableSort(l, ByKey) == l && StableSort(l, ByQualityKey) == l
  {
    var l := ZeroLedger(observed, closed);
    assert l == [l[0]] + [l[1]] && l[1..] == [l[1]] && [l[1]][1..] == [];
    assert Select([l[1]], "s") == [l[1]] + Select([], "s");
    assert Select(l, "s") == [l[0]] + Select([l[1]], "s");
    assert Pairwise(l, ByKey) && Pairwise(l, ByQualityKey);
    hide Select, ByKey, ByQualityKey;
    SortKeepsPairwise(l, ByKey);
    SortKeepsPairwise(l, ByQualityKey);
  }

  lemma {:induction false} ZeroGapSpans(observed: int, closed: int, windowEnd: int)
    requires 0 < observed < closed
    ensures GapSpans(ZeroLedger(observed, closed), windowEnd) == [Interval(observed, closed)]
  {
    var l := ZeroLedger(observed, closed);
    assert l[..1] == [l[0]] && [l[0]][..0] == [];
    assert FoldGaps([l[0]]) == FoldGap(FoldGaps([]), l[0]);
    assert FoldGaps(l) == FoldGap(FoldGaps([l[0]]), l[1]);
    assert FoldGaps(l) == GapFold([], [] + [Interval(observed, closed)]);
  }

  function RowAtZero(c: ValidCheckpoint): ValidityRow {
    ValidityRow(0, 0, c.connectionId, ByTransportGap)
  }

  lemma {:induction false} ZeroDayOpens(c: ValidCheckpoint, observed: int, closed: int)
    requires 0 < observed < closed
    ensures var start := StartValid(Some(c), 0);
            && start.authority.Some? && start.Keyed()
            && var st := HandleGap(start, ZeroLedger(observed, closed)[0]);
            st.Keyed() && st.intervals == [RowAtZero(c)] && st.authority.None? && st.lastValid.None?
  {
    var start, e := StartValid(Some(c), 0), ZeroLedger(observed, closed)[0];
    GapKeepsKeyed(start, e);
    assert HandleGap(start, e).intervals == [] + [RowAtZero(c)];
  }

  lemma ZeroDayCloses(st: DayValue, observed: int, closed: int)
    requires st.Keyed() && st.authority.None? && st.lastValid.None?
    ensures var r := HandleGap(st, ZeroLedger(observed, closed)[1]);
            r.Keyed() && r.intervals == st.intervals && r.authority.None?
  {
    GapKeepsKeyed(st, ZeroLedger(observed, closed)[1]);
  }

  /** A VALID book from the day before is ended at zero, and nothing is written. */
  lemma {:induction false} ZeroDayWritesNothing(c: ValidCheckpoint, observed: int, closed: int, dayEnd: int)
    requires 0 < observed < closed
    ensures var start := StartValid(Some(c), 0);
            start.authority.Some? && Written(Walk(start, [], ZeroLedger(observed, closed)), dayEnd) == []
  {
    var start, l := StartValid(Some(c), 0), ZeroLedger(observed, closed);
    assert l == [l[0], l[1]] && l[1..] == [l[1]] && [l[1]][1..] == [];
    ZeroDayOpens(c, observed, closed);
    hide HandleGap, KeyedBooks, StartValid, ZeroLedger;
    var st := HandleGap(start, l[0]);
    ZeroDayCloses(st, observed, closed);
    var end := HandleGap(st, l[1]);
    assert NonEmpty([RowAtZero(c)]) == [] by {
      assert [RowAtZero(c)][..0] == [];
    }
    WalksOn(start, [], l);
    WalksOn(st, [], [l[1]]);
    WalksOn(end, [], []);
  }

  lemma {:induction false} OnlyInside(spans: seq<Interval>, from: int, to: int, valid: seq<Interval>, windowEnd: int, t: int)
    requires spans == [Interval(from, to)] && t < from
    ensures !CoversPoint(Extended(Clip(spans, 0, windowEnd), valid, windowEnd), t)
  {
    assert spans[1..] == [];
    assert Clip([], 0, windowEnd) == [];
    hide ExtendedEnd;
  }

  /**
   * Only day zero can show it: there, from a VALID checkpoint, the time before an OPEN with a zero affected_from was
   * observed is neither in the written rows nor in the invalid intervals, even when these are extended.
   */
  lemma {:induction false} ZeroOpeningIsUnaccounted(c: ValidCheckpoint, observed: int, closed: int, dayEnd: int, t: int)
    requires 0 <= t < observed < closed < dayEnd
    ensures var start, ledger := Start(Some(DayCheckpoint(Some(c), [])), false, 0), ZeroLedger(observed, closed);
            && start.Ok? && start.value.authority.Some?
            && var rows := Written(Walk(start.value, [], StableSort(Select(ledger, "s"), ByKey)), dayEnd);
            && t !in Points(rows, 0, dayEnd)
            && t !in Points(Extended(ExplicitInvalid(ledger, "s", 0, dayEnd), rows, dayEnd), 0, dayEnd)
  {
    ZeroLedgerIsSorted(observed, closed);
    ZeroGapSpans(observed, closed, dayEnd);
    ZeroDayWritesNothing(c, observed, closed, dayEnd);
    hide Walk, Written, StableSort, Select, GapSpans, ZeroLedger, Clip, Extended;
    OnlyInside([Interval(observed, closed)], observed, closed, [], dayEnd, t);
  }
}
