/**
 * Reconstruction and quality together: the validity rows of a day never meet the ledger's gaps,
 * except for the one nanosecond before midnight that quality adds back to a continuing gap.
 */
module EndToEnd {
  import opened Common
  import opened Wrappers
  import opened Sorting
  import opened Book
  import opened Checkpoint
  import opened Ledger
  import opened Day
  import opened DayFacts
  import opened Intervals
  import opened Quality

  // ---- Rows and gaps stay apart ----------------------------------------------------------------

  /** A gap and a row share no nanosecond before the limit. */
  predicate Apart(gap: Interval, row: ValidityRow, limit: int) {
    row.to <= gap.from || Min(gap.to, limit) <= row.from
  }

  ghost predicate GapsApart(st: DayValue, f: GapFold, now: int, limit: int) {
    && (forall id :: id in st.activeGaps <==> IsOpen(f.openGaps, id))
    && Distinct(f.openGaps)
    && (forall g :: g in f.openGaps ==> g.start <= now && forall i :: 0 <= i < |st.intervals| ==> st.intervals[i].to <= g.start)
    && (forall s :: s in f.closed ==> s.from <= now && s.to <= limit + 1 && Min(s.to, limit) <= now)
    && (forall s :: s in f.closed ==> forall i :: 0 <= i < |st.intervals| ==> Apart(s, st.intervals[i], limit))
    && (st.validFrom.Some? ==> forall s :: s in f.closed ==> Min(s.to, limit) <= st.validFrom.value)
  }

  lemma {:induction false} GapsApartLater(st: DayValue, f: GapFold, now: int, later: int, limit: int)
    requires GapsApart(st, f, now, limit) && now <= later
    ensures GapsApart(st, f, later, limit)
  {
  }

  /** Closing the open row now keeps it apart from every gap that has ended. */
  lemma {:induction false} EmitKeepsApart(st: DayValue, f: GapFold, now: int, limit: int, reason: EndReason, dayStart: int)
    requires GapsApart(st, f, now, limit) && AuthorityHolds(st) && RowsInOrder(st, dayStart, now)
    ensures var e := Emit(st, now, reason);
            && (forall i :: 0 <= i < |e.intervals| ==> e.intervals[i].to <= now)
            && (forall s :: s in f.closed ==> forall i :: 0 <= i < |e.intervals| ==> Apart(s, e.intervals[i], limit))
            && (st.authority.Some? ==> f.openGaps == [])
            && (st.authority.None? ==> e == st)
  {
    if st.authority.Some? && f.openGaps != [] {
      assert IsOpen(f.openGaps, f.openGaps[0].gapId);
      assert false;
    }
  }

  lemma {:induction false} OpenKeepsApart(st: DayValue, f: GapFold, e: GapEvent, now: int, limit: int, dayStart: int)
    requires GapsApart(st, f, now, limit) && Sound(st, dayStart, now) && now <= limit
    requires e.state.Open? && EffectiveNs(e) == QualityEffectiveNs(e) == now
    ensures GapsApart(HandleGap(st, e), FoldGap(f, e), now, limit)
  {
    hide Emit, GapChanges, IsOpen, SetOpen, Distinct, Settled;
    EmitKeepsApart(st, f, now, limit, ByTransportGap, dayStart);
    EmitKeepsOrder(st, dayStart, now, ByTransportGap);
    SetOpenFacts(f.openGaps, e.gapId, now);
    var r, g := HandleGap(st, e), FoldGap(f, e);
    var emitted := Emit(st, now, ByTransportGap);
    assert r.intervals == emitted.intervals;
    forall x | x in g.openGaps
      ensures x.start <= now && forall i :: 0 <= i < |r.intervals| ==> r.intervals[i].to <= x.start
    {
      if x != Opened(e.gapId, now) {
        assert x in f.openGaps;
        assert f.openGaps != [];
        assert emitted == st;
      }
    }
  }

  lemma {:induction false} CloseKeepsApart(st: DayValue, f: GapFold, e: GapEvent, now: int, limit: int, dayStart: int)
    requires GapsApart(st, f, now, limit) && Sound(st, dayStart, now) && now <= limit
    requires e.state.Closed? && EffectiveNs(e) == QualityEffectiveNs(e) == now
    requires e.detail == CONTINUES ==> now == limit
    ensures GapsApart(HandleGap(st, e), FoldGap(f, e), now, limit)
  {
    hide IsOpen, DropOpen, StartOf, Distinct, Settled;
    DropOpenFacts(f.openGaps, e.gapId);
    var r, g := HandleGap(st, e), FoldGap(f, e);
    assert r.intervals == st.intervals;
    if IsOpen(f.openGaps, e.gapId) {
      var start := StartOf(f.openGaps, e.gapId);
      assert Opened(e.gapId, start) in f.openGaps;
      assert g.closed == f.closed + [Interval(start, ClosedEnd(e))];
      assert Min(ClosedEnd(e), limit) == now;
    }
  }

  lemma {:induction false} RowKeepsApart(st: DayValue, f: GapFold, row: Row, now: int, limit: int, dayStart: int)
    requires GapsApart(st, f, now, limit) && Sound(st, dayStart, now) && now <= limit
    requires row.ReceivedNs() == now
    ensures GapsApart(HandleRow(st, row), f, now, limit)
  {
    hide Step, Settled, GapsApart, OnChange;
    var c := row.connectionId;
    var ready := WithBook(st, c);
    WithBookIsSound(st, c, dayStart, now);
    StepHappensNow(ready.books[c], row, now);
    var (b, change) := Step(ready.books[c], row.Event());
    SameRowsApart(st, Moved(ready, c, b), f, now, limit);
    if change.Some? {
      var x := change.value;
      var noted := Moved(ready, c, b).(changes := ready.changes + [x]);
      SameRowsApart(st, noted, f, now, limit);
      SameRowsApart(st, noted.(lastValid := Some(c)), f, now, limit);
      ChangeKeepsApart(ready, Moved(ready, c, b), f, c, x, now, limit, dayStart);
    }
  }

  lemma {:induction false} SameRowsApart(st: DayValue, r: DayValue, f: GapFold, now: int, limit: int)
    requires GapsApart(st, f, now, limit)
    requires r.activeGaps == st.activeGaps && r.intervals == st.intervals && r.validFrom == st.validFrom
    ensures GapsApart(r, f, now, limit)
  {
  }

  lemma {:induction false} ChangeKeepsApart(st: DayValue, moved: DayValue, f: GapFold, c: string, change: StateChange, now: int, limit: int, dayStart: int)
    requires GapsApart(moved, f, now, limit) && AuthorityHolds(st) && RowsInOrder(st, dayStart, now) && now <= limit
    requires c in st.books && moved == st.(books := moved.books)
    requires change.state.Valid? || st.books[c].state.Valid? ==> change.atNs == now
    ensures GapsApart(OnChange(moved, c, change), f, now, limit)
  {
    hide IsOpen, Distinct, Emit;
    GapsApartCore(st, moved, f, now, limit);
    EmitKeepsApart(st, f, now, limit, ByConnectionSwitch, dayStart);
    EmitKeepsApart(st, f, now, limit, ByChange(change.reason), dayStart);
    EmitFrame(st, moved.(changes := moved.changes + [change]), now, ByChange(change.reason));
    EmitFrame(st, moved.(changes := moved.changes + [change], lastValid := Some(c)), now, ByConnectionSwitch);
    var r := OnChange(moved, c, change);
    if change.state.Valid? && moved.activeGaps == {} {
      if f.openGaps != [] {
        OpenHead(f.openGaps);
        assert false;
      }
    }
  }

  lemma {:induction false} OpenHead(o: seq<Opened>)
    requires o != []
    ensures IsOpen(o, o[0].gapId)
  {
  }

  lemma {:induction false} GapsApartCore(st: DayValue, moved: DayValue, f: GapFold, now: int, limit: int)
    requires GapsApart(moved, f, now, limit) && moved == st.(books := moved.books)
    ensures GapsApart(st, f, now, limit)
  {
  }

  lemma {:induction false} EmitFrame(st: DayValue, r: DayValue, to: int, reason: EndReason)
    requires r.intervals == st.intervals && r.authority == st.authority && r.validFrom == st.validFrom
    ensures Emit(r, to, reason).intervals == Emit(st, to, reason).intervals
    ensures Emit(r, to, reason) == r.(intervals := Emit(r, to, reason).intervals)
  {
  }

  /** Gap events the collector writes: readings agree, and only the last nanosecond of a day continues a gap. */
  ghost predicate Regular(gaps: seq<GapEvent>, limit: int) {
    forall i :: 0 <= i < |gaps| ==>
      && EffectiveNs(gaps[i]) == QualityEffectiveNs(gaps[i])
      && (gaps[i].state.Closed? && gaps[i].detail == CONTINUES ==> EffectiveNs(gaps[i]) == limit)
  }

  /** Along the whole walk, rows and gaps stay apart; past is what was handled already. */
  lemma {:induction false} WalkKeepsApart(st: DayValue, rows: seq<Row>, past: seq<GapEvent>, gaps: seq<GapEvent>, dayStart: int, now: int, limit: int)
    requires Sound(st, dayStart, now) && TimeOrdered(rows, gaps, now, limit) && Regular(gaps, limit)
    requires GapsApart(st, FoldGaps(past), now, limit)
    ensures GapsApart(Walk(st, rows, gaps), FoldGaps(past + gaps), limit, limit)
    decreases |rows| + |gaps|
  {
    hide HandleGap, HandleRow, Sound, TimeOrdered, GapsApart, FoldGap;
    KeyedOfSound(st, dayStart, now);
    NowWithinLimit(rows, gaps, now, limit);
    TimeMoves(rows, gaps, now, limit);
    var f := FoldGaps(past);
    if GapFirst(rows, gaps) {
      var t := EffectiveNs(gaps[0]);
      SoundLater(st, dayStart, now, t);
      GapsApartLater(st, f, now, t, limit);
      GapIsSound(st, gaps[0], dayStart, t);
      if gaps[0].state.Open? {
        OpenKeepsApart(st, f, gaps[0], t, limit, dayStart);
      } else {
        CloseKeepsApart(st, f, gaps[0], t, limit, dayStart);
      }
      assert (past + [gaps[0]])[..|past|] == past;
      assert past + [gaps[0]] + gaps[1..] == past + gaps;
      WalkKeepsApart(HandleGap(st, gaps[0]), rows, past + [gaps[0]], gaps[1..], dayStart, t, limit);
    } else if rows != [] {
      var t := rows[0].ReceivedNs();
      SoundLater(st, dayStart, now, t);
      GapsApartLater(st, f, now, t, limit);
      RowIsSound(st, rows[0], dayStart, t);
      RowKeepsApart(st, f, rows[0], t, limit, dayStart);
      WalkKeepsApart(HandleRow(st, rows[0]), rows[1..], past, gaps, dayStart, t, limit);
    } else {
      assert past + gaps == past;
      GapsApartLater(st, f, now, limit, limit);
    }
  }

  // ---- The conflict of a finished day ------------------------------------------------------------

  /** The rows a finished day writes. */
  function Written(st: DayValue, dayEnd: int): seq<Interval> {
    RowSpans(NonEmpty(Emit(st, dayEnd, ByUtcDayEnd).intervals))
  }

  /** Some gap of the day was cut at its midnight. */
  ghost predicate CutAtMidnight(f: GapFold, dayEnd: int) {
    exists s :: s in f.closed && s.to == dayEnd
  }

  lemma {:induction false} CoveredByWritten(st: DayValue, dayStart: int, dayEnd: int, t: int)
    requires Sound(st, dayStart, dayEnd - 1)
    ensures var rows := Emit(st, dayEnd, ByUtcDayEnd).intervals;
            CoversPoint(Written(st, dayEnd), t) <==> exists i :: 0 <= i < |rows| && rows[i].from <= t < rows[i].to
  {
    hide NonEmpty, Sound;
    var rows := Emit(st, dayEnd, ByUtcDayEnd).intervals;
    NonEmptyMembers(rows);
    var kept := NonEmpty(rows);
    var spans := RowSpans(kept);
    if CoversPoint(spans, t) {
      var i :| 0 <= i < |spans| && spans[i].from <= t < spans[i].to;
      assert kept[i] in kept && kept[i] in rows;
    }
    if i :| 0 <= i < |rows| && rows[i].from <= t < rows[i].to {
      assert rows[i] in kept;
      var j :| 0 <= j < |kept| && kept[j] == rows[i];
      assert spans[j].from <= t < spans[j].to;
    }
  }

  /** Before the last nanosecond no point is both written as valid and inside a gap. */
  lemma {:induction false} NoConflictBeforeTheEnd(st: DayValue, f: GapFold, dayStart: int, dayEnd: int, windowEnd: int, t: int)
    requires Sound(st, dayStart, dayEnd - 1) && GapsApart(st, f, dayEnd - 1, dayEnd - 1)
    requires t < dayEnd - 1
    requires CoversPoint(Written(st, dayEnd), t)
    ensures !CoversPoint(f.closed + StillOpen(f.openGaps, windowEnd), t)
  {
    CoveredByWritten(st, dayStart, dayEnd, t);
    CoveredByGaps(f, windowEnd, t);
    if st.authority.Some? && f.openGaps != [] {
      OpenHead(f.openGaps);
      assert false;
    }
  }

  /** At the last nanosecond they meet exactly when the day ends valid and a gap was cut at midnight. */
  lemma {:induction false} ConflictAtTheEnd(st: DayValue, f: GapFold, dayStart: int, dayEnd: int, windowEnd: int)
    requires Sound(st, dayStart, dayEnd - 1) && GapsApart(st, f, dayEnd - 1, dayEnd - 1)
    requires windowEnd == dayEnd
    ensures var t := dayEnd - 1;
            CoversPoint(Written(st, dayEnd), t) && CoversPoint(f.closed + StillOpen(f.openGaps, windowEnd), t)
            <==> st.authority.Some? && CutAtMidnight(f, dayEnd)
  {
    var t := dayEnd - 1;
    CoveredByWritten(st, dayStart, dayEnd, t);
    CoveredByGaps(f, windowEnd, t);
    var rows := Emit(st, dayEnd, ByUtcDayEnd).intervals;
    if st.authority.Some? {
      assert rows[|rows| - 1].from <= t < rows[|rows| - 1].to;
      if f.openGaps != [] {
        OpenHead(f.openGaps);
        assert false;
      }
    } else {
      assert rows == st.intervals;
    }
  }

  /** The nanoseconds quality reports as conflicting. */
  ghost function Conflict(st: DayValue, invalid: seq<Interval>, dayEnd: int, windowStart: int, windowEnd: int): set<int> {
    Points(Written(st, dayEnd), windowStart, windowEnd) * Points(Extended(invalid, Written(st, dayEnd), windowEnd), windowStart, windowEnd)
  }

  lemma {:induction false} ConflictIsExact(st: DayValue, f: GapFold, dayStart: int, dayEnd: int, windowStart: int, windowEnd: int)
    requires Sound(st, dayStart, dayEnd - 1) && GapsApart(st, f, dayEnd - 1, dayEnd - 1)
    requires windowStart < windowEnd <= dayEnd
    ensures Conflict(st, Clip(f.closed + StillOpen(f.openGaps, windowEnd), windowStart, windowEnd), dayEnd, windowStart, windowEnd)
            == if windowEnd == dayEnd && st.authority.Some? && CutAtMidnight(f, dayEnd) then {dayEnd - 1} else {}
  {
    hide Sound, GapsApart, CutAtMidnight, Emit, NonEmpty, StillOpen;
    var gaps := f.closed + StillOpen(f.openGaps, windowEnd);
    var invalid := Clip(gaps, windowStart, windowEnd);
    var rows := Written(st, dayEnd);
    ExtensionAddsNoConflict(invalid, rows, windowStart, windowEnd);
    ClipKeepsPoints(gaps, windowStart, windowEnd);
    forall t | t in Points(rows, windowStart, windowEnd) * Points(gaps, windowStart, windowEnd)
      ensures t == dayEnd - 1 && windowEnd == dayEnd
    {
      if t < dayEnd - 1 {
        NoConflictBeforeTheEnd(st, f, dayStart, dayEnd, windowEnd, t);
      }
    }
    if windowEnd == dayEnd {
      ConflictAtTheEnd(st, f, dayStart, dayEnd, windowEnd);
    }
  }

  // ---- Days follow each other --------------------------------------------------------------------

  /** A checkpoint whose anchored books are not newer than the day start and hold no bridge. */
  ghost predicate Plausible(c: DayCheckpoint, dayStart: int) {
    forall i :: 0 <= i < |c.anchored| ==> Settled(RestoreAnchored(c.anchored[i]), dayStart)
  }

  lemma {:induction false} NotBeforeIsPart(diffs: seq<DepthDiff>, id: int)
    ensures forall d :: d in NotBefore(diffs, id) ==> d in diffs
  {
    if diffs != [] {
      NotBeforeIsPart(diffs[1..], id);
    }
  }

  lemma {:induction false} AnchorStaysSettled(b: BookValue, now: int)
    requires Settled(b, now) && AnchoredCheckpointOf(b).Ok?
    ensures Settled(RestoreAnchored(AnchoredCheckpointOf(b).value), now)
  {
    var r := RestoreAnchored(AnchoredCheckpointOf(b).value);
    NotBeforeIsPart(b.pending, b.anchor.value.lastUpdateId);
    forall i | 0 <= i < |r.pending|
      ensures r.pending[i].receivedNs <= now && !r.pending[i].span.Covers(r.anchor.value.lastUpdateId)
    {
      assert r.pending[i] in b.pending;
    }
  }

  /** Why a day end may fail to write its checkpoint: exactly when a VALID book still carries an anchor. */
  lemma {:induction false} AnchoredBooksFail(order: seq<string>, books: map<string, BookValue>, now: int)
    requires forall c :: c in order ==> c in books && Settled(books[c], now)
    ensures AnchoredBooks(order, books).Err? <==> exists c :: c in order && KeepsAnchor(books[c]) && books[c].state.Valid?
    ensures AnchoredBooks(order, books).Ok? ==> Plausible(DayCheckpoint(None, AnchoredBooks(order, books).value), now)
  {
    hide AnchoredCheckpointOf;
    if order != [] {
      var front, last := order[..|order| - 1], order[|order| - 1];
      assert order == front + [last];
      AnchoredBooksFail(front, books, now);
      AnchorFails(books[last]);
      if AnchoredBooks(order, books).Ok? && KeepsAnchor(books[last]) {
        AnchorStaysSettled(books[last], now);
      }
    }
  }

  lemma {:induction false} AnchorFails(b: BookValue)
    requires KeepsAnchor(b) ==> b.WellFormed()
    ensures KeepsAnchor(b) ==> (AnchoredCheckpointOf(b).Err? <==> b.state.Valid?)
  {
  }

  /** The checkpoint of a sound day is plausible for the next day, and writing it fails in one case only. */
  lemma {:induction false} CheckpointIsPlausible(st: DayValue, dayStart: int, dayEnd: int)
    requires Sound(st, dayStart, dayEnd)
    ensures BuildCheckpoint(st).Err? <==> exists c :: c in st.books && KeepsAnchor(st.books[c]) && st.books[c].state.Valid?
    ensures BuildCheckpoint(st).Ok? ==> Plausible(BuildCheckpoint(st).value, dayEnd)
  {
    hide Settled, KeepsAnchor;
    AnchoredBooksFail(st.order, st.books, dayEnd);
  }

  /** A snapshot for a VALID book leaves it VALID with an anchor, so that day cannot be closed while it stays so. */
  lemma {:induction false} SnapshotWhileValid(b: BookValue, s: DepthSnapshot)
    requires b.WellFormed() && b.state.Valid? && BookSide(s.bids) != map[] && BookSide(s.asks) != map[]
    ensures var r := OnSnapshot(b, s).0;
            r.state.Valid? && KeepsAnchor(r) && AnchoredCheckpointOf(r) == Err(AnchoredBookIsValid)
  {
    ValidSearchKeeps(Anchoring(b, s));
  }

  lemma {:induction false} StartAnchoredIsSound(st: DayValue, anchored: seq<AnchoredCheckpoint>, dayStart: int)
    requires Sound(st, dayStart, dayStart) && st.intervals == [] && st.activeGaps == {}
    requires forall i :: 0 <= i < |anchored| ==> Settled(RestoreAnchored(anchored[i]), dayStart)
    ensures var r := StartAnchored(st, anchored);
            r.Ok? ==> Sound(r.value, dayStart, dayStart) && r.value.intervals == [] && r.value.activeGaps == {}
                      && r.value.authority == st.authority && r.value.validFrom == st.validFrom
  {
    hide Settled, RestoreAnchored;
    if anchored != [] {
      StartAnchoredIsSound(st, anchored[..|anchored| - 1], dayStart);
    }
  }

  lemma {:induction false} StartIsSound(checkpoint: Option<DayCheckpoint>, mayStartEmpty: bool, dayStart: int)
    requires checkpoint.Some? ==> Plausible(checkpoint.value, dayStart)
    ensures var r := Start(checkpoint, mayStartEmpty, dayStart);
            r.Ok? ==> Sound(r.value, dayStart, dayStart) && r.value.intervals == [] && r.value.activeGaps == {}
  {
    if checkpoint.Some? {
      var st := StartValid(checkpoint.value.valid, dayStart);
      assert Sound(st, dayStart, dayStart);
      StartAnchoredIsSound(st, checkpoint.value.anchored, dayStart);
    }
  }

  /** No two anchored books share a connection, and none is VALID, here or in the books they were taken from. */
  ghost predicate Restorable(anchored: seq<AnchoredCheckpoint>, books: map<string, BookValue>) {
    && (forall i :: 0 <= i < |anchored| ==> !anchored[i].state.Valid?)
    && (forall i :: 0 <= i < |anchored| ==> anchored[i].connectionId in books && !books[anchored[i].connectionId].state.Valid?)
    && (forall i, j :: 0 <= i < j < |anchored| ==> anchored[i].connectionId != anchored[j].connectionId)
  }

  lemma {:induction false} AnchoredAreRestorable(order: seq<string>, books: map<string, BookValue>)
    requires forall c :: c in order ==> c in books && books[c].connectionId == c
    requires forall i, j :: 0 <= i < j < |order| ==> order[i] != order[j]
    ensures AnchoredBooks(order, books).Ok? ==>
              && Restorable(AnchoredBooks(order, books).value, books)
              && forall i :: 0 <= i < |AnchoredBooks(order, books).value| ==> AnchoredBooks(order, books).value[i].connectionId in order
  {
    hide KeepsAnchor, CheckpointLevels, NotBefore;
    if order != [] {
      var front, last := order[..|order| - 1], order[|order| - 1];
      assert order == front + [last];
      AnchoredAreRestorable(front, books);
    }
  }

  lemma {:induction false} RestorableStarts(st: DayValue, anchored: seq<AnchoredCheckpoint>, books: map<string, BookValue>)
    requires st.Keyed() && Restorable(anchored, books)
    requires forall c :: c in st.books ==> c in books && books[c].state.Valid?
    ensures var r := StartAnchored(st, anchored);
            r.Ok? && forall c :: c in r.value.books ==> c in st.books || exists i :: 0 <= i < |anchored| && anchored[i].connectionId == c
  {
    hide RestoreAnchored, KeyedBooks;
    if anchored != [] {
      var front, last := anchored[..|anchored| - 1], anchored[|anchored| - 1];
      RestorableStarts(st, front, books);
      var before := StartAnchored(st, front).value;
      forall i | 0 <= i < |front|
        ensures front[i].connectionId != last.connectionId
      {
        assert front[i] == anchored[i];
      }
      assert last.connectionId !in before.books;
      var r := StartAnchored(st, anchored);
      forall c | c in r.value.books && c !in st.books
        ensures exists i :: 0 <= i < |anchored| && anchored[i].connectionId == c
      {
        if c != last.connectionId {
          var i :| 0 <= i < |front| && front[i].connectionId == c;
          assert anchored[i].connectionId == c;
        } else {
          assert anchored[|anchored| - 1].connectionId == c;
        }
      }
    }
  }

  /** Whatever checkpoint a day writes, the next day starts from it. */
  lemma {:induction false} NextDayStarts(st: DayValue, mayStartEmpty: bool, nextStart: int)
    requires st.Keyed() && BuildCheckpoint(st).Ok?
    ensures Start(Some(BuildCheckpoint(st).value), mayStartEmpty, nextStart).Ok?
  {
    var c := BuildCheckpoint(st).value;
    AnchoredAreRestorable(st.order, st.books);
    hide Restorable, AnchoredBooks, CheckpointLevels, StartAnchored;
    RestorableStarts(StartValid(c.valid, nextStart), c.anchored, st.books);
  }

  /** So a day that ends soundly is followed by one that starts soundly, unless a VALID book still carries an anchor. */
  lemma {:induction false} DaysFollow(st: DayValue, mayStartEmpty: bool, dayStart: int, dayEnd: int)
    requires Sound(st, dayStart, dayEnd)
    requires forall c :: c in st.books ==> !(KeepsAnchor(st.books[c]) && st.books[c].state.Valid?)
    ensures BuildCheckpoint(st).Ok?
    ensures var r := Start(Some(BuildCheckpoint(st).value), mayStartEmpty, dayEnd); r.Ok? && Sound(r.value, dayEnd, dayEnd)
  {
    CheckpointIsPlausible(st, dayStart, dayEnd);
    KeyedOfSound(st, dayStart, dayEnd);
    hide Sound, BuildCheckpoint, Start, Plausible;
    NextDayStarts(st, mayStartEmpty, dayEnd);
    StartIsSound(Some(BuildCheckpoint(st).value), mayStartEmpty, dayEnd);
  }

  // ---- The theorem -------------------------------------------------------------------------------

  /** What the theorem asks of a day's inputs: everything inside the day, rows in time order, a regular ledger. */
  ghost predicate InDay(rows: seq<Row>, events: seq<GapEvent>, dayStart: int, dayEnd: int) {
    && dayStart < dayEnd
    && (forall i :: 0 <= i < |rows| ==> dayStart <= rows[i].ReceivedNs() < dayEnd)
    && (forall i, j :: 0 <= i < j < |rows| ==> rows[i].ReceivedNs() <= rows[j].ReceivedNs())
    && (forall e :: e in events ==> dayStart <= EffectiveNs(e) < dayEnd)
    && (forall e :: e in events && e.state.Closed? && e.detail == CONTINUES ==> EffectiveNs(e) == dayEnd - 1)
    && Unambiguous(events)
  }

  lemma {:induction false} SortedLedgerIsTimeOrdered(rows: seq<Row>, events: seq<GapEvent>, dayStart: int, dayEnd: int)
    requires InDay(rows, events, dayStart, dayEnd)
    ensures var gaps := StableSort(events, ByKey);
            TimeOrdered(rows, gaps, dayStart, dayEnd - 1) && Regular(gaps, dayEnd - 1)
  {
    var gaps := StableSort(events, ByKey);
    KeysAreTotal();
    SortOrders(events, ByKey);
    SameElements(gaps, events);
    forall i | 0 <= i < |gaps|
      ensures gaps[i] in events && EffectiveNs(gaps[i]) == QualityEffectiveNs(gaps[i])
    {
      assert gaps[i] in gaps;
      var j :| 0 <= j < |events| && events[j] == gaps[i];
    }
    forall i, j | 0 <= i < j < |gaps|
      ensures EffectiveNs(gaps[i]) <= EffectiveNs(gaps[j])
    {
      assert ByKey(gaps[i], gaps[j]);
    }
  }

  /**
   * Main result. Reconstruct a day and measure it against its own ledger: the written rows are proper,
   * and the conflicting nanoseconds are none, or the single one before midnight, in exactly one case.
   */
  lemma {:induction false} RowsNeverMeetGaps(
    checkpoint: Option<DayCheckpoint>, mayStartEmpty: bool, rows: seq<Row>, ledger: seq<GapEvent>, symbol: string,
    dayStart: int, dayEnd: int, windowStart: int, windowEnd: int)
    requires InDay(rows, Select(ledger, symbol), dayStart, dayEnd)
    requires checkpoint.Some? ==> Plausible(checkpoint.value, dayStart)
    requires Start(checkpoint, mayStartEmpty, dayStart).Ok?
    requires dayStart <= windowStart < windowEnd <= dayEnd
    ensures var gaps := StableSort(Select(ledger, symbol), ByKey);
            var st := Walk(Start(checkpoint, mayStartEmpty, dayStart).value, rows, gaps);
            var conflict := Conflict(st, ExplicitInvalid(ledger, symbol, windowStart, windowEnd), dayEnd, windowStart, windowEnd);
            && Sound(st, dayStart, dayEnd)
            && ProperRows(Written(st, dayEnd), dayStart, dayEnd)
            && conflict == (if windowEnd == dayEnd && st.authority.Some? && CutAtMidnight(FoldGaps(gaps), dayEnd) then {dayEnd - 1} else {})
            && |conflict| <= 1
  {
    hide Sound, GapsApart, Walk, InDay, TimeOrdered, Regular, Conflict, Written, ExplicitInvalid, Start, FoldGaps, StableSort,
         Select, CutAtMidnight, Plausible, Clip, StillOpen, ProperRows, Unambiguous;
    var events := Select(ledger, symbol);
    var gaps := StableSort(events, ByKey);
    var start := Start(checkpoint, mayStartEmpty, dayStart).value;
    DayBounds(rows, events, dayStart, dayEnd);
    StartIsSound(checkpoint, mayStartEmpty, dayStart);
    SortedLedgerIsTimeOrdered(rows, events, dayStart, dayEnd);
    WalkIsSound(start, rows, gaps, dayStart, dayStart, dayEnd - 1);
    StartsApart(start, dayStart, dayEnd - 1);
    WalkKeepsApart(start, rows, [], gaps, dayStart, dayStart, dayEnd - 1);
    assert [] + gaps == gaps;
    var st := Walk(start, rows, gaps);
    SoundLater(st, dayStart, dayEnd - 1, dayEnd);
    ProperAtEnd(st, dayStart, dayEnd);
    SameInvalid(ledger, symbol, windowStart, windowEnd);
    ConflictIsExact(st, FoldGaps(gaps), dayStart, dayEnd, windowStart, windowEnd);
  }

  lemma {:induction false} SameInvalid(ledger: seq<GapEvent>, symbol: string, windowStart: int, windowEnd: int)
    requires Unambiguous(Select(ledger, symbol))
    ensures var f := FoldGaps(StableSort(Select(ledger, symbol), ByKey));
            ExplicitInvalid(ledger, symbol, windowStart, windowEnd) == Clip(f.closed + StillOpen(f.openGaps, windowEnd), windowStart, windowEnd)
  {
    BothOrdersAgree(Select(ledger, symbol));
  }

  lemma {:induction false} DayBounds(rows: seq<Row>, events: seq<GapEvent>, dayStart: int, dayEnd: int)
    requires InDay(rows, events, dayStart, dayEnd)
    ensures dayStart < dayEnd && Unambiguous(events)
  {
  }

  lemma {:induction false} StartsApart(st: DayValue, dayStart: int, limit: int)
    requires Sound(st, dayStart, dayStart) && st.intervals == [] && st.activeGaps == {}
    ensures GapsApart(st, FoldGaps([]), dayStart, limit)
  {
  }

  lemma {:induction false} ProperAtEnd(st: DayValue, dayStart: int, dayEnd: int)
    requires Sound(st, dayStart, dayEnd)
    ensures ProperRows(Written(st, dayEnd), dayStart, dayEnd)
  {
    WrittenRowsAreProper(st, dayStart, dayEnd);
  }
}
