/** What every reachable state of a day's run satisfies, and what its validity rows therefore are. */
module DayFacts {
  import opened Common
  import opened Wrappers
  import opened Sorting
  import opened Bridge
  import opened Book
  import opened Shortcut
  import opened Ledger
  import opened Day
  import Intervals
  import Quality

  // ---- When a change happens -------------------------------------------------------------------

  /** Nothing in the book is newer than now, and no buffered diff of an anchored book covers its anchor. */
  ghost predicate Settled(b: BookValue, now: int) {
    && b.WellFormed()
    && (b.anchor.Some? ==> b.anchor.value.receivedNs <= now)
    && (forall i :: 0 <= i < |b.pending| ==> b.pending[i].receivedNs <= now)
    && (b.Anchored() ==> Unbridgeable(b))
  }

  lemma {:induction false} SettledLater(b: BookValue, now: int, later: int)
    requires Settled(b, now) && now <= later
    ensures Settled(b, later)
  {
  }

  /** The outcomes of a search over any buffer, in terms of its sorted form. */
  lemma {:induction false} SearchOutcomes(b: BookValue)
    requires b.anchor.Some?
    ensures var sorted := StableSort(b.pending, ByReceive);
            var c := DiscardCount(b.anchor.value.lastUpdateId, Spans(sorted));
            && |sorted| == |b.pending|
            && (c == |sorted| ==> TryBridge(b) == (b.(pending := []), None))
            && (c < |sorted| && b.anchor.value.lastUpdateId < sorted[c].span.first ==> TryBridge(b) == (Stale(b, sorted[c..]), None))
            && (c < |sorted| && sorted[c].span.Covers(b.anchor.value.lastUpdateId) ==> TryBridge(b) == ReplayBridge(b, b.anchor.value, sorted[c..]))
  {
    hide ReplayBridge, StableSort;
    var sorted := StableSort(b.pending, ByReceive);
    SameElements(sorted, b.pending);
    var c := DiscardCount(b.anchor.value.lastUpdateId, Spans(sorted));
    if c == |sorted| {
      assert sorted[c..] == [];
    } else {
      assert Spans(sorted)[c] == sorted[c].span;
    }
  }

  lemma {:induction false} ReplaySettles(b: BookValue, anchor: Anchor, chain: seq<DepthDiff>, now: int)
    requires chain != [] && forall i :: 0 <= i < |chain| ==> chain[i].receivedNs <= now
    ensures var r := ReplayBridge(b, anchor, chain);
            && Settled(r.0, now)
            && r.1.Some?
            && (r.1.value.state.Valid? <==> r.0.state.Valid?)
            && (r.1.value.state.Valid? ==> r.1.value.atNs == Max(anchor.receivedNs, chain[0].receivedNs))
            && (!r.1.value.state.Valid? ==> r.1.value.state.Gapped?)
  {
    ApplyAllFrame(b, chain);
  }

  /** A search from a book whose buffer is not newer than now settles it; a bridge names its first diff. */
  lemma {:induction false} SearchSettles(b: BookValue, now: int)
    requires b.WellFormed() && !b.state.Valid? && b.anchor.Some?
    requires b.anchor.value.receivedNs <= now && forall i :: 0 <= i < |b.pending| ==> b.pending[i].receivedNs <= now
    ensures var r := TryBridge(b);
            && Settled(r.0, now)
            && (r.1.None? ==> !r.0.state.Valid?)
            && (r.1.Some? && r.1.value.state.Valid? ==>
                  exists d :: d in b.pending && d.span.Covers(b.anchor.value.lastUpdateId)
                              && r.1.value.atNs == Max(b.anchor.value.receivedNs, d.receivedNs))
            && (r.1.Some? ==> r.1.value.state.Valid? == r.0.state.Valid?)
  {
    hide TryBridge, ReplayBridge, StableSort;
    SearchOutcomes(b);
    var sorted := StableSort(b.pending, ByReceive);
    SameElements(sorted, b.pending);
    var c := DiscardCount(b.anchor.value.lastUpdateId, Spans(sorted));
    forall i | 0 <= i < |sorted|
      ensures sorted[i].receivedNs <= now && sorted[i] in b.pending
    {
      assert sorted[i] in sorted;
    }
    if c < |sorted| {
      assert Spans(sorted)[c] == sorted[c].span;
      if sorted[c].span.Covers(b.anchor.value.lastUpdateId) {
        ReplaySettles(b, b.anchor.value, sorted[c..], now);
        assert sorted[c..][0] == sorted[c];
      }
    }
  }

  /** One row at time now: the book stays settled, and a change to VALID or from VALID happens exactly now. */
  lemma {:induction false} StepHappensNow(b: BookValue, row: Row, now: int)
    requires Settled(b, now) && row.ReceivedNs() == now
    ensures var (r, change) := Step(b, row.Event());
            && Settled(r, now)
            && (change.None? ==> r.state.Valid? == b.state.Valid?)
            && (change.Some? ==> change.value.state.Valid? == r.state.Valid?)
            && (change.Some? && (change.value.state.Valid? || b.state.Valid?) ==> change.value.atNs == now)
  {
    hide TryBridge, ReplayBridge;
    match row
    case DepthRow(_, d) =>
      if IdentityOf(d) !in b.seen && !b.state.Valid? {
        DiffHappensNow(b, d, now);
      }
    case SnapshotRow(_, s) =>
      var anchored := Anchoring(b, s);
      if b.state.Valid? {
        ValidSearchKeeps(anchored);
      } else {
        SearchSettles(anchored, now);
      }
  }

  lemma {:induction false} DiffHappensNow(b: BookValue, d: DepthDiff, now: int)
    requires Settled(b, now) && d.receivedNs == now && !b.state.Valid? && IdentityOf(d) !in b.seen
    ensures var (r, change) := OnDiff(b, d);
            && Settled(r, now)
            && (change.None? ==> !r.state.Valid?)
            && (change.Some? ==> change.value.state.Valid? == r.state.Valid?)
            && (change.Some? && change.value.state.Valid? ==> change.value.atNs == now)
  {
    hide TryBridge, ReplayBridge;
    var buffered := Buffering(b, d);
    if b.anchor.None? {
      StaleDoesNotSearch(buffered);
    } else if d.span.Covers(b.anchor.value.lastUpdateId) {
      SearchSettles(buffered, now);
      var change := TryBridge(buffered).1;
      if change.Some? && change.value.state.Valid? {
        var x :| x in buffered.pending && x.span.Covers(b.anchor.value.lastUpdateId)
                 && change.value.atNs == Max(b.anchor.value.receivedNs, x.receivedNs);
        assert x in b.pending + [d];
      }
    }
  }

  // ---- The run's invariant ---------------------------------------------------------------------

  /** The authority is a VALID book, no gap is active while there is one, and it is the last valid connection. */
  ghost predicate AuthorityHolds(st: DayValue) {
    && (st.authority.Some? <==> st.validFrom.Some?)
    && (st.authority.Some? ==>
          && st.authority.value in st.books
          && st.books[st.authority.value].state.Valid?
          && st.activeGaps == {}
          && st.lastValid == st.authority)
  }

  /** Rows so far lie in [dayStart, now], in order and without overlap; an open one starts after them. */
  ghost predicate RowsInOrder(st: DayValue, dayStart: int, now: int) {
    && (forall i :: 0 <= i < |st.intervals| ==> dayStart <= st.intervals[i].from <= st.intervals[i].to <= now)
    && (forall i, j :: 0 <= i < j < |st.intervals| ==> st.intervals[i].to <= st.intervals[j].from)
    && (st.validFrom.Some? ==>
          && dayStart <= st.validFrom.value <= now
          && forall i :: 0 <= i < |st.intervals| ==> st.intervals[i].to <= st.validFrom.value)
  }

  ghost predicate Sound(st: DayValue, dayStart: int, now: int) {
    && st.Keyed()
    && AuthorityHolds(st)
    && RowsInOrder(st, dayStart, now)
    && dayStart <= now
    && (forall c :: c in st.books ==> Settled(st.books[c], now))
  }

  lemma {:induction false} SoundLater(st: DayValue, dayStart: int, now: int, later: int)
    requires Sound(st, dayStart, now) && now <= later
    ensures Sound(st, dayStart, later)
  {
    forall c | c in st.books {
      SettledLater(st.books[c], now, later);
    }
  }

  lemma {:induction false} EmitKeepsOrder(st: DayValue, dayStart: int, now: int, reason: EndReason)
    requires RowsInOrder(st, dayStart, now) && dayStart <= now
    ensures var e := Emit(st, now, reason);
            && (forall i :: 0 <= i < |e.intervals| ==> dayStart <= e.intervals[i].from <= e.intervals[i].to <= now)
            && (forall i, j :: 0 <= i < j < |e.intervals| ==> e.intervals[i].to <= e.intervals[j].from)
            && e == st.(intervals := e.intervals)
  {
  }

  lemma {:induction false} GapIsSound(st: DayValue, e: GapEvent, dayStart: int, now: int)
    requires Sound(st, dayStart, now) && EffectiveNs(e) == now
    ensures Sound(HandleGap(st, e), dayStart, now)
  {
    hide Emit, GapChanges;
    GapKeepsKeyed(st, e);
    if e.state.Open? {
      EmitKeepsOrder(st, dayStart, now, ByTransportGap);
    }
  }

  /** The books after one of them moved. */
  function Moved(st: DayValue, c: string, b: BookValue): DayValue {
    st.(books := st.books[c := b])
  }

  lemma {:induction false} ValidChangeIsSound(st: DayValue, c: string, b: BookValue, change: StateChange, dayStart: int, now: int)
    requires Sound(st, dayStart, now) && c in st.books
    requires Settled(b, now) && b.WellFormed() && b.connectionId == c
    requires change.state.Valid? && b.state.Valid? && change.atNs == now
    ensures Sound(OnChange(Moved(st, c, b), c, change), dayStart, now)
  {
    hide Emit, Settled;
    var last := Moved(st, c, b).(changes := st.changes + [change], lastValid := Some(c));
    assert last.Keyed();
    assert RowsInOrder(last, dayStart, now);
    EmitKeepsOrder(last, dayStart, now, ByConnectionSwitch);
  }

  lemma {:induction false} GapChangeIsSound(st: DayValue, c: string, b: BookValue, change: StateChange, dayStart: int, now: int)
    requires Sound(st, dayStart, now) && c in st.books
    requires Settled(b, now) && b.WellFormed() && b.connectionId == c
    requires !change.state.Valid? && !b.state.Valid?
    requires st.books[c].state.Valid? ==> change.atNs == now
    ensures Sound(OnChange(Moved(st, c, b), c, change), dayStart, now)
  {
    hide Emit, Settled;
    var noted := Moved(st, c, b).(changes := st.changes + [change]);
    assert noted.Keyed();
    assert RowsInOrder(noted, dayStart, now);
    EmitKeepsOrder(noted, dayStart, now, ByChange(change.reason));
  }

  lemma {:induction false} WithBookIsSound(st: DayValue, c: string, dayStart: int, now: int)
    requires Sound(st, dayStart, now)
    ensures Sound(WithBook(st, c), dayStart, now)
  {
  }

  lemma {:induction false} RowIsSound(st: DayValue, row: Row, dayStart: int, now: int)
    requires Sound(st, dayStart, now) && row.ReceivedNs() == now
    ensures Sound(HandleRow(st, row), dayStart, now)
  {
    hide Step, OnChange, Settled, RowsInOrder;
    var c := row.connectionId;
    WithBookIsSound(st, c, dayStart, now);
    var ready := WithBook(st, c);
    StepHappensNow(ready.books[c], row, now);
    StepKeepsWellFormed(ready.books[c], row.Event());
    var (b, change) := Step(ready.books[c], row.Event());
    if change.Some? {
      if change.value.state.Valid? {
        ValidChangeIsSound(ready, c, b, change.value, dayStart, now);
      } else {
        GapChangeIsSound(ready, c, b, change.value, dayStart, now);
      }
    } else {
      MoveIsSound(ready, c, b, dayStart, now);
    }
  }

  lemma {:induction false} MoveIsSound(st: DayValue, c: string, b: BookValue, dayStart: int, now: int)
    requires Sound(st, dayStart, now) && c in st.books
    requires Settled(b, now) && b.WellFormed() && b.connectionId == c && b.state.Valid? == st.books[c].state.Valid?
    ensures Sound(Moved(st, c, b), dayStart, now)
  {
  }

  /** Rows and gap events each in time order, nothing before now, nothing after the limit. */
  ghost predicate TimeOrdered(rows: seq<Row>, gaps: seq<GapEvent>, now: int, limit: int) {
    && (forall i :: 0 <= i < |rows| ==> now <= rows[i].ReceivedNs() <= limit)
    && (forall i, j :: 0 <= i < j < |rows| ==> rows[i].ReceivedNs() <= rows[j].ReceivedNs())
    && (forall i :: 0 <= i < |gaps| ==> now <= EffectiveNs(gaps[i]) <= limit)
    && (forall i, j :: 0 <= i < j < |gaps| ==> EffectiveNs(gaps[i]) <= EffectiveNs(gaps[j]))
    && now <= limit
  }

  predicate GapFirst(rows: seq<Row>, gaps: seq<GapEvent>) {
    gaps != [] && (rows == [] || EffectiveNs(gaps[0]) <= rows[0].ReceivedNs())
  }

  lemma {:induction false} TimeMoves(rows: seq<Row>, gaps: seq<GapEvent>, now: int, limit: int)
    requires TimeOrdered(rows, gaps, now, limit)
    ensures GapFirst(rows, gaps) ==> now <= EffectiveNs(gaps[0]) <= limit && TimeOrdered(rows, gaps[1..], EffectiveNs(gaps[0]), limit)
    ensures !GapFirst(rows, gaps) && rows != [] ==> now <= rows[0].ReceivedNs() <= limit && TimeOrdered(rows[1..], gaps, rows[0].ReceivedNs(), limit)
  {
  }

  /** The invariant holds in every reachable state of a run over time-ordered inputs. */
  lemma {:induction false} WalkIsSound(st: DayValue, rows: seq<Row>, gaps: seq<GapEvent>, dayStart: int, now: int, limit: int)
    requires Sound(st, dayStart, now) && TimeOrdered(rows, gaps, now, limit)
    ensures Sound(Walk(st, rows, gaps), dayStart, limit)
    decreases |rows| + |gaps|
  {
    hide HandleGap, HandleRow, Sound, TimeOrdered;
    KeyedOfSound(st, dayStart, now);
    TimeMoves(rows, gaps, now, limit);
    if GapFirst(rows, gaps) {
      var t := EffectiveNs(gaps[0]);
      SoundLater(st, dayStart, now, t);
      GapIsSound(st, gaps[0], dayStart, t);
      WalkIsSound(HandleGap(st, gaps[0]), rows, gaps[1..], dayStart, t, limit);
    } else if rows != [] {
      var t := rows[0].ReceivedNs();
      SoundLater(st, dayStart, now, t);
      RowIsSound(st, rows[0], dayStart, t);
      WalkIsSound(HandleRow(st, rows[0]), rows[1..], gaps, dayStart, t, limit);
    } else {
      NowWithinLimit(rows, gaps, now, limit);
      SoundLater(st, dayStart, now, limit);
    }
  }

  lemma {:induction false} KeyedOfSound(st: DayValue, dayStart: int, now: int)
    requires Sound(st, dayStart, now)
    ensures st.Keyed()
  {
  }

  lemma {:induction false} NowWithinLimit(rows: seq<Row>, gaps: seq<GapEvent>, now: int, limit: int)
    requires TimeOrdered(rows, gaps, now, limit)
    ensures now <= limit
  {
  }

  // ---- The rows written ------------------------------------------------------------------------

  function RowSpans(rows: seq<ValidityRow>): (ivs: seq<Intervals.Interval>)
    ensures |ivs| == |rows|
    ensures forall i :: 0 <= i < |rows| ==> ivs[i] == Intervals.Interval(rows[i].from, rows[i].to)
  {
    seq(|rows|, i requires 0 <= i < |rows| => Intervals.Interval(rows[i].from, rows[i].to))
  }

  /** The written rows are the non-empty ones. */
  lemma {:induction false} NonEmptyMembers(rows: seq<ValidityRow>)
    ensures forall r :: r in NonEmpty(rows) <==> r in rows && r.from < r.to
  {
    if rows != [] {
      var n := |rows| - 1;
      NonEmptyMembers(rows[..n]);
      assert rows == rows[..n] + [rows[n]];
    }
  }

  ghost predicate InSequence(rows: seq<ValidityRow>) {
    forall i, j :: 0 <= i < j < |rows| ==> rows[i].to <= rows[j].from
  }

  lemma {:induction false} NonEmptyInSequence(rows: seq<ValidityRow>)
    requires InSequence(rows)
    ensures InSequence(NonEmpty(rows))
  {
    if rows != [] {
      var n := |rows| - 1;
      NonEmptyInSequence(rows[..n]);
      NonEmptyMembers(rows[..n]);
      AppendInSequence(rows, NonEmpty(rows[..n]));
    }
  }

  lemma {:induction false} AppendInSequence(rows: seq<ValidityRow>, kept: seq<ValidityRow>)
    requires rows != [] && InSequence(rows) && InSequence(kept)
    requires forall r :: r in kept ==> r in rows[..|rows| - 1]
    ensures InSequence(kept + [rows[|rows| - 1]]) && InSequence(kept + [])
  {
    forall i | 0 <= i < |kept|
      ensures kept[i].to <= rows[|rows| - 1].from
    {
      assert kept[i] in kept;
      var j :| 0 <= j < |rows| - 1 && rows[..|rows| - 1][j] == kept[i];
      assert rows[j] == kept[i];
    }
  }

  /** Dropping empty rows keeps bounds and order. */
  lemma {:induction false} NonEmptyIsProper(rows: seq<ValidityRow>, dayStart: int, dayEnd: int)
    requires forall i :: 0 <= i < |rows| ==> dayStart <= rows[i].from <= rows[i].to <= dayEnd
    requires InSequence(rows)
    ensures Quality.ProperRows(RowSpans(NonEmpty(rows)), dayStart, dayEnd)
  {
    hide NonEmpty;
    NonEmptyMembers(rows);
    NonEmptyInSequence(rows);
    var kept := NonEmpty(rows);
    forall i | 0 <= i < |kept|
      ensures dayStart <= kept[i].from < kept[i].to <= dayEnd
    {
      assert kept[i] in rows;
    }
  }

  /** Main result: the rows a run writes pass the quality step's validation. */
  lemma {:induction false} WrittenRowsAreProper(st: DayValue, dayStart: int, dayEnd: int)
    requires Sound(st, dayStart, dayEnd)
    ensures Quality.ProperRows(RowSpans(NonEmpty(Emit(st, dayEnd, ByUtcDayEnd).intervals)), dayStart, dayEnd)
  {
    EmitKeepsOrder(st, dayStart, dayEnd, ByUtcDayEnd);
    NonEmptyIsProper(Emit(st, dayEnd, ByUtcDayEnd).intervals, dayStart, dayEnd);
  }
}
