/**
 * What a day's validity rows contain: the time at which the run has an authority, but for the spans that a CLOSED event
 * without an open gap drops (pipeline/l2.py, run).
 */
module Completeness {
  import opened Wrappers
  import opened Sorting
  import opened Book
  import opened Checkpoint
  import opened Ledger
  import opened Day
  import opened DayFacts
  import opened Intervals
  import opened EndToEnd

  // ---- When the run has an authority -------------------------------------------------------------

  function RowsBy(rows: seq<Row>, t: int): seq<Row> {
    if rows == [] then [] else (if rows[0].ReceivedNs() <= t then [rows[0]] else []) + RowsBy(rows[1..], t)
  }

  function GapsBy(gaps: seq<GapEvent>, t: int): seq<GapEvent> {
    if gaps == [] then [] else (if EffectiveNs(gaps[0]) <= t then [gaps[0]] else []) + GapsBy(gaps[1..], t)
  }

  /** The state at a time: the walk over every row and gap event effective by then. */
  function StateAt(st: DayValue, rows: seq<Row>, gaps: seq<GapEvent>, t: int): DayValue
    requires st.Keyed()
  {
    Walk(st, RowsBy(rows, t), GapsBy(gaps, t))
  }

  /** No gap is active, and the connection that last became VALID since the last OPEN still is. */
  predicate LastValidHolds(st: DayValue) {
    st.activeGaps == {} && st.lastValid.Some? && st.lastValid.value in st.books && st.books[st.lastValid.value].state.Valid?
  }

  ghost predicate Exact(st: DayValue) {
    LastValidHolds(st) ==> st.authority == st.lastValid
  }

  lemma {:induction false} GapIsExact(st: DayValue, e: GapEvent, dayStart: int, now: int)
    requires Sound(st, dayStart, now) && Exact(st)
    ensures Exact(HandleGap(st, e))
  {
  }

  lemma {:induction false} ChangeIsExact(st: DayValue, c: string, b: BookValue, change: StateChange)
    requires AuthorityHolds(st) && Exact(st) && c in st.books && change.state.Valid? == b.state.Valid?
    ensures Exact(OnChange(Moved(st, c, b), c, change))
  {
    hide Emit;
    var noted := Moved(st, c, b).(changes := st.changes + [change]);
    var last := noted.(lastValid := Some(c));
    EmitFrame(noted, noted, change.atNs, ByChange(change.reason));
    EmitFrame(last, last, change.atNs, ByConnectionSwitch);
  }

  lemma {:induction false} RowIsExact(st: DayValue, row: Row, dayStart: int, now: int)
    requires Sound(st, dayStart, now) && Exact(st) && row.ReceivedNs() == now
    ensures Exact(HandleRow(st, row))
  {
    hide Step, Settled, RowsInOrder, OnChange;
    var c := row.connectionId;
    WithBookIsSound(st, c, dayStart, now);
    var ready := WithBook(st, c);
    StepHappensNow(ready.books[c], row, now);
    var (b, change) := Step(ready.books[c], row.Event());
    assert Exact(ready);
    if change.Some? {
      ChangeIsExact(ready, c, b, change.value);
    }
  }

  /** An authority is there if and only if no gap is active and the connection that last became VALID still is. */
  lemma {:induction false} AuthorityIsExact(st: DayValue, rows: seq<Row>, gaps: seq<GapEvent>, dayStart: int, now: int, limit: int)
    requires Sound(st, dayStart, now) && Exact(st) && TimeOrdered(rows, gaps, now, limit)
    ensures st.Keyed()
    ensures var r := Walk(st, rows, gaps); Exact(r) && (r.authority.Some? <==> LastValidHolds(r))
    decreases |rows| + |gaps|
  {
    hide HandleGap, HandleRow, TimeOrdered, Exact, Sound, LastValidHolds;
    KeyedOfSound(st, dayStart, now);
    TimeMoves(rows, gaps, now, limit);
    if GapFirst(rows, gaps) {
      var t := EffectiveNs(gaps[0]);
      SoundLater(st, dayStart, now, t);
      GapIsSound(st, gaps[0], dayStart, t);
      GapIsExact(st, gaps[0], dayStart, t);
      AuthorityIsExact(HandleGap(st, gaps[0]), rows, gaps[1..], dayStart, t, limit);
    } else if rows != [] {
      var t := rows[0].ReceivedNs();
      SoundLater(st, dayStart, now, t);
      RowIsSound(st, rows[0], dayStart, t);
      RowIsExact(st, rows[0], dayStart, t);
      AuthorityIsExact(HandleRow(st, rows[0]), rows[1..], gaps, dayStart, t, limit);
    } else {
      SoundAndExact(st, dayStart, now);
    }
  }

  lemma SoundAndExact(st: DayValue, dayStart: int, now: int)
    requires Sound(st, dayStart, now) && Exact(st)
    ensures st.authority.Some? <==> LastValidHolds(st)
  {
  }

  // ---- The spans that are dropped ----------------------------------------------------------------

  /** A CLOSED event that finds an authority, and so no active gap, moves the start of the open row forward. */
  function LostBy(st: DayValue, e: GapEvent): seq<Interval> {
    if e.state.Closed? && st.authority.Some? && st.validFrom.Some? then [Interval(st.validFrom.value, e.observedNs)] else []
  }

  function Lost(st: DayValue, rows: seq<Row>, gaps: seq<GapEvent>): seq<Interval>
    requires st.Keyed()
    decreases |rows| + |gaps|
  {
    if GapFirst(rows, gaps) then
      GapKeepsKeyed(st, gaps[0]);
      LostBy(st, gaps[0]) + Lost(HandleGap(st, gaps[0]), rows, gaps[1..])
    else if rows != [] then
      RowKeepsKeyed(st, rows[0]);
      Lost(HandleRow(st, rows[0]), rows[1..], gaps)
    else
      []
  }

  /** In the rows so far, or in the row that is open. */
  ghost predicate InRows(st: DayValue, t: int) {
    || (exists i :: 0 <= i < |st.intervals| && st.intervals[i].from <= t < st.intervals[i].to)
    || (st.authority.Some? && st.validFrom.Some? && st.validFrom.value <= t)
  }

  lemma {:induction false} ClosingKeepsRows(st: DayValue, r: DayValue, now: int, reason: EndReason, t: int)
    requires t < now && r.intervals == Emit(st, now, reason).intervals
    requires st.authority.Some? <==> st.validFrom.Some?
    requires r.authority.None? || r.validFrom == Some(now)
    ensures InRows(r, t) <==> InRows(st, t)
  {
    var rows, more := st.intervals, r.intervals;
    if i :| 0 <= i < |rows| && rows[i].from <= t < rows[i].to {
      assert more[i] == rows[i];
    }
    if st.authority.Some? && st.validFrom.value <= t {
      assert more[|rows|].from <= t < more[|rows|].to;
    }
  }

  lemma {:induction false} SameRows(st: DayValue, r: DayValue, t: int)
    requires r.intervals == st.intervals && r.authority == st.authority && r.validFrom == st.validFrom
    ensures InRows(r, t) <==> InRows(st, t)
  {
  }

  lemma {:induction false} GapKeepsRows(st: DayValue, e: GapEvent, dayStart: int, now: int, t: int)
    requires Sound(st, dayStart, now) && EffectiveNs(e) == now && t < now
    ensures InRows(st, t) <==> InRows(HandleGap(st, e), t) || CoversPoint(LostBy(st, e), t)
    ensures !(InRows(HandleGap(st, e), t) && CoversPoint(LostBy(st, e), t))
  {
    hide KeyedBooks, Settled, GapChanges, Emit, InvalidateAll;
    var r := HandleGap(st, e);
    if e.state.Open? {
      EmitFrame(st, st, now, ByTransportGap);
      ClosingKeepsRows(st, r, now, ByTransportGap, t);
    } else if st.authority.Some? {
      assert r == st.(activeGaps := {}, validFrom := Some(now));
      assert LostBy(st, e)[0] == Interval(st.validFrom.value, now);
    } else {
      assert r.intervals == st.intervals;
    }
  }

  lemma {:induction false} RowKeepsRows(st: DayValue, row: Row, dayStart: int, now: int, t: int)
    requires Sound(st, dayStart, now) && row.ReceivedNs() == now && t < now
    ensures InRows(HandleRow(st, row), t) <==> InRows(st, t)
  {
    hide Step, Settled, OnChange, InRows, RowsInOrder;
    var c := row.connectionId;
    WithBookIsSound(st, c, dayStart, now);
    var ready := WithBook(st, c);
    StepHappensNow(ready.books[c], row, now);
    var (b, change) := Step(ready.books[c], row.Event());
    var moved := Moved(ready, c, b);
    SameRows(st, moved, t);
    if change.Some? {
      ChangeKeepsRows(ready, moved, c, change.value, now, t);
    }
  }

  lemma {:induction false} ChangeKeepsRows(st: DayValue, moved: DayValue, c: string, change: StateChange, now: int, t: int)
    requires AuthorityHolds(st) && c in st.books && moved == st.(books := moved.books) && t < now
    requires change.state.Valid? || st.books[c].state.Valid? ==> change.atNs == now
    ensures InRows(OnChange(moved, c, change), t) <==> InRows(moved, t)
  {
    hide Emit, InRows;
    var r, noted := OnChange(moved, c, change), moved.(changes := moved.changes + [change]);
    var last := noted.(lastValid := Some(c));
    SameRows(moved, noted, t);
    SameRows(moved, last, t);
    if change.state.Valid? {
      if moved.activeGaps == {} {
        EmitFrame(last, last, now, ByConnectionSwitch);
        ClosingKeepsRows(last, r, now, ByConnectionSwitch, t);
      }
    } else if moved.authority == Some(c) && moved.validFrom.Some? {
      EmitFrame(noted, noted, now, ByChange(change.reason));
      ClosingKeepsRows(noted, r, now, ByChange(change.reason), t);
    }
  }

  // ---- Rows, dropped spans and authority ---------------------------------------------------------

  lemma {:induction false} NothingBy(rows: seq<Row>, gaps: seq<GapEvent>, t: int)
    requires forall i :: 0 <= i < |rows| ==> t < rows[i].ReceivedNs()
    requires forall i :: 0 <= i < |gaps| ==> t < EffectiveNs(gaps[i])
    ensures RowsBy(rows, t) == [] && GapsBy(gaps, t) == []
    decreases |rows| + |gaps|
  {
    if rows != [] {
      NothingBy(rows[1..], gaps, t);
    }
    if gaps != [] {
      NothingBy(rows, gaps[1..], t);
    }
  }

  /** The first event, when it is effective by the time asked for, is the first of the shorter walk as well. */
  lemma {:induction false} StateAtSteps(st: DayValue, rows: seq<Row>, gaps: seq<GapEvent>, now: int, limit: int, t: int)
    requires st.Keyed() && TimeOrdered(rows, gaps, now, limit)
    ensures GapFirst(rows, gaps) ==>
              && HandleGap(st, gaps[0]).Keyed()
              && StateAt(st, rows, gaps, t) == if EffectiveNs(gaps[0]) <= t then StateAt(HandleGap(st, gaps[0]), rows, gaps[1..], t) else st
    ensures !GapFirst(rows, gaps) && rows != [] ==>
              && HandleRow(st, rows[0]).Keyed()
              && StateAt(st, rows, gaps, t) == if rows[0].ReceivedNs() <= t then StateAt(HandleRow(st, rows[0]), rows[1..], gaps, t) else st
    ensures rows == [] && gaps == [] ==> StateAt(st, rows, gaps, t) == st
  {
    hide HandleGap, HandleRow, KeyedBooks;
    var r, g := RowsBy(rows, t), GapsBy(gaps, t);
    if GapFirst(rows, gaps) {
      GapKeepsKeyed(st, gaps[0]);
      if EffectiveNs(gaps[0]) <= t {
        FirstRowBy(rows, t);
        assert g[0] == gaps[0] && g[1..] == GapsBy(gaps[1..], t);
        assert GapFirst(r, g);
      } else {
        NothingBy(rows, gaps, t);
      }
    } else if rows != [] {
      RowKeepsKeyed(st, rows[0]);
      if rows[0].ReceivedNs() <= t {
        FirstGapBy(gaps, t);
        assert r[0] == rows[0] && r[1..] == RowsBy(rows[1..], t);
        assert !GapFirst(r, g);
      } else {
        NothingBy(rows, gaps, t);
      }
    }
  }

  lemma {:induction false} FirstRowBy(rows: seq<Row>, t: int)
    requires forall i :: 0 <= i < |rows| ==> rows[0].ReceivedNs() <= rows[i].ReceivedNs()
    ensures RowsBy(rows, t) != [] ==> RowsBy(rows, t)[0] == rows[0]
  {
    if rows != [] && rows[0].ReceivedNs() > t {
      NothingBy(rows, [], t);
    }
  }

  lemma {:induction false} FirstGapBy(gaps: seq<GapEvent>, t: int)
    requires forall i :: 0 <= i < |gaps| ==> EffectiveNs(gaps[0]) <= EffectiveNs(gaps[i])
    ensures GapsBy(gaps, t) != [] ==> GapsBy(gaps, t)[0] == gaps[0]
  {
    if gaps != [] && EffectiveNs(gaps[0]) > t {
      NothingBy([], gaps, t);
    }
  }

  /** In the rows so far for times that are past, and from now on when there is an authority. */
  ghost predicate Had(st: DayValue, rows: seq<Row>, gaps: seq<GapEvent>, now: int, t: int)
    requires st.Keyed()
  {
    if t < now then InRows(st, t) else StateAt(st, rows, gaps, t).authority.Some?
  }

  lemma {:induction false} UntilTheNext(st: DayValue, dayStart: int, now: int, t: int)
    requires Sound(st, dayStart, now) && now <= t
    ensures InRows(st, t) <==> st.authority.Some?
  {
  }

  /** Along the whole walk, what the final rows hold and what is dropped make up the time with an authority, once each. */
  lemma {:induction false} WalkConserves(st: DayValue, rows: seq<Row>, gaps: seq<GapEvent>, dayStart: int, now: int, limit: int, t: int)
    requires Sound(st, dayStart, now) && TimeOrdered(rows, gaps, now, limit)
    ensures st.Keyed()
    ensures Had(st, rows, gaps, now, t) <==> InRows(Walk(st, rows, gaps), t) || CoversPoint(Lost(st, rows, gaps), t)
    ensures !(InRows(Walk(st, rows, gaps), t) && CoversPoint(Lost(st, rows, gaps), t))
    decreases |rows| + |gaps|
  {
    hide HandleGap, HandleRow, Sound, TimeOrdered, InRows, LostBy, StateAt, GapsBy, RowsBy, Walk, CoversPoint;
    KeyedOfSound(st, dayStart, now);
    TimeMoves(rows, gaps, now, limit);
    StateAtSteps(st, rows, gaps, now, limit, t);
    if now <= t {
      UntilTheNext(st, dayStart, now, t);
    }
    if GapFirst(rows, gaps) {
      var e, next := gaps[0], EffectiveNs(gaps[0]);
      var r := HandleGap(st, e);
      WalksOn(st, rows, gaps);
      SoundLater(st, dayStart, now, next);
      GapIsSound(st, e, dayStart, next);
      WalkConserves(r, rows, gaps[1..], dayStart, next, limit, t);
      CoversConcat(LostBy(st, e), Lost(r, rows, gaps[1..]), t);
      if t < next {
        GapKeepsRows(st, e, dayStart, next, t);
      } else {
        LostIsPast(st, e, t);
      }
    } else if rows != [] {
      var next := rows[0].ReceivedNs();
      WalksOn(st, rows, gaps);
      SoundLater(st, dayStart, now, next);
      RowIsSound(st, rows[0], dayStart, next);
      WalkConserves(HandleRow(st, rows[0]), rows[1..], gaps, dayStart, next, limit, t);
      if t < next {
        RowKeepsRows(st, rows[0], dayStart, next, t);
      }
    } else {
      WalksOn(st, rows, gaps);
      NothingCovered(t);
    }
  }

  lemma NothingCovered(t: int)
    ensures !CoversPoint([], t)
  {
  }

  lemma LostIsPast(st: DayValue, e: GapEvent, t: int)
    requires EffectiveNs(e) <= t
    ensures !CoversPoint(LostBy(st, e), t)
  {
  }

  lemma WalksOn(st: DayValue, rows: seq<Row>, gaps: seq<GapEvent>)
    requires st.Keyed()
    ensures GapFirst(rows, gaps) ==> HandleGap(st, gaps[0]).Keyed() && Walk(st, rows, gaps) == Walk(HandleGap(st, gaps[0]), rows, gaps[1..])
    ensures !GapFirst(rows, gaps) && rows != [] ==> HandleRow(st, rows[0]).Keyed() && Walk(st, rows, gaps) == Walk(HandleRow(st, rows[0]), rows[1..], gaps)
    ensures rows == [] && gaps == [] ==> Walk(st, rows, gaps) == st
  {
    hide HandleGap, HandleRow, KeyedBooks;
    if GapFirst(rows, gaps) {
      GapKeepsKeyed(st, gaps[0]);
    } else if rows != [] {
      RowKeepsKeyed(st, rows[0]);
    }
  }

  /** Dropped spans begin inside the day and end with an event of the day. */
  lemma {:induction false} LostInDay(st: DayValue, rows: seq<Row>, gaps: seq<GapEvent>, dayStart: int, now: int, limit: int)
    requires Sound(st, dayStart, now) && TimeOrdered(rows, gaps, now, limit)
    ensures st.Keyed() && forall x :: x in Lost(st, rows, gaps) ==> dayStart <= x.from <= x.to <= limit
    decreases |rows| + |gaps|
  {
    hide HandleGap, HandleRow, Sound, TimeOrdered;
    KeyedOfSound(st, dayStart, now);
    TimeMoves(rows, gaps, now, limit);
    if GapFirst(rows, gaps) {
      var next := EffectiveNs(gaps[0]);
      SoundLater(st, dayStart, now, next);
      GapIsSound(st, gaps[0], dayStart, next);
      LostInDay(HandleGap(st, gaps[0]), rows, gaps[1..], dayStart, next, limit);
      OpenRowInDay(st, dayStart, next);
    } else if rows != [] {
      var next := rows[0].ReceivedNs();
      SoundLater(st, dayStart, now, next);
      RowIsSound(st, rows[0], dayStart, next);
      LostInDay(HandleRow(st, rows[0]), rows[1..], gaps, dayStart, next, limit);
    }
  }

  lemma OpenRowInDay(st: DayValue, dayStart: int, now: int)
    requires Sound(st, dayStart, now)
    ensures st.validFrom.Some? ==> dayStart <= st.validFrom.value <= now
  {
  }

  // ---- The theorems ------------------------------------------------------------------------------

  lemma {:induction false} RowsAreWritten(st: DayValue, dayStart: int, dayEnd: int, t: int)
    requires Sound(st, dayStart, dayEnd - 1) && t < dayEnd
    ensures CoversPoint(Written(st, dayEnd), t) <==> InRows(st, t)
  {
    CoveredByWritten(st, dayStart, dayEnd, t);
    var rows := Emit(st, dayEnd, ByUtcDayEnd).intervals;
    if i :| 0 <= i < |st.intervals| && st.intervals[i].from <= t < st.intervals[i].to {
      assert rows[i] == st.intervals[i];
    }
    if st.authority.Some? && st.validFrom.Some? && st.validFrom.value <= t {
      assert rows[|st.intervals|].from <= t < rows[|st.intervals|].to;
    }
    if i :| 0 <= i < |rows| && rows[i].from <= t < rows[i].to {
      if i < |st.intervals| {
        assert rows[i] == st.intervals[i];
      }
    }
  }

  /** What the theorems ask of a day: a sound start without rows, and rows and gap events inside the day in time order. */
  ghost predicate Begins(st: DayValue, rows: seq<Row>, gaps: seq<GapEvent>, dayStart: int, dayEnd: int) {
    Sound(st, dayStart, dayStart) && Exact(st) && TimeOrdered(rows, gaps, dayStart, dayEnd - 1)
  }

  /**
   * Main result. At every nanosecond of the day, no gap is active and the connection that last became VALID still is if
   * and only if the nanosecond is written as valid or lies in a dropped span, and never both.
   */
  lemma {:induction false} RowsAreComplete(st: DayValue, rows: seq<Row>, gaps: seq<GapEvent>, dayStart: int, dayEnd: int, t: int)
    requires Begins(st, rows, gaps, dayStart, dayEnd) && dayStart <= t < dayEnd
    ensures st.Keyed()
    ensures var written := CoversPoint(Written(Walk(st, rows, gaps), dayEnd), t);
            var lost := CoversPoint(Lost(st, rows, gaps), t);
            && (LastValidHolds(StateAt(st, rows, gaps, t)) <==> written || lost)
            && !(written && lost)
  {
    KeyedOfSound(st, dayStart, dayStart);
    hide Sound, Exact, TimeOrdered, Walk, Lost, InRows, CoversPoint, Written, LastValidHolds;
    WalkIsSound(st, rows, gaps, dayStart, dayStart, dayEnd - 1);
    RowsAreWritten(Walk(st, rows, gaps), dayStart, dayEnd, t);
    WalkConserves(st, rows, gaps, dayStart, dayStart, dayEnd - 1, t);
    InTimeBy(rows, gaps, dayStart, dayEnd - 1, t);
    AuthorityIsExact(st, RowsBy(rows, t), GapsBy(gaps, t), dayStart, dayStart, dayEnd - 1);
  }

  lemma {:induction false} RowsByFacts(rows: seq<Row>, t: int)
    ensures forall r :: r in RowsBy(rows, t) ==> r in rows
    ensures (forall i, j :: 0 <= i < j < |rows| ==> rows[i].ReceivedNs() <= rows[j].ReceivedNs())
            ==> forall i, j :: 0 <= i < j < |RowsBy(rows, t)| ==> RowsBy(rows, t)[i].ReceivedNs() <= RowsBy(rows, t)[j].ReceivedNs()
  {
    if rows != [] {
      RowsByFacts(rows[1..], t);
      var rest := RowsBy(rows[1..], t);
      forall i | 0 <= i < |rest|
        ensures rest[i] in rows[1..]
      {
      }
    }
  }

  lemma {:induction false} GapsByFacts(gaps: seq<GapEvent>, t: int)
    ensures forall e :: e in GapsBy(gaps, t) ==> e in gaps
    ensures (forall i, j :: 0 <= i < j < |gaps| ==> EffectiveNs(gaps[i]) <= EffectiveNs(gaps[j]))
            ==> forall i, j :: 0 <= i < j < |GapsBy(gaps, t)| ==> EffectiveNs(GapsBy(gaps, t)[i]) <= EffectiveNs(GapsBy(gaps, t)[j])
  {
    if gaps != [] {
      GapsByFacts(gaps[1..], t);
      var rest := GapsBy(gaps[1..], t);
      forall i | 0 <= i < |rest|
        ensures rest[i] in gaps[1..]
      {
      }
    }
  }

  lemma {:induction false} InTimeBy(rows: seq<Row>, gaps: seq<GapEvent>, now: int, limit: int, t: int)
    requires TimeOrdered(rows, gaps, now, limit)
    ensures TimeOrdered(RowsBy(rows, t), GapsBy(gaps, t), now, limit)
  {
    RowsByFacts(rows, t);
    GapsByFacts(gaps, t);
    hide RowsBy, GapsBy;
    var r, g := RowsBy(rows, t), GapsBy(gaps, t);
    assert forall i :: 0 <= i < |r| ==> r[i] in rows;
    assert forall i :: 0 <= i < |g| ==> g[i] in gaps;
  }

  /**
   * The rows hold all of that time if and only if no CLOSED event is handled later than the start of an open row; such an
   * event's gap is not active, for an active gap leaves no open row.
   */
  lemma {:induction false} NothingIsLostExactly(st: DayValue, rows: seq<Row>, gaps: seq<GapEvent>, dayStart: int, dayEnd: int)
    requires Begins(st, rows, gaps, dayStart, dayEnd)
    ensures st.Keyed()
    ensures (forall t :: dayStart <= t < dayEnd ==>
               (CoversPoint(Written(Walk(st, rows, gaps), dayEnd), t) <==> LastValidHolds(StateAt(st, rows, gaps, t))))
            <==> forall x :: x in Lost(st, rows, gaps) ==> x.from == x.to
  {
    KeyedOfSound(st, dayStart, dayStart);
    LostInDay(st, rows, gaps, dayStart, dayStart, dayEnd - 1);
    hide Sound, Exact, TimeOrdered, Walk, Lost, StateAt, Written, LastValidHolds;
    var lost := Lost(st, rows, gaps);
    forall t | dayStart <= t < dayEnd
      ensures var written := CoversPoint(Written(Walk(st, rows, gaps), dayEnd), t);
              (LastValidHolds(StateAt(st, rows, gaps, t)) <==> written || CoversPoint(lost, t)) && !(written && CoversPoint(lost, t))
    {
      RowsAreComplete(st, rows, gaps, dayStart, dayEnd, t);
    }
    if x :| x in lost && x.from != x.to {
      var i :| 0 <= i < |lost| && lost[i] == x;
      assert lost[i].from <= x.from < lost[i].to;
      assert CoversPoint(lost, x.from);
    }
  }

  /** Every CLOSED event closes a gap that was opened before it, in the order they are handled. */
  predicate Paired(gaps: seq<GapEvent>, active: set<int>) {
    gaps == []
    || (gaps[0].state.Open? && Paired(gaps[1..], active + {gaps[0].gapId}))
    || (gaps[0].state.Closed? && gaps[0].gapId in active && Paired(gaps[1..], active - {gaps[0].gapId}))
  }

  /** A ledger that pairs its events loses nothing, whatever the rows. */
  lemma {:induction false} PairedLosesNothing(st: DayValue, rows: seq<Row>, gaps: seq<GapEvent>, dayStart: int, now: int, limit: int)
    requires Sound(st, dayStart, now) && TimeOrdered(rows, gaps, now, limit) && Paired(gaps, st.activeGaps)
    ensures st.Keyed() && Lost(st, rows, gaps) == []
    decreases |rows| + |gaps|
  {
    hide HandleGap, HandleRow, Sound, TimeOrdered;
    KeyedOfSound(st, dayStart, now);
    TimeMoves(rows, gaps, now, limit);
    if GapFirst(rows, gaps) {
      var next := EffectiveNs(gaps[0]);
      SoundLater(st, dayStart, now, next);
      GapIsSound(st, gaps[0], dayStart, next);
      ActiveAfterGap(st, gaps[0], dayStart, next);
      PairedLosesNothing(HandleGap(st, gaps[0]), rows, gaps[1..], dayStart, next, limit);
    } else if rows != [] {
      var next := rows[0].ReceivedNs();
      SoundLater(st, dayStart, now, next);
      RowIsSound(st, rows[0], dayStart, next);
      RowKeepsActive(st, rows[0]);
      PairedLosesNothing(HandleRow(st, rows[0]), rows[1..], gaps, dayStart, next, limit);
    }
  }

  lemma ActiveAfterGap(st: DayValue, e: GapEvent, dayStart: int, now: int)
    requires Sound(st, dayStart, now)
    ensures st.Keyed() && HandleGap(st, e).activeGaps == if e.state.Open? then st.activeGaps + {e.gapId} else st.activeGaps - {e.gapId}
    ensures e.gapId in st.activeGaps ==> st.authority.None?
  {
  }

  lemma RowKeepsActive(st: DayValue, row: Row)
    requires st.Keyed()
    ensures HandleRow(st, row).activeGaps == st.activeGaps
  {
    hide Step;
  }

  // ---- The start of a day --------------------------------------------------------------------------

  lemma {:induction false} StartAnchoredIsExact(st: DayValue, anchored: seq<AnchoredCheckpoint>)
    requires st.Keyed() && st.lastValid == st.authority
    ensures var r := StartAnchored(st, anchored); r.Ok? ==> r.value.lastValid == r.value.authority
  {
    hide RestoreAnchored, KeyedBooks;
    if anchored != [] {
      StartAnchoredIsExact(st, anchored[..|anchored| - 1]);
    }
  }

  /** Every day that starts, from nothing or from a checkpoint, begins as the theorems ask. */
  lemma {:induction false} EveryDayBegins(checkpoint: Option<DayCheckpoint>, mayStartEmpty: bool, rows: seq<Row>, ledger: seq<GapEvent>, symbol: string,
                                          dayStart: int, dayEnd: int)
    requires InDay(rows, Select(ledger, symbol), dayStart, dayEnd)
    requires checkpoint.Some? ==> Plausible(checkpoint.value, dayStart)
    requires Start(checkpoint, mayStartEmpty, dayStart).Ok?
    ensures Begins(Start(checkpoint, mayStartEmpty, dayStart).value, rows, StableSort(Select(ledger, symbol), ByKey), dayStart, dayEnd)
  {
    StartIsSound(checkpoint, mayStartEmpty, dayStart);
    SortedLedgerIsTimeOrdered(rows, Select(ledger, symbol), dayStart, dayEnd);
    hide Sound, TimeOrdered, InDay, Plausible;
    if checkpoint.Some? {
      StartAnchoredIsExact(StartValid(checkpoint.value.valid, dayStart), checkpoint.value.anchored);
    }
  }
}
