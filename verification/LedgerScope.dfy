/**
 * Which gap events concern a symbol (pipeline/l2.py, pipeline/quality.py): those without symbols or with this one, and
 * without streams or with the depth stream. The others change nothing; an OPEN that does ends all valid time.
 */
module LedgerScope {
  import opened Wrappers
  import opened Sorting
  import opened Book
  import opened Ledger
  import opened Day
  import opened DayFacts
  import opened Intervals
  import opened Quality
  import opened EndToEnd
  import opened Completeness
  import opened GapTiling

  predicate Names(e: GapEvent, symbol: string) {
    && (|e.symbols| == 0 || exists i :: 0 <= i < |e.symbols| && e.symbols[i] == symbol)
    && (|e.streams| == 0 || exists i :: 0 <= i < |e.streams| && e.streams[i] == "depth")
  }

  lemma {:induction false} SelectSkips(front: seq<GapEvent>, e: GapEvent, back: seq<GapEvent>, symbol: string)
    requires !Names(e, symbol)
    ensures Select(front + [e] + back, symbol) == Select(front + back, symbol)
  {
    if front == [] {
      assert [] + [e] + back == [e] + back && [] + back == back && ([e] + back)[1..] == back;
    } else {
      SelectSkips(front[1..], e, back, symbol);
      assert (front + [e] + back)[1..] == front[1..] + [e] + back && (front + back)[1..] == front[1..] + back;
    }
  }

  /** An event about other symbols or streams changes neither the day's run nor what quality takes for invalid. */
  lemma UnnamedEventsAreIgnored(front: seq<GapEvent>, e: GapEvent, back: seq<GapEvent>, symbol: string,
                                checkpoint: Option<DayCheckpoint>, mayStartEmpty: bool, rows: seq<Row>, dayStart: int, dayEnd: int)
    requires !Names(e, symbol)
    ensures RunDay(checkpoint, mayStartEmpty, rows, StableSort(Select(front + [e] + back, symbol), ByKey), dayStart, dayEnd)
            == RunDay(checkpoint, mayStartEmpty, rows, StableSort(Select(front + back, symbol), ByKey), dayStart, dayEnd)
    ensures forall from, to :: ExplicitInvalid(front + [e] + back, symbol, from, to) == ExplicitInvalid(front + back, symbol, from, to)
  {
    SelectSkips(front, e, back, symbol);
  }

  // ---- An OPEN that names the symbol ---------------------------------------------------------------

  lemma {:induction false} NamedIsSelected(ledger: seq<GapEvent>, e: GapEvent, symbol: string)
    ensures e in Select(ledger, symbol) <==> e in ledger && Names(e, symbol)
  {
    if ledger != [] {
      NamedIsSelected(ledger[1..], e, symbol);
      assert ledger == [ledger[0]] + ledger[1..];
    }
  }

  /** Nothing else in the ledger has the event's gap id. */
  ghost predicate OnlyOne(ledger: seq<GapEvent>, e: GapEvent) {
    forall x :: x in ledger && x.gapId == e.gapId ==> x == e
  }

  /** Once handled, an OPEN without a CLOSED keeps its gap active. */
  lemma {:induction false} StaysActive(st: DayValue, rows: seq<Row>, gaps: seq<GapEvent>, e: GapEvent, dayStart: int, now: int, limit: int)
    requires Sound(st, dayStart, now) && TimeOrdered(rows, gaps, now, limit)
    requires e.state.Open? && OnlyOne(gaps, e) && (e in gaps || e.gapId in st.activeGaps)
    ensures st.Keyed() && e.gapId in Walk(st, rows, gaps).activeGaps
    decreases |rows| + |gaps|
  {
    hide HandleGap, HandleRow, Sound, TimeOrdered;
    KeyedOfSound(st, dayStart, now);
    TimeMoves(rows, gaps, now, limit);
    if GapFirst(rows, gaps) {
      var next := EffectiveNs(gaps[0]);
      assert gaps == [gaps[0]] + gaps[1..];
      SoundLater(st, dayStart, now, next);
      GapIsSound(st, gaps[0], dayStart, next);
      ActiveAfterGap(st, gaps[0], dayStart, next);
      StaysActive(HandleGap(st, gaps[0]), rows, gaps[1..], e, dayStart, next, limit);
    } else if rows != [] {
      var next := rows[0].ReceivedNs();
      SoundLater(st, dayStart, now, next);
      RowIsSound(st, rows[0], dayStart, next);
      RowKeepsActive(st, rows[0]);
      StaysActive(HandleRow(st, rows[0]), rows[1..], gaps, e, dayStart, next, limit);
    }
  }

  lemma {:induction false} InGapsBy(gaps: seq<GapEvent>, e: GapEvent, t: int)
    requires e in gaps && EffectiveNs(e) <= t
    ensures e in GapsBy(gaps, t)
  {
    if gaps[0] != e {
      assert gaps == [gaps[0]] + gaps[1..];
      InGapsBy(gaps[1..], e, t);
    }
  }

  lemma {:induction false} OpeningEndsValidTime(st: DayValue, rows: seq<Row>, gaps: seq<GapEvent>, e: GapEvent, dayStart: int, dayEnd: int, t: int)
    requires Begins(st, rows, gaps, dayStart, dayEnd)
    requires e in gaps && e.state.Open? && OnlyOne(gaps, e) && dayStart <= t < dayEnd && EffectiveNs(e) <= t
    ensures st.Keyed() && !CoversPoint(Written(Walk(st, rows, gaps), dayEnd), t)
  {
    RowsAreComplete(st, rows, gaps, dayStart, dayEnd, t);
    InTimeBy(rows, gaps, dayStart, dayEnd - 1, t);
    GapsByFacts(gaps, t);
    InGapsBy(gaps, e, t);
    hide Sound, TimeOrdered, Walk, Written, CoversPoint, Lost;
    StaysActive(st, RowsBy(rows, t), GapsBy(gaps, t), e, dayStart, dayStart, dayEnd - 1);
  }

  lemma OnlyOneSelected(ledger: seq<GapEvent>, symbol: string, e: GapEvent)
    requires e in ledger && Names(e, symbol) && OnlyOne(ledger, e)
    ensures var gaps := StableSort(Select(ledger, symbol), ByKey);
            e in gaps && OnlyOne(gaps, e)
  {
    var gaps := StableSort(Select(ledger, symbol), ByKey);
    SameElements(gaps, Select(ledger, symbol));
    NamedIsSelected(ledger, e, symbol);
    hide StableSort, Select, Names;
    forall x | x in gaps && x.gapId == e.gapId
      ensures x == e
    {
      NamedIsSelected(ledger, x, symbol);
    }
  }

  /** An OPEN that names the symbol and has no CLOSED: from its time on the day writes nothing as valid. */
  lemma NamedOpeningEndsValidTime(st: DayValue, rows: seq<Row>, ledger: seq<GapEvent>, symbol: string, e: GapEvent, dayStart: int, dayEnd: int, t: int)
    requires Begins(st, rows, StableSort(Select(ledger, symbol), ByKey), dayStart, dayEnd)
    requires e in ledger && e.state.Open? && Names(e, symbol) && OnlyOne(ledger, e) && dayStart <= t < dayEnd && EffectiveNs(e) <= t
    ensures st.Keyed() && !CoversPoint(Written(Walk(st, rows, StableSort(Select(ledger, symbol), ByKey)), dayEnd), t)
  {
    OnlyOneSelected(ledger, symbol, e);
    hide *;
    OpeningEndsValidTime(st, rows, StableSort(Select(ledger, symbol), ByKey), e, dayStart, dayEnd, t);
  }

  lemma {:induction false} AllTheSame(xs: seq<GapEvent>, e: GapEvent)
    requires forall x :: x in xs ==> x == e
    ensures multiset(xs)[e] == |xs|
  {
    if xs != [] {
      assert xs == [xs[0]] + xs[1..];
      assert forall x :: x in xs <==> x == xs[0] || x in xs[1..];
      assert xs[0] in xs;
      AllTheSame(xs[1..], e);
      assert multiset(xs) == multiset{xs[0]} + multiset(xs[1..]);
    }
  }

  lemma {:induction false} OnlyItself(xs: seq<GapEvent>, e: GapEvent)
    requires multiset(xs)[e] == 1 && OnlyOne(xs, e)
    ensures OnlyGap(xs, e.gapId) == [e]
  {
    OnlyGapCounts(xs, e.gapId);
    var r := OnlyGap(xs, e.gapId);
    forall x | x in r
      ensures x == e
    {
      assert multiset(r)[x] > 0;
      assert x in xs;
    }
    AllTheSame(r, e);
    assert r == [r[0]];
  }

  lemma NamedIsRelevant(e: GapEvent, symbol: string)
    ensures Relevant(e, symbol) <==> Names(e, symbol)
  {
  }

  lemma {:induction false} OneOpeningSpans(e: GapEvent, windowEnd: int, t: int)
    requires e.state.Open? && QualityEffectiveNs(e) <= t < windowEnd
    ensures CoversPoint(GapSpans([e], windowEnd), t)
  {
    SingleOpening([e], 0, 1);
    assert [e][..1] == [e];
    var entry := Opened(e.gapId, QualityEffectiveNs(e));
    assert [entry][1..] == [];
    assert StillOpen([], windowEnd) == [];
    assert StillOpen([entry], windowEnd) == [Interval(QualityEffectiveNs(e), windowEnd)] + [];
    OneSpan(Interval(QualityEffectiveNs(e), windowEnd), t);
    assert [] + ([Interval(QualityEffectiveNs(e), windowEnd)] + []) == [Interval(QualityEffectiveNs(e), windowEnd)] + [];
  }

  lemma {:induction false} OnlyOpening(ledger: seq<GapEvent>, symbol: string, e: GapEvent)
    requires multiset(ledger)[e] == 1 && Names(e, symbol) && OnlyOne(ledger, e)
    ensures OnlyGap(StableSort(Select(ledger, symbol), ByQualityKey), e.gapId) == [e]
  {
    var chosen := Select(ledger, symbol);
    var xs := StableSort(chosen, ByQualityKey);
    SelectCounts(ledger, symbol);
    NamedIsRelevant(e, symbol);
    SameElements(xs, chosen);
    forall x | x in xs && x.gapId == e.gapId
      ensures x == e
    {
      NamedIsSelected(ledger, x, symbol);
    }
    hide StableSort, Select, Names, OnlyGap;
    OnlyItself(xs, e);
  }

  /** And quality takes it for invalid from there to the window's end. */
  lemma {:induction false} NamedOpeningIsInvalid(ledger: seq<GapEvent>, symbol: string, e: GapEvent, windowStart: int, windowEnd: int, t: int)
    requires multiset(ledger)[e] == 1 && e.state.Open? && Names(e, symbol) && OnlyOne(ledger, e)
    requires windowStart <= t < windowEnd && QualityEffectiveNs(e) <= t
    ensures CoversPoint(ExplicitInvalid(ledger, symbol, windowStart, windowEnd), t)
  {
    var spans := GapSpans(StableSort(Select(ledger, symbol), ByQualityKey), windowEnd);
    OnlyOpening(ledger, symbol, e);
    OneOpeningSpans(e, windowEnd, t);
    hide StableSort, Select, Names, GapSpans, CoversPoint, OnlyGap, Clip;
    GapsAreIndependent(StableSort(Select(ledger, symbol), ByQualityKey), windowEnd, t);
    ClipKeepsPoints(spans, windowStart, windowEnd);
    assert t in Points(spans, windowStart, windowEnd);
    assert t in Points(Clip(spans, windowStart, windowEnd), windowStart, windowEnd);
  }
}
