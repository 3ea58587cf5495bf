/**
 * Two days with a checkpoint between them and one walk over both days (pipeline/l2.py): the books that the checkpoint
 * keeps go on as if there had been no midnight.
 */
module Midnight {
  import opened Wrappers
  import opened Sorting
  import opened Bridge
  import opened Book
  import opened Shortcut
  import opened Handoff
  import opened Ledger
  import opened Day
  import opened DayFacts
  import opened BookReports

  // ---- UNANCHORED and GAPPED are alike -------------------------------------------------------------

  lemma {:induction false} ApplyAllIgnoresState(b: BookValue, s: L2State, diffs: seq<DepthDiff>)
    ensures ApplyAll(b.(state := s), diffs) == ApplyAll(b, diffs).(state := s)
  {
    if diffs != [] {
      ApplyAllIgnoresState(b, s, diffs[..|diffs| - 1]);
    }
  }

  lemma {:induction false} ReplayIgnoresState(b: BookValue, s: L2State, anchor: Anchor, chain: seq<DepthDiff>)
    requires chain != []
    ensures ReplayBridge(b.(state := s), anchor, chain) == ReplayBridge(b, anchor, chain)
    ensures ReplayBridge(b, anchor, chain).1.Some?
  {
    ApplyAllIgnoresState(b, s, chain);
  }

  /** A search looks at the state no more than it changes it. */
  lemma {:induction false} SearchIgnoresState(b: BookValue, s: L2State)
    ensures var r := TryBridge(b);
            && TryBridge(b.(state := s)) == (if r.1.Some? then r.0 else r.0.(state := s), r.1)
            && (r.1.None? ==> r.0.state == b.state)
  {
    hide ReplayBridge, StableSort;
    if b.anchor.Some? {
      var sorted := StableSort(b.pending, ByReceive);
      var kept := sorted[DiscardCount(b.anchor.value.lastUpdateId, Spans(sorted))..];
      if kept != [] {
        ReplayIgnoresState(b, s, b.anchor.value, kept);
      }
    }
  }

  lemma {:induction false} StepIgnoresState(b: BookValue, s: L2State, e: BookEvent)
    requires b.WellFormed() && !b.state.Valid? && !s.Valid?
    ensures var r := Step(b, e);
            && Step(b.(state := s), e) == (if r.1.Some? then r.0 else r.0.(state := s), r.1)
            && (r.1.None? ==> r.0.state == b.state)
  {
    hide TryBridge;
    match e
    case Diff(d) =>
      SearchIgnoresState(Buffering(b, d), s);
      assert Buffering(b, d).(state := s) == Buffering(b.(state := s), d);
    case Snapshot(x) =>
      SearchIgnoresState(Anchoring(b, x), s);
      assert Anchoring(b, x).(state := s) == Anchoring(b.(state := s), x);
  }

  /** Mirrors, but for whether an unbridged book has been GAPPED or is still UNANCHORED. */
  ghost predicate Alike(l: BookValue, r: BookValue, forgotten: set<Identity>, k: nat) {
    (l.state.Valid? <==> r.state.Valid?) && Mirrors(l.(state := r.state), r, forgotten, k)
  }

  lemma {:induction false} StepAlike(l: BookValue, r: BookValue, e: BookEvent, lastSeq: int, lastId: int, forgotten: set<Identity>, k: nat)
    returns (k': nat)
    requires l.WellFormed() && r.WellFormed() && Alike(l, r, forgotten, k) && Timely(l, lastSeq, lastId)
    requires e.Diff? ==> lastSeq <= e.diff.span.receiveSeq && IdentityOf(e.diff) !in forgotten
    requires e.Snapshot? ==> lastId <= e.snapshot.lastUpdateId
    ensures Step(l, e).1 == Step(r, e).1
    ensures Alike(Step(l, e).0, Step(r, e).0, forgotten, k')
  {
    hide Step;
    var same := l.(state := r.state);
    assert same.WellFormed() && Timely(same, lastSeq, lastId);
    StepMirrors(same, r, e, lastSeq, lastId, forgotten, k);
    k' := MissingAfter(same, e, k);
    if !l.state.Valid? {
      StepIgnoresState(l, r.state, e);
    } else {
      assert same == l;
    }
  }

  // ---- What a run keeps of its books ----------------------------------------------------------------

  /** An unbridged book without an anchor shows nothing. */
  predicate Bare(b: BookValue) {
    !b.state.Valid? && b.anchor.None? ==> b.bids == map[] && b.asks == map[] && b.previous.None?
  }

  lemma {:induction false} ReplayIsBare(b: BookValue, anchor: Anchor, chain: seq<DepthDiff>)
    requires chain != []
    ensures Bare(ReplayBridge(b, anchor, chain).0)
  {
    ApplyAllFrame(b, chain);
  }

  lemma {:induction false} SearchKeepsBare(b: BookValue)
    requires Bare(b)
    ensures Bare(TryBridge(b).0)
  {
    if b.anchor.Some? {
      hide TryBridge, ReplayBridge, StableSort;
      SearchOutcomes(b);
      var sorted := StableSort(b.pending, ByReceive);
      var c := DiscardCount(b.anchor.value.lastUpdateId, Spans(sorted));
      if c < |sorted| {
        assert Spans(sorted)[c] == sorted[c].span;
        ReplayIsBare(b, b.anchor.value, sorted[c..]);
      }
    }
  }

  lemma {:induction false} StepKeepsBare(b: BookValue, e: BookEvent)
    requires b.WellFormed() && Bare(b)
    ensures Bare(Step(b, e).0)
  {
    hide TryBridge;
    match e
    case Diff(d) =>
      if !b.state.Valid? {
        SearchKeepsBare(Buffering(b, d));
      }
    case Snapshot(s) => SearchKeepsBare(Anchoring(b, s));
  }

  /** A later row of the same connection: receive order, final ids and snapshot ids do not fall. */
  predicate Later(a: Row, b: Row) {
    match (a, b)
    case (DepthRow(_, d), DepthRow(_, e)) => d.span.receiveSeq <= e.span.receiveSeq && d.span.final <= e.span.final
    case (SnapshotRow(_, s), SnapshotRow(_, u)) => s.lastUpdateId <= u.lastUpdateId
    case _ => true
  }

  ghost predicate RowsAscend(rows: seq<Row>) {
    forall i, j :: 0 <= i < j < |rows| && rows[i].connectionId == rows[j].connectionId ==> Later(rows[i], rows[j])
  }

  /** A row that is later than all a book holds. */
  predicate LaterThanBook(l: BookValue, row: Row) {
    match row
    case DepthRow(_, d) => forall i :: 0 <= i < |l.pending| ==> l.pending[i].span.receiveSeq <= d.span.receiveSeq && l.pending[i].span.final <= d.span.final
    case SnapshotRow(_, s) => l.anchor.Some? ==> l.anchor.value.lastUpdateId <= s.lastUpdateId
  }

  ghost predicate Orderly(l: BookValue) {
    Clean(l) && Bare(l) && Ordered(l.pending, ByReceive) && FinalsAscend(l.pending)
  }

  ghost predicate Fits(l: BookValue, c: string, rows: seq<Row>) {
    Orderly(l) && forall i :: 0 <= i < |rows| && rows[i].connectionId == c ==> LaterThanBook(l, rows[i])
  }

  /** Bounds of what an orderly book holds. */
  function LastSeq(l: BookValue): int {
    if l.pending == [] then 0 else l.pending[|l.pending| - 1].span.receiveSeq
  }

  function LastFinal(l: BookValue): int {
    if l.pending == [] then 0 else l.pending[|l.pending| - 1].span.final
  }

  lemma {:induction false} StepKeepsClean(l: BookValue, e: BookEvent)
    requires l.WellFormed() && Clean(l)
    ensures Clean(Step(l, e).0)
  {
    RunKeepsClean(l, [e]);
    StepKeepsWellFormed(l, e);
    hide Step, Clean;
    assert [e][1..] == [];
    assert Run(l, [e]).0 == Run(Step(l, e).0, []).0;
  }

  lemma {:induction false} StepStaysOrderly(l: BookValue, row: Row)
    requires l.WellFormed() && Orderly(l) && LaterThanBook(l, row)
    ensures Orderly(Step(l, row.Event()).0)
  {
    var e := row.Event();
    StepKeepsBare(l, e);
    StepKeepsClean(l, e);
    OrderedWith(l, row);
    var seqNow := if e.Diff? then e.diff.span.receiveSeq else LastSeq(l);
    var finalNow := if e.Diff? then e.diff.span.final else LastFinal(l);
    var idNow := if e.Snapshot? then e.snapshot.lastUpdateId else AnchorId(l);
    EarlierThanRow(l, row, seqNow, idNow, finalNow);
    hide Step, Clean, Bare, Timely, AscendsTo;
    StepKeepsAscending(l, e, finalNow);
    StepKeepsTimely(l, e, seqNow, idNow);
    OrderlyParts(Step(l, e).0, SeqAfter(e, seqNow), IdAfter(e, idNow), finalNow);
  }

  lemma {:induction false} EarlierThanRow(l: BookValue, row: Row, seqNow: int, idNow: int, finalNow: int)
    requires Orderly(l) && LaterThanBook(l, row)
    requires seqNow == (if row.DepthRow? then row.diff.span.receiveSeq else LastSeq(l))
    requires finalNow == (if row.DepthRow? then row.diff.span.final else LastFinal(l))
    requires idNow == AnchorId(l) || (row.SnapshotRow? && idNow == row.snapshot.lastUpdateId)
    ensures Timely(l, seqNow, idNow) && AscendsTo(l.pending, finalNow)
  {
    if l.pending != [] {
      assert forall i :: 0 <= i < |l.pending| - 1 ==> ByReceive(l.pending[i], l.pending[|l.pending| - 1]);
    }
  }

  lemma OrderlyParts(b: BookValue, lastSeq: int, lastId: int, lastFinal: int)
    requires Clean(b) && Bare(b) && Timely(b, lastSeq, lastId) && AscendsTo(b.pending, lastFinal)
    ensures Orderly(b)
  {
  }

  function AnchorId(l: BookValue): int {
    if l.anchor.Some? then l.anchor.value.lastUpdateId else 0
  }

  lemma {:induction false} OrderedWith(l: BookValue, row: Row)
    requires Ordered(l.pending, ByReceive) && LaterThanBook(l, row)
    ensures row.DepthRow? ==> Ordered(l.pending + [row.diff], ByReceive)
  {
  }

  /** What is left in a book after a row is still earlier than every later row. */
  lemma {:induction false} StepStaysEarlier(l: BookValue, row: Row, next: Row)
    requires l.WellFormed() && Orderly(l) && LaterThanBook(l, row) && LaterThanBook(l, next) && Later(row, next)
    ensures LaterThanBook(Step(l, row.Event()).0, next)
  {
    hide Step, Clean, Bare;
    var e := row.Event();
    OrderedWith(l, row);
    match next
    case DepthRow(_, d) =>
      var seqNow := if e.Diff? then e.diff.span.receiveSeq else d.span.receiveSeq;
      var finalNow := if e.Diff? then e.diff.span.final else d.span.final;
      StepKeepsTimely(l, e, seqNow, if e.Snapshot? then e.snapshot.lastUpdateId else AnchorId(l));
      StepKeepsAscending(l, e, finalNow);
    case SnapshotRow(_, s) =>
      var id := if e.Snapshot? then e.snapshot.lastUpdateId else s.lastUpdateId;
      if l.pending != [] {
        assert forall i :: 0 <= i < |l.pending| - 1 ==> ByReceive(l.pending[i], l.pending[|l.pending| - 1]);
      }
      StepKeepsTimely(l, e, if e.Diff? then e.diff.span.receiveSeq else LastSeq(l), id);
  }

  // ---- What a day keeps of its books ----------------------------------------------------------------

  predicate SameDiff(a: Row, b: Row) {
    a.DepthRow? && b.DepthRow? && a.connectionId == b.connectionId && IdentityOf(a.diff) == IdentityOf(b.diff)
  }

  /** No diff of one day comes again on the next. */
  ghost predicate NoneRepeats(today: seq<Row>, tomorrow: seq<Row>) {
    forall i, j :: 0 <= i < |today| && 0 <= j < |tomorrow| ==> !SameDiff(today[i], tomorrow[j])
  }

  ghost predicate Unseen(seen: set<Identity>, c: string, tomorrow: seq<Row>) {
    forall j :: 0 <= j < |tomorrow| && tomorrow[j].connectionId == c && tomorrow[j].DepthRow? ==> IdentityOf(tomorrow[j].diff) !in seen
  }

  /** Each book fits the rows to come and has seen none of tomorrow's. */
  ghost predicate Ready(st: DayValue, rows: seq<Row>, tomorrow: seq<Row>) {
    forall c :: c in st.books ==> Fits(st.books[c], c, rows) && Unseen(st.books[c].seen, c, tomorrow)
  }

  lemma FreshIsReady(c: string, rows: seq<Row>, tomorrow: seq<Row>)
    ensures Fits(FreshBook(c), c, rows) && Unseen(FreshBook(c).seen, c, tomorrow)
  {
  }

  lemma {:induction false} StepStaysReady(l: BookValue, rows: seq<Row>, tomorrow: seq<Row>)
    requires l.WellFormed() && rows != [] && RowsAscend(rows)
    requires Fits(l, rows[0].connectionId, rows) && Unseen(l.seen, rows[0].connectionId, tomorrow) && NoneRepeats(rows[..1], tomorrow)
    ensures var r := Step(l, rows[0].Event()).0;
            Fits(r, rows[0].connectionId, rows[1..]) && Unseen(r.seen, rows[0].connectionId, tomorrow)
  {
    var row := rows[0];
    hide Step, Orderly, LaterThanBook;
    StepStaysOrderly(l, row);
    StepSees(l, row.Event());
    assert rows[..1][0] == row;
    forall i | 0 <= i < |rows[1..]| && rows[1..][i].connectionId == row.connectionId
      ensures LaterThanBook(Step(l, row.Event()).0, rows[1..][i])
    {
      assert rows[1..][i] == rows[i + 1];
      StepStaysEarlier(l, row, rows[i + 1]);
    }
    forall j | 0 <= j < |tomorrow| && tomorrow[j].connectionId == row.connectionId && tomorrow[j].DepthRow?
      ensures IdentityOf(tomorrow[j].diff) !in Step(l, row.Event()).0.seen
    {
      assert !SameDiff(rows[..1][0], tomorrow[j]);
    }
  }

  lemma FitsLater(l: BookValue, c: string, rows: seq<Row>)
    requires rows != [] && Fits(l, c, rows)
    ensures Fits(l, c, rows[1..])
  {
  }

  /** What a row does to the books: its own connection's book steps. */
  lemma RowMovesOne(st: DayValue, row: Row)
    requires st.Keyed()
    ensures var r, c := HandleRow(st, row), row.connectionId;
            && r.books.Keys == st.books.Keys + {c}
            && (forall d :: d in st.books && d != c ==> r.books[d] == st.books[d])
            && var b := if c in st.books then st.books[c] else FreshBook(c);
            b.WellFormed() && b.connectionId == c && r.books[c] == Step(b, row.Event()).0
  {
    hide Step, OnChange;
    var ready := WithBook(st, row.connectionId);
    var (b, change) := Step(ready.books[row.connectionId], row.Event());
    if change.Some? {
      ChangeKeepsBooks(ready.(books := ready.books[row.connectionId := b]), row.connectionId, change.value);
    }
  }

  lemma ChangeKeepsBooks(st: DayValue, c: string, change: StateChange)
    ensures OnChange(st, c, change).books == st.books
  {
  }

  lemma {:induction false} RowStaysReady(st: DayValue, rows: seq<Row>, tomorrow: seq<Row>)
    requires st.Keyed() && rows != [] && RowsAscend(rows) && Ready(st, rows, tomorrow) && NoneRepeats(rows[..1], tomorrow)
    ensures Ready(HandleRow(st, rows[0]), rows[1..], tomorrow)
  {
    var row := rows[0];
    RowMovesOne(st, row);
    hide HandleRow, Step, Fits, Unseen, NoneRepeats, RowsAscend;
    var r := HandleRow(st, row);
    forall c | c in r.books
      ensures Fits(r.books[c], c, rows[1..]) && Unseen(r.books[c].seen, c, tomorrow)
    {
      if c == row.connectionId {
        FreshIsReady(c, rows, tomorrow);
        StepStaysReady(if c in st.books then st.books[c] else FreshBook(c), rows, tomorrow);
      } else {
        FitsLater(st.books[c], c, rows);
      }
    }
  }

  lemma {:induction false} GapStaysReady(st: DayValue, e: GapEvent, rows: seq<Row>, tomorrow: seq<Row>)
    requires st.Keyed() && Ready(st, rows, tomorrow)
    ensures Ready(HandleGap(st, e), rows, tomorrow)
  {
    if e.state.Open? {
      hide GapChanges, Emit, Unseen;
      forall c | c in st.books
        ensures Fits(Invalidated(st.books[c]), c, rows)
      {
      }
    }
  }

  lemma RestAscends(rows: seq<Row>)
    requires rows != [] && RowsAscend(rows)
    ensures RowsAscend(rows[1..])
  {
    forall i, j | 0 <= i < j < |rows[1..]| && rows[1..][i].connectionId == rows[1..][j].connectionId
      ensures Later(rows[1..][i], rows[1..][j])
    {
      assert rows[1..][i] == rows[i + 1] && rows[1..][j] == rows[j + 1];
    }
  }

  lemma {:induction false} WalkStaysReady(st: DayValue, today: seq<Row>, gaps: seq<GapEvent>, tomorrow: seq<Row>)
    requires st.Keyed() && RowsAscend(today + tomorrow) && NoneRepeats(today, tomorrow) && Ready(st, today + tomorrow, tomorrow)
    ensures Ready(Walk(st, today, gaps), tomorrow, tomorrow)
    decreases |today| + |gaps|
  {
    hide HandleGap, HandleRow, Ready, RowsAscend;
    if GapFirst(today, gaps) {
      GapKeepsKeyed(st, gaps[0]);
      GapStaysReady(st, gaps[0], today + tomorrow, tomorrow);
      WalkStaysReady(HandleGap(st, gaps[0]), today, gaps[1..], tomorrow);
    } else if today != [] {
      RowKeepsKeyed(st, today[0]);
      assert (today + tomorrow)[0] == today[0] && (today + tomorrow)[1..] == today[1..] + tomorrow && (today + tomorrow)[..1] == today[..1];
      RowStaysReady(st, today + tomorrow, tomorrow);
      RestAscends(today + tomorrow);
      WalkStaysReady(HandleRow(st, today[0]), today[1..], gaps, tomorrow);
    } else {
      assert [] + tomorrow == tomorrow;
    }
  }
}
