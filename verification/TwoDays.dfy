/**
 * One walk over two days, and two walks with the first day's checkpoint between them (pipeline/l2.py): the same changes
 * on every connection, and the same valid time.
 */
module TwoDays {
  import opened Wrappers
  import opened Book
  import opened Shortcut
  import opened Checkpoint
  import opened Handoff
  import opened Ledger
  import opened Day
  import opened DayFacts
  import opened DayCheckpoints
  import opened Midnight
  import opened EndToEnd
  import opened Completeness

  // ---- Changes by connection -----------------------------------------------------------------------

  function ChangesOf(changes: seq<StateChange>, c: string): seq<StateChange> {
    if changes == [] then []
    else ChangesOf(changes[..|changes| - 1], c) + if changes[|changes| - 1].connectionId == c then [changes[|changes| - 1]] else []
  }

  lemma {:induction false} ChangesOfConcat(a: seq<StateChange>, b: seq<StateChange>, c: string)
    ensures ChangesOf(a + b, c) == ChangesOf(a, c) + ChangesOf(b, c)
  {
    if b == [] {
      assert a + b == a;
    } else {
      var n := |b| - 1;
      ChangesOfConcat(a, b[..n], c);
      assert (a + b)[..|a + b| - 1] == a + b[..n];
    }
  }

  /** A transport gap changes each VALID book once. */
  lemma {:induction false} GapChangesOf(order: seq<string>, books: map<string, BookValue>, at: int, reason: string, c: string)
    requires forall d :: d in order ==> d in books && books[d].connectionId == d
    requires forall i, j :: 0 <= i < j < |order| ==> order[i] != order[j]
    ensures ChangesOf(GapChanges(order, books, at, reason), c)
            == if c in order && books[c].state.Valid? then [StateChange(c, at, Gapped, books[c].previous, Reason.TransportGap(reason))] else []
  {
    if order != [] {
      var front, last := order[..|order| - 1], order[|order| - 1];
      assert order == front + [last];
      GapChangesOf(front, books, at, reason, c);
      var b := books[last];
      var more := if b.state.Valid? then [StateChange(b.connectionId, at, Gapped, b.previous, Reason.TransportGap(reason))] else [];
      ChangesOfConcat(GapChanges(front, books, at, reason), more, c);
      assert ChangesOf(more, c) == if c == last then more else [] by {
        if more != [] {
          assert more[..0] == [];
        }
      }
    }
  }

  ghost predicate ChangesTwin(before: seq<StateChange>, whole: seq<StateChange>, rest: seq<StateChange>) {
    forall c :: ChangesOf(whole, c) == ChangesOf(before, c) + ChangesOf(rest, c)
  }

  lemma {:induction false} ChangesStayTwin(before: seq<StateChange>, whole: seq<StateChange>, rest: seq<StateChange>, a: seq<StateChange>, b: seq<StateChange>)
    requires ChangesTwin(before, whole, rest) && forall c :: ChangesOf(a, c) == ChangesOf(b, c)
    ensures ChangesTwin(before, whole + a, rest + b)
  {
    forall c
      ensures ChangesOf(whole + a, c) == ChangesOf(before, c) + ChangesOf(rest + b, c)
    {
      ChangesOfConcat(whole, a, c);
      ChangesOfConcat(rest, b, c);
    }
  }

  // ---- Validity rows -------------------------------------------------------------------------------

  /**
   * The rows of the whole and of the second day alone: the second day's row that is open at midnight starts there, the
   * whole one's when it became valid. A stray CLOSED may drop either.
   */
  ghost predicate RowsTwin(base: seq<ValidityRow>, whole: seq<ValidityRow>, wholeFrom: Option<int>, rest: seq<ValidityRow>, restFrom: Option<int>,
                           open: Option<int>, midnight: int, dropped: bool)
  {
    && |base| <= |whole| && whole[..|base|] == base
    && var more := whole[|base|..];
       || (more == rest && wholeFrom == restFrom && (open.None? || dropped))
       || (open.Some? && more == [] && rest == [] && wholeFrom == open && restFrom == Some(midnight))
       || (open.Some? && more != [] && more[0].from == open.value && rest == [more[0].(from := midnight)] + more[1..] && wholeFrom == restFrom)
  }

  lemma {:induction false} RowsStayTwin(base: seq<ValidityRow>, whole: seq<ValidityRow>, wholeFrom: Option<int>, rest: seq<ValidityRow>, restFrom: Option<int>,
                                        open: Option<int>, midnight: int, dropped: bool, to: int, c: string, reason: EndReason, next: Option<int>)
    requires RowsTwin(base, whole, wholeFrom, rest, restFrom, open, midnight, dropped) && wholeFrom.Some? && restFrom.Some?
    ensures RowsTwin(base, whole + [ValidityRow(wholeFrom.value, to, c, reason)], next, rest + [ValidityRow(restFrom.value, to, c, reason)], next, open, midnight, dropped)
  {
    var more, a, b := whole[|base|..], ValidityRow(wholeFrom.value, to, c, reason), ValidityRow(restFrom.value, to, c, reason);
    assert (whole + [a])[..|base|] == base && (whole + [a])[|base|..] == more + [a];
    if more != [] {
      assert (more + [a])[1..] == more[1..] + [a] && (more + [a])[0] == more[0];
      assert [more[0].(from := midnight)] + more[1..] + [a] == [more[0].(from := midnight)] + (more[1..] + [a]);
    } else {
      assert [] + [a] == [a] && [a][1..] == [];
    }
  }

  // ---- The two states ------------------------------------------------------------------------------

  function BookOf(st: DayValue, c: string): BookValue {
    if c in st.books then st.books[c] else FreshBook(c)
  }

  function Forgot(forgotten: map<string, set<Identity>>, c: string): set<Identity> {
    if c in forgotten then forgotten[c] else {}
  }

  ghost predicate SomeAlike(l: BookValue, r: BookValue, forgotten: set<Identity>) {
    exists k :: Alike(l, r, forgotten, k)
  }

  ghost predicate BooksAlike(st: DayValue, q: DayValue, forgotten: map<string, set<Identity>>) {
    && q.books.Keys <= st.books.Keys && forgotten.Keys <= st.books.Keys
    && forall c :: c in st.books ==> SomeAlike(st.books[c], BookOf(q, c), Forgot(forgotten, c))
  }

  /** The last valid connection, as far as a CLOSED can still use it. */
  function Live(st: DayValue): Option<string> {
    if st.lastValid.Some? && st.lastValid.value in st.books && st.books[st.lastValid.value].state.Valid? then st.lastValid else None
  }

  datatype DayCut = DayCut(midnight: int, open: Option<int>, rows: seq<ValidityRow>, changes: seq<StateChange>, forgotten: map<string, set<Identity>>)

  /** What a walk over both days and one that starts from the checkpoint have in common. */
  ghost predicate Twins(st: DayValue, q: DayValue, z: DayCut, dropped: bool) {
    && BooksAlike(st, q, z.forgotten)
    && st.activeGaps == q.activeGaps && st.authority == q.authority && Live(st) == Live(q)
    && RowsTwin(z.rows, st.intervals, st.validFrom, q.intervals, q.validFrom, z.open, z.midnight, dropped)
    && ChangesTwin(z.changes, st.changes, q.changes)
  }

  // ---- Gap events ----------------------------------------------------------------------------------

  lemma {:induction false} InvalidatedAlike(l: BookValue, r: BookValue, forgotten: set<Identity>)
    requires SomeAlike(l, r, forgotten)
    ensures SomeAlike(Invalidated(l), Invalidated(r), forgotten)
    ensures r == FreshBook(r.connectionId) ==> SomeAlike(Invalidated(l), r, forgotten)
  {
    assert Alike(Invalidated(l), Invalidated(r), forgotten, 0);
    assert r == FreshBook(r.connectionId) ==> Alike(Invalidated(l), r, forgotten, 0);
  }

  lemma {:induction false} OpeningKeepsBooksAlike(st: DayValue, q: DayValue, forgotten: map<string, set<Identity>>)
    requires BooksAlike(st, q, forgotten)
    ensures BooksAlike(st.(books := InvalidateAll(st.books)), q.(books := InvalidateAll(q.books)), forgotten)
  {
    hide SomeAlike, Invalidated;
    var r, p := st.(books := InvalidateAll(st.books)), q.(books := InvalidateAll(q.books));
    forall c | c in r.books
      ensures SomeAlike(r.books[c], BookOf(p, c), Forgot(forgotten, c))
    {
      InvalidatedAlike(st.books[c], BookOf(q, c), Forgot(forgotten, c));
    }
  }

  lemma {:induction false} SameGapChanges(st: DayValue, q: DayValue, forgotten: map<string, set<Identity>>, at: int, reason: string, c: string)
    requires st.Keyed() && q.Keyed() && BooksAlike(st, q, forgotten)
    ensures ChangesOf(GapChanges(st.order, st.books, at, reason), c) == ChangesOf(GapChanges(q.order, q.books, at, reason), c)
  {
    GapChangesOf(st.order, st.books, at, reason, c);
    GapChangesOf(q.order, q.books, at, reason, c);
    if c in st.books {
      var k :| Alike(st.books[c], BookOf(q, c), Forgot(forgotten, c), k);
    }
  }

  lemma OpeningFields(st: DayValue, e: GapEvent)
    requires st.Keyed() && AuthorityHolds(st) && e.state.Open?
    ensures var r, at := HandleGap(st, e), EffectiveNs(e);
            && r.books == InvalidateAll(st.books) && r.authority.None? && r.validFrom.None? && r.lastValid.None?
            && r.activeGaps == st.activeGaps + {e.gapId}
            && r.changes == st.changes + GapChanges(st.order, st.books, at, e.reason)
            && (st.authority.None? ==> r.intervals == st.intervals && st.validFrom.None?)
            && (st.authority.Some? ==>
                  && st.validFrom.Some?
                  && r.intervals == st.intervals + [ValidityRow(st.validFrom.value, at, st.authority.value, ByTransportGap)])
  {
    hide GapChanges, InvalidateAll;
  }

  lemma TwinsParts(st: DayValue, q: DayValue, z: DayCut, dropped: bool)
    requires Twins(st, q, z, dropped)
    ensures BooksAlike(st, q, z.forgotten) && ChangesTwin(z.changes, st.changes, q.changes)
    ensures RowsTwin(z.rows, st.intervals, st.validFrom, q.intervals, q.validFrom, z.open, z.midnight, dropped)
    ensures st.activeGaps == q.activeGaps && st.authority == q.authority && Live(st) == Live(q)
  {
    hide BooksAlike, ChangesTwin, RowsTwin, Live;
  }

  lemma OpeningChanges(st: DayValue, q: DayValue, z: DayCut, at: int, reason: string)
    requires st.Keyed() && q.Keyed() && BooksAlike(st, q, z.forgotten) && ChangesTwin(z.changes, st.changes, q.changes)
    ensures ChangesTwin(z.changes, st.changes + GapChanges(st.order, st.books, at, reason), q.changes + GapChanges(q.order, q.books, at, reason))
  {
    hide BooksAlike, ChangesTwin, ChangesOf;
    forall c
      ensures ChangesOf(GapChanges(st.order, st.books, at, reason), c) == ChangesOf(GapChanges(q.order, q.books, at, reason), c)
    {
      SameGapChanges(st, q, z.forgotten, at, reason, c);
    }
    ChangesStayTwin(z.changes, st.changes, q.changes, GapChanges(st.order, st.books, at, reason), GapChanges(q.order, q.books, at, reason));
  }

  lemma NoneLive(st: DayValue)
    ensures st.lastValid.None? ==> Live(st) == None
  {
  }

  lemma OpeningKeepsTwins(st: DayValue, q: DayValue, z: DayCut, dropped: bool, e: GapEvent)
    requires st.Keyed() && q.Keyed() && AuthorityHolds(st) && AuthorityHolds(q) && Twins(st, q, z, dropped) && e.state.Open?
    ensures Twins(HandleGap(st, e), HandleGap(q, e), z, dropped)
  {
    var at, r, p := EffectiveNs(e), HandleGap(st, e), HandleGap(q, e);
    TwinsParts(st, q, z, dropped);
    OpeningFields(st, e);
    OpeningFields(q, e);
    NoneLive(r);
    NoneLive(p);
    hide AuthorityHolds, HandleGap, BooksAlike, ChangesTwin, RowsTwin, InvalidateAll, GapChanges, Live, KeyedBooks;
    OpeningKeepsBooksAlike(st, q, z.forgotten);
    BooksAlikeFrame(st.(books := InvalidateAll(st.books)), q.(books := InvalidateAll(q.books)), r, p, z.forgotten);
    OpeningChanges(st, q, z, at, e.reason);
    if st.authority.Some? {
      RowsStayTwin(z.rows, st.intervals, st.validFrom, q.intervals, q.validFrom, z.open, z.midnight, dropped, at, st.authority.value, ByTransportGap, None);
    }
  }

  lemma {:induction false} ClosingKeepsTwins(st: DayValue, q: DayValue, z: DayCut, dropped: bool, e: GapEvent)
    requires st.Keyed() && q.Keyed() && AuthorityHolds(st) && AuthorityHolds(q) && Twins(st, q, z, dropped) && e.state.Closed?
    requires dropped || e.gapId in st.activeGaps
    ensures Twins(HandleGap(st, e), HandleGap(q, e), z, dropped)
  {
    hide BooksAlike, ChangesTwin;
    BooksAlikeFrame(st, q, HandleGap(st, e), HandleGap(q, e), z.forgotten);
  }

  lemma BooksAlikeFrame(st: DayValue, q: DayValue, r: DayValue, p: DayValue, forgotten: map<string, set<Identity>>)
    requires BooksAlike(st, q, forgotten)
    ensures r.books == st.books && p.books == q.books ==> BooksAlike(r, p, forgotten)
  {
    hide SomeAlike;
  }

  // ---- Rows ----------------------------------------------------------------------------------------

  /** What a row's step does to the day, once its book is there. */
  function AfterStep(st: DayValue, c: string, b: BookValue, change: Option<StateChange>): DayValue {
    var moved := st.(books := st.books[c := b]);
    if change.None? then moved else OnChange(moved, c, change.value)
  }

  lemma RowIsAStep(st: DayValue, row: Row)
    requires st.Keyed()
    ensures var ready, c := WithBook(st, row.connectionId), row.connectionId;
            && BookOf(st, c).WellFormed() && ready.books[c] == BookOf(st, c)
            && HandleRow(st, row) == AfterStep(ready, c, Step(BookOf(st, c), row.Event()).0, Step(BookOf(st, c), row.Event()).1)
  {
    hide Step, OnChange;
  }

  lemma WithBookLive(st: DayValue, c: string)
    requires st.Keyed()
    ensures Live(WithBook(st, c)) == Live(st)
  {
  }

  lemma WithBookFields(st: DayValue, c: string)
    requires st.Keyed()
    ensures var r := WithBook(st, c);
            && r == st.(order := r.order, books := r.books) && r.books.Keys == st.books.Keys + {c}
            && forall d :: d in r.books ==> r.books[d] == BookOf(st, d)
  {
  }

  lemma WithBooksAlike(st: DayValue, q: DayValue, r: DayValue, p: DayValue, forgotten: map<string, set<Identity>>, c: string)
    requires BooksAlike(st, q, forgotten) && r.books.Keys == st.books.Keys + {c} && p.books.Keys == q.books.Keys + {c}
    requires forall d :: d in r.books ==> r.books[d] == BookOf(st, d)
    requires forall d :: d in p.books ==> p.books[d] == BookOf(q, d)
    ensures BooksAlike(r, p, forgotten)
  {
    FreshIsAlike(c);
    hide SomeAlike;
    forall d | d in r.books
      ensures SomeAlike(r.books[d], BookOf(p, d), Forgot(forgotten, d))
    {
      assert BookOf(p, d) == BookOf(q, d);
    }
  }

  lemma WithBookTwins(st: DayValue, q: DayValue, z: DayCut, dropped: bool, c: string)
    requires st.Keyed() && q.Keyed() && Twins(st, q, z, dropped)
    ensures var r, p := WithBook(st, c), WithBook(q, c);
            Twins(r, p, z, dropped) && c in r.books && c in p.books && p.books[c] == BookOf(q, c) && r.books[c] == BookOf(st, c)
  {
    var r, p := WithBook(st, c), WithBook(q, c);
    TwinsParts(st, q, z, dropped);
    WithBookFields(st, c);
    WithBookFields(q, c);
    WithBookLive(st, c);
    WithBookLive(q, c);
    hide BooksAlike, RowsTwin, ChangesTwin, KeyedBooks, WithBook, Live, BookOf;
    WithBooksAlike(st, q, r, p, z.forgotten, c);
  }

  lemma FreshIsAlike(c: string)
    ensures SomeAlike(FreshBook(c), FreshBook(c), {})
  {
    assert Alike(FreshBook(c), FreshBook(c), {}, 0);
  }

  lemma MovedBooksAlike(st: DayValue, q: DayValue, r: DayValue, p: DayValue, forgotten: map<string, set<Identity>>, c: string, b: BookValue, d: BookValue)
    requires BooksAlike(st, q, forgotten) && c in st.books && c in q.books && SomeAlike(b, d, Forgot(forgotten, c))
    requires r.books == st.books[c := b] && p.books == q.books[c := d]
    ensures BooksAlike(r, p, forgotten)
  {
    hide SomeAlike;
  }

  /** One change, on the same connection of both. */
  lemma OneMoreChange(before: seq<StateChange>, whole: seq<StateChange>, rest: seq<StateChange>, change: StateChange)
    requires ChangesTwin(before, whole, rest)
    ensures ChangesTwin(before, whole + [change], rest + [change])
  {
    ChangesStayTwin(before, whole, rest, [change], [change]);
  }

  /** What OnChange leaves, field by field. */
  lemma ChangeFields(st: DayValue, c: string, b: BookValue, change: StateChange)
    requires AuthorityHolds(st)
    ensures var r := AfterStep(st, c, b, Some(change));
            && r.books == st.books[c := b] && r.activeGaps == st.activeGaps && r.changes == st.changes + [change]
            && (if change.state.Valid? then
                  && r.lastValid == Some(c)
                  && (if st.activeGaps != {} then r.authority == st.authority && r.validFrom == st.validFrom && r.intervals == st.intervals
                      else r.authority == Some(c) && r.validFrom == Some(change.atNs)
                           && r.intervals == st.intervals + ClosedRow(st, change.atNs, ByConnectionSwitch))
                else if st.authority == Some(c) then
                  r.authority.None? && r.validFrom.None? && r.lastValid.None? && r.intervals == st.intervals + ClosedRow(st, change.atNs, ByChange(change.reason))
                else
                  r.authority == st.authority && r.validFrom == st.validFrom && r.lastValid == st.lastValid && r.intervals == st.intervals)
  {
  }

  /** The row that ends now, if one is open. */
  function ClosedRow(st: DayValue, to: int, reason: EndReason): seq<ValidityRow> {
    if st.authority.Some? && st.validFrom.Some? then [ValidityRow(st.validFrom.value, to, st.authority.value, reason)] else []
  }

  lemma ClosedRowsStayTwin(st: DayValue, q: DayValue, z: DayCut, dropped: bool, to: int, reason: EndReason, next: Option<int>)
    requires AuthorityHolds(st) && AuthorityHolds(q) && st.authority == q.authority
    requires RowsTwin(z.rows, st.intervals, st.validFrom, q.intervals, q.validFrom, z.open, z.midnight, dropped)
    ensures RowsTwin(z.rows, st.intervals + ClosedRow(st, to, reason), next, q.intervals + ClosedRow(q, to, reason), next, z.open, z.midnight, dropped)
  {
    if st.authority.Some? {
      RowsStayTwin(z.rows, st.intervals, st.validFrom, q.intervals, q.validFrom, z.open, z.midnight, dropped, to, st.authority.value, reason, next);
    } else {
      assert st.intervals + [] == st.intervals && q.intervals + [] == q.intervals;
    }
  }

  /** A book's step changes what CLOSED can use in the same way on both sides. */
  lemma LiveAfter(st: DayValue, c: string, b: BookValue, change: Option<StateChange>)
    requires AuthorityHolds(st) && c in st.books
    requires if change.None? then b.state.Valid? == st.books[c].state.Valid? else change.value.state.Valid? == b.state.Valid?
    ensures Live(AfterStep(st, c, b, change)) ==
            if change.None? then Live(st)
            else if change.value.state.Valid? then Some(c)
            else if Live(st) == Some(c) then None else Live(st)
  {
    if change.Some? {
      ChangeFields(st, c, b, change.value);
    }
  }

  lemma StepKeepsTwins(st: DayValue, q: DayValue, z: DayCut, dropped: bool, c: string, b: BookValue, d: BookValue, change: Option<StateChange>)
    requires AuthorityHolds(st) && AuthorityHolds(q) && Twins(st, q, z, dropped) && c in st.books && c in q.books
    requires SomeAlike(b, d, Forgot(z.forgotten, c)) && b.state.Valid? == d.state.Valid?
    requires st.books[c].state.Valid? == q.books[c].state.Valid?
    requires if change.None? then b.state.Valid? == st.books[c].state.Valid? else change.value.state.Valid? == b.state.Valid?
    ensures Twins(AfterStep(st, c, b, change), AfterStep(q, c, d, change), z, dropped)
  {
    var r, p := AfterStep(st, c, b, change), AfterStep(q, c, d, change);
    TwinsParts(st, q, z, dropped);
    LiveAfter(st, c, b, change);
    LiveAfter(q, c, d, change);
    if change.None? {
      MovedBooksAlike(st, q, r, p, z.forgotten, c, b, d);
      hide BooksAlike, ChangesTwin, RowsTwin, Live, SomeAlike;
    } else {
      var x := change.value;
      ChangeFields(st, c, b, x);
      ChangeFields(q, c, d, x);
      MovedBooksAlike(st, q, r, p, z.forgotten, c, b, d);
      OneMoreChange(z.changes, st.changes, q.changes, x);
      ClosedRowsStayTwin(st, q, z, dropped, x.atNs, ByConnectionSwitch, Some(x.atNs));
      ClosedRowsStayTwin(st, q, z, dropped, x.atNs, ByChange(x.reason), None);
      hide BooksAlike, ChangesTwin, RowsTwin, Live, SomeAlike, AfterStep, ClosedRow;
    }
  }

  // ---- Every step ----------------------------------------------------------------------------------

  /** No row to come repeats a diff that the checkpoint forgets. */
  ghost predicate NoneForgottenOf(rows: seq<Row>, forgotten: map<string, set<Identity>>) {
    forall i :: 0 <= i < |rows| && rows[i].DepthRow? ==> IdentityOf(rows[i].diff) !in Forgot(forgotten, rows[i].connectionId)
  }

  lemma {:induction false} RowStepsAlike(l: BookValue, r: BookValue, row: Row, rows: seq<Row>, forgotten: set<Identity>)
    requires l.WellFormed() && r.WellFormed() && SomeAlike(l, r, forgotten) && Fits(l, row.connectionId, [row] + rows)
    requires row.DepthRow? ==> IdentityOf(row.diff) !in forgotten
    ensures Step(l, row.Event()).1 == Step(r, row.Event()).1
    ensures SomeAlike(Step(l, row.Event()).0, Step(r, row.Event()).0, forgotten)
    ensures l.state.Valid? == r.state.Valid? && Step(l, row.Event()).0.state.Valid? == Step(r, row.Event()).0.state.Valid?
  {
    var k :| Alike(l, r, forgotten, k);
    assert ([row] + rows)[0] == row;
    var e := row.Event();
    var seqNow := if e.Diff? then e.diff.span.receiveSeq else LastSeq(l);
    var finalNow := if e.Diff? then e.diff.span.final else LastFinal(l);
    var idNow := if e.Snapshot? then e.snapshot.lastUpdateId else AnchorId(l);
    EarlierThanRow(l, row, seqNow, idNow, finalNow);
    hide Step, Timely, AscendsTo, Mirrors;
    var k' := StepAlike(l, r, e, seqNow, idNow, forgotten, k);
  }

  lemma ReadyBook(st: DayValue, rows: seq<Row>, c: string)
    requires rows != [] && Ready(st, rows, []) && c == rows[0].connectionId
    ensures Fits(BookOf(st, c), c, [rows[0]] + rows[1..])
  {
    FreshIsReady(c, rows, []);
    assert [rows[0]] + rows[1..] == rows;
  }

  lemma NotForgotten(rows: seq<Row>, forgotten: map<string, set<Identity>>)
    requires rows != [] && NoneForgottenOf(rows, forgotten)
    ensures rows[0].DepthRow? ==> IdentityOf(rows[0].diff) !in Forgot(forgotten, rows[0].connectionId)
  {
  }

  lemma {:induction false} RowKeepsTwins(st: DayValue, q: DayValue, z: DayCut, dropped: bool, rows: seq<Row>, dayStart: int, now: int)
    requires Sound(st, dayStart, now) && Sound(q, z.midnight, now) && Twins(st, q, z, dropped) && rows != [] && rows[0].ReceivedNs() == now
    requires Ready(st, rows, []) && NoneForgottenOf(rows, z.forgotten)
    ensures Twins(HandleRow(st, rows[0]), HandleRow(q, rows[0]), z, dropped)
  {
    hide *;
    var row, c := rows[0], rows[0].connectionId;
    KeyedOfSound(st, dayStart, now);
    KeyedOfSound(q, z.midnight, now);
    RowIsAStep(st, row);
    RowIsAStep(q, row);
    WithBookTwins(st, q, z, dropped, c);
    WithBookIsSound(st, c, dayStart, now);
    WithBookIsSound(q, c, z.midnight, now);
    var l, r := BookOf(st, c), BookOf(q, c);
    BookFacts(WithBook(st, c), WithBook(q, c), z, dropped, c, dayStart, now);
    ReadyBook(st, rows, c);
    NotForgotten(rows, z.forgotten);
    RowStepsAlike(l, r, row, rows[1..], Forgot(z.forgotten, c));
    StepHappensNow(l, row, now);
    StepHappensNow(r, row, now);
    StepKeepsTwins(WithBook(st, c), WithBook(q, c), z, dropped, c, Step(l, row.Event()).0, Step(r, row.Event()).0, Step(l, row.Event()).1);
  }

  lemma BookFacts(st: DayValue, q: DayValue, z: DayCut, dropped: bool, c: string, dayStart: int, now: int)
    requires Sound(st, dayStart, now) && Sound(q, z.midnight, now) && Twins(st, q, z, dropped) && c in st.books && c in q.books
    ensures AuthorityHolds(st) && AuthorityHolds(q)
    ensures Settled(st.books[c], now) && Settled(q.books[c], now) && st.books[c].WellFormed() && q.books[c].WellFormed()
    ensures SomeAlike(st.books[c], q.books[c], Forgot(z.forgotten, c))
  {
    hide SomeAlike, RowsTwin, ChangesTwin, AuthorityHolds, RowsInOrder;
  }

  // ---- The second day ------------------------------------------------------------------------------

  lemma {:induction false} GapKeepsTwins(st: DayValue, q: DayValue, z: DayCut, dropped: bool, gaps: seq<GapEvent>)
    requires st.Keyed() && q.Keyed() && AuthorityHolds(st) && AuthorityHolds(q) && Twins(st, q, z, dropped) && gaps != []
    requires dropped || Paired(gaps, st.activeGaps)
    ensures Twins(HandleGap(st, gaps[0]), HandleGap(q, gaps[0]), z, dropped)
    ensures dropped || Paired(gaps[1..], HandleGap(st, gaps[0]).activeGaps)
  {
    hide Twins, AuthorityHolds;
    if gaps[0].state.Open? {
      OpeningKeepsTwins(st, q, z, dropped, gaps[0]);
    } else {
      ClosingKeepsTwins(st, q, z, dropped, gaps[0]);
    }
  }

  lemma AuthorityOfSound(st: DayValue, dayStart: int, now: int)
    requires Sound(st, dayStart, now)
    ensures AuthorityHolds(st)
  {
    hide AuthorityHolds;
  }

  lemma NothingRepeats(rows: seq<Row>)
    ensures NoneRepeats(rows, [])
  {
  }

  lemma RestNotForgotten(rows: seq<Row>, forgotten: map<string, set<Identity>>)
    requires rows != [] && NoneForgottenOf(rows, forgotten)
    ensures NoneForgottenOf(rows[1..], forgotten)
  {
  }

  /** The two walks stay together through the second day. */
  lemma {:induction false} WalkKeepsTwins(st: DayValue, q: DayValue, z: DayCut, dropped: bool, rows: seq<Row>, gaps: seq<GapEvent>, dayStart: int, now: int, limit: int)
    requires Sound(st, dayStart, now) && Sound(q, z.midnight, now) && TimeOrdered(rows, gaps, now, limit) && Twins(st, q, z, dropped)
    requires RowsAscend(rows) && Ready(st, rows, []) && NoneForgottenOf(rows, z.forgotten) && (dropped || Paired(gaps, st.activeGaps))
    ensures st.Keyed() && q.Keyed() && Twins(Walk(st, rows, gaps), Walk(q, rows, gaps), z, dropped)
    decreases |rows| + |gaps|
  {
    hide HandleGap, HandleRow, Sound, TimeOrdered, Twins, Ready, RowsAscend, NoneForgottenOf, NoneRepeats, Paired, AuthorityHolds, KeyedBooks;
    KeyedOfSound(st, dayStart, now);
    KeyedOfSound(q, z.midnight, now);
    AuthorityOfSound(st, dayStart, now);
    AuthorityOfSound(q, z.midnight, now);
    TimeMoves(rows, gaps, now, limit);
    if GapFirst(rows, gaps) {
      var t := EffectiveNs(gaps[0]);
      SoundLater(st, dayStart, now, t);
      SoundLater(q, z.midnight, now, t);
      GapIsSound(st, gaps[0], dayStart, t);
      GapIsSound(q, gaps[0], z.midnight, t);
      GapKeepsTwins(st, q, z, dropped, gaps);
      GapStaysReady(st, gaps[0], rows, []);
      WalkKeepsTwins(HandleGap(st, gaps[0]), HandleGap(q, gaps[0]), z, dropped, rows, gaps[1..], dayStart, t, limit);
    } else if rows != [] {
      var t := rows[0].ReceivedNs();
      SoundLater(st, dayStart, now, t);
      SoundLater(q, z.midnight, now, t);
      RowIsSound(st, rows[0], dayStart, t);
      RowIsSound(q, rows[0], z.midnight, t);
      RowKeepsTwins(st, q, z, dropped, rows, dayStart, t);
      NothingRepeats(rows[..1]);
      RowStaysReady(st, rows, []);
      RestAscends(rows);
      RestNotForgotten(rows, z.forgotten);
      RowKeepsActive(st, rows[0]);
      WalkKeepsTwins(HandleRow(st, rows[0]), HandleRow(q, rows[0]), z, dropped, rows[1..], gaps, dayStart, t, limit);
    }
  }

  // ---- Midnight ------------------------------------------------------------------------------------

  /** A book with nothing to lose. */
  predicate Idle(b: BookValue) {
    !b.state.Valid? && b.anchor.None? && b.pending == []
  }

  /** Every book is in the checkpoint or has nothing to lose. */
  ghost predicate BooksSurvive(st: DayValue) {
    forall c :: c in st.books ==> Kept(st, c) || Idle(st.books[c])
  }

  /** Nor is a gap active: the day's ledger closes each of its gaps, at the latest before midnight. */
  ghost predicate Survives(st: DayValue) {
    st.activeGaps == {} && BooksSurvive(st)
  }

  function ForgottenBy(st: DayValue): map<string, set<Identity>> {
    map c | c in st.books :: st.books[c].seen
  }

  function CutOf(st: DayValue, midnight: int): DayCut {
    DayCut(midnight, st.validFrom, st.intervals, st.changes, ForgottenBy(st))
  }

  lemma MirrorIsAlike(l: BookValue, r: BookValue)
    requires BecomesMirror(l, r)
    ensures SomeAlike(l, r, l.seen)
  {
    var k :| Mirrors(l, r, l.seen, k);
    assert l.(state := r.state) == l;
    assert Alike(l, r, l.seen, k);
  }

  lemma IdleIsAlike(l: BookValue)
    requires Idle(l) && Bare(l)
    ensures SomeAlike(l, FreshBook(l.connectionId), l.seen)
  {
    assert Alike(l, FreshBook(l.connectionId), l.seen, 0);
  }

  ghost predicate Tidy(st: DayValue) {
    forall c :: c in st.books ==> Orderly(st.books[c])
  }

  lemma {:induction false} CutBooksAlike(st: DayValue, next: DayValue)
    requires st.Keyed() && Tidy(st) && BooksSurvive(st)
    requires forall c :: c in next.books <==> Kept(st, c)
    requires forall c :: c in next.books ==> c in st.books && BecomesMirror(st.books[c], next.books[c])
    ensures BooksAlike(st, next, ForgottenBy(st))
  {
    hide BecomesMirror, SomeAlike, Clean;
    forall c | c in st.books
      ensures SomeAlike(st.books[c], BookOf(next, c), Forgot(ForgottenBy(st), c))
    {
      if c in next.books {
        MirrorIsAlike(st.books[c], next.books[c]);
      } else {
        IdleIsAlike(st.books[c]);
      }
    }
  }

  /** A VALID book at a day end that writes its checkpoint and loses nothing is the authority. */
  lemma ValidIsAuthority(st: DayValue, dayStart: int, midnight: int, c: string)
    requires Sound(st, dayStart, midnight) && BuildCheckpoint(st).Ok? && Survives(st) && c in st.books && st.books[c].state.Valid?
    ensures st.authority == Some(c)
  {
    CheckpointIsPlausible(st, dayStart, midnight);
    hide BuildCheckpoint, Plausible, Sound;
    assert Kept(st, c);
  }

  lemma {:induction false} CutAuthority(st: DayValue, next: DayValue, dayStart: int, midnight: int)
    requires Sound(st, dayStart, midnight) && BuildCheckpoint(st).Ok? && Survives(st)
    requires BooksAlike(st, next, ForgottenBy(st)) && (forall c :: c in next.books <==> Kept(st, c))
    requires next.authority == (if st.authority.Some? && Kept(st, st.authority.value) then st.authority else None) && next.lastValid == next.authority
    ensures next.authority == st.authority && Live(st) == st.authority && Live(next) == st.authority
  {
    AuthorityOfSound(st, dayStart, midnight);
    hide BuildCheckpoint, Sound, BooksAlike;
    if st.authority.Some? {
      var a := st.authority.value;
      assert Kept(st, a);
      AlikeIsValid(st, next, a);
    } else if Live(st).Some? {
      ValidIsAuthority(st, dayStart, midnight, st.lastValid.value);
    }
  }

  lemma AlikeIsValid(st: DayValue, q: DayValue, c: string)
    requires BooksAlike(st, q, ForgottenBy(st)) && c in st.books
    ensures BookOf(q, c).state.Valid? == st.books[c].state.Valid?
  {
    var k :| Alike(st.books[c], BookOf(q, c), Forgot(ForgottenBy(st), c), k);
  }

  lemma {:induction false} MidnightMakesTwins(st: DayValue, mayStartEmpty: bool, dayStart: int, midnight: int)
    requires Sound(st, dayStart, midnight) && Tidy(st) && Survives(st) && BuildCheckpoint(st).Ok?
    ensures var next := Start(Some(BuildCheckpoint(st).value), mayStartEmpty, midnight);
            next.Ok? && Twins(st, next.value, CutOf(st, midnight), false) && Sound(next.value, midnight, midnight)
  {
    NextDayStarts(st, mayStartEmpty, midnight);
    var next := Start(Some(BuildCheckpoint(st).value), mayStartEmpty, midnight).value;
    CheckpointIsPlausible(st, dayStart, midnight);
    StartIsSound(Some(BuildCheckpoint(st).value), mayStartEmpty, midnight);
    KeyedOfSound(st, dayStart, midnight);
    AuthorityOfSound(st, dayStart, midnight);
    NextDayHolds(st, mayStartEmpty, dayStart, midnight);
    hide BuildCheckpoint, Start, Plausible, Sound, Orderly, BecomesMirror, Kept, KeyedBooks;
    CutBooksAlike(st, next);
    CutAuthority(st, next, dayStart, midnight);
    CutRows(st, next, midnight);
  }

  lemma CutRows(st: DayValue, next: DayValue, midnight: int)
    requires AuthorityHolds(st) && next.authority == st.authority && next.changes == [] && next.intervals == []
    requires next.validFrom == if next.authority.Some? then Some(midnight) else None
    ensures RowsTwin(st.intervals, st.intervals, st.validFrom, [], next.validFrom, st.validFrom, midnight, false)
    ensures ChangesTwin(st.changes, st.changes, [])
  {
    assert st.intervals[|st.intervals|..] == [];
    assert forall c :: ChangesOf(st.changes, c) + [] == ChangesOf(st.changes, c);
  }

  // ---- The theorem ---------------------------------------------------------------------------------

  /** All rows and gap events of one part are before a time, all of the other are not. */
  ghost predicate Split(rows: seq<Row>, gaps: seq<GapEvent>, laterRows: seq<Row>, laterGaps: seq<GapEvent>, midnight: int) {
    && (forall i :: 0 <= i < |rows| ==> rows[i].ReceivedNs() < midnight) && (forall i :: 0 <= i < |gaps| ==> EffectiveNs(gaps[i]) < midnight)
    && (forall i :: 0 <= i < |laterRows| ==> midnight <= laterRows[i].ReceivedNs())
    && (forall i :: 0 <= i < |laterGaps| ==> midnight <= EffectiveNs(laterGaps[i]))
  }

  /** A walk over two days is a walk over the first and then one over the second. */
  lemma {:induction false} WalkSplits(st: DayValue, rows: seq<Row>, gaps: seq<GapEvent>, laterRows: seq<Row>, laterGaps: seq<GapEvent>, midnight: int)
    requires st.Keyed() && Split(rows, gaps, laterRows, laterGaps, midnight)
    ensures Walk(st, rows, gaps).Keyed()
    ensures Walk(st, rows + laterRows, gaps + laterGaps) == Walk(Walk(st, rows, gaps), laterRows, laterGaps)
    decreases |rows| + |gaps|
  {
    hide HandleGap, HandleRow, KeyedBooks;
    var allRows, allGaps := rows + laterRows, gaps + laterGaps;
    if GapFirst(rows, gaps) {
      GapKeepsKeyed(st, gaps[0]);
      assert allGaps[0] == gaps[0] && allGaps[1..] == gaps[1..] + laterGaps;
      assert GapFirst(allRows, allGaps);
      WalkSplits(HandleGap(st, gaps[0]), rows, gaps[1..], laterRows, laterGaps, midnight);
      WalksOn(st, allRows, allGaps);
      WalksOn(st, rows, gaps);
    } else if rows != [] {
      RowKeepsKeyed(st, rows[0]);
      assert allRows[0] == rows[0] && allRows[1..] == rows[1..] + laterRows;
      assert !GapFirst(allRows, allGaps);
      WalkSplits(HandleRow(st, rows[0]), rows[1..], gaps, laterRows, laterGaps, midnight);
      WalksOn(st, allRows, allGaps);
      WalksOn(st, rows, gaps);
    } else {
      assert allRows == laterRows && allGaps == laterGaps;
    }
  }

  ghost predicate InRow(rows: seq<ValidityRow>, t: int) {
    exists i :: 0 <= i < |rows| && rows[i].from <= t < rows[i].to
  }

  lemma {:induction false} NonEmptyCovers(rows: seq<ValidityRow>, t: int)
    ensures InRow(NonEmpty(rows), t) <==> InRow(rows, t)
  {
    NonEmptyMembers(rows);
    var kept := NonEmpty(rows);
    if i :| 0 <= i < |kept| && kept[i].from <= t < kept[i].to {
      assert kept[i] in rows;
    }
    if i :| 0 <= i < |rows| && rows[i].from <= t < rows[i].to {
      assert rows[i] in kept;
    }
  }

  lemma {:induction false} InRowConcat(a: seq<ValidityRow>, b: seq<ValidityRow>, t: int)
    ensures InRow(a + b, t) <==> InRow(a, t) || InRow(b, t)
  {
    if i :| 0 <= i < |a + b| && (a + b)[i].from <= t < (a + b)[i].to {
      if i < |a| {
        assert a[i].from <= t < a[i].to;
      } else {
        assert b[i - |a|].from <= t < b[i - |a|].to;
      }
    }
    if i :| 0 <= i < |a| && a[i].from <= t < a[i].to {
      assert (a + b)[i] == a[i];
    }
    if i :| 0 <= i < |b| && b[i].from <= t < b[i].to {
      assert (a + b)[|a| + i] == b[i];
    }
  }

  /** The rows of the whole cover what the rows of the two days cover, and from midnight on what the second day's do. */
  lemma {:induction false} RowsAddUp(base: seq<ValidityRow>, whole: seq<ValidityRow>, rest: seq<ValidityRow>, open: Option<int>, midnight: int, dropped: bool,
                                     last: seq<ValidityRow>, t: int)
    requires RowsTwin(base, whole, None, rest, None, open, midnight, dropped)
    requires if open.None? then last == [] else |last| == 1 && last[0].from == open.value && last[0].to == midnight
    requires open.Some? ==> open.value <= midnight
    requires forall i :: 0 <= i < |rest| ==> midnight <= rest[i].from <= rest[i].to
    requires forall i :: 0 <= i < |base| ==> base[i].to <= midnight
    ensures !dropped ==> (InRow(whole, t) <==> InRow(base + last, t) || InRow(rest, t))
    ensures midnight <= t ==> (InRow(whole, t) <==> InRow(rest, t))
  {
    var more := whole[|base|..];
    assert whole == base + more;
    InRowConcat(base, more, t);
    InRowConcat(base, last, t);
    if more != rest {
      assert more == [more[0]] + more[1..];
      InRowConcat([more[0]], more[1..], t);
      InRowConcat([more[0].(from := midnight)], more[1..], t);
      InRowOne(more[0], t);
      InRowOne(more[0].(from := midnight), t);
      assert rest[0].to == more[0].to;
    }
    if open.Some? {
      InRowOne(last[0], t);
      assert last == [last[0]];
    }
  }

  lemma InRowOne(row: ValidityRow, t: int)
    ensures InRow([row], t) <==> row.from <= t < row.to
  {
    assert [row][0] == row;
  }

  /** A checkpoint cannot be written on one side exactly when it cannot on the other, and its VALID part is the same. */
  lemma {:induction false} SameCheckpoint(st: DayValue, q: DayValue, z: DayCut, dropped: bool, dayStart: int, dayEnd: int)
    requires Sound(st, dayStart, dayEnd) && Sound(q, z.midnight, dayEnd) && Twins(st, q, z, dropped)
    ensures BuildCheckpoint(st).Ok? <==> BuildCheckpoint(q).Ok?
    ensures BuildCheckpoint(st).Ok? ==> BuildCheckpoint(st).value.valid == BuildCheckpoint(q).value.valid
  {
    CheckpointIsPlausible(st, dayStart, dayEnd);
    CheckpointIsPlausible(q, z.midnight, dayEnd);
    AuthorityOfSound(st, dayStart, dayEnd);
    AuthorityOfSound(q, z.midnight, dayEnd);
    TwinsParts(st, q, z, dropped);
    forall c | c in st.books
      ensures KeepsAnchor(st.books[c]) && st.books[c].state.Valid? <==> c in q.books && KeepsAnchor(q.books[c]) && q.books[c].state.Valid?
    {
      ShowsTheSame(st, q, z.forgotten, c);
    }
    if st.authority.Some? {
      ShowsTheSame(st, q, z.forgotten, st.authority.value);
    }
    hide AnchoredBooks, Plausible, Sound, BooksAlike, RowsTwin, ChangesTwin, CheckpointLevels, KeepsAnchor;
  }

  /** What a VALID book shows is the same on both sides. */
  lemma ShowsTheSame(st: DayValue, q: DayValue, forgotten: map<string, set<Identity>>, c: string)
    requires BooksAlike(st, q, forgotten) && c in st.books
    ensures var l, r := st.books[c], BookOf(q, c);
            && (l.state.Valid? <==> r.state.Valid?) && (r.state.Valid? ==> c in q.books)
            && l.connectionId == r.connectionId && l.bids == r.bids && l.asks == r.asks && l.previous == r.previous && l.anchor == r.anchor
            && (l.anchor.Some? ==> c in q.books)
            && (KeepsAnchor(l) <==> KeepsAnchor(r)) && (l.state.Valid? && l.previous.Some? ==> ValidCheckpointOf(l) == ValidCheckpointOf(r))
  {
    var k :| Alike(st.books[c], BookOf(q, c), Forgot(forgotten, c), k);
  }

  lemma EmitsARow(st: DayValue, to: int, reason: EndReason)
    ensures Emit(st, to, reason).intervals == st.intervals + ClosedRow(st, to, reason)
  {
  }

  lemma RowsWithin(st: DayValue, dayStart: int, now: int, dayEnd: int)
    requires Sound(st, dayStart, now) && now <= dayEnd
    ensures var rows := Emit(st, dayEnd, ByUtcDayEnd).intervals;
            forall i :: 0 <= i < |rows| ==> dayStart <= rows[i].from <= rows[i].to <= dayEnd
    ensures st.validFrom.Some? ==> st.validFrom.value <= now
    ensures forall i :: 0 <= i < |st.intervals| ==> st.intervals[i].to <= now
  {
  }

  /** The rows written for the whole and for the two days. */
  lemma {:induction false} WrittenRowsAddUp(end: DayValue, st: DayValue, q: DayValue, dropped: bool, dayStart: int, midnight: int, dayEnd: int, t: int)
    requires Sound(end, dayStart, midnight) && Sound(st, dayStart, dayEnd) && Sound(q, midnight, dayEnd) && Twins(st, q, CutOf(end, midnight), dropped)
    ensures var whole, rest := Emit(st, dayEnd, ByUtcDayEnd).intervals, Emit(q, dayEnd, ByUtcDayEnd).intervals;
            && (!dropped ==> (InRow(whole, t) <==> InRow(Emit(end, midnight, ByUtcDayEnd).intervals, t) || InRow(rest, t)))
            && (midnight <= t ==> (InRow(whole, t) <==> InRow(rest, t)))
  {
    var z := CutOf(end, midnight);
    TwinsParts(st, q, z, dropped);
    AuthorityOfSound(st, dayStart, dayEnd);
    AuthorityOfSound(q, midnight, dayEnd);
    AuthorityOfSound(end, dayStart, midnight);
    ClosedRowsStayTwin(st, q, z, dropped, dayEnd, ByUtcDayEnd, None);
    EmitsARow(st, dayEnd, ByUtcDayEnd);
    EmitsARow(q, dayEnd, ByUtcDayEnd);
    EmitsARow(end, midnight, ByUtcDayEnd);
    RowsWithin(q, midnight, dayEnd, dayEnd);
    RowsWithin(end, dayStart, midnight, midnight);
    hide Sound, Twins, RowsTwin, Emit, InRow;
    RowsAddUp(end.intervals, Emit(st, dayEnd, ByUtcDayEnd).intervals, Emit(q, dayEnd, ByUtcDayEnd).intervals, end.validFrom, midnight, dropped,
              ClosedRow(end, midnight, ByUtcDayEnd), t);
  }

  /** What two days must give to be one with the day that covers both. */
  ghost predicate OneOfTwo(first: RunOutput, second: RunOutput, whole: RunOutput, midnight: int, dropped: bool) {
    && (forall c :: ChangesOf(whole.changes, c) == ChangesOf(first.changes, c) + ChangesOf(second.changes, c))
    && whole.checkpoint.valid == second.checkpoint.valid
    && (forall t :: midnight <= t ==> (InRow(whole.intervals, t) <==> InRow(second.intervals, t)))
    && (!dropped ==> forall t :: InRow(whole.intervals, t) <==> InRow(first.intervals, t) || InRow(second.intervals, t))
  }

  /** A day's inputs and the next day's: in time order, one before midnight and one after, and no diff twice. */
  ghost predicate DaysMeet(start: DayValue, rows: seq<Row>, gaps: seq<GapEvent>, laterRows: seq<Row>, laterGaps: seq<GapEvent>,
                           dayStart: int, midnight: int, dayEnd: int)
  {
    && Sound(start, dayStart, dayStart) && TimeOrdered(rows, gaps, dayStart, midnight - 1) && TimeOrdered(laterRows, laterGaps, midnight, dayEnd - 1)
    && RowsAscend(rows + laterRows) && NoneRepeats(rows, laterRows) && Ready(start, rows + laterRows, laterRows)
  }

  lemma {:induction false} FirstDayEnds(start: DayValue, rows: seq<Row>, gaps: seq<GapEvent>, laterRows: seq<Row>, laterGaps: seq<GapEvent>,
                                        dayStart: int, midnight: int, dayEnd: int)
    requires DaysMeet(start, rows, gaps, laterRows, laterGaps, dayStart, midnight, dayEnd)
    ensures start.Keyed() && Split(rows, gaps, laterRows, laterGaps, midnight)
    ensures var end := Walk(start, rows, gaps);
            && Sound(end, dayStart, midnight) && Tidy(end) && Ready(end, laterRows, []) && NoneForgottenOf(laterRows, ForgottenBy(end)) && RowsAscend(laterRows)
  {
    KeyedOfSound(start, dayStart, dayStart);
    WalkIsSound(start, rows, gaps, dayStart, dayStart, midnight - 1);
    WalkStaysReady(start, rows, gaps, laterRows);
    var end := Walk(start, rows, gaps);
    hide Sound, Walk, Orderly, Clean;
    SoundLater(end, dayStart, midnight - 1, midnight);
    forall i, j | 0 <= i < j < |laterRows| && laterRows[i].connectionId == laterRows[j].connectionId
      ensures Later(laterRows[i], laterRows[j])
    {
      assert (rows + laterRows)[|rows| + i] == laterRows[i] && (rows + laterRows)[|rows| + j] == laterRows[j];
    }
  }

  function OutputOf(st: DayValue, dayEnd: int): RunOutput
    requires st.Keyed() && BuildCheckpoint(st).Ok?
  {
    RunOutput(st.changes, NonEmpty(Emit(st, dayEnd, ByUtcDayEnd).intervals), BuildCheckpoint(st).value)
  }

  lemma {:induction false} OutputsAreOne(end: DayValue, st: DayValue, q: DayValue, dropped: bool, dayStart: int, midnight: int, dayEnd: int)
    requires Sound(end, dayStart, midnight) && Sound(st, dayStart, dayEnd) && Sound(q, midnight, dayEnd) && Twins(st, q, CutOf(end, midnight), dropped)
    requires end.Keyed() && st.Keyed() && q.Keyed() && BuildCheckpoint(end).Ok? && BuildCheckpoint(st).Ok? && BuildCheckpoint(q).Ok?
    ensures OneOfTwo(OutputOf(end, midnight), OutputOf(q, dayEnd), OutputOf(st, dayEnd), midnight, dropped)
  {
    var z := CutOf(end, midnight);
    SameCheckpoint(st, q, z, dropped, dayStart, dayEnd);
    TwinsParts(st, q, z, dropped);
    forall t: int
      ensures var whole, rest := OutputOf(st, dayEnd).intervals, OutputOf(q, dayEnd).intervals;
              && (!dropped ==> (InRow(whole, t) <==> InRow(OutputOf(end, midnight).intervals, t) || InRow(rest, t)))
              && (midnight <= t ==> (InRow(whole, t) <==> InRow(rest, t)))
    {
      hide Sound, Twins, BuildCheckpoint, Emit, NonEmpty, InRow, KeyedBooks;
      WrittenRowsAddUp(end, st, q, dropped, dayStart, midnight, dayEnd, t);
      NonEmptyCovers(Emit(st, dayEnd, ByUtcDayEnd).intervals, t);
      NonEmptyCovers(Emit(q, dayEnd, ByUtcDayEnd).intervals, t);
      NonEmptyCovers(Emit(end, midnight, ByUtcDayEnd).intervals, t);
    }
    hide Sound, Twins, BuildCheckpoint, Emit, NonEmpty, InRow, KeyedBooks, RowsTwin, BooksAlike, Live;
  }

  lemma {:induction false} SecondDayWalks(end: DayValue, next: DayValue, z: DayCut, dropped: bool, rows: seq<Row>, gaps: seq<GapEvent>, dayStart: int, dayEnd: int)
    requires end.Keyed() && next.Keyed()
    requires Sound(end, dayStart, z.midnight) && Sound(next, z.midnight, z.midnight) && Twins(end, next, z, dropped)
    requires TimeOrdered(rows, gaps, z.midnight, dayEnd - 1) && RowsAscend(rows) && Ready(end, rows, []) && NoneForgottenOf(rows, z.forgotten)
    requires dropped || Paired(gaps, end.activeGaps)
    ensures Sound(Walk(end, rows, gaps), dayStart, dayEnd) && Sound(Walk(next, rows, gaps), z.midnight, dayEnd)
    ensures Twins(Walk(end, rows, gaps), Walk(next, rows, gaps), z, dropped)
  {
    hide *;
    WalkKeepsTwins(end, next, z, dropped, rows, gaps, dayStart, z.midnight, dayEnd - 1);
    WalkIsSound(end, rows, gaps, dayStart, z.midnight, dayEnd - 1);
    WalkIsSound(next, rows, gaps, z.midnight, z.midnight, dayEnd - 1);
    SoundLater(Walk(end, rows, gaps), dayStart, dayEnd - 1, dayEnd);
    SoundLater(Walk(next, rows, gaps), z.midnight, dayEnd - 1, dayEnd);
  }

  lemma {:induction false} SecondDay(end: DayValue, next: DayValue, dropped: bool, rows: seq<Row>, gaps: seq<GapEvent>, dayStart: int, midnight: int, dayEnd: int)
    requires Sound(end, dayStart, midnight) && Sound(next, midnight, midnight) && Twins(end, next, CutOf(end, midnight), dropped)
    requires end.Keyed() && next.Keyed() && BuildCheckpoint(end).Ok?
    requires TimeOrdered(rows, gaps, midnight, dayEnd - 1) && RowsAscend(rows) && Ready(end, rows, []) && NoneForgottenOf(rows, ForgottenBy(end))
    requires dropped || Paired(gaps, end.activeGaps)
    ensures var st, q := Walk(end, rows, gaps), Walk(next, rows, gaps);
            && st.Keyed() && q.Keyed() && (BuildCheckpoint(st).Ok? <==> BuildCheckpoint(q).Ok?)
            && (BuildCheckpoint(st).Ok? ==> OneOfTwo(OutputOf(end, midnight), OutputOf(q, dayEnd), OutputOf(st, dayEnd), midnight, dropped))
  {
    var z := CutOf(end, midnight);
    assert z.midnight == midnight && z.forgotten == ForgottenBy(end);
    hide *;
    SecondDayWalks(end, next, z, dropped, rows, gaps, dayStart, dayEnd);
    WalkKeepsKeyed(end, rows, gaps);
    WalkKeepsKeyed(next, rows, gaps);
    var st, q := Walk(end, rows, gaps), Walk(next, rows, gaps);
    SameCheckpoint(st, q, z, dropped, dayStart, dayEnd);
    if BuildCheckpoint(st).Ok? {
      OutputsAreOne(end, st, q, dropped, dayStart, midnight, dayEnd);
    }
  }

  /**
   * Main result: when every book at the first day's end is in its checkpoint or has nothing to lose, the second day that
   * starts from that checkpoint and one day that covers both agree: the same changes on every connection, valid at the same
   * nanoseconds, and a checkpoint with the same VALID book, or none on either side.
   */
  lemma {:induction false} TwoDaysAreOne(checkpoint: Option<DayCheckpoint>, mayStartEmpty: bool, rows: seq<Row>, gaps: seq<GapEvent>,
                                         laterRows: seq<Row>, laterGaps: seq<GapEvent>, dayStart: int, midnight: int, dayEnd: int)
    requires var start := Start(checkpoint, mayStartEmpty, dayStart);
             && start.Ok? && DaysMeet(start.value, rows, gaps, laterRows, laterGaps, dayStart, midnight, dayEnd)
             && Survives(Walk(start.value, rows, gaps))
    requires RunDay(checkpoint, mayStartEmpty, rows, gaps, dayStart, midnight).Ok?
    ensures var first := RunDay(checkpoint, mayStartEmpty, rows, gaps, dayStart, midnight).value;
            var second := RunDay(Some(first.checkpoint), mayStartEmpty, laterRows, laterGaps, midnight, dayEnd);
            var whole := RunDay(checkpoint, mayStartEmpty, rows + laterRows, gaps + laterGaps, dayStart, dayEnd);
            && (whole.Ok? <==> second.Ok?)
            && (whole.Ok? ==> OneOfTwo(first, second.value, whole.value, midnight, !Paired(laterGaps, {})))
  {
    var start := Start(checkpoint, mayStartEmpty, dayStart).value;
    var dropped := !Paired(laterGaps, {});
    FirstDayEnds(start, rows, gaps, laterRows, laterGaps, dayStart, midnight, dayEnd);
    WalkSplits(start, rows, gaps, laterRows, laterGaps, midnight);
    var end := Walk(start, rows, gaps);
    MidnightMakesTwins(end, mayStartEmpty, dayStart, midnight);
    var next := Start(Some(BuildCheckpoint(end).value), mayStartEmpty, midnight).value;
    DroppingIsAllowed(end, next, CutOf(end, midnight), dropped);
    SecondDay(end, next, dropped, laterRows, laterGaps, dayStart, midnight, dayEnd);
    Finished(checkpoint, mayStartEmpty, rows, gaps, dayStart, midnight);
    Finished(Some(BuildCheckpoint(end).value), mayStartEmpty, laterRows, laterGaps, midnight, dayEnd);
    Finished(checkpoint, mayStartEmpty, rows + laterRows, gaps + laterGaps, dayStart, dayEnd);
    hide *;
  }

  lemma DroppingIsAllowed(st: DayValue, q: DayValue, z: DayCut, dropped: bool)
    requires Twins(st, q, z, false)
    ensures Twins(st, q, z, dropped)
  {
    hide BooksAlike, ChangesTwin, Live;
  }

  /** What a finished day reports of the state it ends in. */
  lemma Finished(checkpoint: Option<DayCheckpoint>, mayStartEmpty: bool, rows: seq<Row>, gaps: seq<GapEvent>, dayStart: int, dayEnd: int)
    requires Start(checkpoint, mayStartEmpty, dayStart).Ok?
    ensures var end := Walk(Start(checkpoint, mayStartEmpty, dayStart).value, rows, gaps);
            var r := RunDay(checkpoint, mayStartEmpty, rows, gaps, dayStart, dayEnd);
            && end.Keyed() && (r.Ok? <==> BuildCheckpoint(end).Ok?)
            && (r.Ok? ==> r.value == OutputOf(end, dayEnd))
  {
    WalkKeepsKeyed(Start(checkpoint, mayStartEmpty, dayStart).value, rows, gaps);
  }
}
