/** The imperative day run over mutable connection books, proved against module Day. */
module Reconstructor {
  import opened Wrappers
  import opened Sorting
  import opened Book
  import opened Checkpoint
  import opened ConnectionBooks
  import opened Ledger
  import opened Day

  class DayReconstructor {
    const dayStart: int
    const dayEnd: int
    var order: seq<string>
    var books: map<string, ConnectionBook>
    ghost var view: map<string, BookValue>
    var authority: Option<string>
    var validFrom: Option<int>
    var lastValid: Option<string>
    var activeGaps: set<int>
    var changes: seq<StateChange>
    var intervals: seq<ValidityRow>

    /** The books are the objects the view describes. */
    ghost predicate Linked()
      reads this`books, this`view, books.Values
    {
      && books.Keys == view.Keys
      && forall c :: c in books ==> books[c].connectionId == c && books[c].Invariant() && books[c].Value() == view[c]
    }

    ghost predicate Invariant()
      reads this, books.Values
    {
      KeyedBooks(order, view) && Linked()
    }

    ghost function Value(): DayValue
      reads this
    {
      DayValue(order, view, authority, validFrom, lastValid, activeGaps, changes, intervals)
    }

    constructor (dayStart: int, dayEnd: int)
      ensures Invariant() && Value() == EMPTY_DAY
      ensures this.dayStart == dayStart && this.dayEnd == dayEnd
      ensures books == map[]
    {
      this.dayStart, this.dayEnd := dayStart, dayEnd;
      order, books, view := [], map[], map[];
      authority, validFrom, lastValid := None, None, None;
      activeGaps, changes, intervals := {}, [], [];
    }

    /** Closes the open validity row, if there is one. */
    method EmitRow(to: int, reason: EndReason)
      requires Invariant()
      modifies this`intervals
      ensures Invariant() && Value() == Emit(old(Value()), to, reason)
    {
      hide Linked, KeyedBooks;
      if authority.Some? && validFrom.Some? {
        intervals := intervals + [ValidityRow(validFrom.value, to, authority.value, reason)];
      }
    }

    method HandleGap(e: GapEvent)
      requires Invariant()
      modifies this, books.Values
      ensures Invariant() && books == old(books)
      ensures Value() == Day.HandleGap(old(Value()), e)
    {
      if e.state.Open? {
        OpenGap(e);
      } else {
        CloseGap(e);
      }
    }

    method OpenGap(e: GapEvent)
      requires Invariant() && e.state.Open?
      modifies this, books.Values
      ensures Invariant() && books == old(books)
      ensures Value() == Day.HandleGap(old(Value()), e)
    {
      hide Linked;
      var effectiveNs := EffectiveNs(e);
      EmitRow(effectiveNs, ByTransportGap);
      authority, validFrom, lastValid := None, None, None;
      activeGaps := activeGaps + {e.gapId};
      NoteGapped(effectiveNs, e.reason);
      InvalidateBooks();
    }

    method CloseGap(e: GapEvent)
      requires Invariant() && e.state.Closed?
      modifies this`activeGaps, this`authority, this`validFrom
      ensures Invariant()
      ensures Value() == Day.HandleGap(old(Value()), e)
    {
      activeGaps := activeGaps - {e.gapId};
      if activeGaps != {} || lastValid.None? || lastValid.value !in books {
        return;
      }
      var candidate := books[lastValid.value];
      if !candidate.state.Valid? {
        return;
      }
      authority := lastValid;
      validFrom := Some(e.observedNs);
    }

    /** Every VALID book leaves a GAPPED change. */
    method NoteGapped(at: int, reason: string)
      requires Invariant()
      modifies this`changes
      ensures Invariant()
      ensures changes == old(changes) + GapChanges(order, view, at, reason)
    {
      hide Linked;
      var i := 0;
      while i < |order|
        invariant 0 <= i <= |order|
        invariant Invariant() && forall c :: c in order ==> c in view
        invariant changes == old(changes) + GapChanges(order[..i], view, at, reason)
      {
        LinkedAt(order[i]);
        var book := books[order[i]];
        if book.state.Valid? {
          changes := changes + [StateChange(book.connectionId, at, Gapped, book.previousUpdateId, Reason.TransportGap(reason))];
        }
        assert order[..i + 1][..i] == order[..i];
        i := i + 1;
      }
      assert order[..i] == order;
    }

    lemma LinkedAt(c: string)
      requires Linked() && c in view
      ensures c in books && books[c].Invariant() && books[c].connectionId == c && books[c].Value() == view[c]
    {
    }

    method InvalidateBooks()
      requires Invariant()
      modifies this`view, books.Values
      ensures Invariant()
      ensures view == InvalidateAll(old(view))
    {
      hide Linked, Invalidated, KeyedBooks;
      var i := 0;
      KeysListed(order, view);
      while i < |order|
        invariant 0 <= i <= |order|
        invariant Invariant() && view.Keys == old(view).Keys
        invariant forall j :: 0 <= j < i ==> view[order[j]] == Invalidated(old(view)[order[j]])
        invariant forall j :: i <= j < |order| ==> view[order[j]] == old(view)[order[j]]
      {
        LinkedAt(order[i]);
        InvalidateBook(order[i]);
        i := i + 1;
      }
      AllInvalidated(order, old(view), view);
    }

    method InvalidateBook(c: string)
      requires Invariant() && c in books && c in view
      modifies this`view, books[c]
      ensures Invariant()
      ensures view == old(view)[c := Invalidated(old(view)[c])]
    {
      hide KeyedBooks, Invalidated;
      KeyedInvalidated(order, view, c);
      LinkedAt(c);
      MoveInvalid(c);
    }

    method MoveInvalid(c: string)
      requires Linked() && c in books && c in view
      modifies this`view, books[c]
      ensures Linked()
      ensures view == old(view)[c := Invalidated(old(view)[c])]
    {
      hide Invalidated, ConnectionBook.Value;
      books[c].Invalidate();
      view := view[c := books[c].Value()];
    }

    /** The book of a connection, created on first use. */
    method BookOf(connectionId: string) returns (book: ConnectionBook)
      requires Invariant()
      modifies this`books, this`order, this`view
      ensures Invariant() && Value() == WithBook(old(Value()), connectionId)
      ensures connectionId in books && book == books[connectionId]
      ensures fresh(books.Values - old(books.Values))
    {
      hide KeyedBooks, FreshBook;
      SameKeys();
      if connectionId in books {
        hide Linked;
        book := books[connectionId];
      } else {
        hide Linked;
        book := AddFresh(connectionId);
      }
    }

    method AddFresh(connectionId: string) returns (book: ConnectionBook)
      requires Invariant() && connectionId !in view
      modifies this`books, this`order, this`view
      ensures Invariant() && Value() == WithBook(old(Value()), connectionId)
      ensures connectionId in books && book == books[connectionId]
      ensures fresh(books.Values - old(books.Values))
    {
      hide KeyedBooks, FreshBook, ConnectionBook.Invariant;
      WithBookKeyed(Value(), connectionId);
      book := new ConnectionBook(connectionId);
      Attach(book);
    }

    /** A new book joins the day. */
    method Attach(book: ConnectionBook)
      requires Linked() && book.Invariant() && book.connectionId !in view
      modifies this`books, this`order, this`view
      ensures Linked()
      ensures order == old(order) + [book.connectionId]
      ensures books == old(books)[book.connectionId := book] && view == old(view)[book.connectionId := book.Value()]
    {
      hide ConnectionBook.Invariant;
      ghost var before := books;
      order := order + [book.connectionId];
      books, view := books[book.connectionId := book], view[book.connectionId := book.Value()];
      forall c | c in before
        ensures books[c].Invariant() && books[c].Value() == view[c]
      {
        assert before[c].Value() == old(before[c].Value());
      }
    }

    method HandleRow(row: Row)
      requires Invariant()
      modifies this, books.Values
      ensures Invariant() && Value() == Day.HandleRow(old(Value()), row)
      ensures fresh(books.Values - old(books.Values))
    {
      hide Step, OnChange, Linked, KeyedBooks;
      var connectionId := row.connectionId;
      var book := BookOf(connectionId);
      var change := MoveBook(connectionId, row);
      if change.None? {
        return;
      }
      ApplyChange(connectionId, change.value);
    }

    /** The row's connection takes the row. */
    method MoveBook(connectionId: string, row: Row) returns (change: Option<StateChange>)
      requires Invariant() && connectionId in books
      modifies this`view, books[connectionId]
      ensures Invariant()
      ensures var (b, c) := Step(old(view)[connectionId], row.Event()); view == old(view)[connectionId := b] && change == c
    {
      hide KeyedBooks, Book.OnDiff, Book.OnSnapshot;
      LinkedAt(connectionId);
      KeyedAfterStep(order, view, connectionId, row.Event());
      match row {
        case DepthRow(_, diff) => change := MoveDiff(connectionId, diff);
        case SnapshotRow(_, snapshot) => change := MoveSnapshot(connectionId, snapshot);
      }
    }

    method MoveDiff(c: string, diff: DepthDiff) returns (change: Option<StateChange>)
      requires Linked() && c in books && c in view && view[c].WellFormed()
      modifies this`view, books[c]
      ensures Linked()
      ensures var (b, x) := Book.OnDiff(old(view)[c], diff); view == old(view)[c := b] && change == x
    {
      hide Book.OnDiff, ConnectionBook.Value;
      change := books[c].OnDiff(diff);
      view := view[c := books[c].Value()];
    }

    method MoveSnapshot(c: string, snapshot: DepthSnapshot) returns (change: Option<StateChange>)
      requires Linked() && c in books && c in view
      modifies this`view, books[c]
      ensures Linked()
      ensures var (b, x) := Book.OnSnapshot(old(view)[c], snapshot); view == old(view)[c := b] && change == x
    {
      hide Book.OnSnapshot, ConnectionBook.Value;
      change := books[c].OnSnapshot(snapshot);
      view := view[c := books[c].Value()];
    }

    method ApplyChange(connectionId: string, change: StateChange)
      requires Invariant()
      modifies this`changes, this`lastValid, this`intervals, this`authority, this`validFrom
      ensures Invariant() && Value() == OnChange(old(Value()), connectionId, change)
    {
      hide Linked, KeyedBooks;
      changes := changes + [change];
      if change.state.Valid? {
        lastValid := Some(connectionId);
        if activeGaps != {} {
          return;
        }
        EmitRow(change.atNs, ByConnectionSwitch);
        authority := Some(connectionId);
        validFrom := Some(change.atNs);
      } else if authority == Some(connectionId) && validFrom.Some? {
        EmitRow(change.atNs, ByChange(change.reason));
        authority := None;
        validFrom := None;
        if lastValid == Some(connectionId) {
          lastValid := None;
        }
      }
    }

    /** The interleaving of rows and gap events. */
    method WalkDay(rows: seq<Row>, gaps: seq<GapEvent>)
      requires Invariant()
      modifies this, books.Values
      ensures Invariant() && Value() == Walk(old(Value()), rows, gaps)
    {
      hide Day.HandleGap, Day.HandleRow, Walk, KeyedBooks, Linked;
      ghost var start := Value();
      var i, g := 0, 0;
      while i < |rows|
        invariant 0 <= i <= |rows| && 0 <= g <= |gaps|
        invariant Invariant()
        invariant fresh(books.Values - old(books.Values))
        invariant Walk(Value(), rows[i..], gaps[g..]) == Walk(start, rows, gaps)
      {
        while g < |gaps| && EffectiveNs(gaps[g]) <= rows[i].ReceivedNs()
          invariant 0 <= g <= |gaps|
          invariant Invariant()
          invariant fresh(books.Values - old(books.Values))
          invariant Walk(Value(), rows[i..], gaps[g..]) == Walk(start, rows, gaps)
        {
          WalkGap(Value(), rows[i..], gaps[g..]);
          HandleGap(gaps[g]);
          assert gaps[g..][1..] == gaps[g + 1..];
          g := g + 1;
        }
        WalkRow(Value(), rows[i..], gaps[g..]);
        HandleRow(rows[i]);
        assert rows[i..][1..] == rows[i + 1..];
        i := i + 1;
      }
      assert rows[i..] == [];
      while g < |gaps|
        invariant 0 <= g <= |gaps|
        invariant Invariant()
        invariant fresh(books.Values - old(books.Values))
        invariant Walk(Value(), [], gaps[g..]) == Walk(start, rows, gaps)
      {
        WalkGap(Value(), [], gaps[g..]);
        HandleGap(gaps[g]);
        assert gaps[g..][1..] == gaps[g + 1..];
        g := g + 1;
      }
      WalkDone(Value(), gaps[g..]);
    }

    /** Yesterday's books; a repeated connection or a VALID anchored book is an error. */
    method Restore(checkpoint: DayCheckpoint) returns (error: Option<CheckpointError>)
      requires Invariant() && Value() == EMPTY_DAY && books == map[]
      modifies this
      ensures fresh(books.Values)
      ensures Invariant()
      ensures match StartAnchored(StartValid(checkpoint.valid, dayStart), checkpoint.anchored)
              case Ok(st) => error == None && Value() == st
              case Err(e) => error == Some(e)
    {
      hide Linked, KeyedBooks, StartValid, RestoreAnchored;
      if checkpoint.valid.Some? {
        RestoreAuthority(checkpoint.valid.value);
      } else {
        StartsEmpty(dayStart);
      }
      ghost var start := StartValid(checkpoint.valid, dayStart);
      assert Value() == start;
      var i := 0;
      assert checkpoint.anchored[..0] == [];
      while i < |checkpoint.anchored|
        invariant 0 <= i <= |checkpoint.anchored|
        invariant Invariant() && fresh(books.Values)
        invariant StartAnchored(start, checkpoint.anchored[..i]) == Ok(Value())
      {
        var c := checkpoint.anchored[i];
        assert checkpoint.anchored[..i + 1][..i] == checkpoint.anchored[..i];
        SameKeys();
        if c.connectionId in books {
          StartFails(start, checkpoint.anchored, i + 1);
          return Some(RepeatedConnection);
        }
        if c.state.Valid? {
          StartFails(start, checkpoint.anchored, i + 1);
          return Some(AnchoredBookIsValid);
        }
        AddAnchored(c);
        i := i + 1;
      }
      assert checkpoint.anchored[..i] == checkpoint.anchored;
      return None;
    }

    lemma SameKeys()
      requires Linked()
      ensures books.Keys == view.Keys
    {
    }

    method RestoreAuthority(c: ValidCheckpoint)
      requires Invariant() && Value() == EMPTY_DAY && books == map[]
      modifies this
      ensures fresh(books.Values)
      ensures Invariant() && Value() == StartValid(Some(c), dayStart)
    {
      hide RestoreValid, KeyedBooks;
      var book := new ConnectionBook.FromCheckpoint(c);
      LinkFirst(book);
      KeyedFirst(c);
      authority, lastValid := Some(book.connectionId), Some(book.connectionId);
      validFrom := Some(dayStart);
    }

    method LinkFirst(book: ConnectionBook)
      requires book.Invariant()
      modifies this`books, this`view, this`order
      ensures Linked() && books == map[book.connectionId := book]
      ensures order == [book.connectionId] && view == map[book.connectionId := book.Value()]
    {
      hide ConnectionBook.Value;
      books, view := map[book.connectionId := book], map[book.connectionId := book.Value()];
      order := [book.connectionId];
    }

    method AddAnchored(c: AnchoredCheckpoint)
      requires Invariant() && c.connectionId !in books && !c.state.Valid?
      modifies this`books, this`view, this`order
      ensures fresh(books.Values - old(books.Values))
      ensures Invariant()
      ensures order == old(order) + [c.connectionId] && view == old(view)[c.connectionId := RestoreAnchored(c)]
    {
      hide RestoreAnchored, KeyedBooks, ConnectionBook.Invariant;
      SameKeys();
      var book := new ConnectionBook.FromAnchorCheckpoint(c);
      KeyedAdded(order, view, c);
      Attach(book);
    }
  }

  lemma {:induction false} KeysListed(order: seq<string>, view: map<string, BookValue>)
    requires KeyedBooks(order, view)
    ensures forall j :: 0 <= j < |order| ==> order[j] in view
    ensures forall i, j :: 0 <= i < j < |order| ==> order[i] != order[j]
  {
  }

  lemma {:induction false} AllInvalidated(order: seq<string>, before: map<string, BookValue>, after: map<string, BookValue>)
    requires KeyedBooks(order, before) && after.Keys == before.Keys
    requires forall j :: 0 <= j < |order| ==> after[order[j]] == Invalidated(before[order[j]])
    ensures after == InvalidateAll(before)
  {
    hide Invalidated;
    forall c | c in after
      ensures after[c] == Invalidated(before[c])
    {
      assert c in order;
      var j :| 0 <= j < |order| && order[j] == c;
    }
  }

  lemma {:induction false} KeyedFirst(c: ValidCheckpoint)
    ensures RestoreValid(c).connectionId == c.connectionId
    ensures KeyedBooks([c.connectionId], map[c.connectionId := RestoreValid(c)])
  {
  }

  lemma {:induction false} KeyedAdded(order: seq<string>, view: map<string, BookValue>, c: AnchoredCheckpoint)
    requires KeyedBooks(order, view) && c.connectionId !in view && !c.state.Valid?
    ensures RestoreAnchored(c).connectionId == c.connectionId
    ensures KeyedBooks(order + [c.connectionId], view[c.connectionId := RestoreAnchored(c)])
  {
    hide BookSide;
  }

  lemma {:induction false} WithBookKeyed(st: DayValue, connectionId: string)
    requires st.Keyed()
    ensures WithBook(st, connectionId).Keyed()
    ensures FreshBook(connectionId).connectionId == connectionId
  {
  }

  lemma {:induction false} KeyedInvalidated(order: seq<string>, view: map<string, BookValue>, c: string)
    requires KeyedBooks(order, view) && c in view
    ensures KeyedBooks(order, view[c := Invalidated(view[c])])
  {
  }

  lemma {:induction false} StartsEmpty(dayStart: int)
    ensures StartValid(None, dayStart) == EMPTY_DAY
  {
  }

  lemma {:induction false} KeyedAfterStep(order: seq<string>, view: map<string, BookValue>, c: string, e: BookEvent)
    requires KeyedBooks(order, view) && c in view
    ensures view[c].WellFormed() && KeyedBooks(order, view[c := Step(view[c], e).0])
  {
    hide Step;
    StepKeepsWellFormed(view[c], e);
  }

  lemma {:induction false} WalkGap(st: DayValue, rows: seq<Row>, gaps: seq<GapEvent>)
    requires st.Keyed() && gaps != [] && (rows == [] || EffectiveNs(gaps[0]) <= rows[0].ReceivedNs())
    ensures Day.HandleGap(st, gaps[0]).Keyed()
    ensures Walk(st, rows, gaps) == Walk(Day.HandleGap(st, gaps[0]), rows, gaps[1..])
  {
    hide Day.HandleGap;
    GapKeepsKeyed(st, gaps[0]);
  }

  lemma {:induction false} WalkDone(st: DayValue, gaps: seq<GapEvent>)
    requires st.Keyed() && gaps == []
    ensures Walk(st, [], gaps) == st
  {
  }

  lemma {:induction false} WalkRow(st: DayValue, rows: seq<Row>, gaps: seq<GapEvent>)
    requires st.Keyed() && rows != [] && (gaps == [] || EffectiveNs(gaps[0]) > rows[0].ReceivedNs())
    ensures Day.HandleRow(st, rows[0]).Keyed()
    ensures Walk(st, rows, gaps) == Walk(Day.HandleRow(st, rows[0]), rows[1..], gaps)
  {
    hide Day.HandleRow;
    RowKeepsKeyed(st, rows[0]);
  }

  /** An error in a prefix of the anchored books is the error of them all. */
  lemma {:induction false} StartFails(st: DayValue, anchored: seq<AnchoredCheckpoint>, k: nat)
    requires st.Keyed() && k <= |anchored| && StartAnchored(st, anchored[..k]).Err?
    ensures StartAnchored(st, anchored) == StartAnchored(st, anchored[..k])
  {
    if k == |anchored| {
      assert anchored[..k] == anchored;
    } else {
      assert anchored[..|anchored| - 1][..k] == anchored[..k];
      StartFails(st, anchored[..|anchored| - 1], k);
    }
  }

  /** One symbol's day from checkpoint to checkpoint. */
  method Run(checkpoint: Option<DayCheckpoint>, mayStartEmpty: bool, rows: seq<Row>, ledger: seq<GapEvent>, symbol: string, dayStart: int, dayEnd: int)
    returns (result: Result<RunOutput, CheckpointError>)
    ensures result == RunDay(checkpoint, mayStartEmpty, rows, StableSort(Select(ledger, symbol), ByKey), dayStart, dayEnd)
  {
    if checkpoint.None? && !mayStartEmpty {
      return Err(MissingPreviousCheckpoint);
    }
    var day := new DayReconstructor(dayStart, dayEnd);
    if checkpoint.Some? {
      var error := day.Restore(checkpoint.value);
      if error.Some? {
        return Err(error.value);
      }
    }
    var gaps := StableSort(Select(ledger, symbol), ByKey);
    ghost var start := day.Value();
    WalkKeepsKeyed(start, rows, gaps);
    day.WalkDay(rows, gaps);
    result := Close(day);
  }

  /** Day end: the last row, the checkpoint of the books, and the non-empty rows. */
  method Close(day: DayReconstructor) returns (result: Result<RunOutput, CheckpointError>)
    requires day.Invariant()
    modifies day`intervals
    ensures result == Finish(old(day.Value()), day.dayEnd)
  {
    ghost var st := day.Value();
    var anchored := AnchoredOf(day);
    if anchored.Err? {
      return Err(anchored.error);
    }
    var valid: Option<ValidCheckpoint> := None;
    if day.authority.Some? && day.activeGaps == {} && day.authority.value in day.books {
      var book := day.books[day.authority.value];
      if book.state.Valid? && book.previousUpdateId.Some? && book.bids != map[] && book.asks != map[] {
        valid := Some(ValidCheckpoint(book.connectionId, book.previousUpdateId.value, CheckpointLevels(book.bids), CheckpointLevels(book.asks)));
      }
    }
    assert valid == ValidPart(FinalBook(st));
    day.EmitRow(day.dayEnd, ByUtcDayEnd);
    var kept := KeepNonEmpty(day.intervals);
    return Ok(RunOutput(day.changes, kept, DayCheckpoint(valid, anchored.value)));
  }

  method KeepNonEmpty(rows: seq<ValidityRow>) returns (kept: seq<ValidityRow>)
    ensures kept == NonEmpty(rows)
  {
    kept := [];
    var i := 0;
    while i < |rows|
      invariant 0 <= i <= |rows|
      invariant kept == NonEmpty(rows[..i])
    {
      if rows[i].to > rows[i].from {
        kept := kept + [rows[i]];
      }
      assert rows[..i + 1][..i] == rows[..i];
      i := i + 1;
    }
    assert rows[..i] == rows;
  }

  method AnchoredOf(day: DayReconstructor) returns (anchored: Result<seq<AnchoredCheckpoint>, CheckpointError>)
    requires day.Invariant()
    ensures anchored == AnchoredBooks(day.order, day.view)
  {
    hide CheckpointLevels, NotBefore, DayReconstructor.Linked;
    var kept: seq<AnchoredCheckpoint> := [];
    var i := 0;
    ghost var books := day.view;
    assert day.order[..0] == [];
    while i < |day.order|
      invariant 0 <= i <= |day.order|
      invariant AnchoredBooks(day.order[..i], books) == Ok(kept)
    {
      day.LinkedAt(day.order[i]);
      var book := day.books[day.order[i]];
      assert day.order[..i + 1][..i] == day.order[..i];
      if book.anchorLastUpdateId.Some? && book.anchorReceivedNs.Some? && book.bids != map[] && book.asks != map[] {
        if book.state.Valid? {
          AnchoringFails(day.order, books, i + 1);
          return Err(AnchoredBookIsValid);
        }
        kept := kept + [AnchoredCheckpoint(
          book.connectionId,
          book.state,
          book.previousUpdateId.value,
          Anchor(book.anchorLastUpdateId.value, book.anchorReceivedNs.value),
          CheckpointLevels(book.bids),
          CheckpointLevels(book.asks),
          NotBefore(book.pending, book.anchorLastUpdateId.value))];
      }
      i := i + 1;
    }
    assert day.order[..i] == day.order;
    return Ok(kept);
  }

  lemma {:induction false} AnchoringFails(order: seq<string>, books: map<string, BookValue>, k: nat)
    requires forall c :: c in order ==> c in books
    requires k <= |order| && AnchoredBooks(order[..k], books).Err?
    ensures AnchoredBooks(order, books) == AnchoredBooks(order[..k], books)
  {
    if k == |order| {
      assert order[..k] == order;
    } else {
      assert order[..|order| - 1][..k] == order[..k];
      AnchoringFails(order[..|order| - 1], books, k);
    }
  }
}
