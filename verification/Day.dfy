/** One symbol's UTC day as a function: rows and gap events merged into changes and validity rows (pipeline/l2.py, run). */
module Day {
  import opened Wrappers
  import opened Book
  import opened Checkpoint
  import opened Ledger

  datatype Row = DepthRow(connectionId: string, diff: DepthDiff) | SnapshotRow(connectionId: string, snapshot: DepthSnapshot)
  {
    function ReceivedNs(): int {
      match this
      case DepthRow(_, d) => d.receivedNs
      case SnapshotRow(_, s) => s.receivedNs
    }

    function Event(): BookEvent {
      match this
      case DepthRow(_, d) => BookEvent.Diff(d)
      case SnapshotRow(_, s) => BookEvent.Snapshot(s)
    }
  }

  datatype EndReason = ByTransportGap | ByConnectionSwitch | ByChange(reason: Reason) | ByUtcDayEnd

  datatype ValidityRow = ValidityRow(from: int, to: int, connectionId: string, endReason: EndReason)

  /** The variables of a run; books is a dict, so its insertion order is kept. */
  datatype DayValue = DayValue(
    order: seq<string>,
    books: map<string, BookValue>,
    authority: Option<string>,
    validFrom: Option<int>,
    lastValid: Option<string>,
    activeGaps: set<int>,
    changes: seq<StateChange>,
    intervals: seq<ValidityRow>)
  {
    ghost predicate Keyed() {
      KeyedBooks(order, books)
    }
  }

  /** The order lists the keys once, and each book carries its key. */
  ghost predicate KeyedBooks(order: seq<string>, books: map<string, BookValue>) {
    && (forall c :: c in order <==> c in books)
    && (forall i, j :: 0 <= i < j < |order| ==> order[i] != order[j])
    && (forall c :: c in books ==> books[c].connectionId == c && books[c].WellFormed())
  }

  function Emit(st: DayValue, to: int, reason: EndReason): DayValue {
    if st.authority.Some? && st.validFrom.Some? then
      st.(intervals := st.intervals + [ValidityRow(st.validFrom.value, to, st.authority.value, reason)])
    else
      st
  }

  /** The GAPPED changes a transport gap causes, in book order. */
  function GapChanges(order: seq<string>, books: map<string, BookValue>, at: int, reason: string): seq<StateChange>
    requires forall c :: c in order ==> c in books
  {
    if order == [] then []
    else
      var b := books[order[|order| - 1]];
      GapChanges(order[..|order| - 1], books, at, reason)
      + (if b.state.Valid? then [StateChange(b.connectionId, at, Gapped, b.previous, Reason.TransportGap(reason))] else [])
  }

  function InvalidateAll(books: map<string, BookValue>): map<string, BookValue> {
    map c | c in books :: Invalidated(books[c])
  }

  function HandleGap(st: DayValue, e: GapEvent): DayValue
    requires st.Keyed()
  {
    if e.state.Open? then
      Emit(st, EffectiveNs(e), ByTransportGap).(
        authority := None,
        validFrom := None,
        lastValid := None,
        activeGaps := st.activeGaps + {e.gapId},
        changes := st.changes + GapChanges(st.order, st.books, EffectiveNs(e), e.reason),
        books := InvalidateAll(st.books))
    else
      var active := st.activeGaps - {e.gapId};
      if active != {} || st.lastValid.None? || st.lastValid.value !in st.books || !st.books[st.lastValid.value].state.Valid? then
        st.(activeGaps := active)
      else
        st.(activeGaps := active, authority := st.lastValid, validFrom := Some(e.observedNs))
  }

  /** The book of a connection, created on first use. */
  function WithBook(st: DayValue, connectionId: string): (r: DayValue)
    requires st.Keyed()
    ensures r.Keyed() && connectionId in r.books
  {
    if connectionId in st.books then st
    else st.(order := st.order + [connectionId], books := st.books[connectionId := FreshBook(connectionId)])
  }

  /** What a book's change means for the validity of the day. */
  function OnChange(st: DayValue, connectionId: string, change: StateChange): DayValue {
    var noted := st.(changes := st.changes + [change]);
    if change.state.Valid? then
      var last := noted.(lastValid := Some(connectionId));
      if st.activeGaps != {} then last
      else Emit(last, change.atNs, ByConnectionSwitch).(authority := Some(connectionId), validFrom := Some(change.atNs))
    else if st.authority == Some(connectionId) && st.validFrom.Some? then
      Emit(noted, change.atNs, ByChange(change.reason)).(
        authority := None,
        validFrom := None,
        lastValid := if st.lastValid == Some(connectionId) then None else st.lastValid)
    else
      noted
  }

  function HandleRow(st: DayValue, row: Row): DayValue
    requires st.Keyed()
  {
    var ready := WithBook(st, row.connectionId);
    var (b, change) := Step(ready.books[row.connectionId], row.Event());
    var moved := ready.(books := ready.books[row.connectionId := b]);
    if change.None? then moved else OnChange(moved, row.connectionId, change.value)
  }

  lemma {:induction false} GapKeepsKeyed(st: DayValue, e: GapEvent)
    requires st.Keyed()
    ensures HandleGap(st, e).Keyed()
  {
  }

  lemma {:induction false} RowKeepsKeyed(st: DayValue, row: Row)
    requires st.Keyed()
    ensures HandleRow(st, row).Keyed()
  {
    hide Step;
    var ready := WithBook(st, row.connectionId);
    StepKeepsWellFormed(ready.books[row.connectionId], row.Event());
  }

  /** The main loop: every gap event that is effective by a row's time is handled before the row. */
  function Walk(st: DayValue, rows: seq<Row>, gaps: seq<GapEvent>): DayValue
    requires st.Keyed()
    decreases |rows| + |gaps|
  {
    if gaps != [] && (rows == [] || EffectiveNs(gaps[0]) <= rows[0].ReceivedNs()) then
      GapKeepsKeyed(st, gaps[0]);
      Walk(HandleGap(st, gaps[0]), rows, gaps[1..])
    else if rows != [] then
      RowKeepsKeyed(st, rows[0]);
      Walk(HandleRow(st, rows[0]), rows[1..], gaps)
    else
      st
  }

  function NonEmpty(rows: seq<ValidityRow>): seq<ValidityRow> {
    if rows == [] then []
    else NonEmpty(rows[..|rows| - 1]) + (if rows[|rows| - 1].to > rows[|rows| - 1].from then [rows[|rows| - 1]] else [])
  }

  datatype DayCheckpoint = DayCheckpoint(valid: Option<ValidCheckpoint>, anchored: seq<AnchoredCheckpoint>)

  datatype RunOutput = RunOutput(changes: seq<StateChange>, intervals: seq<ValidityRow>, checkpoint: DayCheckpoint)

  /** Books a checkpoint keeps as anchored: an anchor and both sides. */
  predicate KeepsAnchor(b: BookValue) {
    b.anchor.Some? && b.bids != map[] && b.asks != map[]
  }

  function AnchoredBooks(order: seq<string>, books: map<string, BookValue>): Result<seq<AnchoredCheckpoint>, CheckpointError>
    requires forall c :: c in order ==> c in books
  {
    if order == [] then Ok([])
    else
      var b := books[order[|order| - 1]];
      match AnchoredBooks(order[..|order| - 1], books)
      case Err(e) => Err(e)
      case Ok(front) =>
        if !KeepsAnchor(b) then Ok(front)
        else
          match AnchoredCheckpointOf(b)
          case Err(e) => Err(e)
          case Ok(c) => Ok(front + [c])
  }

  function FinalBook(st: DayValue): Option<BookValue> {
    if st.authority.Some? && st.activeGaps == {} && st.authority.value in st.books then Some(st.books[st.authority.value]) else None
  }

  function ValidPart(b: Option<BookValue>): Option<ValidCheckpoint> {
    if b.Some? && b.value.state.Valid? && b.value.previous.Some? && b.value.bids != map[] && b.value.asks != map[]
    then Some(ValidCheckpointOf(b.value)) else None
  }

  function BuildCheckpoint(st: DayValue): Result<DayCheckpoint, CheckpointError>
    requires st.Keyed()
  {
    match AnchoredBooks(st.order, st.books)
    case Err(e) => Err(e)
    case Ok(anchored) => Ok(DayCheckpoint(ValidPart(FinalBook(st)), anchored))
  }

  const EMPTY_DAY := DayValue([], map[], None, None, None, {}, [], [])

  function StartValid(c: Option<ValidCheckpoint>, dayStart: int): (st: DayValue)
    ensures st.Keyed()
  {
    if c.None? then EMPTY_DAY
    else
      var id := c.value.connectionId;
      EMPTY_DAY.(order := [id], books := map[id := RestoreValid(c.value)], authority := Some(id), lastValid := Some(id), validFrom := Some(dayStart))
  }

  function StartAnchored(st: DayValue, anchored: seq<AnchoredCheckpoint>): (r: Result<DayValue, CheckpointError>)
    requires st.Keyed()
    ensures r.Ok? ==> r.value.Keyed()
  {
    if anchored == [] then Ok(st)
    else
      match StartAnchored(st, anchored[..|anchored| - 1])
      case Err(e) => Err(e)
      case Ok(front) =>
        var c := anchored[|anchored| - 1];
        if c.connectionId in front.books then Err(RepeatedConnection)
        else if c.state.Valid? then Err(AnchoredBookIsValid)
        else Ok(front.(order := front.order + [c.connectionId], books := front.books[c.connectionId := RestoreAnchored(c)]))
  }

  /** A day starts from yesterday's checkpoint; only a formal start or a new symbol may lack one. */
  function Start(checkpoint: Option<DayCheckpoint>, mayStartEmpty: bool, dayStart: int): (r: Result<DayValue, CheckpointError>)
    ensures r.Ok? ==> r.value.Keyed()
  {
    match checkpoint
    case None => if mayStartEmpty then Ok(EMPTY_DAY) else Err(MissingPreviousCheckpoint)
    case Some(c) => StartAnchored(StartValid(c.valid, dayStart), c.anchored)
  }

  function Finish(st: DayValue, dayEnd: int): Result<RunOutput, CheckpointError>
    requires st.Keyed()
  {
    match BuildCheckpoint(st)
    case Err(e) => Err(e)
    case Ok(c) => Ok(RunOutput(st.changes, NonEmpty(Emit(st, dayEnd, ByUtcDayEnd).intervals), c))
  }

  lemma {:induction false} WalkKeepsKeyed(st: DayValue, rows: seq<Row>, gaps: seq<GapEvent>)
    requires st.Keyed()
    ensures Walk(st, rows, gaps).Keyed()
    decreases |rows| + |gaps|
  {
    hide HandleRow, HandleGap;
    if gaps != [] && (rows == [] || EffectiveNs(gaps[0]) <= rows[0].ReceivedNs()) {
      GapKeepsKeyed(st, gaps[0]);
      WalkKeepsKeyed(HandleGap(st, gaps[0]), rows, gaps[1..]);
    } else if rows != [] {
      RowKeepsKeyed(st, rows[0]);
      WalkKeepsKeyed(HandleRow(st, rows[0]), rows[1..], gaps);
    }
  }

  /** The whole run: restore, walk the rows and gap events, close the day, write the checkpoint. */
  function RunDay(checkpoint: Option<DayCheckpoint>, mayStartEmpty: bool, rows: seq<Row>, gaps: seq<GapEvent>, dayStart: int, dayEnd: int)
    : Result<RunOutput, CheckpointError>
  {
    match Start(checkpoint, mayStartEmpty, dayStart)
    case Err(e) => Err(e)
    case Ok(st) =>
      WalkKeepsKeyed(st, rows, gaps);
      Finish(Walk(st, rows, gaps), dayEnd)
  }
}
