/**
 * Every reachable gap journal (collector/gaps.py): each gap is an opening in each of its days, cut at each midnight,
 * and the closings published for it, whatever rollovers, seals, refusals and crashes the run contains. A crash that
 * prevented a gap's state file leaves one opening; a crash that left it behind a CLOSED lets the gap go on.
 */
module GapRuns {
  import opened Wrappers
  import opened Ledger
  import opened GapRollover

  /**
   * A crash while announcing comes between the event and its state file, one while carrying after some of its steps, one
   * while ending between the CLOSED and the removal of the state file.
   */
  datatype Op = Announce(e: GapEvent) | CrashWhileAnnouncing(e: GapEvent) | CarryTo(gapId: int, day: int) | CrashWhileCarrying(gapId: int, day: int, steps: nat)
              | Seal(day: int) | End(e: GapEvent) | CrashWhileEnding(e: GapEvent)

  /** What a run knows of its gaps: the event that opened each, and the closings published for it, the first one first. */
  datatype World = World(store: Store, openedBy: map<int, GapEvent>, closings: map<int, seq<GapEvent>>)
  {
    function ClosingsOf(g: int): seq<GapEvent> {
      if g in closings then closings[g] else []
    }
  }

  predicate SameScope(a: GapEvent, b: GapEvent) {
    a.gapId == b.gapId && a.symbols == b.symbols && a.streams == b.streams
  }

  /** Gap ids are drawn fresh, an opening names its time, and only the journal writes the roll's own detail. */
  predicate Proper(w: World, op: Op) {
    match op
    case Announce(e) => e.state.Open? && e.affectedFromNs != Some(0) && e.gapId !in w.openedBy
    case CrashWhileAnnouncing(e) => e.state.Open? && e.affectedFromNs != Some(0) && e.gapId !in w.openedBy
    case CarryTo(g, _) => g in w.store.openStates
    case CrashWhileCarrying(g, _, _) => g in w.store.openStates
    case Seal(_) => true
    case End(e) => ProperClosing(w, e)
    case CrashWhileEnding(e) => ProperClosing(w, e)
  }

  predicate ProperClosing(w: World, e: GapEvent) {
    e.state.Closed? && e.detail != CONTINUES && e.gapId in w.store.openStates && SameScope(e, w.store.openStates[e.gapId])
  }

  /** CloseGap up to the removal of the state file. */
  function CrashedClose(s: Store, e: GapEvent): (Store, bool)
    requires e.gapId in s.openStates
  {
    var (rolled, ok) := Roll(s, e.gapId, DayOf(e.observedNs));
    if ok then Publish(rolled, e) else (rolled, false)
  }

  function WithClosing(w: World, r: Store, e: GapEvent, ok: bool): World {
    w.(store := r, closings := if ok then w.closings[e.gapId := w.ClosingsOf(e.gapId) + [e]] else w.closings)
  }

  function Do(w: World, op: Op): World
    requires Proper(w, op)
  {
    match op
    case Announce(e) =>
      var (r, ok) := OpenGap(w.store, e);
      w.(store := r, openedBy := if ok then w.openedBy[e.gapId := e] else w.openedBy)
    case CrashWhileAnnouncing(e) =>
      var (r, ok) := Publish(w.store, e);
      w.(store := r, openedBy := if ok then w.openedBy[e.gapId := e] else w.openedBy)
    case CarryTo(g, day) => w.(store := Roll(w.store, g, day).0)
    case CrashWhileCarrying(g, day, steps) =>
      w.(store := CrashedRoll(w.store, w.store.openStates[g], NextDay(w.store.openStates[g]), day, steps))
    case Seal(day) => w.(store := w.store.(sealedDays := w.store.sealedDays + {day}))
    case End(e) =>
      var (r, ok) := CloseGap(w.store, e);
      WithClosing(w, r, e, ok)
    case CrashWhileEnding(e) =>
      var (r, ok) := CrashedClose(w.store, e);
      WithClosing(w, r, e, ok)
  }

  function Beginning(): World {
    World(Store(map[], map[], {}), map[], map[])
  }

  /** The world after a run from an empty journal; nothing for a run with an improper step. */
  function After(ops: seq<Op>): Option<World> {
    if ops == [] then Some(Beginning())
    else
      var before, op := After(ops[..|ops| - 1]), ops[|ops| - 1];
      if before.Some? && Proper(before.value, op) then Some(Do(before.value, op)) else None
  }

  // ---- The pieces of one gap -------------------------------------------------------------------

  function OpeningIn(gap: GapEvent, day: int): GapEvent {
    if day == EventDay(gap) then gap else ContinuedAt(gap, day)
  }

  predicate Stored(s: Store, e: GapEvent) {
    KeyOf(e) in s.events && s.events[KeyOf(e)] == e
  }

  predicate IsPiece(gap: GapEvent, closings: seq<GapEvent>, last: int, e: GapEvent) {
    || (e in closings && EventDay(e) <= last)
    || (EventDay(gap) <= EventDay(e) <= last && (e == OpeningIn(gap, EventDay(e)) || e == CutBefore(gap, EventDay(e) + 1)))
  }

  /** A gap carried up to a day: an opening in each of its days, and nothing else but its closings and cuts. */
  ghost predicate Pieces(s: Store, gap: GapEvent, closings: seq<GapEvent>, last: int) {
    && EventDay(gap) <= last
    && (forall day :: EventDay(gap) <= day <= last ==> Stored(s, OpeningIn(gap, day)))
    && (forall k :: k in s.events && k.gapId == gap.gapId ==> IsPiece(gap, closings, last, s.events[k]))
  }

  /** An open gap's state file is the opening of one of its days. */
  ghost predicate Carried(s: Store, gap: GapEvent, closings: seq<GapEvent>, state: GapEvent, last: int) {
    Pieces(s, gap, closings, last) && EventDay(gap) <= EventDay(state) <= last && state == OpeningIn(gap, EventDay(state))
  }

  ghost predicate SameFor(s: Store, r: Store, g: int) {
    forall k: EventKey :: k.gapId == g ==> (k in s.events <==> k in r.events) && (k in s.events ==> s.events[k] == r.events[k])
  }

  lemma {:induction false} PiecesFrame(s: Store, r: Store, gap: GapEvent, closings: seq<GapEvent>, last: int)
    requires Pieces(s, gap, closings, last) && SameFor(s, r, gap.gapId)
    ensures Pieces(r, gap, closings, last)
  {
    forall day | EventDay(gap) <= day <= last
      ensures Stored(r, OpeningIn(gap, day))
    {
      assert Stored(s, OpeningIn(gap, day));
    }
  }

  lemma {:induction false} OpeningFacts(gap: GapEvent, day: int)
    requires gap.state.Open? && gap.affectedFromNs != Some(0) && EventDay(gap) <= day
    ensures var o := OpeningIn(gap, day);
            && o.state.Open? && o.gapId == gap.gapId && EventDay(o) == day && NextDay(o) == day + 1
            && ContinuedAt(o, day + 1) == OpeningIn(gap, day + 1) && CutBefore(o, day + 1) == CutBefore(gap, day + 1)
            && EventDay(CutBefore(gap, day + 1)) == day
  {
    ContinuedNextDay(gap, day);
    ContinuedNextDay(gap, day + 1);
  }

  lemma {:induction false} CutKeepsPieces(s: Store, gap: GapEvent, closings: seq<GapEvent>, last: int, day: int)
    requires Pieces(s, gap, closings, last) && gap.state.Open? && gap.affectedFromNs != Some(0) && EventDay(gap) <= day <= last
    ensures Pieces(Cut(s, gap, day + 1), gap, closings, last)
  {
    OpeningFacts(gap, day);
    var r := Cut(s, gap, day + 1);
    forall d | EventDay(gap) <= d <= last
      ensures Stored(r, OpeningIn(gap, d))
    {
      OpeningFacts(gap, d);
      assert Stored(s, OpeningIn(gap, d));
    }
  }

  lemma {:induction false} ContinueKeepsPieces(s: Store, gap: GapEvent, closings: seq<GapEvent>, last: int, day: int)
    requires Pieces(s, gap, closings, last) && gap.state.Open? && gap.affectedFromNs != Some(0) && EventDay(gap) <= day <= last
    ensures var (r, ok) := Publish(s, OpeningIn(gap, day + 1));
            Pieces(r, gap, closings, if ok && day == last then last + 1 else last)
  {
    OpeningFacts(gap, day + 1);
    var (r, ok) := Publish(s, OpeningIn(gap, day + 1));
    if ok {
      var next := if day == last then last + 1 else last;
      forall d | EventDay(gap) <= d <= next
        ensures Stored(r, OpeningIn(gap, d))
      {
        OpeningFacts(gap, d);
        if d != day + 1 {
          assert Stored(s, OpeningIn(gap, d));
        }
      }
      forall k | k in r.events && k.gapId == gap.gapId
        ensures IsPiece(gap, closings, next, r.events[k])
      {
        if k in s.events {
          assert IsPiece(gap, closings, last, s.events[k]);
        }
      }
    }
  }

  lemma {:induction false} CloseKeepsPieces(s: Store, gap: GapEvent, closings: seq<GapEvent>, last: int, e: GapEvent)
    requires Pieces(s, gap, closings, last) && gap.state.Open? && gap.affectedFromNs != Some(0)
    requires e.state.Closed? && e.gapId == gap.gapId && Publish(s, e).1 && EventDay(e) <= last
    ensures Pieces(Publish(s, e).0, gap, closings + [e], last)
  {
    var r := Publish(s, e).0;
    forall d | EventDay(gap) <= d <= last
      ensures Stored(r, OpeningIn(gap, d))
    {
      OpeningFacts(gap, d);
      assert Stored(s, OpeningIn(gap, d));
    }
    forall k | k in r.events && k.gapId == gap.gapId
      ensures IsPiece(gap, closings + [e], last, r.events[k])
    {
      if k in s.events {
        assert IsPiece(gap, closings, last, s.events[k]);
      }
    }
  }

  // ---- Rolls -----------------------------------------------------------------------------------

  lemma {:induction false} PublishFrame(s: Store, e: GapEvent, g: int)
    requires e.gapId != g
    ensures SameFor(s, Publish(s, e).0, g)
  {
  }

  lemma {:induction false} CutFrame(s: Store, gap: GapEvent, day: int, g: int)
    requires gap.gapId != g
    ensures SameFor(s, Cut(s, gap, day), g)
  {
  }

  lemma {:induction false} RollDayFrame(s: Store, gap: GapEvent, day: int, g: int)
    requires gap.gapId != g
    ensures SameFor(s, RollDay(s, gap, day).0, g)
  {
    CutFrame(s, gap, day, g);
    PublishFrame(Cut(s, gap, day), ContinuedAt(gap, day), g);
  }

  /** A roll, finished or crashed, leaves other gaps' events alone. */
  lemma {:induction false} RollFrame(s: Store, gap: GapEvent, day: int, target: int, g: int)
    requires gap.gapId != g
    ensures SameFor(s, RollFrom(s, gap, day, target).0, g)
    decreases target - day
  {
    if day <= target {
      RollDayFrame(s, gap, day, g);
      if RollDay(s, gap, day).1 {
        RollFrame(RollDay(s, gap, day).0, ContinuedAt(gap, day), day + 1, target, g);
      }
    }
  }

  lemma {:induction false} CrashFrame(s: Store, gap: GapEvent, day: int, target: int, steps: nat, g: int)
    requires gap.gapId != g
    ensures SameFor(s, CrashedRoll(s, gap, day, target, steps), g)
    decreases target - day
  {
    if day <= target && steps > 0 {
      CutFrame(s, gap, day, g);
      var (published, ok) := Publish(Cut(s, gap, day), ContinuedAt(gap, day));
      PublishFrame(Cut(s, gap, day), ContinuedAt(gap, day), g);
      if ok && steps > 2 {
        var r := published.(openStates := published.openStates[gap.gapId := ContinuedAt(gap, day)]);
        CrashFrame(r, ContinuedAt(gap, day), day + 1, target, steps - 3, g);
      }
    }
  }

  /** One pass of the roll loop on a gap's own pieces; the step between the OPEN and the state file included. */
  lemma {:induction false} RollDayKeeps(s: Store, gap: GapEvent, closings: seq<GapEvent>, state: GapEvent, last: int) returns (next: int)
    requires gap.state.Open? && gap.affectedFromNs != Some(0) && Carried(s, gap, closings, state, last)
    ensures last <= next
    ensures var day := NextDay(state);
            var cut := Cut(s, state, day);
            var (published, ok) := Publish(cut, ContinuedAt(state, day));
            && Carried(cut, gap, closings, state, last)
            && Carried(published, gap, closings, state, next)
            && (ok ==> Carried(published, gap, closings, ContinuedAt(state, day), next))
  {
    var d := EventDay(state);
    OpeningFacts(gap, d);
    OpeningFacts(gap, d + 1);
    assert Cut(s, state, d + 1) == Cut(s, gap, d + 1);
    CutKeepsPieces(s, gap, closings, last, d);
    ContinueKeepsPieces(Cut(s, gap, d + 1), gap, closings, last, d);
    next := if Publish(Cut(s, gap, d + 1), OpeningIn(gap, d + 1)).1 && d == last then last + 1 else last;
  }

  lemma {:induction false} StatesDoNotMatter(s: Store, r: Store, gap: GapEvent, closings: seq<GapEvent>, state: GapEvent, last: int)
    requires Carried(s, gap, closings, state, last) && r.events == s.events
    ensures Carried(r, gap, closings, state, last)
  {
    PiecesFrame(s, r, gap, closings, last);
  }

  lemma {:induction false} RollKeeps(s: Store, gap: GapEvent, closings: seq<GapEvent>, state: GapEvent, target: int, last: int) returns (next: int)
    requires gap.state.Open? && gap.affectedFromNs != Some(0) && Carried(s, gap, closings, state, last)
    requires gap.gapId in s.openStates && s.openStates[gap.gapId] == state
    ensures last <= next
    ensures var (r, ok) := RollFrom(s, state, NextDay(state), target);
            gap.gapId in r.openStates && Carried(r, gap, closings, r.openStates[gap.gapId], next) && (ok ==> target <= EventDay(r.openStates[gap.gapId]))
    decreases target - NextDay(state)
  {
    var day := NextDay(state);
    next := last;
    OpeningFacts(gap, EventDay(state));
    if day <= target {
      next := RollDayKeeps(s, gap, closings, state, last);
      var (published, ok) := Publish(Cut(s, state, day), ContinuedAt(state, day));
      ContinuedNextDay(state, day);
      hide Carried;
      if ok {
        var r := published.(openStates := published.openStates[state.gapId := ContinuedAt(state, day)]);
        StatesDoNotMatter(published, r, gap, closings, ContinuedAt(state, day), next);
        next := RollKeeps(r, gap, closings, ContinuedAt(state, day), target, next);
      }
    }
  }

  lemma {:induction false} CrashKeeps(s: Store, gap: GapEvent, closings: seq<GapEvent>, state: GapEvent, target: int, steps: nat, last: int) returns (next: int)
    requires gap.state.Open? && gap.affectedFromNs != Some(0) && Carried(s, gap, closings, state, last)
    requires gap.gapId in s.openStates && s.openStates[gap.gapId] == state
    ensures last <= next
    ensures var r := CrashedRoll(s, state, NextDay(state), target, steps);
            gap.gapId in r.openStates && Carried(r, gap, closings, r.openStates[gap.gapId], next)
    decreases target - NextDay(state)
  {
    var day := NextDay(state);
    next := last;
    if day <= target && steps > 0 {
      next := RollDayKeeps(s, gap, closings, state, last);
      OpeningFacts(gap, EventDay(state));
      var (published, ok) := Publish(Cut(s, state, day), ContinuedAt(state, day));
      ContinuedNextDay(state, day);
      hide Carried;
      if steps == 1 || !ok {
        next := last;
      } else if steps > 2 {
        var r := published.(openStates := published.openStates[state.gapId := ContinuedAt(state, day)]);
        StatesDoNotMatter(published, r, gap, closings, ContinuedAt(state, day), next);
        next := CrashKeeps(r, gap, closings, ContinuedAt(state, day), target, steps - 3, next);
      }
    }
  }

  // ---- Every run -------------------------------------------------------------------------------

  predicate GoodOpening(e: GapEvent, g: int) {
    e.gapId == g && e.state.Open? && e.affectedFromNs != Some(0)
  }

  predicate GoodClosing(e: GapEvent, opening: GapEvent) {
    e.state.Closed? && e.detail != CONTINUES && SameScope(e, opening)
  }

  ghost predicate SomePieces(s: Store, gap: GapEvent, closings: seq<GapEvent>) {
    exists last :: Pieces(s, gap, closings, last)
  }

  ghost predicate SomeCarried(s: Store, gap: GapEvent, closings: seq<GapEvent>, state: GapEvent) {
    exists last :: Carried(s, gap, closings, state, last)
  }

  /** A gap announced without a state file: no one will carry it over or close it. */
  predicate Forgotten(w: World, g: int) {
    g in w.openedBy && w.ClosingsOf(g) == [] && g !in w.store.openStates
  }

  /** One gap's share of the invariant. */
  ghost predicate GapInOrder(w: World, g: int)
    requires g in w.openedBy
  {
    var gap, closings := w.openedBy[g], w.ClosingsOf(g);
    && GoodOpening(gap, g)
    && (forall i :: 0 <= i < |closings| ==> GoodClosing(closings[i], gap))
    && (if g in w.store.openStates then SomeCarried(w.store, gap, closings, w.store.openStates[g])
        else if closings == [] then Pieces(w.store, gap, [], EventDay(gap))
        else SomePieces(w.store, gap, closings) && Stored(w.store, closings[|closings| - 1]))
  }

  ghost predicate InOrder(w: World) {
    && Named(w.store)
    && w.closings.Keys <= w.openedBy.Keys && w.store.openStates.Keys <= w.openedBy.Keys
    && (forall k :: k in w.store.events ==> k.gapId in w.openedBy)
    && (forall g :: g in w.openedBy ==> GapInOrder(w, g))
  }

  /** A step about one gap leaves every other gap in order. */
  lemma {:induction false} OthersStayInOrder(w: World, r: World, g: int, h: int)
    requires h in w.openedBy && h in r.openedBy && g != h && GapInOrder(w, h) && r.openedBy[h] == w.openedBy[h]
    requires r.ClosingsOf(h) == w.ClosingsOf(h)
    requires h in w.store.openStates <==> h in r.store.openStates
    requires h in w.store.openStates ==> r.store.openStates[h] == w.store.openStates[h]
    requires SameFor(w.store, r.store, h)
    ensures GapInOrder(r, h)
  {
    hide Pieces;
    var gap, closings := w.openedBy[h], w.ClosingsOf(h);
    if h in w.store.openStates {
      var last :| Carried(w.store, gap, closings, w.store.openStates[h], last);
      PiecesFrame(w.store, r.store, gap, closings, last);
      assert Carried(r.store, gap, closings, r.store.openStates[h], last);
    } else if closings == [] {
      PiecesFrame(w.store, r.store, gap, [], EventDay(gap));
    } else {
      var last :| Pieces(w.store, gap, closings, last);
      PiecesFrame(w.store, r.store, gap, closings, last);
    }
  }

  lemma {:induction false} CrashKeepsNamed(s: Store, gap: GapEvent, day: int, target: int, steps: nat)
    requires Named(s) && gap.gapId in s.openStates
    ensures var r := CrashedRoll(s, gap, day, target, steps);
            && Named(r) && r.openStates.Keys == s.openStates.Keys
            && (forall g :: g in s.openStates && g != gap.gapId ==> r.openStates[g] == s.openStates[g])
    decreases target - day
  {
    if day <= target && steps > 0 {
      var (published, ok) := Publish(Cut(s, gap, day), ContinuedAt(gap, day));
      assert Named(published) && published.openStates == s.openStates;
      if ok && steps > 2 {
        var r := published.(openStates := published.openStates[gap.gapId := ContinuedAt(gap, day)]);
        CrashKeepsNamed(r, ContinuedAt(gap, day), day + 1, target, steps - 3);
      }
    }
  }

  /** Carrying one gap, wherever it stops, keeps the whole world in order. */
  lemma {:induction false} CarriedStaysInOrder(w: World, r: World, g: int)
    requires InOrder(w) && g in w.store.openStates && r == w.(store := r.store)
    requires Named(r.store) && r.store.openStates.Keys == w.store.openStates.Keys
    requires forall h :: h in w.store.openStates && h != g ==> r.store.openStates[h] == w.store.openStates[h]
    requires forall h :: h != g ==> SameFor(w.store, r.store, h)
    requires SomeCarried(r.store, w.openedBy[g], w.ClosingsOf(g), r.store.openStates[g])
    ensures InOrder(r)
  {
    hide SomeCarried, SomePieces;
    forall k | k in r.store.events
      ensures k.gapId in r.openedBy
    {
      if k.gapId != g {
        assert SameFor(w.store, r.store, k.gapId);
      }
    }
    assert GapInOrder(w, g);
    forall h | h in r.openedBy
      ensures GapInOrder(r, h)
    {
      if h != g {
        assert GapInOrder(w, h);
        OthersStayInOrder(w, r, g, h);
      }
    }
  }

  lemma {:induction false} CarryInOrder(w: World, g: int, day: int)
    requires InOrder(w) && g in w.store.openStates
    ensures InOrder(w.(store := Roll(w.store, g, day).0))
  {
    assert GapInOrder(w, g);
    var gap, closings, state := w.openedBy[g], w.ClosingsOf(g), w.store.openStates[g];
    var last :| Carried(w.store, gap, closings, state, last);
    hide Carried, Pieces, RollFrom;
    var r := w.(store := Roll(w.store, g, day).0);
    var next := RollKeeps(w.store, gap, closings, state, day, last);
    RollKeepsNamed(w.store, g, day);
    forall h | h != g
      ensures SameFor(w.store, r.store, h)
    {
      RollFrame(w.store, state, NextDay(state), day, h);
    }
    CarriedStaysInOrder(w, r, g);
  }

  lemma {:induction false} CrashInOrder(w: World, g: int, day: int, steps: nat)
    requires InOrder(w) && g in w.store.openStates
    ensures InOrder(w.(store := CrashedRoll(w.store, w.store.openStates[g], NextDay(w.store.openStates[g]), day, steps)))
  {
    assert GapInOrder(w, g);
    var gap, closings, state := w.openedBy[g], w.ClosingsOf(g), w.store.openStates[g];
    var last :| Carried(w.store, gap, closings, state, last);
    hide Carried, Pieces, CrashedRoll;
    var r := w.(store := CrashedRoll(w.store, state, NextDay(state), day, steps));
    var next := CrashKeeps(w.store, gap, closings, state, day, steps, last);
    CrashKeepsNamed(w.store, state, NextDay(state), day, steps);
    forall h | h != g
      ensures SameFor(w.store, r.store, h)
    {
      CrashFrame(w.store, state, NextDay(state), day, steps, h);
    }
    CarriedStaysInOrder(w, r, g);
  }

  lemma {:induction false} AnnouncedIsCarried(s: Store, e: GapEvent)
    requires e.state.Open? && e.affectedFromNs != Some(0) && forall k :: k in s.events ==> k.gapId != e.gapId
    requires Publish(s, e).1
    ensures SomeCarried(OpenGap(s, e).0, e, [], e)
  {
    assert Carried(OpenGap(s, e).0, e, [], e, EventDay(e));
  }

  lemma OneMoreEvent(s: Store, r: Store, e: GapEvent, h: int)
    requires r.events == s.events[KeyOf(e) := e] && e.gapId != h
    ensures SameFor(s, r, h)
  {
  }

  /** A step that publishes one event of a gap, and moves only that gap's state, keeps the world in order. */
  lemma {:induction false} PublishedStaysInOrder(w: World, r: World, e: GapEvent)
    requires InOrder(w) && Named(r.store) && r.store.events == w.store.events[KeyOf(e) := e]
    requires r.openedBy.Keys == w.openedBy.Keys + {e.gapId}
    requires r.closings.Keys <= r.openedBy.Keys && r.store.openStates.Keys <= r.openedBy.Keys
    requires forall h :: h in w.openedBy && h != e.gapId ==>
      && r.openedBy[h] == w.openedBy[h] && r.ClosingsOf(h) == w.ClosingsOf(h)
      && (h in w.store.openStates <==> h in r.store.openStates)
      && (h in w.store.openStates ==> r.store.openStates[h] == w.store.openStates[h])
    requires GapInOrder(r, e.gapId)
    ensures InOrder(r)
  {
    hide GapInOrder, EffectiveNs, DayOf;
    forall h | h in r.openedBy
      ensures GapInOrder(r, h)
    {
      if h != e.gapId {
        assert GapInOrder(w, h);
        OneMoreEvent(w.store, r.store, e, h);
        OthersStayInOrder(w, r, e.gapId, h);
      }
    }
  }

  lemma {:induction false} AnnounceInOrder(w: World, e: GapEvent)
    requires InOrder(w) && Proper(w, Announce(e))
    ensures InOrder(Do(w, Announce(e)))
  {
    if Publish(w.store, e).1 {
      AnnouncedIsCarried(w.store, e);
      hide SomePieces, SomeCarried;
      var r := Do(w, Announce(e));
      assert GapInOrder(r, e.gapId);
      PublishedStaysInOrder(w, r, e);
    }
  }

  lemma {:induction false} ForgottenInOrder(w: World, e: GapEvent)
    requires InOrder(w) && Proper(w, CrashWhileAnnouncing(e))
    ensures InOrder(Do(w, CrashWhileAnnouncing(e)))
  {
    if Publish(w.store, e).1 {
      var r := Do(w, CrashWhileAnnouncing(e));
      assert Pieces(r.store, e, [], EventDay(e));
      hide SomePieces, SomeCarried, Pieces;
      assert GapInOrder(r, e.gapId);
      PublishedStaysInOrder(w, r, e);
    }
  }

  lemma {:induction false} ClosingGap(w: World, e: GapEvent)
    requires InOrder(w) && ProperClosing(w, e) && Publish(w.store, e).1 && EventDay(e) <= EventDay(w.store.openStates[e.gapId])
    ensures var g, s, closings := e.gapId, Publish(w.store, e).0, w.ClosingsOf(e.gapId) + [e];
            && GoodOpening(w.openedBy[g], g) && (forall i :: 0 <= i < |closings| ==> GoodClosing(closings[i], w.openedBy[g]))
            && SomeCarried(s, w.openedBy[g], closings, s.openStates[g])
            && SomePieces(s.(openStates := s.openStates - {g}), w.openedBy[g], closings)
  {
    var g, s, closings := e.gapId, Publish(w.store, e).0, w.ClosingsOf(e.gapId);
    assert GapInOrder(w, g);
    var last :| Carried(w.store, w.openedBy[g], closings, w.store.openStates[g], last);
    hide GapInOrder, InOrder;
    CloseKeepsPieces(w.store, w.openedBy[g], closings, last, e);
    hide Pieces;
    assert Carried(s, w.openedBy[g], closings + [e], s.openStates[g], last);
    PiecesFrame(s, s.(openStates := s.openStates - {g}), w.openedBy[g], closings + [e], last);
  }

  /** A published CLOSED keeps the world in order, whether or not a crash leaves the state file behind. */
  lemma {:induction false} ClosingStaysInOrder(w: World, e: GapEvent, removed: bool)
    requires InOrder(w) && ProperClosing(w, e) && Publish(w.store, e).1 && EventDay(e) <= EventDay(w.store.openStates[e.gapId])
    ensures var s := Publish(w.store, e).0;
            InOrder(WithClosing(w, if removed then s.(openStates := s.openStates - {e.gapId}) else s, e, true))
  {
    var g, s := e.gapId, Publish(w.store, e).0;
    var r := WithClosing(w, if removed then s.(openStates := s.openStates - {g}) else s, e, true);
    hide SomePieces, SomeCarried, SameScope, EventDay;
    ClosingGap(w, e);
    assert GapInOrder(r, g);
    PublishedStaysInOrder(w, r, e);
  }

  lemma {:induction false} RollKeepsScope(w: World, g: int, day: int)
    requires InOrder(w) && g in w.store.openStates
    ensures var (r, ok) := Roll(w.store, g, day);
            g in r.openStates && SameScope(r.openStates[g], w.store.openStates[g]) && (ok ==> day <= EventDay(r.openStates[g]))
  {
    assert GapInOrder(w, g);
    var last :| Carried(w.store, w.openedBy[g], w.ClosingsOf(g), w.store.openStates[g], last);
    var _ := RollKeeps(w.store, w.openedBy[g], w.ClosingsOf(g), w.store.openStates[g], day, last);
    CarryInOrder(w, g, day);
    RollKeepsNamed(w.store, g, day);
    var r := w.(store := Roll(w.store, g, day).0);
    assert GapInOrder(w, g) && GapInOrder(r, g);
  }

  lemma {:induction false} StepInOrder(w: World, op: Op)
    requires InOrder(w) && Proper(w, op)
    ensures InOrder(Do(w, op))
  {
    match op
    case Announce(e) => AnnounceInOrder(w, e);
    case CrashWhileAnnouncing(e) => ForgottenInOrder(w, e);
    case CarryTo(g, day) => CarryInOrder(w, g, day);
    case CrashWhileCarrying(g, day, steps) => CrashInOrder(w, g, day, steps);
    case Seal(day) => SealInOrder(w, day);
    case End(e) => EndInOrder(w, e, true);
    case CrashWhileEnding(e) => EndInOrder(w, e, false);
  }

  /** Ending a gap, removal of its state file or not: the roll first, then the CLOSED if nothing refused it. */
  lemma EndingIs(w: World, e: GapEvent, removed: bool)
    requires ProperClosing(w, e)
    ensures var (r, ok) := Roll(w.store, e.gapId, DayOf(e.observedNs));
            var (s, published) := Publish(r, e);
            Do(w, if removed then End(e) else CrashWhileEnding(e))
            == if ok && published then WithClosing(w.(store := r), if removed then s.(openStates := s.openStates - {e.gapId}) else s, e, true)
               else w.(store := r)
  {
    hide Roll, KeyOf, EventDay, DayOf;
  }

  lemma ProperHasState(w: World, e: GapEvent)
    requires ProperClosing(w, e)
    ensures e.gapId in w.store.openStates && EventDay(e) == DayOf(e.observedNs)
  {
  }

  lemma StillProper(w: World, r: World, e: GapEvent)
    requires ProperClosing(w, e) && e.gapId in r.store.openStates
    requires SameScope(r.store.openStates[e.gapId], w.store.openStates[e.gapId])
    ensures ProperClosing(r, e)
  {
  }

  lemma {:induction false} EndInOrder(w: World, e: GapEvent, removed: bool)
    requires InOrder(w) && ProperClosing(w, e)
    ensures InOrder(Do(w, if removed then End(e) else CrashWhileEnding(e)))
  {
    EndingIs(w, e, removed);
    ProperHasState(w, e);
    hide *;
    var r := w.(store := Roll(w.store, e.gapId, DayOf(e.observedNs)).0);
    CarryInOrder(w, e.gapId, DayOf(e.observedNs));
    RollKeepsScope(w, e.gapId, DayOf(e.observedNs));
    if Roll(w.store, e.gapId, DayOf(e.observedNs)).1 && Publish(r.store, e).1 {
      StillProper(w, r, e);
      ClosingStaysInOrder(r, e, removed);
    }
  }

  lemma {:induction false} SealInOrder(w: World, day: int)
    requires InOrder(w)
    ensures InOrder(Do(w, Seal(day)))
  {
    hide SomePieces, SomeCarried;
    var r := Do(w, Seal(day));
    forall h | h in r.openedBy
      ensures GapInOrder(r, h)
    {
      assert GapInOrder(w, h);
      OthersStayInOrder(w, r, h - 1, h);
    }
  }

  /** In every reachable journal each announced gap is in order. */
  lemma {:induction false} EveryRunIsInOrder(ops: seq<Op>)
    requires After(ops).Some?
    ensures InOrder(After(ops).value)
  {
    if ops != [] {
      EveryRunIsInOrder(ops[..|ops| - 1]);
      StepInOrder(After(ops[..|ops| - 1]).value, ops[|ops| - 1]);
    }
  }
}
