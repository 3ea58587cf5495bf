/**
 * The gap journal (collector/gaps.py): an open gap is cut at every UTC midnight into a CLOSED one nanosecond before it
 * and an OPEN at it, so that each day's ledger stands alone.
 */
module GapRollover {
  import opened Wrappers
  import opened Ledger

  const DAY_NS := 86_400 * 1_000_000_000

  function DayOf(ns: int): int {
    ns / DAY_NS
  }

  function EventDay(e: GapEvent): int {
    DayOf(EffectiveNs(e))
  }

  /** An event's file: its day's directory, and a name made of gap id, observation time and state. */
  datatype EventKey = EventKey(day: int, gapId: int, observedNs: int, state: GapState)

  function KeyOf(e: GapEvent): EventKey {
    EventKey(EventDay(e), e.gapId, e.observedNs, e.state)
  }

  /** Published event files, one state file per open gap, and the days that are sealed. */
  datatype Store = Store(events: map<EventKey, GapEvent>, openStates: map<int, GapEvent>, sealedDays: set<int>)

  /** Publishing is refused for a sealed day; a file written again replaces itself. */
  function Publish(s: Store, e: GapEvent): (Store, bool) {
    if EventDay(e) in s.sealedDays then (s, false) else (s.(events := s.events[KeyOf(e) := e]), true)
  }

  /** The CLOSED that ends a gap's part in the day before a midnight. */
  function CutBefore(gap: GapEvent, day: int): GapEvent {
    gap.(state := Closed, observedNs := day * DAY_NS - 1, affectedFromNs := None, detail := CONTINUES)
  }

  /** The OPEN that starts a gap's part in a day. */
  function ContinuedAt(gap: GapEvent, day: int): GapEvent {
    gap.(state := Open, observedNs := day * DAY_NS, affectedFromNs := Some(day * DAY_NS), detail := CONTINUED)
  }

  function Cut(s: Store, gap: GapEvent, day: int): Store {
    if day - 1 in s.sealedDays then s else Publish(s, CutBefore(gap, day)).0
  }

  /** One pass of the roll loop; false when the day the gap continues into is sealed. */
  function RollDay(s: Store, gap: GapEvent, day: int): (Store, bool) {
    var (r, ok) := Publish(Cut(s, gap, day), ContinuedAt(gap, day));
    if ok then (r.(openStates := r.openStates[gap.gapId := ContinuedAt(gap, day)]), true) else (r, false)
  }

  function RollFrom(s: Store, gap: GapEvent, day: int, target: int): (Store, bool)
    decreases target - day
  {
    if day > target then (s, true)
    else
      var (r, ok) := RollDay(s, gap, day);
      if ok then RollFrom(r, ContinuedAt(gap, day), day + 1, target) else (r, false)
  }

  /** The first day a state file's gap has not been carried into. */
  function NextDay(gap: GapEvent): int {
    DayOf(QualityEffectiveNs(gap.(state := Open))) + 1
  }

  function Roll(s: Store, gapId: int, target: int): (Store, bool)
    requires gapId in s.openStates
  {
    RollFrom(s, s.openStates[gapId], NextDay(s.openStates[gapId]), target)
  }

  function OpenGap(s: Store, e: GapEvent): (Store, bool) {
    var (r, ok) := Publish(s, e);
    if ok then (r.(openStates := r.openStates[e.gapId := e]), true) else (r, false)
  }

  function CloseGap(s: Store, e: GapEvent): (Store, bool) {
    var (rolled, rollOk) := if e.gapId in s.openStates then Roll(s, e.gapId, DayOf(e.observedNs)) else (s, true);
    if !rollOk then (rolled, false)
    else
      var (r, ok) := Publish(rolled, e);
      if ok then (r.(openStates := r.openStates - {e.gapId}), true) else (r, false)
  }

  /** Every state file names its own gap, and every event its own file. */
  predicate Named(s: Store) {
    && (forall g :: g in s.openStates ==> s.openStates[g].gapId == g && s.openStates[g].state.Open?)
    && (forall k :: k in s.events ==> KeyOf(s.events[k]) == k)
  }

  // ---- The journal -----------------------------------------------------------------------------

  class GapJournal {
    var events: map<EventKey, GapEvent>
    var openStates: map<int, GapEvent>
    var sealedDays: set<int>

    ghost function Value(): Store
      reads this
    {
      Store(events, openStates, sealedDays)
    }

    constructor ()
      ensures Value() == Store(map[], map[], {})
    {
      events, openStates, sealedDays := map[], map[], {};
    }

    method PublishEvent(e: GapEvent) returns (ok: bool)
      modifies this`events
      ensures (Value(), ok) == Publish(old(Value()), e)
    {
      ok := EventDay(e) !in sealedDays;
      if ok {
        events := events[KeyOf(e) := e];
      }
    }

    /** Announces a new gap and remembers it. */
    method OpenNew(e: GapEvent) returns (ok: bool)
      modifies this
      ensures (Value(), ok) == OpenGap(old(Value()), e)
    {
      ok := PublishEvent(e);
      if ok {
        openStates := openStates[e.gapId := e];
      }
    }

    method RollStateTo(gapId: int, target: int) returns (ok: bool)
      requires gapId in openStates && Named(Value())
      modifies this`events, this`openStates
      ensures (Value(), ok) == Roll(old(Value()), gapId, target)
    {
      var gap := openStates[gapId];
      var day := NextDay(gap);
      while day <= target
        invariant gap.gapId == gapId
        invariant RollFrom(Value(), gap, day, target) == Roll(old(Value()), gapId, target)
        decreases target - day
      {
        ghost var before := Value();
        if day - 1 !in sealedDays {
          var _ := PublishEvent(CutBefore(gap, day));
        }
        assert Value() == Cut(before, gap, day);
        var reopened := ContinuedAt(gap, day);
        var published := PublishEvent(reopened);
        if !published {
          return false;
        }
        openStates := openStates[gapId := reopened];
        assert (Value(), true) == RollDay(before, gap, day);
        gap := reopened;
        day := day + 1;
      }
      ok := true;
    }

    /** Ends a gap: carried to the closing day first, then CLOSED, then forgotten. */
    method Close(e: GapEvent) returns (ok: bool)
      requires Named(Value())
      modifies this`events, this`openStates
      ensures (Value(), ok) == CloseGap(old(Value()), e)
    {
      if e.gapId in openStates {
        var rolled := RollStateTo(e.gapId, DayOf(e.observedNs));
        if !rolled {
          return false;
        }
      }
      ok := PublishEvent(e);
      if ok {
        openStates := openStates - {e.gapId};
      }
    }

    /** At midnight every open gap is carried over, in file-name order; the first refusal ends the pass. */
    method Rollover(day: int, paths: seq<int>) returns (ok: bool)
      requires Named(Value()) && forall i :: 0 <= i < |paths| ==> paths[i] in openStates
      modifies this`events, this`openStates
      ensures (Value(), ok) == RollAll(old(Value()), paths, day)
    {
      var i := 0;
      ok := true;
      while i < |paths|
        invariant 0 <= i <= |paths| && Named(Value())
        invariant forall j :: 0 <= j < |paths| ==> paths[j] in openStates
        invariant RollAll(old(Value()), paths, day) == RollAll(Value(), paths[i..], day)
      {
        RollKeepsNamed(Value(), paths[i], day);
        ghost var before := Value();
        var rolled := RollStateTo(paths[i], day);
        assert paths[i..][0] == paths[i] && paths[i..][1..] == paths[i + 1..];
        if !rolled {
          return false;
        }
        i := i + 1;
      }
    }
  }

  function RollAll(s: Store, paths: seq<int>, day: int): (Store, bool)
    decreases paths
  {
    if paths == [] || paths[0] !in s.openStates then (s, true)
    else
      var (r, ok) := Roll(s, paths[0], day);
      if ok then RollAll(r, paths[1..], day) else (r, false)
  }

  lemma {:induction false} RollFromKeepsNamed(s: Store, gap: GapEvent, day: int, target: int)
    requires Named(s) && gap.gapId in s.openStates
    ensures var r := RollFrom(s, gap, day, target).0;
            && Named(r) && r.openStates.Keys == s.openStates.Keys && r.sealedDays == s.sealedDays
            && (forall g :: g in s.openStates && g != gap.gapId ==> r.openStates[g] == s.openStates[g])
    decreases target - day
  {
    if day <= target {
      var (r, ok) := RollDay(s, gap, day);
      assert Named(r) && r.openStates.Keys == s.openStates.Keys;
      if ok {
        RollFromKeepsNamed(r, ContinuedAt(gap, day), day + 1, target);
      }
    }
  }

  lemma {:induction false} RollKeepsNamed(s: Store, gapId: int, target: int)
    requires Named(s) && gapId in s.openStates
    ensures var r := Roll(s, gapId, target).0;
            && Named(r) && r.openStates.Keys == s.openStates.Keys && r.sealedDays == s.sealedDays
            && (forall g :: g in s.openStates && g != gapId ==> r.openStates[g] == s.openStates[g])
  {
    RollFromKeepsNamed(s, s.openStates[gapId], NextDay(s.openStates[gapId]), target);
  }

  lemma {:induction false} RollReaches(s: Store, gap: GapEvent, day: int, target: int)
    requires Named(s) && gap.gapId in s.openStates && s.openStates[gap.gapId] == gap && day == NextDay(gap)
    ensures var (r, ok) := RollFrom(s, gap, day, target);
            gap.gapId in r.openStates && (ok <==> target < NextDay(r.openStates[gap.gapId]))
    decreases target - day
  {
    if day <= target {
      var (r, ok) := RollDay(s, gap, day);
      if ok {
        ContinuedNextDay(gap, day);
        RollReaches(r, ContinuedAt(gap, day), day + 1, target);
      }
    }
  }

  predicate PastDay(s: Store, g: int, day: int) {
    g in s.openStates && day < NextDay(s.openStates[g])
  }

  /** The first k gaps are carried past the day, the next is not, and those behind it are as before. */
  ghost predicate CarriedUpTo(s: Store, r: Store, paths: seq<int>, day: int, k: nat) {
    && k <= |paths|
    && (forall i :: 0 <= i < k ==> PastDay(r, paths[i], day))
    && (k < |paths| ==> !PastDay(r, paths[k], day))
    && (forall i :: k < i < |paths| ==> paths[i] in s.openStates && paths[i] in r.openStates && r.openStates[paths[i]] == s.openStates[paths[i]])
  }

  ghost predicate SameOutside(s: Store, r: Store, gaps: seq<int>) {
    && Named(r) && r.openStates.Keys == s.openStates.Keys
    && (forall g :: g in s.openStates && g !in gaps ==> r.openStates[g] == s.openStates[g])
  }

  lemma {:induction false} OneRolled(s: Store, g: int, day: int)
    requires Named(s) && g in s.openStates
    ensures var (r, ok) := Roll(s, g, day); SameOutside(s, r, [g]) && (ok <==> PastDay(r, g, day))
  {
    RollKeepsNamed(s, g, day);
    RollReaches(s, s.openStates[g], NextDay(s.openStates[g]), day);
    hide RollFrom, NextDay, Named;
  }

  lemma {:induction false} ThenTheRest(s: Store, first: Store, r: Store, paths: seq<int>, day: int, k: nat)
    requires paths != [] && NoneTwice(paths) && (forall i :: 0 <= i < |paths| ==> paths[i] in s.openStates)
    requires SameOutside(s, first, [paths[0]]) && SameOutside(first, r, paths[1..])
    requires PastDay(first, paths[0], day) && CarriedUpTo(first, r, paths[1..], day, k)
    ensures SameOutside(s, r, paths) && CarriedUpTo(s, r, paths, day, k + 1)
  {
    hide NextDay, Named;
    var rest := paths[1..];
    assert forall i :: 1 <= i < |paths| ==> paths[i] == rest[i - 1];
    assert paths[0] !in rest;
    forall i | 0 <= i < k + 1
      ensures PastDay(r, paths[i], day)
    {
      if i > 0 {
        assert paths[i] == rest[i - 1];
      }
    }
  }

  predicate NoneTwice(paths: seq<int>) {
    forall i, j :: 0 <= i < j < |paths| ==> paths[i] != paths[j]
  }

  /** A rollover succeeds exactly when every gap is carried past the day; a refusal leaves the gaps behind it as they were. */
  lemma {:induction false} RolloverIsExact(s: Store, paths: seq<int>, day: int) returns (k: nat)
    requires Named(s) && NoneTwice(paths) && forall i :: 0 <= i < |paths| ==> paths[i] in s.openStates
    ensures var (r, ok) := RollAll(s, paths, day);
            SameOutside(s, r, paths) && CarriedUpTo(s, r, paths, day, k) && (ok <==> k == |paths|)
    decreases paths
  {
    k := 0;
    if paths != [] {
      var first, rest := Roll(s, paths[0], day).0, paths[1..];
      OneRolled(s, paths[0], day);
      hide Roll, NextDay, Named;
      assert forall i :: 0 <= i < |rest| ==> rest[i] == paths[i + 1];
      if PastDay(first, paths[0], day) {
        var n := RolloverIsExact(first, rest, day);
        ThenTheRest(s, first, RollAll(first, rest, day).0, paths, day, n);
        k := n + 1;
      } else {
        assert forall i :: 0 < i < |paths| ==> paths[i] !in [paths[0]];
      }
    }
  }

  // ---- Splitting and repeating a roll ------------------------------------------------------------

  lemma ContinuedNextDay(gap: GapEvent, day: int)
    ensures NextDay(ContinuedAt(gap, day)) == day + 1
    ensures EventDay(ContinuedAt(gap, day)) == day
    ensures EventDay(CutBefore(gap, day)) == day - 1
  {
  }

  lemma {:induction false} RollFromSplits(s: Store, gap: GapEvent, first: int, last: int)
    requires Named(s) && gap.gapId in s.openStates && s.openStates[gap.gapId] == gap
    requires first <= last && RollFrom(s, gap, NextDay(gap), first).1
    ensures var s1 := RollFrom(s, gap, NextDay(gap), first).0;
            && gap.gapId in s1.openStates
            && Roll(s1, gap.gapId, last) == RollFrom(s, gap, NextDay(gap), last)
    decreases first - NextDay(gap)
  {
    var day := NextDay(gap);
    if day <= first {
      ContinuedNextDay(gap, day);
      var r := RollDay(s, gap, day).0;
      RollFromSplits(r, ContinuedAt(gap, day), first, last);
    }
  }

  /** A roll made in two steps is the roll made in one: any split of rollover calls leaves the same journal. */
  lemma {:induction false} RollSplits(s: Store, gapId: int, first: int, last: int)
    requires Named(s) && gapId in s.openStates && first <= last && Roll(s, gapId, first).1
    ensures gapId in Roll(s, gapId, first).0.openStates
    ensures Roll(Roll(s, gapId, first).0, gapId, last) == Roll(s, gapId, last)
  {
    RollFromSplits(s, s.openStates[gapId], first, last);
  }

  /** Rolling over first, or only when the gap closes, publishes the same events. */
  lemma RolloverBeforeCloseIsInvisible(s: Store, e: GapEvent, day: int)
    requires Named(s) && e.gapId in s.openStates && day <= DayOf(e.observedNs) && Roll(s, e.gapId, day).1
    ensures CloseGap(Roll(s, e.gapId, day).0, e) == CloseGap(s, e)
  {
    RollSplits(s, e.gapId, day, DayOf(e.observedNs));
  }

  /** The store when a roll dies after some number of its atomic steps: CLOSED, OPEN, state file, and so on. */
  function CrashedRoll(s: Store, gap: GapEvent, day: int, target: int, steps: nat): Store
    decreases target - day
  {
    if steps == 0 || day > target then s
    else
      var cut := Cut(s, gap, day);
      var (published, ok) := Publish(cut, ContinuedAt(gap, day));
      if steps == 1 || !ok then cut
      else if steps == 2 then published
      else CrashedRoll(published.(openStates := published.openStates[gap.gapId := ContinuedAt(gap, day)]),
                       ContinuedAt(gap, day), day + 1, target, steps - 3)
  }

  lemma {:induction false} RepeatedRollFrom(s: Store, gap: GapEvent, target: int, steps: nat)
    requires Named(s) && gap.gapId in s.openStates && s.openStates[gap.gapId] == gap
    ensures var c := CrashedRoll(s, gap, NextDay(gap), target, steps);
            && gap.gapId in c.openStates
            && Roll(c, gap.gapId, target) == RollFrom(s, gap, NextDay(gap), target)
    decreases target - NextDay(gap)
  {
    var day := NextDay(gap);
    ContinuedNextDay(gap, day);
    if day <= target && steps > 0 {
      var cut := Cut(s, gap, day);
      var (published, ok) := Publish(cut, ContinuedAt(gap, day));
      if steps == 1 || !ok {
        assert Cut(cut, gap, day) == cut;
      } else if steps == 2 {
        assert KeyOf(ContinuedAt(gap, day)) != KeyOf(CutBefore(gap, day));
        assert Cut(published, gap, day) == published;
        assert Publish(published, ContinuedAt(gap, day)).0 == published;
      } else {
        var r := RollDay(s, gap, day).0;
        RepeatedRollFrom(r, ContinuedAt(gap, day), target, steps - 3);
      }
    }
  }

  /** Running a roll again after a crash at any step ends where the uninterrupted roll ends: no event is new. */
  lemma RepeatedRollAddsNothing(s: Store, gapId: int, target: int, steps: nat)
    requires Named(s) && gapId in s.openStates
    ensures var c := CrashedRoll(s, s.openStates[gapId], NextDay(s.openStates[gapId]), target, steps);
            && gapId in c.openStates && Roll(c, gapId, target) == Roll(s, gapId, target)
  {
    RepeatedRollFrom(s, s.openStates[gapId], target, steps);
  }
}
