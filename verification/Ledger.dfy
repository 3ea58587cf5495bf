/** Gap events of a day's transport ledger, as the reconstructor and the quality step order them. */
module Ledger {
  import opened Wrappers
  import opened Sorting

  datatype GapState = Open | Closed

  /** Gap ids are only compared, so they are numbers here. */
  datatype GapEvent = GapEvent(
    gapId: int,
    state: GapState,
    observedNs: int,
    affectedFromNs: Option<int>,
    reason: string,
    symbols: seq<string>,
    streams: seq<string>,
    detail: string)

  const CONTINUES := "gap continues into the next UTC day"
  const CONTINUED := "gap continued from a previous UTC day"

  predicate Relevant(e: GapEvent, symbol: string) {
    && (e.symbols == [] || symbol in e.symbols)
    && (e.streams == [] || "depth" in e.streams)
  }

  function Select(events: seq<GapEvent>, symbol: string): seq<GapEvent> {
    if events == [] then []
    else (if Relevant(events[0], symbol) then [events[0]] else []) + Select(events[1..], symbol)
  }

  /** When the reconstructor makes an event effective. */
  function EffectiveNs(e: GapEvent): int {
    if e.state.Open? && e.affectedFromNs.Some? then e.affectedFromNs.value else e.observedNs
  }

  /** The quality step reads a zero affected_from as absent. */
  function QualityEffectiveNs(e: GapEvent): int {
    if e.state.Open? && e.affectedFromNs.Some? && e.affectedFromNs.value != 0 then e.affectedFromNs.value else e.observedNs
  }

  /** "CLOSED" sorts before "OPEN". */
  function Rank(s: GapState): int {
    if s.Closed? then 0 else 1
  }

  predicate TextLess(a: string, b: string) {
    b != [] && (a == [] || a[0] < b[0] || (a[0] == b[0] && TextLess(a[1..], b[1..])))
  }

  /** The reconstructor's key: (effective time, gap id, state). */
  predicate ByKey(a: GapEvent, b: GapEvent) {
    EffectiveNs(a) < EffectiveNs(b) ||
    (EffectiveNs(a) == EffectiveNs(b) &&
     (a.gapId < b.gapId || (a.gapId == b.gapId && Rank(a.state) <= Rank(b.state))))
  }

  /** The quality step's key: the detail text breaks remaining ties. */
  predicate ByQualityKey(a: GapEvent, b: GapEvent) {
    QualityEffectiveNs(a) < QualityEffectiveNs(b) ||
    (QualityEffectiveNs(a) == QualityEffectiveNs(b) &&
     (a.gapId < b.gapId ||
      (a.gapId == b.gapId &&
       (Rank(a.state) < Rank(b.state) || (a.state == b.state && !TextLess(b.detail, a.detail))))))
  }

  lemma {:induction false} TextLessOrders(a: string, b: string, c: string)
    ensures !TextLess(a, b) || !TextLess(b, a)
    ensures TextLess(a, b) || TextLess(b, a) || a == b
    ensures TextLess(a, b) && TextLess(b, c) ==> TextLess(a, c)
    ensures !TextLess(b, a) && !TextLess(c, b) ==> !TextLess(c, a)
    decreases |a| + |b| + |c|
  {
    if a != [] && b != [] {
      assert a == [a[0]] + a[1..] && b == [b[0]] + b[1..];
      if c != [] {
        TextLessOrders(a[1..], b[1..], c[1..]);
      } else {
        TextLessOrders(a[1..], b[1..], c);
      }
    }
  }

  /**
   * Where the readings differ, so does the order: an OPEN with a zero affected_from changes places with exactly the events
   * between zero and the time it was observed.
   */
  lemma ZeroOpeningIsMisplaced(a: GapEvent, b: GapEvent)
    requires a.state.Open? && a.affectedFromNs == Some(0) && 0 < a.observedNs
    requires EffectiveNs(b) == QualityEffectiveNs(b) && EffectiveNs(b) != 0 && EffectiveNs(b) != a.observedNs
    ensures (ByKey(a, b) <==> ByQualityKey(a, b)) <==> !(0 < EffectiveNs(b) < a.observedNs)
    ensures 0 < EffectiveNs(b) < a.observedNs ==> StableSort([a, b], ByKey) == [a, b] && StableSort([a, b], ByQualityKey) == [b, a]
  {
    if 0 < EffectiveNs(b) < a.observedNs {
      assert [a, b][1..] == [b] && [b][1..] == [];
      assert StableSort([b], ByKey) == [b] && StableSort([b], ByQualityKey) == [b];
      assert Insert(a, [b], ByKey) == [a] + [b];
      assert Insert(a, [b], ByQualityKey) == [b] + Insert(a, [], ByQualityKey);
    }
  }

  lemma KeysAreTotal()
    ensures TotalPreorder(ByKey)
    ensures TotalPreorder(ByQualityKey)
  {
    forall a: GapEvent, b: GapEvent, c: GapEvent
      ensures ByQualityKey(a, b) || ByQualityKey(b, a)
      ensures ByQualityKey(a, b) && ByQualityKey(b, c) ==> ByQualityKey(a, c)
    {
      TextLessOrders(a.detail, b.detail, c.detail);
    }
  }

  /** The ledger holds at most one event per time, gap and state, and no zero affected_from. */
  ghost predicate Unambiguous(events: seq<GapEvent>) {
    && (forall i, j :: 0 <= i < |events| && 0 <= j < |events| && ByKey(events[i], events[j]) && ByKey(events[j], events[i]) ==> events[i] == events[j])
    && (forall i :: 0 <= i < |events| ==> EffectiveNs(events[i]) == QualityEffectiveNs(events[i]))
  }

  /** On an unambiguous ledger both components walk the gap events in the same order. */
  lemma BothOrdersAgree(events: seq<GapEvent>)
    requires Unambiguous(events)
    ensures StableSort(events, ByKey) == StableSort(events, ByQualityKey)
  {
    var a, b := StableSort(events, ByKey), StableSort(events, ByQualityKey);
    KeysAreTotal();
    SortOrders(events, ByKey);
    SortOrders(events, ByQualityKey);
    SameElements(a, events);
    SameElements(b, events);
    forall i, j | 0 <= i < j < |b|
      ensures ByKey(b[i], b[j])
    {
      assert b[i] in events && b[j] in events;
      assert ByQualityKey(b[i], b[j]);
    }
    assert Untied(a, ByKey) by {
      UnambiguousIsUntied(events, a);
    }
    OrderingIsUnique(a, b, ByKey);
  }

  lemma UnambiguousIsUntied(events: seq<GapEvent>, xs: seq<GapEvent>)
    requires Unambiguous(events) && forall e :: e in xs ==> e in events
    ensures Untied(xs, ByKey)
  {
    hide ByKey;
  }

  predicate SameKey(a: GapEvent, b: GapEvent) {
    QualityEffectiveNs(a) == QualityEffectiveNs(b) && a.gapId == b.gapId && a.state == b.state && a.detail == b.detail
  }

  /** No two different events of the ledger are equal in time, gap, state and detail. */
  ghost predicate Told(events: seq<GapEvent>) {
    forall a, b :: a in events && b in events && SameKey(a, b) ==> a == b
  }

  lemma {:induction false} SelectCounts(ledger: seq<GapEvent>, symbol: string)
    ensures forall e :: multiset(Select(ledger, symbol))[e] == if Relevant(e, symbol) then multiset(ledger)[e] else 0
  {
    if ledger != [] {
      SelectCounts(ledger[1..], symbol);
      assert ledger == [ledger[0]] + ledger[1..];
    }
  }

  /** Quality reads the same gaps from a ledger in whatever order its files list the events. */
  lemma {:induction false} ListingIsForgotten(events: seq<GapEvent>, listed: seq<GapEvent>, symbol: string)
    requires multiset(events) == multiset(listed) && Told(events)
    ensures StableSort(Select(events, symbol), ByQualityKey) == StableSort(Select(listed, symbol), ByQualityKey)
  {
    hide Relevant, EffectiveNs;
    var xs, ys := Select(events, symbol), Select(listed, symbol);
    SelectCounts(events, symbol);
    SelectCounts(listed, symbol);
    forall e
      ensures multiset(xs)[e] == multiset(ys)[e] && (e in xs ==> e in events)
    {
      assert e in xs ==> e in multiset(xs);
      assert e in multiset(events) ==> e in events;
    }
    assert multiset(xs) == multiset(ys);
    hide Select;
    KeysAreTotal();
    forall a, b | a in xs && b in xs && ByQualityKey(a, b) && ByQualityKey(b, a)
      ensures a == b
    {
      TextLessOrders(a.detail, b.detail, a.detail);
    }
    hide ByQualityKey;
    SortForgetsOrder(xs, ys, ByQualityKey);
  }
}
