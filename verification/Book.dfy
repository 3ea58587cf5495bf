/** One connection's order book: snapshot anchoring, diff buffering and replay (pipeline/l2.py, ConnectionBook). */
module Book {
  import opened Common
  import opened Wrappers
  import opened Sorting
  import opened Bridge

  type Price = real

  /** Prices are parsed decimals; quantities stay text, and only their zero test matters. */
  datatype Level = Level(price: Price, quantity: string)

  type Side = map<Price, string>

  function Mantissa(s: string): string {
    if s == [] || s[0] == 'e' || s[0] == 'E' then [] else [s[0]] + Mantissa(s[1..])
  }

  function StripSigns(s: string): string {
    if s != [] && (s[0] == '+' || s[0] == '-') then StripSigns(s[1..]) else s
  }

  predicate IsZero(quantity: string) {
    var m := StripSigns(Mantissa(quantity));
    m != [] && forall c | c in m :: c == '0' || c == '.'
  }

  predicate IsDigit(c: char) {
    '0' <= c <= '9'
  }

  /** The number that the digits of a text make, wherever its decimal point stands. */
  function Digits(m: string): nat {
    if m == [] then 0
    else
      var front, last := Digits(m[..|m| - 1]), m[|m| - 1];
      if IsDigit(last) then 10 * front + (last as int - '0' as int) else front
  }

  lemma {:induction false} DigitsAreZero(m: string)
    requires forall c :: c in m ==> IsDigit(c) || c == '.'
    ensures Digits(m) == 0 <==> forall c :: c in m ==> c == '0' || c == '.'
  {
    if m != [] {
      var front, last := m[..|m| - 1], m[|m| - 1];
      assert m == front + [last];
      assert forall c :: c in m <==> c in front || c == last;
      assert last in m;
      DigitsAreZero(front);
      if IsDigit(last) {
        assert last == '0' <==> last as int == '0' as int;
        assert Digits(m) == 10 * Digits(front) + (last as int - '0' as int);
      }
    }
  }

  lemma {:induction false} MantissaEnds(m: string, exponent: string)
    requires forall c :: c in m ==> c != 'e' && c != 'E'
    requires exponent == [] || exponent[0] == 'e' || exponent[0] == 'E'
    ensures Mantissa(m + exponent) == m
  {
    if m == [] {
      assert m + exponent == exponent;
    } else {
      assert m == [m[0]] + m[1..];
      assert forall c :: c in m <==> c == m[0] || c in m[1..];
      assert m[0] in m && (m + exponent)[0] == m[0];
      MantissaEnds(m[1..], exponent);
      assert (m + exponent)[1..] == m[1..] + exponent;
    }
  }

  lemma SignsAreStripped(sign: string, m: string)
    requires sign == "" || sign == "+" || sign == "-"
    requires m != [] && m[0] != '+' && m[0] != '-'
    ensures StripSigns(sign + m) == m
  {
    if sign != "" {
      assert (sign + m)[1..] == m;
    } else {
      assert sign + m == m;
    }
  }

  /** Of decimal texts, the zero test accepts exactly those whose value is zero: those with no digit but zeroes. */
  lemma {:induction false} ZeroTestIsExact(sign: string, m: string, exponent: string)
    requires sign == "" || sign == "+" || sign == "-"
    requires m != [] && forall c :: c in m ==> IsDigit(c) || c == '.'
    requires exponent == [] || exponent[0] == 'e' || exponent[0] == 'E'
    ensures IsZero(sign + m + exponent) <==> Digits(m) == 0
  {
    forall c | c in sign + m
      ensures c != 'e' && c != 'E'
    {
      assert c in sign || c in m;
    }
    MantissaEnds(sign + m, exponent);
    assert m[0] in m;
    SignsAreStripped(sign, m);
    DigitsAreZero(m);
  }

  function ApplyLevel(side: Side, level: Level): Side {
    if IsZero(level.quantity) then side - {level.price} else side[level.price := level.quantity]
  }

  function ApplyLevels(side: Side, levels: seq<Level>): Side {
    if levels == [] then side
    else ApplyLevel(ApplyLevels(side, levels[..|levels| - 1]), levels[|levels| - 1])
  }

  /** A side read from a snapshot or a checkpoint: zero levels are skipped, not removed. */
  function BookSide(levels: seq<Level>): Side {
    if levels == [] then map[]
    else
      var side := BookSide(levels[..|levels| - 1]);
      var last := levels[|levels| - 1];
      if IsZero(last.quantity) then side else side[last.price := last.quantity]
  }

  /** No stored quantity is zero. */
  ghost predicate NoZeroes(side: Side) {
    forall p :: p in side ==> !IsZero(side[p])
  }

  lemma {:induction false} ApplyLevelsNoZeroes(side: Side, levels: seq<Level>)
    requires NoZeroes(side)
    ensures NoZeroes(ApplyLevels(side, levels))
  {
    if levels != [] {
      ApplyLevelsNoZeroes(side, levels[..|levels| - 1]);
    }
  }

  lemma {:induction false} BookSideNoZeroes(levels: seq<Level>)
    ensures NoZeroes(BookSide(levels))
  {
    if levels != [] {
      BookSideNoZeroes(levels[..|levels| - 1]);
    }
  }

  datatype DepthDiff = DepthDiff(span: UpdateSpan, receivedNs: int, payloadHash: string, bids: seq<Level>, asks: seq<Level>)

  datatype DepthSnapshot = DepthSnapshot(receivedNs: int, lastUpdateId: int, bids: seq<Level>, asks: seq<Level>)

  datatype Identity = Identity(first: int, final: int, previous: int, payloadHash: string)

  function IdentityOf(d: DepthDiff): Identity {
    Identity(d.span.first, d.span.final, d.span.previous, d.payloadHash)
  }

  datatype L2State = Unanchored | Valid | Gapped

  datatype Reason = PuDiscontinuity | BufferedPuDiscontinuity | SnapshotBridge | TransportGap(gapReason: string)

  datatype StateChange = StateChange(connectionId: string, atNs: int, state: L2State, updateId: Option<int>, reason: Reason)

  datatype Anchor = Anchor(lastUpdateId: int, receivedNs: int)

  datatype BookValue = BookValue(
    connectionId: string,
    state: L2State,
    bids: Side,
    asks: Side,
    previous: Option<int>,
    pending: seq<DepthDiff>,
    seen: set<Identity>,
    anchor: Option<Anchor>)
  {
    /** A VALID book knows its previous update id and buffers nothing; so does an anchored one know its id. */
    predicate WellFormed() {
      && (state.Valid? ==> previous.Some? && pending == [])
      && (anchor.Some? ==> previous.Some?)
    }

    predicate Anchored() {
      !state.Valid? && anchor.Some?
    }
  }

  function FreshBook(connectionId: string): BookValue {
    BookValue(connectionId, Unanchored, map[], map[], None, [], {}, None)
  }

  function Spans(diffs: seq<DepthDiff>): (s: seq<UpdateSpan>)
    ensures |s| == |diffs|
    ensures forall i :: 0 <= i < |diffs| ==> s[i] == diffs[i].span
  {
    seq(|diffs|, i requires 0 <= i < |diffs| => diffs[i].span)
  }

  predicate ByReceive(a: DepthDiff, b: DepthDiff) {
    a.span.receiveSeq <= b.span.receiveSeq
  }

  function Apply(b: BookValue, d: DepthDiff): BookValue {
    b.(bids := ApplyLevels(b.bids, d.bids), asks := ApplyLevels(b.asks, d.asks), previous := Some(d.span.final))
  }

  function ApplyAll(b: BookValue, diffs: seq<DepthDiff>): BookValue {
    if diffs == [] then b else Apply(ApplyAll(b, diffs[..|diffs| - 1]), diffs[|diffs| - 1])
  }

  function Invalidated(b: BookValue): BookValue {
    b.(state := Gapped, bids := map[], asks := map[], previous := None, pending := [], anchor := None)
  }

  function Gap(b: BookValue, d: DepthDiff, reason: Reason): (BookValue, Option<StateChange>) {
    (Invalidated(b).(pending := [d]), Some(StateChange(b.connectionId, d.receivedNs, Gapped, Some(d.span.final), reason)))
  }

  /** Replays a located bridge and the diffs behind it. */
  function ReplayBridge(b: BookValue, anchor: Anchor, chain: seq<DepthDiff>): (BookValue, Option<StateChange>)
    requires chain != []
  {
    var k := ChainBreak(Spans(chain));
    if k < |chain| then
      Gap(b, chain[k], BufferedPuDiscontinuity)
    else
      var done := ApplyAll(b, chain).(pending := [], state := Valid, anchor := None);
      (done, Some(StateChange(b.connectionId, Max(anchor.receivedNs, chain[0].receivedNs), Valid, done.previous, SnapshotBridge)))
  }

  function TryBridgeSorted(b: BookValue, anchor: Anchor, sorted: seq<DepthDiff>): (BookValue, Option<StateChange>) {
    var decision := LocateSnapshotBridge(anchor.lastUpdateId, Spans(sorted));
    var candidates := sorted[decision.discardCount..];
    if decision.status.WaitingForEvents? then
      (b.(pending := candidates), None)
    else if decision.status.StaleSnapshot? then
      (b.(bids := map[], asks := map[], previous := None, anchor := None, pending := candidates), None)
    else
      ReplayBridge(b, anchor, candidates)
  }

  function TryBridge(b: BookValue): (BookValue, Option<StateChange>) {
    match b.anchor
    case None => (b, None)
    case Some(anchor) => TryBridgeSorted(b, anchor, StableSort(b.pending, ByReceive))
  }

  /** What a snapshot does before the bridge is tried. */
  function Anchoring(b: BookValue, s: DepthSnapshot): BookValue {
    b.(
      bids := BookSide(s.bids),
      asks := BookSide(s.asks),
      previous := Some(s.lastUpdateId),
      anchor := Some(Anchor(s.lastUpdateId, s.receivedNs)))
  }

  /** What a new diff does to an unbridged book before the bridge is tried. */
  function Buffering(b: BookValue, d: DepthDiff): BookValue {
    b.(seen := b.seen + {IdentityOf(d)}, pending := b.pending + [d])
  }

  function OnDiff(b: BookValue, d: DepthDiff): (BookValue, Option<StateChange>)
    requires b.WellFormed()
  {
    if IdentityOf(d) in b.seen then
      (b, None)
    else
      if !b.state.Valid? then
        var buffered := Buffering(b, d);
        if b.anchor.Some? && !d.span.Covers(b.anchor.value.lastUpdateId) then (buffered, None) else TryBridge(buffered)
      else
        var noted := b.(seen := b.seen + {IdentityOf(d)});
        if !SequenceContinues(b.previous.value, d.span.previous) then
          Gap(noted, d, PuDiscontinuity)
        else
          (Apply(noted, d), None)
  }

  function OnSnapshot(b: BookValue, s: DepthSnapshot): (BookValue, Option<StateChange>) {
    TryBridge(Anchoring(b, s))
  }

  datatype BookEvent = Diff(diff: DepthDiff) | Snapshot(snapshot: DepthSnapshot)

  function Step(b: BookValue, e: BookEvent): (BookValue, Option<StateChange>)
    requires b.WellFormed()
  {
    match e
    case Diff(d) => OnDiff(b, d)
    case Snapshot(s) => OnSnapshot(b, s)
  }

  lemma ApplyAllFrame(b: BookValue, diffs: seq<DepthDiff>)
    ensures var r := ApplyAll(b, diffs);
            && r.(bids := b.bids, asks := b.asks, previous := b.previous) == b
            && (diffs != [] ==> r.previous == Some(diffs[|diffs| - 1].span.final))
            && (diffs == [] ==> r == b)
  {
  }

  /** A discontinuity leaves no VALID book, and a VALID book always has an empty buffer. */
  lemma {:induction false} StepKeepsWellFormed(b: BookValue, e: BookEvent)
    requires b.WellFormed()
    ensures Step(b, e).0.WellFormed()
    ensures Step(b, e).0.connectionId == b.connectionId
  {
    hide TryBridge;
    match e
    case Diff(d) =>
      if IdentityOf(d) !in b.seen && !b.state.Valid? {
        TryBridgeWellFormed(Buffering(b, d));
      }
    case Snapshot(s) =>
      TryBridgeWellFormed(Anchoring(b, s));
  }

  lemma {:induction false} ReplayWellFormed(b: BookValue, anchor: Anchor, chain: seq<DepthDiff>)
    requires chain != []
    ensures ReplayBridge(b, anchor, chain).0.WellFormed()
    ensures ReplayBridge(b, anchor, chain).0.connectionId == b.connectionId
  {
    ApplyAllFrame(b, chain);
  }

  lemma {:induction false} TryBridgeWellFormed(b: BookValue)
    requires b.WellFormed()
    ensures TryBridge(b).0.WellFormed()
    ensures TryBridge(b).0.connectionId == b.connectionId
  {
    hide StableSort, ReplayBridge;
    if b.anchor.Some? {
      var sorted := StableSort(b.pending, ByReceive);
      Sorting.SameElements(sorted, b.pending);
      var kept := sorted[DiscardCount(b.anchor.value.lastUpdateId, Spans(sorted))..];
      if kept != [] {
        ReplayWellFormed(b, b.anchor.value, kept);
      }
    }
  }

  /** Searching from a VALID book finds an empty buffer and changes nothing. */
  lemma {:induction false} ValidSearchKeeps(b: BookValue)
    requires b.state.Valid? && b.WellFormed() && b.anchor.Some?
    ensures TryBridge(b) == (b, None)
  {
    assert StableSort(b.pending, ByReceive) == [];
  }

  /** The changes of a run, in order, with the final book. */
  function Run(b: BookValue, events: seq<BookEvent>): (BookValue, seq<StateChange>)
    requires b.WellFormed()
    decreases events
  {
    if events == [] then
      (b, [])
    else
      StepKeepsWellFormed(b, events[0]);
      var (b1, change) := Step(b, events[0]);
      var (b2, changes) := Run(b1, events[1..]);
      (b2, (if change.Some? then [change.value] else []) + changes)
  }
}
