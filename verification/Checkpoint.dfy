/** Day-end checkpoints of a connection book and their restoration (pipeline/l2.py). */
module Checkpoint {
  import opened Wrappers
  import opened Sorting
  import opened Book

  function Minimum(keys: set<Price>): (p: Price)
    requires keys != {}
    ensures p in keys && forall q :: q in keys ==> p <= q
  {
    assert exists p :: p in keys && forall q :: q in keys ==> p <= q by {
      var le := (p: Price, q: Price) => p <= q;
      LeastExists(keys, le);
      var p :| p in keys && forall q :: q in keys ==> le(p, q);
      assert forall q :: q in keys ==> (le(p, q) <==> p <= q);
    }
    var p :| p in keys && forall q | q in keys :: p <= q;
    p
  }

  /** A side as price-sorted levels. */
  function CheckpointLevels(side: Side): (levels: seq<Level>)
    decreases |side|
  {
    if side == map[] then
      []
    else
      assert side.Keys != {};
      var p := Minimum(side.Keys);
      var rest := side - {p};
      assert p !in rest.Keys && side.Keys == rest.Keys + {p};
      assert |rest.Keys| < |side.Keys|;
      [Level(p, side[p])] + CheckpointLevels(rest)
  }

  ghost predicate Ascending(levels: seq<Level>) {
    forall i, j :: 0 <= i < j < |levels| ==> levels[i].price < levels[j].price
  }

  /** The levels are exactly the entries of the side. */
  ghost predicate Lists(levels: seq<Level>, side: Side) {
    forall l :: l in levels <==> l.price in side && side[l.price] == l.quantity
  }

  /** The checkpoint lists every level of the side once, in ascending price order. */
  lemma {:induction false} CheckpointLevelsAreSorted(side: Side)
    ensures Ascending(CheckpointLevels(side)) && Lists(CheckpointLevels(side), side)
    decreases |side|
  {
    if side != map[] {
      assert side.Keys != {};
      var p := Minimum(side.Keys);
      var rest := side - {p};
      assert p !in rest.Keys && side.Keys == rest.Keys + {p};
      assert |rest.Keys| < |side.Keys|;
      CheckpointLevelsAreSorted(rest);
      var tail := CheckpointLevels(rest);
      assert CheckpointLevels(side) == [Level(p, side[p])] + tail;
      forall i | 0 <= i < |tail|
        ensures p < tail[i].price
      {
        assert tail[i] in tail;
      }
    }
  }

  /** Reading ascending levels back gives a side that holds exactly those levels. */
  lemma {:induction false} BookSideOfListing(levels: seq<Level>)
    requires Ascending(levels)
    requires forall i :: 0 <= i < |levels| ==> !IsZero(levels[i].quantity)
    ensures Lists(levels, BookSide(levels))
  {
    if levels != [] {
      var last := levels[|levels| - 1];
      var front := levels[..|levels| - 1];
      BookSideOfListing(front);
      assert levels == front + [last];
      forall l | l in front
        ensures l.price != last.price
      {
      }
    }
  }

  /** Round trip: a side without zero quantities survives its checkpoint. */
  lemma SideRoundTrip(side: Side)
    requires NoZeroes(side)
    ensures BookSide(CheckpointLevels(side)) == side
  {
    var levels := CheckpointLevels(side);
    CheckpointLevelsAreSorted(side);
    forall i | 0 <= i < |levels|
      ensures !IsZero(levels[i].quantity)
    {
      assert levels[i] in levels;
    }
    BookSideOfListing(levels);
    var back := BookSide(levels);
    forall p | p in side
      ensures p in back && back[p] == side[p]
    {
      assert Level(p, side[p]) in levels;
    }
    forall p | p in back
      ensures p in side
    {
      assert Level(p, back[p]) in levels;
    }
  }

  /** The authoritative VALID book of a day end. */
  datatype ValidCheckpoint = ValidCheckpoint(connectionId: string, previousUpdateId: int, bids: seq<Level>, asks: seq<Level>)

  /** A book that has a snapshot but no bridge yet. */
  datatype AnchoredCheckpoint = AnchoredCheckpoint(
    connectionId: string,
    state: L2State,
    previousUpdateId: int,
    anchor: Anchor,
    bids: seq<Level>,
    asks: seq<Level>,
    pending: seq<DepthDiff>)

  function ValidCheckpointOf(b: BookValue): ValidCheckpoint
    requires b.previous.Some?
  {
    ValidCheckpoint(b.connectionId, b.previous.value, CheckpointLevels(b.bids), CheckpointLevels(b.asks))
  }

  function RestoreValid(c: ValidCheckpoint): BookValue {
    BookValue(c.connectionId, Valid, BookSide(c.bids), BookSide(c.asks), Some(c.previousUpdateId), [], {}, None)
  }

  /** The buffered diffs that do not end before an update id. */
  function NotBefore(diffs: seq<DepthDiff>, updateId: int): seq<DepthDiff> {
    if diffs == [] then []
    else (if diffs[0].span.final >= updateId then [diffs[0]] else []) + NotBefore(diffs[1..], updateId)
  }

  datatype CheckpointError = NoAnchor | AnchoredBookIsValid | EmptySide | RepeatedConnection | MissingPreviousCheckpoint

  /** The model validator of an anchored checkpoint: the book must be unbridged and have both sides. */
  function AnchoredCheckpointOf(b: BookValue): Result<AnchoredCheckpoint, CheckpointError> {
    if b.previous.None? || b.anchor.None? then Err(NoAnchor)
    else if b.state.Valid? then Err(AnchoredBookIsValid)
    else if b.bids == map[] || b.asks == map[] then Err(EmptySide)
    else Ok(AnchoredCheckpoint(
              b.connectionId,
              b.state,
              b.previous.value,
              b.anchor.value,
              CheckpointLevels(b.bids),
              CheckpointLevels(b.asks),
              NotBefore(b.pending, b.anchor.value.lastUpdateId)))
  }

  function RestoreAnchored(c: AnchoredCheckpoint): BookValue {
    BookValue(c.connectionId, c.state, BookSide(c.bids), BookSide(c.asks), Some(c.previousUpdateId), c.pending, {}, Some(c.anchor))
  }
}
