/** What a day's seal lists, and what it can miss (collector/day_index.py, pipeline/pull.py). */
module SealRuns {
  import opened Wrappers
  import opened Spool
  import opened DayIndex
  import opened TwoSites

  // ---- What a seal lists -----------------------------------------------------------------------------

  lemma {:induction false} SealIsSound(ops: seq<Op>, day: int)
    requires After(ops).Some? && day in After(ops).value.seals
    ensures var w := After(ops).value; day in w.records && SealSound(w.seals[day], w.records[day], w.published, day)
  {
    EveryRunIsSafe(ops);
    hide After;
  }

  /**
   * A seal lists a chunk if and only if the day had a journal file when the seal began and the chunk was in that journal,
   * in the ready tree at its listing, or in the acked tree at its listing.
   */
  lemma {:induction false} SealListsWhatItCameAcross(ops: seq<Op>, day: int, ref: ChunkRef)
    requires After(ops).Some? && day in After(ops).value.seals
    ensures var w := After(ops).value;
            && day in w.records
            && (Listed(w.seals[day], ref) <==> w.records[day].journaled && ref in w.records[day].seen)
  {
    SealIsSound(ops, day);
    hide After;
  }

  /**
   * Of the day's chunks whose manifest is written when SEALED.json is, a seal lists all if and only if there are none, or
   * it had a journal and came across each; and it comes across each that is written when it lists the ready tree.
   */
  lemma {:induction false} SealIsCompleteExactly(ops: seq<Op>, day: int)
    requires After(ops).Some? && day in After(ops).value.seals
    ensures var w := After(ops).value;
            && day in w.records
            && var r := w.records[day];
            && ((forall ref :: ref in r.written ==> Listed(w.seals[day], ref)) <==> r.written == {} || (r.journaled && r.written <= r.seen))
            && r.early <= r.seen <= r.written
  {
    SealIsSound(ops, day);
    var w := After(ops).value;
    hide After;
    var r := w.records[day];
    if !r.journaled && r.written != {} {
      var ref :| ref in r.written;
      assert !Listed(w.seals[day], ref);
    }
    if r.journaled {
      assert forall ref :: ref in r.written ==> (Listed(w.seals[day], ref) <==> ref in r.seen);
    }
  }

  /** It lists nothing else, and no chunk twice. */
  lemma {:induction false} SealListsEachChunkOnce(ops: seq<Op>, day: int, k: Identity, l: Identity)
    requires After(ops).Some? && day in After(ops).value.seals
    requires k in After(ops).value.seals[day] && l in After(ops).value.seals[day]
    ensures var w := After(ops).value;
            && SomeRef(w.seals[day][k], w.published, day)
            && (w.seals[day][k].chunkId == w.seals[day][l].chunkId ==> k == l)
  {
    SealIsSound(ops, day);
    EveryRunIsSafe(ops);
    var w := After(ops).value;
    hide After;
    var a, b := w.seals[day][k], w.seals[day][l];
    if a.chunkId == b.chunkId {
      OneRef(w.published, day, a, b);
    }
  }

  /**
   * When the central store publishes a day, each chunk that its journaled seal came across is there with its hash and
   * size: in particular each whose manifest was written when the seal listed the ready tree.
   */
  lemma {:induction false} PublishedDayIsComplete(ops: seq<Op>, day: int, ref: ChunkRef)
    requires After(ops).Some? && day in After(ops).value.days
    ensures var w := After(ops).value;
            && day in w.records
            && var r := w.records[day];
            && (r.journaled && (ref in r.seen || ref in r.early) ==> RefHeld(w.raw, ref))
            && (r.journaled && r.written <= r.seen && ref in r.written ==> RefHeld(w.raw, ref))
  {
    EveryRunIsSafe(ops);
    var w := After(ops).value;
    assert day in w.seals;
    SealIsSound(ops, day);
    hide After;
    assert AllHeld(w.raw, w.days[day]);
    if w.records[day].journaled && ref in w.records[day].seen {
      assert Listed(w.seals[day], ref);
    }
  }

  // ---- A day without a journal -----------------------------------------------------------------------

  /** A seal of a day without a journal, at its stages. */
  function Unjournaled(w: World, day: int, readyRead: bool, ackedRead: bool): World {
    var ready := if readyRead then ReadyChunks(w.edge.ready, day) else {};
    var seen := if ackedRead then ready + AckedChunks(w.edge.acked, day) else ready;
    w.(sealing := Some(SealRun(day, map[], false, readyRead, ackedRead, seen, if readyRead then ChunksOf(w.published, day) else {})))
  }

  lemma UnjournaledBegins(w: World, day: int)
    requires day !in w.journal && day !in w.seals && w.sealing.None?
    ensures Can(w, Seals(BeginSeal(day))) && Next(w, Seals(BeginSeal(day))) == Unjournaled(w, day, false, false)
  {
  }

  lemma UnjournaledReads(w: World, day: int, ready: seq<Manifest>, acked: seq<Manifest>)
    requires ReadyLists(w.edge, day, ready) && AckedLists(w.edge, day, acked)
    ensures var w1, w2 := Unjournaled(w, day, false, false), Unjournaled(w, day, true, false);
            && Can(w1, Seals(SealReady(ready))) && Next(w1, Seals(SealReady(ready))) == w2
            && Can(w2, Seals(SealAcked(acked))) && Next(w2, Seals(SealAcked(acked))) == Unjournaled(w, day, true, true)
  {
    hide ReadyLists, AckedLists, IndexAll, ReadyChunks, AckedChunks, ChunksOf;
    assert {} + ReadyChunks(w.edge.ready, day) == ReadyChunks(w.edge.ready, day);
  }

  lemma UnjournaledEnds(w: World, day: int)
    ensures var w3 := Unjournaled(w, day, true, true);
            && Can(w3, Seals(WriteSeal))
            && Next(w3, Seals(WriteSeal)).seals == w.seals[day := map[]]
            && day in Next(w3, Seals(WriteSeal)).records && Next(w3, Seals(WriteSeal)).records[day].written == ChunksOf(w.published, day)
  {
    hide ReadyChunks, AckedChunks, ChunksOf;
  }

  /** Sealing a day that has no journal file writes an empty inventory, whatever manifests it finds. */
  lemma {:induction false} UnjournaledSealIsEmpty(ops: seq<Op>, w: World, day: int, ready: seq<Manifest>, acked: seq<Manifest>)
    returns (more: seq<Op>, end: World)
    requires After(ops) == Some(w) && day !in w.journal && day !in w.seals && w.sealing.None?
    requires ReadyLists(w.edge, day, ready) && AckedLists(w.edge, day, acked)
    ensures After(more) == Some(end) && end.seals == w.seals[day := map[]]
    ensures day in end.records && end.records[day].written == ChunksOf(w.published, day)
  {
    hide After, ReadyLists, AckedLists, Can, Next, Unjournaled, ChunksOf;
    UnjournaledBegins(w, day);
    UnjournaledReads(w, day, ready, acked);
    UnjournaledEnds(w, day);
    RunOneMore(ops, Seals(BeginSeal(day)), w);
    more := ops + [Seals(BeginSeal(day))];
    RunOneMore(more, Seals(SealReady(ready)), Unjournaled(w, day, false, false));
    more := more + [Seals(SealReady(ready))];
    RunOneMore(more, Seals(SealAcked(acked)), Unjournaled(w, day, true, false));
    more := more + [Seals(SealAcked(acked))];
    RunOneMore(more, Seals(WriteSeal), Unjournaled(w, day, true, true));
    more := more + [Seals(WriteSeal)];
    end := Next(Unjournaled(w, day, true, true), Seals(WriteSeal));
  }

  /** The world once the writer has written one chunk of day 0, without and with its journal line. */
  function OneChunk(m: Manifest, content: Content, recorded: bool): World {
    EMPTY.(edge := EMPTY.edge.(data := map[m.path := content], ready := map[m.path := Readable(m)]),
           published := {m}, journal := if recorded then map[m.day := [m.AsRef()]] else map[])
  }

  lemma {:induction false} OneChunkIsReached(m: Manifest, content: Content) returns (ops: seq<Op>)
    requires Good(m, content)
    ensures After(ops) == Some(OneChunk(m, content, false))
    ensures After(ops + [Writes(Record(m))]) == Some(OneChunk(m, content, true))
  {
    var w1 := EMPTY.(edge := EMPTY.edge.(data := map[m.path := content]));
    RunOneMore([], Writes(WriteData(m.path, content)), EMPTY);
    ops := [] + [Writes(WriteData(m.path, content))];
    RunOneMore(ops, Writes(WriteManifest(m)), w1);
    ops := ops + [Writes(WriteManifest(m))];
    assert Next(w1, Writes(WriteManifest(m))) == OneChunk(m, content, false);
    RunOneMore(ops, Writes(Record(m)), OneChunk(m, content, false));
    assert [] + [m.AsRef()] == [m.AsRef()];
  }

  /** A run that loses a chunk so: the writer dies between a day's first manifest and its journal line. */
  lemma {:induction false} ChunkLostFromSeal() returns (ops: seq<Op>, w: World, m: Manifest)
    ensures After(ops) == Some(w) && w.seals == map[0 := map[]]
    ensures 0 in w.records && w.records[0].written == {m.AsRef()}
  {
    m := Manifest(1, "a", Digest([7]), 1, 0, "");
    var before := OneChunkIsReached(m, [7]);
    hide After;
    var w1 := OneChunk(m, [7], false);
    assert m in [m];
    ops, w := UnjournaledSealIsEmpty(before, w1, 0, [m], []);
    assert ChunksOf(w1.published, 0) == {m.AsRef()};
  }

  // ---- A manifest written while the seal runs --------------------------------------------------------

  lemma WritingKeepsSeal(w: World, m: Manifest, content: Content)
    requires Good(m, content) && forall n :: n in w.published ==> n.chunkId != m.chunkId && n.path != m.path
    ensures Can(w, Writes(WriteData(m.path, content)))
    ensures var w1 := Next(w, Writes(WriteData(m.path, content)));
            && Can(w1, Writes(WriteManifest(m)))
            && var w2 := Next(w1, Writes(WriteManifest(m)));
            w2.sealing == w.sealing && w2.edge.acked == w.edge.acked && w2.published == w.published + {m}
  {
  }

  lemma SealEnds(w: World, listing: seq<Manifest>)
    requires w.sealing.Some? && w.sealing.value.readyRead && !w.sealing.value.ackedRead && AckedLists(w.edge, w.sealing.value.day, listing)
    ensures Can(w, Seals(SealAcked(listing)))
    ensures var w1, run := Next(w, Seals(SealAcked(listing))), w.sealing.value;
            && Can(w1, Seals(WriteSeal))
            && var w2 := Next(w1, Seals(WriteSeal));
            && run.day in w2.records && run.day in w2.seals
            && w2.records[run.day] == SealRecord(ChunksOf(w.published, run.day), run.journaled, run.seen + AckedChunks(w.edge.acked, run.day), run.early)
  {
    hide AckedLists, IndexAll, AckedChunks, ChunksOf;
  }

  /** A new chunk whose manifest is written between a seal's listing of the ready tree and SEALED.json is not listed. */
  lemma {:induction false} LateManifestIsNotListed(ops: seq<Op>, w: World, m: Manifest, content: Content, acked: seq<Manifest>)
    returns (more: seq<Op>, end: World)
    requires After(ops) == Some(w) && w.sealing.Some? && w.sealing.value.readyRead && !w.sealing.value.ackedRead
    requires m.day == w.sealing.value.day && AckedLists(w.edge, m.day, acked)
    requires Good(m, content) && forall n :: n in w.published ==> n.chunkId != m.chunkId && n.path != m.path
    ensures After(more) == Some(end) && m.day in end.seals && m.day in end.records
    ensures m.AsRef() in end.records[m.day].written && !Listed(end.seals[m.day], m.AsRef())
    ensures end.records[m.day].journaled == w.sealing.value.journaled
  {
    EveryRunIsSafe(ops);
    LateIsUnseen(w, m);
    WritingKeepsSeal(w, m, content);
    var w1 := Next(w, Writes(WriteData(m.path, content)));
    var w2 := Next(w1, Writes(WriteManifest(m)));
    SealEnds(w2, acked);
    var w3 := Next(w2, Seals(SealAcked(acked)));
    end := Next(w3, Seals(WriteSeal));
    assert m.AsRef() in ChunksOf(w2.published, m.day);
    hide After, Can, Next, Safe, AckedLists, ChunksOf, AckedChunks;
    RunOneMore(ops, Writes(WriteData(m.path, content)), w);
    more := ops + [Writes(WriteData(m.path, content))];
    RunOneMore(more, Writes(WriteManifest(m)), w1);
    more := more + [Writes(WriteManifest(m))];
    RunOneMore(more, Seals(SealAcked(acked)), w2);
    more := more + [Seals(SealAcked(acked))];
    RunOneMore(more, Seals(WriteSeal), w3);
    more := more + [Seals(WriteSeal)];
    SealListsWhatItCameAcross(more, m.day, m.AsRef());
  }

  lemma {:induction false} LateIsUnseen(w: World, m: Manifest)
    requires Safe(w) && w.sealing.Some? && m.day == w.sealing.value.day
    requires forall n :: n in w.published ==> n.chunkId != m.chunkId
    ensures m.AsRef() !in w.sealing.value.seen && m.AsRef() !in AckedChunks(w.edge.acked, m.day)
  {
    hide ReadyKnown, ScanKnown, StagedKnown, StagedAcksBacked, AcksBacked, TransactionsBacked, NothingLost, Located, JournalKnown, SealsSound, DaysSound;
    assert !SomeRef(m.AsRef(), w.published, m.day);
  }

  lemma BegunSealReads(m: Manifest, content: Content)
    ensures var w := OneChunk(m, content, true);
            && Can(w, Seals(BeginSeal(m.day)))
            && var w1 := Next(w, Seals(BeginSeal(m.day)));
            && Can(w1, Seals(SealReady([m])))
            && var w2 := Next(w1, Seals(SealReady([m])));
            && w2.sealing.Some? && w2.sealing.value.readyRead && !w2.sealing.value.ackedRead && w2.sealing.value.journaled
            && w2.sealing.value.day == m.day && w2.published == {m} && w2.edge.acked == map[]
  {
    hide IndexAll, ReadyChunks, ChunksOf, JournalChunks;
    assert m in [m];
  }

  /** Such a run, of a day with a journal: the seal lists the first chunk and misses the second. */
  lemma {:induction false} LateManifestHappens() returns (ops: seq<Op>, w: World, m: Manifest)
    ensures After(ops) == Some(w) && 0 in w.seals && 0 in w.records && w.records[0].journaled
    ensures m.AsRef() in w.records[0].written && !Listed(w.seals[0], m.AsRef())
  {
    var first := Manifest(1, "a", Digest([7]), 1, 0, "");
    m := Manifest(2, "b", Digest([8]), 1, 0, "");
    var before := OneChunkIsReached(first, [7]);
    var w0 := OneChunk(first, [7], true);
    BegunSealReads(first, [7]);
    var w1 := Next(w0, Seals(BeginSeal(0)));
    var w2 := Next(w1, Seals(SealReady([first])));
    hide After, Can, Next, OneChunk;
    before := before + [Writes(Record(first))];
    RunOneMore(before, Seals(BeginSeal(0)), w0);
    before := before + [Seals(BeginSeal(0))];
    RunOneMore(before, Seals(SealReady([first])), w1);
    before := before + [Seals(SealReady([first]))];
    ops, w := LateManifestIsNotListed(before, w2, m, [8], []);
  }

  /** The three reads of a seal are those of the day index, in its order: a retired manifest replaces a ready one, and that a journal line. */
  lemma SealReadsTheIndex(w: World, day: int, ready: seq<Manifest>, acked: seq<Manifest>)
    requires CanSeal(w, BeginSeal(day)) && ReadyLists(w.edge, day, ready) && AckedLists(w.edge, day, acked)
    ensures var begun := Seal(w, BeginSeal(day));
            && CanSeal(begun, SealReady(ready)) && CanSeal(Seal(begun, SealReady(ready)), SealAcked(acked))
            && Seal(Seal(begun, SealReady(ready)), SealAcked(acked)).sealing.value.refs
               == RefsOf(if day in w.journal then Some(w.journal[day]) else None, ready, acked)
  {
    hide ReadyLists, AckedLists, IndexAll;
  }
}
