/** What an ACK is taken for in the protocol's runs (collector/spool.py): never for garbled, and never for a wrong hash. */
module AckVerdicts {
  import opened Wrappers
  import opened Spool
  import opened TwoSites
  import opened Rewrites

  /** A ready manifest names the chunk. */
  predicate ReadyFor(e: Edge, id: ChunkId) {
    exists p :: p in e.ready && e.ready[p].Readable? && e.ready[p].manifest.chunkId == id
  }

  /** A retired manifest names the chunk. */
  predicate RetiredFor(e: Edge, id: ChunkId) {
    exists k :: k in e.acked && e.acked[k].Readable? && e.acked[k].manifest.chunkId == id
  }

  lemma RetiredIsPublished(w: World, k: (int, Path))
    requires Safe(w) && k in w.edge.acked
    ensures w.edge.acked[k].Readable? && w.edge.acked[k].manifest in w.published
    ensures k == (w.edge.acked[k].manifest.day, w.edge.acked[k].manifest.path)
  {
    hide Unique, ReadyKnown, ScanKnown, StagedKnown, StagedAcksBacked, AcksBacked, TransactionsBacked, KeptBacked, NothingLost, Located,
         JournalKnown, SealingSound, SealsSound, DaysSound;
  }

  lemma AckIsBacked(w: World, id: ChunkId) returns (m: Manifest)
    requires Safe(w) && id in w.edge.acks
    ensures m in w.published && m.chunkId == id && w.edge.acks[id] == Acknowledged(Ack(id, m.sha))
  {
    hide Unique, ReadyKnown, AckedKnown, ScanKnown, StagedKnown, StagedAcksBacked, TransactionsBacked, KeptBacked, NothingLost, Located,
         JournalKnown, SealingSound, SealsSound, DaysSound;
    assert AcksBacked(w.edge.acks, w.published, w.raw);
    m :| m in w.published && m.chunkId == w.edge.acks[id].ack.chunkId && m.sha == w.edge.acks[id].ack.sha && Held(w.raw, m);
  }

  lemma IsLocated(w: World, m: Manifest)
    requires Safe(w) && m in w.published
    ensures m.path in w.edge.ready || (m.day, m.path) in w.edge.acked || m.day in w.edge.sealedDays
  {
    hide Unique, ReadyKnown, AckedKnown, ScanKnown, StagedKnown, StagedAcksBacked, AcksBacked, TransactionsBacked, KeptBacked, NothingLost,
         JournalKnown, SealingSound, SealsSound, DaysSound;
  }

  /** In a safe world a chunk is scanned if a ready manifest names it. */
  lemma {:induction false} ReadyIsScanned(w: World, id: ChunkId)
    requires Safe(w)
    ensures id in Scan(w.edge.ready) <==> ReadyFor(w.edge, id)
    ensures id in Scan(w.edge.ready) ==> Scan(w.edge.ready)[id] in w.published
  {
    if id in Scan(w.edge.ready) {
      ScanFacts(w.edge.ready, id);
      ReadyIsPublished(w, Scan(w.edge.ready)[id].path);
    }
    if ReadyFor(w.edge, id) {
      var p :| p in w.edge.ready && w.edge.ready[p].Readable? && w.edge.ready[p].manifest.chunkId == id;
      ReadyIsPublished(w, p);
      forall q | q in w.edge.ready && Placed(w.edge.ready, q) && w.edge.ready[q].manifest.chunkId == id
        ensures q == p
      {
        ReadyIsPublished(w, q);
        PublishedOnce(w, w.edge.ready[p].manifest, w.edge.ready[q].manifest);
      }
      hide Safe;
      assert Placed(w.edge.ready, p) && Alone(w.edge.ready, p);
    }
  }

  /** And its retired manifest is known if there is one. */
  lemma {:induction false} RetiredIsKnown(w: World, id: ChunkId)
    requires Safe(w)
    ensures KnownAcked(w.edge.acked, id).Some? <==> RetiredFor(w.edge, id)
    ensures KnownAcked(w.edge.acked, id).Some? ==> KnownAcked(w.edge.acked, id).value in w.published && KnownAcked(w.edge.acked, id).value.chunkId == id
  {
    var copies := AckedCopies(w.edge.acked, id);
    if RetiredFor(w.edge, id) {
      var k :| k in w.edge.acked && w.edge.acked[k].Readable? && w.edge.acked[k].manifest.chunkId == id;
      RetiredIsPublished(w, k);
      var m := w.edge.acked[k].manifest;
      forall n | n in copies
        ensures n == m
      {
        var j :| j in w.edge.acked && w.edge.acked[j].Readable? && w.edge.acked[j].manifest == n && n.chunkId == id;
        RetiredIsPublished(w, j);
        PublishedOnce(w, m, n);
      }
      hide Safe;
      assert m in copies;
      assert copies == {m};
    }
    if KnownAcked(w.edge.acked, id).Some? {
      var m := KnownAcked(w.edge.acked, id).value;
      assert m in copies;
      var k :| k in w.edge.acked && w.edge.acked[k].Readable? && w.edge.acked[k].manifest == m && m.chunkId == id;
      RetiredIsPublished(w, k);
    }
  }

  lemma JudgeCases(e: Edge, id: ChunkId, sha: Digest)
    requires id in e.acks && e.acks[id] == Acknowledged(Ack(id, sha))
    requires id in Scan(e.ready) ==> Scan(e.ready)[id].sha == sha
    requires KnownAcked(e.acked, id).Some? ==> KnownAcked(e.acked, id).value.sha == sha
    ensures var verdict := JudgeAck(e, id);
            if id in Scan(e.ready) then verdict.Accepted? || (verdict.TransactionConflict? && id in e.applying)
            else if KnownAcked(e.acked, id).Some? then verdict.Replayed? else verdict.Unknown?
  {
    hide Scan, KnownAcked;
  }

  /** A ready manifest in its place, the only one there of its chunk, whose hash the ACK names. */
  ghost predicate Confirms(e: Edge, id: ChunkId, p: Path)
    requires id in e.acks
  {
    Placed(e.ready, p) && Alone(e.ready, p) && e.ready[p].manifest.chunkId == id && e.acks[id] == Acknowledged(Ack(id, e.ready[p].manifest.sha))
  }

  predicate NamesScanned(e: Edge, id: ChunkId)
    requires id in e.acks
  {
    id in Scan(e.ready) && e.acks[id] == Acknowledged(Ack(id, Scan(e.ready)[id].sha))
  }

  lemma JudgeTakes(e: Edge, id: ChunkId)
    requires id in e.acks
    ensures JudgeAck(e, id).Invalid? <==> !(e.acks[id].Acknowledged? && e.acks[id].ack.chunkId == id)
    ensures JudgeAck(e, id).Accepted? || JudgeAck(e, id).TransactionConflict? <==> NamesScanned(e, id)
  {
    hide Scan, KnownAcked;
  }

  /** On any spool whatever: an ACK is invalid exactly when it does not name its chunk, and taken exactly when it confirms a ready manifest. */
  lemma {:induction false} TakenExactly(e: Edge, id: ChunkId)
    requires id in e.acks
    ensures JudgeAck(e, id).Invalid? <==> forall sha :: e.acks[id] != Acknowledged(Ack(id, sha))
    ensures JudgeAck(e, id).Accepted? || JudgeAck(e, id).TransactionConflict? <==> exists p :: Confirms(e, id, p)
  {
    JudgeTakes(e, id);
    hide *;
    if e.acks[id].Acknowledged? && e.acks[id].ack.chunkId == id {
      assert e.acks[id] == Acknowledged(Ack(id, e.acks[id].ack.sha));
    }
    if NamesScanned(e, id) {
      ScannedConfirms(e, id);
    }
    if p :| Confirms(e, id, p) {
      ConfirmedIsScanned(e, id, p);
    }
  }

  lemma ScannedConfirms(e: Edge, id: ChunkId)
    requires id in e.acks && NamesScanned(e, id)
    ensures exists p :: Confirms(e, id, p)
  {
    ScanFacts(e.ready, id);
    assert Confirms(e, id, Scan(e.ready)[id].path);
  }

  lemma {:induction false} ConfirmedIsScanned(e: Edge, id: ChunkId, p: Path)
    requires id in e.acks && Confirms(e, id, p)
    ensures NamesScanned(e, id)
  {
    assert p in e.ready;
    assert e.ready[p].manifest.chunkId in Scan(e.ready);
  }

  lemma {:induction false} HashesAgree(w: World, m: Manifest)
    requires Safe(w) && m in w.published
    ensures m.chunkId in Scan(w.edge.ready) ==> Scan(w.edge.ready)[m.chunkId].sha == m.sha
    ensures KnownAcked(w.edge.acked, m.chunkId).Some? ==> KnownAcked(w.edge.acked, m.chunkId).value.sha == m.sha
  {
    var id := m.chunkId;
    ReadyIsScanned(w, id);
    RetiredIsKnown(w, id);
    if id in Scan(w.edge.ready) {
      ScanFacts(w.edge.ready, id);
      PublishedOnce(w, m, Scan(w.edge.ready)[id]);
    }
    hide Scan, KnownAcked, Safe;
    if KnownAcked(w.edge.acked, id).Some? {
      PublishedOnce(w, m, KnownAcked(w.edge.acked, id).value);
    }
  }

  lemma NeitherReadyNorRetired(w: World, m: Manifest)
    requires Safe(w) && m in w.published && !ReadyFor(w.edge, m.chunkId) && !RetiredFor(w.edge, m.chunkId)
    ensures m.path !in w.edge.ready && (m.day, m.path) !in w.edge.acked
  {
    if m.path in w.edge.ready {
      ReadyIsPublished(w, m.path);
      PublishedOnce(w, m, w.edge.ready[m.path].manifest);
    }
    if (m.day, m.path) in w.edge.acked {
      RetiredIsPublished(w, (m.day, m.path));
      PublishedOnce(w, m, w.edge.acked[(m.day, m.path)].manifest);
    }
  }

  /**
   * Main result: in every run of the protocol an ACK is accepted, or met by a transaction already there, exactly while a ready
   * manifest names its chunk; else it is a replay exactly while a retired one does; else it is unknown, and its day is sealed.
   */
  lemma {:induction false} AcksAreNeverRefused(ops: seq<Op>, id: ChunkId)
    requires After(ops).Some? && id in After(ops).value.edge.acks
    ensures var e := After(ops).value.edge;
            var verdict := JudgeAck(e, id);
            && !verdict.Invalid? && !verdict.HashMismatch?
            && (verdict.Accepted? || verdict.TransactionConflict? <==> ReadyFor(e, id))
            && (verdict.TransactionConflict? ==> id in e.applying)
            && (verdict.Replayed? <==> !ReadyFor(e, id) && RetiredFor(e, id))
            && (verdict.Unknown? <==> !ReadyFor(e, id) && !RetiredFor(e, id))
            && (verdict.Unknown? ==> exists m :: m in After(ops).value.published && m.chunkId == id && m.day in e.sealedDays)
  {
    EveryRunIsSafe(ops);
    var w := After(ops).value;
    hide *;
    var m := AckIsBacked(w, id);
    HashesAgree(w, m);
    ReadyIsScanned(w, id);
    RetiredIsKnown(w, id);
    JudgeCases(w.edge, id, m.sha);
    if !ReadyFor(w.edge, id) && !RetiredFor(w.edge, id) {
      IsLocated(w, m);
      NeitherReadyNorRetired(w, m);
    }
  }
}
