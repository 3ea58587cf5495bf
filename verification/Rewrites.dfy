/**
 * A chunk whose manifest is written again after the central store keeps the first one, as a repeated gap roll does
 * (collector/gaps.py): when it leaves the edge all the same (collector/spool.py, pipeline/pull.py).
 */
module Rewrites {
  import opened Wrappers
  import opened Spool
  import opened DayIndex
  import opened TwoSites

  /** At the edge the chunk is ready under one manifest, while the central store keeps another. */
  predicate Rewritten(w: World, n: Manifest) {
    && n.path in w.edge.data && n.path in w.edge.ready && w.edge.ready[n.path] == Readable(n)
    && n.path in w.rawManifests && w.rawManifests[n.path] != n
  }

  /** An ACK of the chunk is on the edge, staged, in a transaction, or still to be had from a staged copy of the kept manifest. */
  predicate AckInReach(w: World, n: Manifest)
    requires n.path in w.rawManifests
  {
    || n.chunkId in w.edge.acks || n.chunkId in w.stagedAcks || n.chunkId in w.edge.applying
    || (n.path in w.stagedManifests && w.stagedManifests[n.path] == w.rawManifests[n.path])
  }

  predicate OnEdge(w: World, p: Path) {
    p in w.edge.data && p in w.edge.ready
  }

  predicate OffEdge(w: World, p: Path) {
    p !in w.edge.data && p !in w.edge.ready
  }

  /** No step writes this manifest: a manifest written again has a creation time of its own. */
  predicate Spares(ops: seq<Op>, m: Manifest) {
    forall i :: 0 <= i < |ops| ==> ops[i] != Writes(WriteManifest(m))
  }

  // ---- Out of reach of an ACK --------------------------------------------------------------------------

  /** The chunk is ready under a manifest that is not the kept one, and nothing can acknowledge it. */
  ghost predicate Stuck(w: World, id: ChunkId, p: Path) {
    && OnEdge(w, p) && w.edge.ready[p].Readable? && w.edge.ready[p].manifest.chunkId == id
    && p in w.rawManifests && w.edge.ready[p].manifest != w.rawManifests[p]
    && id !in w.edge.acks && id !in w.stagedAcks && id !in w.edge.applying
    && (p in w.stagedManifests ==> w.stagedManifests[p] != w.rawManifests[p])
  }

  /** What a safe world says of a ready chunk: its manifest is published, and no other chunk shares its id or path. */
  lemma ReadyIsPublished(w: World, p: Path)
    requires Safe(w) && p in w.edge.ready
    ensures w.edge.ready[p].Readable? && w.edge.ready[p].manifest in w.published && w.edge.ready[p].manifest.path == p
  {
    hide Unique, AckedKnown, ScanKnown, StagedKnown, StagedAcksBacked, AcksBacked, TransactionsBacked, KeptBacked, NothingLost, Located,
         JournalKnown, SealingSound, SealsSound, DaysSound;
  }

  lemma PublishedOnce(w: World, m: Manifest, n: Manifest)
    requires Safe(w) && m in w.published && n in w.published && (m.chunkId == n.chunkId || m.path == n.path)
    ensures SameChunk(m, n)
  {
    hide ReadyKnown, AckedKnown, ScanKnown, StagedKnown, StagedAcksBacked, AcksBacked, TransactionsBacked, KeptBacked, NothingLost, Located,
         JournalKnown, SealingSound, SealsSound, DaysSound;
  }

  lemma TransactionIsPublished(w: World, id: ChunkId)
    requires Safe(w) && id in w.edge.applying
    ensures ValidTransaction(w.edge, id) && w.edge.applying[id].manifest in w.published && w.edge.applying[id].manifest.chunkId == id
  {
    hide Unique, ReadyKnown, AckedKnown, ScanKnown, StagedKnown, StagedAcksBacked, AcksBacked, KeptBacked, NothingLost, Located,
         JournalKnown, SealingSound, SealsSound, DaysSound;
  }

  lemma StagedIsPublished(w: World, p: Path)
    requires Safe(w) && p in w.stagedManifests
    ensures w.stagedManifests[p] in w.published && w.stagedManifests[p].path == p
  {
    hide Unique, ReadyKnown, AckedKnown, ScanKnown, StagedAcksBacked, AcksBacked, TransactionsBacked, KeptBacked, NothingLost, Located,
         JournalKnown, SealingSound, SealsSound, DaysSound;
  }

  lemma {:induction false} WritingKeepsStuck(w: World, op: WriterStep, id: ChunkId, p: Path)
    requires Safe(w) && Stuck(w, id, p) && CanWrite(w, op) && op != WriteManifest(w.rawManifests[p])
    ensures Stuck(Write(w, op), id, p)
  {
    ReadyIsPublished(w, p);
    hide Safe, Held, Good;
  }

  lemma {:induction false} ApplyingKeepsStuck(w: World, op: ApplyStep, id: ChunkId, p: Path)
    requires Safe(w) && Stuck(w, id, p) && CanApply(w, op)
    ensures Stuck(Apply(w, op), id, p)
  {
    ReadyIsPublished(w, p);
    if (op.Retire? || op.Collect?) && op.id in w.edge.applying {
      TransactionIsPublished(w, op.id);
      if w.edge.applying[op.id].manifest.path == p {
        PublishedOnce(w, w.edge.applying[op.id].manifest, w.edge.ready[p].manifest);
      }
    }
    hide Safe, Scan;
  }

  lemma {:induction false} SealingKeepsStuck(w: World, op: SealStep, id: ChunkId, p: Path)
    requires Stuck(w, id, p) && CanSeal(w, op)
    ensures Stuck(Seal(w, op), id, p)
  {
    hide Read, IndexAll, ReadyLists, AckedLists, ChunksOf, ReadyChunks, AckedChunks, JournalChunks;
  }

  lemma {:induction false} PullingKeepsStuck(w: World, op: CentralStep, id: ChunkId, p: Path)
    requires Safe(w) && Stuck(w, id, p) && CanPull(w, op)
    ensures Stuck(Pull(w, op), id, p)
  {
    ReadyIsPublished(w, p);
    if op.SendAck? {
      StagedIsPublished(w, op.path);
      if w.stagedManifests[op.path].chunkId == id {
        PublishedOnce(w, w.stagedManifests[op.path], w.edge.ready[p].manifest);
      }
    }
    hide Safe, Held, Good, RefHeld;
  }

  lemma {:induction false} StuckStays(w: World, op: Op, id: ChunkId, p: Path)
    requires Safe(w) && Stuck(w, id, p) && Can(w, op) && op != Writes(WriteManifest(w.rawManifests[p]))
    ensures Stuck(Next(w, op), id, p) && Next(w, op).rawManifests[p] == w.rawManifests[p]
  {
    SealsAndStoreAreFinal(w, op);
    hide Safe, CanWrite, CanApply, CanSeal, CanPull, Write, Apply, Seal, Pull;
    match op
    case Writes(s) => WritingKeepsStuck(w, s, id, p);
    case Applies(s) => ApplyingKeepsStuck(w, s, id, p);
    case Seals(s) => SealingKeepsStuck(w, s, id, p);
    case Pulls(s) => PullingKeepsStuck(w, s, id, p);
  }

  lemma {:induction false} StuckForGood(ops: seq<Op>, more: seq<Op>, id: ChunkId, p: Path)
    requires After(ops).Some? && After(ops + more).Some? && Stuck(After(ops).value, id, p)
    requires Spares(more, After(ops).value.rawManifests[p])
    ensures Stuck(After(ops + more).value, id, p) && After(ops + more).value.rawManifests[p] == After(ops).value.rawManifests[p]
  {
    hide Safe, Can, Next;
    if more == [] {
      assert ops + more == ops;
    } else {
      var front, op := more[..|more| - 1], more[|more| - 1];
      assert (ops + more)[..|ops + more| - 1] == ops + front;
      StuckForGood(ops, front, id, p);
      EveryRunIsSafe(ops + front);
      assert op == more[|more| - 1];
      StuckStays(After(ops + front).value, op, id, p);
    }
  }

  // ---- Within reach of an ACK --------------------------------------------------------------------------

  /** A run goes on from here. */
  ghost predicate At(ops: seq<Op>, w: World) {
    After(ops) == Some(w) && Safe(w)
  }

  lemma {:induction false} GoOn(ops: seq<Op>, w: World, op: Op)
    requires At(ops, w) && Can(w, op)
    ensures At(ops + [op], Next(w, op))
  {
    RunOneMore(ops, op, w);
    hide After, Can, Next, Safe;
    StepIsSafe(w, op);
  }

  /** A continuation, free of a manifest, that takes a chunk off the edge. */
  ghost predicate Takes(ops: seq<Op>, more: seq<Op>, p: Path, kept: Manifest) {
    Spares(more, kept) && After(ops + more).Some? && OffEdge(After(ops + more).value, p)
  }

  lemma {:induction false} TakesFrom(ops: seq<Op>, op: Op, more: seq<Op>, p: Path, kept: Manifest)
    requires Takes(ops + [op], more, p, kept) && op != Writes(WriteManifest(kept))
    ensures Takes(ops, [op] + more, p, kept)
  {
    hide After;
    assert ops + ([op] + more) == (ops + [op]) + more;
    forall i | 0 <= i < |[op] + more|
      ensures ([op] + more)[i] != Writes(WriteManifest(kept))
    {
      if i > 0 {
        assert ([op] + more)[i] == more[i - 1];
      }
    }
  }

  lemma TakesNow(ops: seq<Op>, w: World, p: Path, kept: Manifest)
    requires After(ops) == Some(w) && OffEdge(w, p)
    ensures Takes(ops, [], p, kept)
  {
    hide After;
    assert ops + [] == ops;
  }

  lemma {:induction false} RetiredAndCollected(w: World, n: Manifest)
    requires Safe(w) && Rewritten(w, n) && n.chunkId in w.edge.applying
    ensures var retire := Applies(ApplyStep.Retire(n.chunkId, false));
            && Can(w, retire)
            && var r := Next(w, retire);
            && Can(r, Applies(Collect(n.chunkId))) && OffEdge(Next(r, Applies(Collect(n.chunkId))), n.path)
  {
    ReadyIsPublished(w, n.path);
    TransactionIsPublished(w, n.chunkId);
    PublishedOnce(w, w.edge.applying[n.chunkId].manifest, n);
    hide Safe;
  }

  lemma {:induction false} LeavesByTransaction(ops: seq<Op>, w: World, n: Manifest, kept: Manifest) returns (more: seq<Op>)
    requires At(ops, w) && Rewritten(w, n) && n.chunkId in w.edge.applying
    ensures Takes(ops, more, n.path, kept)
  {
    RetiredAndCollected(w, n);
    hide Can, Next, Safe, After, Rewritten, OffEdge, Takes;
    var retire, collect := Applies(ApplyStep.Retire(n.chunkId, false)), Applies(Collect(n.chunkId));
    GoOn(ops, w, retire);
    GoOn(ops + [retire], Next(w, retire), collect);
    TakesNow(ops + [retire] + [collect], Next(Next(w, retire), collect), n.path, kept);
    TakesFrom(ops + [retire], collect, [], n.path, kept);
    TakesFrom(ops, retire, [collect] + [], n.path, kept);
    more := [retire] + ([collect] + []);
  }

  lemma {:induction false} AcceptedAfterScan(w: World, n: Manifest)
    requires Safe(w) && Rewritten(w, n) && n.chunkId in w.edge.acks && n.chunkId !in w.edge.applying
    ensures var s := Next(w, Applies(ScanTree));
            && Can(s, Applies(Accept(n.chunkId)))
            && var r := Next(s, Applies(Accept(n.chunkId)));
            Rewritten(r, n) && n.chunkId in r.edge.applying
  {
    ReadyIsPublished(w, n.path);
    forall q | q in w.edge.ready && Placed(w.edge.ready, q) && w.edge.ready[q].manifest.chunkId == n.chunkId
      ensures q == n.path
    {
      ReadyIsPublished(w, q);
      PublishedOnce(w, w.edge.ready[q].manifest, n);
    }
    assert Placed(w.edge.ready, n.path) && Alone(w.edge.ready, n.path);
    ScanFacts(w.edge.ready, n.chunkId);
    AckIsItsChunks(w, n);
    hide Safe;
  }

  lemma AckIsItsChunks(w: World, n: Manifest)
    requires Safe(w) && n in w.published && n.chunkId in w.edge.acks
    ensures var ack := w.edge.acks[n.chunkId]; ack.Acknowledged? && ack.ack.chunkId == n.chunkId && ack.ack.sha == n.sha
  {
    var id := n.chunkId;
    assert AcksBacked(w.edge.acks, w.published, w.raw);
    var m :| m in w.published && m.chunkId == w.edge.acks[id].ack.chunkId && m.sha == w.edge.acks[id].ack.sha && Held(w.raw, m);
    PublishedOnce(w, m, n);
  }

  lemma {:induction false} LeavesByAck(ops: seq<Op>, w: World, n: Manifest, kept: Manifest) returns (more: seq<Op>)
    requires At(ops, w) && Rewritten(w, n) && (n.chunkId in w.edge.applying || n.chunkId in w.edge.acks)
    ensures Takes(ops, more, n.path, kept)
  {
    if n.chunkId in w.edge.applying {
      more := LeavesByTransaction(ops, w, n, kept);
    } else {
      AcceptedAfterScan(w, n);
      var scan, accept := Applies(ScanTree), Applies(Accept(n.chunkId));
      assert Can(w, scan);
      hide Can, Next, Safe, After, Rewritten, Takes;
      GoOn(ops, w, scan);
      GoOn(ops + [scan], Next(w, scan), accept);
      var rest := LeavesByTransaction(ops + [scan] + [accept], Next(Next(w, scan), accept), n, kept);
      TakesFrom(ops + [scan], accept, rest, n.path, kept);
      TakesFrom(ops, scan, [accept] + rest, n.path, kept);
      more := [scan] + ([accept] + rest);
    }
  }

  lemma {:induction false} LeavesByStagedAck(ops: seq<Op>, w: World, n: Manifest, kept: Manifest) returns (more: seq<Op>)
    requires At(ops, w) && Rewritten(w, n) && n.chunkId in w.stagedAcks
    ensures Takes(ops, more, n.path, kept)
  {
    var push := Pulls(PushAck(n.chunkId));
    var r := Next(w, push);
    assert Can(w, push) && Rewritten(r, n) && n.chunkId in r.edge.acks;
    hide Can, Next, Safe, After, Rewritten, Takes;
    GoOn(ops, w, push);
    var rest := LeavesByAck(ops + [push], r, n, kept);
    TakesFrom(ops, push, rest, n.path, kept);
    more := [push] + rest;
  }

  lemma AckCanBeSent(w: World, n: Manifest)
    requires Safe(w) && Rewritten(w, n) && n.path in w.stagedManifests && w.stagedManifests[n.path] == w.rawManifests[n.path]
    ensures var send := Pulls(SendAck(n.path)); Can(w, send) && Rewritten(Next(w, send), n) && n.chunkId in Next(w, send).stagedAcks
  {
    ReadyIsPublished(w, n.path);
    assert KeptBacked(w.rawManifests, w.published, w.raw);
    PublishedOnce(w, w.rawManifests[n.path], n);
    hide Safe;
  }

  lemma {:induction false} Leaves(ops: seq<Op>, w: World, n: Manifest, kept: Manifest) returns (more: seq<Op>)
    requires At(ops, w) && Rewritten(w, n) && AckInReach(w, n)
    ensures Takes(ops, more, n.path, kept)
  {
    hide Can, Next, Safe, After, Takes;
    if n.chunkId in w.edge.applying || n.chunkId in w.edge.acks {
      more := LeavesByAck(ops, w, n, kept);
    } else if n.chunkId in w.stagedAcks {
      more := LeavesByStagedAck(ops, w, n, kept);
    } else {
      var send := Pulls(SendAck(n.path));
      AckCanBeSent(w, n);
      GoOn(ops, w, send);
      var rest := LeavesByStagedAck(ops + [send], Next(w, send), n, kept);
      TakesFrom(ops, send, rest, n.path, kept);
      more := [send] + rest;
    }
  }

  // ---- The theorem -------------------------------------------------------------------------------------

  /**
   * Main result: a chunk that is ready under another manifest than the one the central store keeps can leave the edge,
   * without the kept manifest being written again, if and only if an ACK of it is in reach. Otherwise its data and a ready
   * manifest stay in every such continuation.
   */
  lemma {:induction false} RewrittenChunkLeavesExactly(ops: seq<Op>, n: Manifest)
    requires After(ops).Some? && Rewritten(After(ops).value, n)
    ensures var w := After(ops).value;
            var kept := w.rawManifests[n.path];
            && ((exists more :: Takes(ops, more, n.path, kept)) <==> AckInReach(w, n))
            && (!AckInReach(w, n) ==>
                  forall more :: Spares(more, kept) && After(ops + more).Some? ==> OnEdge(After(ops + more).value, n.path))
  {
    var w := After(ops).value;
    var kept := w.rawManifests[n.path];
    EveryRunIsSafe(ops);
    if AckInReach(w, n) {
      var more := Leaves(ops, w, n, kept);
    } else {
      assert Stuck(w, n.chunkId, n.path);
      forall more | Spares(more, kept) && After(ops + more).Some?
        ensures OnEdge(After(ops + more).value, n.path)
      {
        StuckForGood(ops, more, n.chunkId, n.path);
      }
    }
  }

  // ---- Runs that get there -----------------------------------------------------------------------------

  const CONTENT: Content := [7]
  const FIRST := Manifest(1, "a", Digest(CONTENT), 1, 0, "first")
  const AGAIN := Manifest(1, "a", Digest(CONTENT), 1, 0, "again")

  /** One chunk written and transferred, its ACK staged. */
  const TRANSFERRED := EMPTY.(
    edge := EMPTY.edge.(data := map["a" := CONTENT], ready := map["a" := Readable(FIRST)]),
    stagedManifests := map["a" := FIRST], stagedAcks := map[1 := Ack(1, Digest(CONTENT))],
    raw := map["a" := CONTENT], rawManifests := map["a" := FIRST], published := {FIRST})

  lemma OneStep(ops: seq<Op>, w: World, op: Op, r: World)
    requires After(ops) == Some(w) && Can(w, op) && Next(w, op) == r
    ensures After(ops + [op]) == Some(r)
  {
    RunOneMore(ops, op, w);
  }

  lemma {:induction false} WrittenAndFetched() returns (ops: seq<Op>, w: World)
    ensures After(ops) == Some(w)
    ensures w == EMPTY.(edge := TRANSFERRED.edge, stagedManifests := map["a" := FIRST], staged := map["a" := CONTENT], published := {FIRST})
  {
    var w1 := EMPTY.(edge := EMPTY.edge.(data := map["a" := CONTENT]));
    var w2 := EMPTY.(edge := TRANSFERRED.edge, published := {FIRST});
    var w3 := w2.(stagedManifests := map["a" := FIRST]);
    w := w3.(staged := map["a" := CONTENT]);
    assert Can(EMPTY, Writes(WriteData("a", CONTENT))) && Next(EMPTY, Writes(WriteData("a", CONTENT))) == w1;
    assert Can(w1, Writes(WriteManifest(FIRST))) && Next(w1, Writes(WriteManifest(FIRST))) == w2;
    assert Can(w2, Pulls(FetchManifest("a"))) && Next(w2, Pulls(FetchManifest("a"))) == w3;
    assert Can(w3, Pulls(FetchData("a", CONTENT))) && Next(w3, Pulls(FetchData("a", CONTENT))) == w;
    assert After([]) == Some(EMPTY);
    hide After, Can, Next;
    OneStep([], EMPTY, Writes(WriteData("a", CONTENT)), w1);
    ops := [] + [Writes(WriteData("a", CONTENT))];
    OneStep(ops, w1, Writes(WriteManifest(FIRST)), w2);
    ops := ops + [Writes(WriteManifest(FIRST))];
    OneStep(ops, w2, Pulls(FetchManifest("a")), w3);
    ops := ops + [Pulls(FetchManifest("a"))];
    OneStep(ops, w3, Pulls(FetchData("a", CONTENT)), w);
    ops := ops + [Pulls(FetchData("a", CONTENT))];
  }

  lemma {:induction false} TransferHappens() returns (ops: seq<Op>)
    ensures After(ops) == Some(TRANSFERRED)
  {
    var before, w4 := WrittenAndFetched();
    var w5 := w4.(raw := map["a" := CONTENT], staged := map[]);
    var w6 := w5.(rawManifests := map["a" := FIRST]);
    assert Can(w4, Pulls(Promote("a"))) && Next(w4, Pulls(Promote("a"))) == w5;
    assert Can(w5, Pulls(KeepManifest("a"))) && Next(w5, Pulls(KeepManifest("a"))) == w6;
    assert Can(w6, Pulls(SendAck("a"))) && Next(w6, Pulls(SendAck("a"))) == TRANSFERRED;
    hide After, Can, Next;
    OneStep(before, w4, Pulls(Promote("a")), w5);
    OneStep(before + [Pulls(Promote("a"))], w5, Pulls(KeepManifest("a")), w6);
    OneStep(before + [Pulls(Promote("a"))] + [Pulls(KeepManifest("a"))], w6, Pulls(SendAck("a")), TRANSFERRED);
    ops := before + [Pulls(Promote("a"))] + [Pulls(KeepManifest("a"))] + [Pulls(SendAck("a"))];
  }

  /** Written again while its ACK is on its way: that ACK takes the chunk off the edge, refused manifest and all. */
  lemma {:induction false} RewrittenChunkCanLeave() returns (ops: seq<Op>, more: seq<Op>)
    ensures After(ops).Some? && Rewritten(After(ops).value, AGAIN) && AGAIN in After(ops).value.published
    ensures After(ops + more).Some? && OffEdge(After(ops + more).value, "a")
  {
    var before := TransferHappens();
    var w := TRANSFERRED.(edge := TRANSFERRED.edge.(ready := map["a" := Readable(AGAIN)]), published := {FIRST, AGAIN});
    assert Can(TRANSFERRED, Writes(WriteManifest(AGAIN))) && Next(TRANSFERRED, Writes(WriteManifest(AGAIN))) == w;
    OneStep(before, TRANSFERRED, Writes(WriteManifest(AGAIN)), w);
    ops := before + [Writes(WriteManifest(AGAIN))];
    assert Rewritten(w, AGAIN) && AckInReach(w, AGAIN);
    hide After;
    RewrittenChunkLeavesExactly(ops, AGAIN);
    more :| Takes(ops, more, "a", FIRST);
  }

  /** The ACK applied, and the chunk off the edge for the first time. */
  const APPLIED := TRANSFERRED.(
    edge := EMPTY.edge.(acked := map[(0, "a") := Readable(FIRST)]), stagedAcks := map[], scan := map[1 := FIRST])

  lemma FirstIsScanned()
    ensures Scan(TRANSFERRED.edge.ready) == map[1 := FIRST]
  {
    var ready := TRANSFERRED.edge.ready;
    assert Placed(ready, "a") && Alone(ready, "a");
    assert Scan(ready)[1] == FIRST;
  }

  /** The ACK pushed to the edge. */
  const PUSHED := TRANSFERRED.(edge := TRANSFERRED.edge.(acks := map[1 := Acknowledged(Ack(1, Digest(CONTENT)))]), stagedAcks := map[])

  lemma {:induction false} AckIsPushed() returns (ops: seq<Op>)
    ensures After(ops) == Some(PUSHED)
  {
    var before := TransferHappens();
    var w := TRANSFERRED.(edge := PUSHED.edge);
    assert Can(TRANSFERRED, Pulls(PushAck(1))) && Next(TRANSFERRED, Pulls(PushAck(1))) == w;
    assert Can(w, Pulls(ForgetAck(1))) && Next(w, Pulls(ForgetAck(1))) == PUSHED;
    hide After, Can, Next;
    OneStep(before, TRANSFERRED, Pulls(PushAck(1)), w);
    OneStep(before + [Pulls(PushAck(1))], w, Pulls(ForgetAck(1)), PUSHED);
    ops := before + [Pulls(PushAck(1))] + [Pulls(ForgetAck(1))];
  }

  /** And accepted: its transaction is written. */
  const ACCEPTED := PUSHED.(
    edge := PUSHED.edge.(acks := map[], applying := map[1 := Written(Ack(1, Digest(CONTENT)), FIRST)]), scan := map[1 := FIRST])

  lemma {:induction false} AckIsAccepted() returns (ops: seq<Op>)
    ensures After(ops) == Some(ACCEPTED)
  {
    var before := AckIsPushed();
    var w1 := PUSHED.(scan := map[1 := FIRST]);
    var w2 := w1.(edge := w1.edge.(applying := ACCEPTED.edge.applying));
    var accept, discard := Applies(Accept(1)), Applies(Discard(1));
    FirstIsScanned();
    assert Can(PUSHED, Applies(ScanTree)) && Next(PUSHED, Applies(ScanTree)) == w1;
    hide Scan;
    assert Can(w1, accept) && Next(w1, accept) == w2;
    assert Can(w2, discard) && Next(w2, discard) == ACCEPTED;
    hide After, Can, Next;
    OneStep(before, PUSHED, Applies(ScanTree), w1);
    OneStep(before + [Applies(ScanTree)], w1, accept, w2);
    OneStep(before + [Applies(ScanTree)] + [accept], w2, discard, ACCEPTED);
    ops := before + [Applies(ScanTree)] + [accept] + [discard];
  }

  lemma {:induction false} AckIsApplied() returns (ops: seq<Op>)
    ensures After(ops) == Some(APPLIED)
  {
    var before := AckIsAccepted();
    var w5 := ACCEPTED;
    var w6 := w5.(edge := w5.edge.(ready := map[], acked := map[(0, "a") := Readable(FIRST)]));
    var w7 := w6.(edge := w6.edge.(data := map[]));
    var retire, collect, finish := Applies(ApplyStep.Retire(1, false)), Applies(Collect(1)), Applies(ApplyStep.Finish(1));
    assert Can(w5, retire) && Next(w5, retire) == w6;
    assert Can(w6, collect) && Next(w6, collect) == w7;
    assert Can(w7, finish) && Next(w7, finish) == APPLIED;
    hide After, Can, Next;
    OneStep(before, w5, retire, w6);
    OneStep(before + [retire], w6, collect, w7);
    OneStep(before + [retire] + [collect], w7, finish, APPLIED);
    ops := before + [retire] + [collect] + [finish];
  }

  /** Written again only after that, and mirrored: it stays on the edge for good. */
  lemma {:induction false} RewrittenChunkCanStay() returns (ops: seq<Op>)
    ensures After(ops).Some? && Rewritten(After(ops).value, AGAIN) && !AckInReach(After(ops).value, AGAIN)
    ensures forall more :: Spares(more, FIRST) && After(ops + more).Some? ==> OnEdge(After(ops + more).value, "a")
  {
    var before := AckIsApplied();
    var w1 := APPLIED.(edge := APPLIED.edge.(data := map["a" := CONTENT]));
    var w2 := w1.(edge := w1.edge.(ready := map["a" := Readable(AGAIN)]), published := {FIRST, AGAIN});
    var w := w2.(stagedManifests := map["a" := AGAIN]);
    assert Can(APPLIED, Writes(WriteData("a", CONTENT))) && Next(APPLIED, Writes(WriteData("a", CONTENT))) == w1;
    assert Can(w1, Writes(WriteManifest(AGAIN))) && Next(w1, Writes(WriteManifest(AGAIN))) == w2;
    assert Can(w2, Pulls(FetchManifest("a"))) && Next(w2, Pulls(FetchManifest("a"))) == w;
    assert Rewritten(w, AGAIN) && !AckInReach(w, AGAIN);
    hide After, Can, Next;
    OneStep(before, APPLIED, Writes(WriteData("a", CONTENT)), w1);
    ops := before + [Writes(WriteData("a", CONTENT))];
    OneStep(ops, w1, Writes(WriteManifest(AGAIN)), w2);
    ops := ops + [Writes(WriteManifest(AGAIN))];
    OneStep(ops, w2, Pulls(FetchManifest("a")), w);
    ops := ops + [Pulls(FetchManifest("a"))];
    RewrittenChunkLeavesExactly(ops, AGAIN);
  }
}
