/** The central ingest (pipeline/pull.py): verify, promote, keep the manifest, acknowledge; publish a day once complete. */
module Ingest {
  import opened Wrappers
  import opened Spool
  import opened TwoSites

  datatype IngestError = ChunkMissing | ChunkMismatch | ManifestConflict | DayConflict | DayHashMismatch

  /** What stops a chunk: bad content where it already is or where it is staged, or another manifest in its place. */
  function IngestFault(raw: map<Path, Content>, rawManifests: map<Path, Manifest>, staged: map<Path, Content>, m: Manifest): Option<IngestError> {
    if m.path in raw && !Good(m, raw[m.path]) then Some(ChunkMismatch)
    else if m.path !in raw && m.path !in staged then Some(ChunkMissing)
    else if m.path !in raw && !Good(m, staged[m.path]) then Some(ChunkMismatch)
    else if m.path in rawManifests && rawManifests[m.path] != m then Some(ManifestConflict)
    else None
  }

  /** The files of the central store and of its staging area. */
  datatype Central = Central(staged: map<Path, Content>, acks: map<ChunkId, Ack>, raw: map<Path, Content>, rawManifests: map<Path, Manifest>)

  /** The files once a chunk is ingested; a manifest conflict is found only after new content is in place. */
  function Ingested(c: Central, m: Manifest, sameDevice: bool): Central {
    var fault := IngestFault(c.raw, c.rawManifests, c.staged, m);
    var placed := m.path !in c.raw && (fault.None? || fault == Some(ManifestConflict)) && m.path in c.staged;
    Central(
      if placed && sameDevice then c.staged - {m.path} else c.staged,
      if fault.None? then c.acks[m.chunkId := Ack(m.chunkId, m.sha)] else c.acks,
      if placed then c.raw[m.path := c.staged[m.path]] else c.raw,
      if fault.None? then c.rawManifests[m.path := m] else c.rawManifests)
  }

  datatype DayVerdict = Incomplete | WrongHash | Complete

  /** The first chunk that is absent or of the wrong size leaves the day for later; a wrong hash before that is an error. */
  function JudgeDay(raw: map<Path, Content>, chunks: seq<ChunkRef>): DayVerdict {
    if chunks == [] then Complete
    else if chunks[0].path !in raw || |raw[chunks[0].path]| != chunks[0].size then Incomplete
    else if Digest(raw[chunks[0].path]) != chunks[0].sha then WrongHash
    else JudgeDay(raw, chunks[1..])
  }

  lemma {:induction false} CompleteMeansAllHeld(raw: map<Path, Content>, chunks: seq<ChunkRef>)
    ensures JudgeDay(raw, chunks).Complete? <==> forall i :: 0 <= i < |chunks| ==> RefHeld(raw, chunks[i])
  {
    if chunks != [] {
      CompleteMeansAllHeld(raw, chunks[1..]);
      if JudgeDay(raw, chunks).Complete? {
        forall i | 0 <= i < |chunks|
          ensures RefHeld(raw, chunks[i])
        {
          if i > 0 {
            assert chunks[i] == chunks[1..][i - 1];
          }
        }
      }
      if forall i :: 0 <= i < |chunks| ==> RefHeld(raw, chunks[i]) {
        assert RefHeld(raw, chunks[0]);
        forall i | 0 <= i < |chunks[1..]|
          ensures RefHeld(raw, chunks[1..][i])
        {
          assert chunks[1..][i] == chunks[i + 1];
        }
      }
    }
  }

  /** The first chunk that is not held decides the verdict: a wrong hash only if it is there in its size. */
  lemma {:induction false} FirstUnheldDecides(raw: map<Path, Content>, chunks: seq<ChunkRef>, k: nat)
    requires k < |chunks| && !RefHeld(raw, chunks[k]) && forall i :: 0 <= i < k ==> RefHeld(raw, chunks[i])
    ensures JudgeDay(raw, chunks) == if chunks[k].path in raw && |raw[chunks[k].path]| == chunks[k].size then WrongHash else Incomplete
  {
    if k > 0 {
      assert forall i :: 0 <= i < k - 1 ==> chunks[1..][i] == chunks[i + 1];
      assert RefHeld(raw, chunks[0]);
      FirstUnheldDecides(raw, chunks[1..], k - 1);
    }
  }

  /** The chunk's bytes are in place, or staged with their place free. */
  predicate Obtainable(raw: map<Path, Content>, staged: map<Path, Content>, m: Manifest) {
    if m.path in raw then Good(m, raw[m.path]) else Held(staged, m)
  }

  lemma FaultIsExact(raw: map<Path, Content>, rawManifests: map<Path, Manifest>, staged: map<Path, Content>, m: Manifest)
    ensures var fault, conflict := IngestFault(raw, rawManifests, staged, m), m.path in rawManifests && rawManifests[m.path] != m;
            && (fault.None? <==> Obtainable(raw, staged, m) && !conflict)
            && (fault == Some(ManifestConflict) <==> Obtainable(raw, staged, m) && conflict)
            && (fault == Some(ChunkMissing) <==> m.path !in raw.Keys + staged.Keys)
            && (fault == Some(ChunkMismatch) <==> !Obtainable(raw, staged, m) && m.path in raw.Keys + staged.Keys)
  {
    hide Good;
  }

  class CentralStore {
    var staged: map<Path, Content>
    var acks: map<ChunkId, Ack>
    var raw: map<Path, Content>
    var rawManifests: map<Path, Manifest>
    var days: map<int, seq<ChunkRef>>

    ghost function Value(): Central
      reads this
    {
      Central(staged, acks, raw, rawManifests)
    }

    constructor ()
      ensures staged == map[] && acks == map[] && raw == map[] && rawManifests == map[] && days == map[]
    {
      staged, acks, raw, rawManifests, days := map[], map[], map[], map[], map[];
    }

    /** Puts a staged file in place, by rename on the same device or else by a verified copy. */
    method Place(m: Manifest, sameDevice: bool) returns (error: Option<IngestError>)
      requires m.path !in raw
      modifies this`staged, this`raw
      ensures error == if m.path !in old(staged) then Some(ChunkMissing) else if !Good(m, old(staged)[m.path]) then Some(ChunkMismatch) else None
      ensures raw == if error.None? then old(raw)[m.path := old(staged)[m.path]] else old(raw)
      ensures staged == if error.None? && sameDevice then old(staged) - {m.path} else old(staged)
    {
      if m.path !in staged {
        return Some(ChunkMissing);
      }
      var content := staged[m.path];
      if |content| != m.size || Digest(content) != m.sha {
        return Some(ChunkMismatch);
      }
      raw := raw[m.path := content];
      if sameDevice {
        staged := staged - {m.path};
      }
      error := None;
    }

    /**
     * One chunk: it is acknowledged exactly when no fault stops it, and then its verified content and its own manifest
     * are in place. A manifest conflict is found only after new content is placed. Nothing in the store is replaced.
     */
    method IngestChunk(m: Manifest, sameDevice: bool) returns (error: Option<IngestError>)
      modifies this`staged, this`acks, this`raw, this`rawManifests
      ensures error == IngestFault(old(raw), old(rawManifests), old(staged), m)
      ensures Value() == Ingested(old(Value()), m, sameDevice)
      ensures error.None? ==> Held(raw, m) && m.path in rawManifests && rawManifests[m.path] == m
    {
      if m.path in raw {
        if |raw[m.path]| != m.size || Digest(raw[m.path]) != m.sha {
          return Some(ChunkMismatch);
        }
      } else {
        error := Place(m, sameDevice);
        if error.Some? {
          return;
        }
      }
      if m.path in rawManifests && rawManifests[m.path] != m {
        return Some(ManifestConflict);
      }
      if m.path !in rawManifests {
        rawManifests := rawManifests[m.path := m];
      }
      acks := acks[m.chunkId := Ack(m.chunkId, m.sha)];
      error := None;
    }

    /** A day manifest is kept once, and only when every chunk it lists is present with its size and hash. */
    method PublishCompleteDay(day: int, chunks: seq<ChunkRef>) returns (published: nat, error: Option<IngestError>)
      modifies this`days
      ensures error == if day in old(days) then (if old(days)[day] != chunks then Some(DayConflict) else None)
                       else if JudgeDay(raw, chunks).WrongHash? then Some(DayHashMismatch) else None
      ensures published == if day !in old(days) && forall i :: 0 <= i < |chunks| ==> RefHeld(raw, chunks[i]) then 1 else 0
      ensures days == if published == 1 then old(days)[day := chunks] else old(days)
    {
      CompleteMeansAllHeld(raw, chunks);
      if day in days {
        return 0, if days[day] != chunks then Some(DayConflict) else None;
      }
      var i := 0;
      while i < |chunks|
        invariant 0 <= i <= |chunks|
        invariant JudgeDay(raw, chunks) == JudgeDay(raw, chunks[i..])
      {
        var chunk := chunks[i];
        assert chunks[i..][0] == chunk && chunks[i..][1..] == chunks[i + 1..];
        if chunk.path !in raw || |raw[chunk.path]| != chunk.size {
          return 0, None;
        }
        if Digest(raw[chunk.path]) != chunk.sha {
          return 0, Some(DayHashMismatch);
        }
        i := i + 1;
      }
      days := days[day := chunks];
      return 1, None;
    }
  }

  // ---- Ingesting is made of the protocol's steps -----------------------------------------------------

  function CentralOf(w: World): Central {
    Central(w.staged, w.stagedAcks, w.raw, w.rawManifests)
  }

  function WithCentral(w: World, c: Central): World {
    w.(staged := c.staged, stagedAcks := c.acks, raw := c.raw, rawManifests := c.rawManifests)
  }

  /** The world after these steps in turn, if each can be taken. */
  function PullAll(w: World, ops: seq<CentralStep>): Option<World>
    decreases ops
  {
    if ops == [] then Some(w)
    else if CanPull(w, ops[0]) then PullAll(Pull(w, ops[0]), ops[1..])
    else None
  }

  lemma PullOne(w: World, op: CentralStep, rest: seq<CentralStep>)
    requires CanPull(w, op)
    ensures PullAll(w, [op] + rest) == PullAll(Pull(w, op), rest)
  {
    assert ([op] + rest)[1..] == rest;
  }

  /** The world once the manifest and the ACK follow content that is in its place, unless another manifest is there. */
  function Filed(w: World, p: Path): World
    requires p in w.stagedManifests
  {
    var m := w.stagedManifests[p];
    if p in w.rawManifests && w.rawManifests[p] != m then w
    else w.(rawManifests := w.rawManifests[p := m], stagedAcks := w.stagedAcks[m.chunkId := Ack(m.chunkId, m.sha)])
  }

  lemma {:induction false} FilingIsProtocol(w: World, p: Path) returns (ops: seq<CentralStep>)
    requires p in w.stagedManifests && Held(w.raw, w.stagedManifests[p]) && w.stagedManifests[p].path == p
    ensures PullAll(w, ops) == Some(Filed(w, p))
  {
    hide Held, Good;
    ops := [];
    if p !in w.rawManifests || w.rawManifests[p] == w.stagedManifests[p] {
      PullOne(w, KeepManifest(p), [SendAck(p)]);
      PullOne(Pull(w, KeepManifest(p)), SendAck(p), []);
      assert [SendAck(p)] + [] == [SendAck(p)];
      ops := [KeepManifest(p)] + [SendAck(p)];
    }
  }

  /** The world once staged content is promoted, or copied. */
  function PlacedWorld(w: World, p: Path, sameDevice: bool): World
    requires p in w.staged
  {
    w.(raw := w.raw[p := w.staged[p]], staged := if sameDevice then w.staged - {p} else w.staged)
  }

  lemma {:induction false} PlacingIsProtocol(w: World, p: Path, sameDevice: bool, rest: seq<CentralStep>) returns (ops: seq<CentralStep>)
    requires CanPull(w, Promote(p))
    ensures PullAll(w, ops) == PullAll(PlacedWorld(w, p, sameDevice), rest)
  {
    var w1, fetch := Pull(w, Promote(p)), FetchData(p, w.staged[p]);
    if sameDevice {
      PullOne(w, Promote(p), rest);
      ops := [Promote(p)] + rest;
    } else {
      PullOne(w1, fetch, rest);
      assert (w.staged - {p})[p := w.staged[p]] == w.staged;
      assert Pull(w1, fetch) == PlacedWorld(w, p, sameDevice);
      PullOne(w, Promote(p), [fetch] + rest);
      ops := [Promote(p)] + ([fetch] + rest);
    }
  }

  /** What ingesting does, in terms of placing and filing. */
  lemma {:induction false} IngestedInParts(w: World, p: Path, sameDevice: bool)
    requires p in w.stagedManifests && w.stagedManifests[p].path == p
    ensures var m := w.stagedManifests[p];
            WithCentral(w, Ingested(CentralOf(w), m, sameDevice))
            == if p in w.raw then (if Good(m, w.raw[p]) then Filed(w, p) else w)
               else if p in w.staged && Good(m, w.staged[p]) then Filed(PlacedWorld(w, p, sameDevice), p) else w
  {
    hide Good;
  }

  /** Whatever ingesting a chunk does, with any fault, is a sequence of the protocol's steps; a copied file stays staged. */
  lemma {:induction false} IngestIsProtocol(w: World, p: Path, sameDevice: bool) returns (ops: seq<CentralStep>)
    requires p in w.stagedManifests && w.stagedManifests[p].path == p
    ensures PullAll(w, ops) == Some(WithCentral(w, Ingested(CentralOf(w), w.stagedManifests[p], sameDevice)))
  {
    var m := w.stagedManifests[p];
    IngestedInParts(w, p, sameDevice);
    hide Ingested, Good, WithCentral, Filed;
    ops := [];
    if p in w.raw {
      if Good(m, w.raw[p]) {
        ops := FilingIsProtocol(w, p);
      }
    } else if p in w.staged && Good(m, w.staged[p]) {
      hide PullAll;
      var rest := FilingIsProtocol(PlacedWorld(w, p, sameDevice), p);
      ops := PlacingIsProtocol(w, p, sameDevice, rest);
    }
  }

  /** Ingesting keeps the world safe. */
  lemma {:induction false} IngestIsSafe(w: World, p: Path, sameDevice: bool)
    requires Safe(w) && p in w.stagedManifests
    ensures Safe(WithCentral(w, Ingested(CentralOf(w), w.stagedManifests[p], sameDevice)))
  {
    StagedIsPlaced(w, p);
    hide Safe, PullAll, Ingested;
    var ops := IngestIsProtocol(w, p, sameDevice);
    PullsAreSafe(w, ops);
  }

  lemma StagedIsPlaced(w: World, p: Path)
    requires Safe(w) && p in w.stagedManifests
    ensures w.stagedManifests[p].path == p
  {
    hide Unique, ReadyKnown, AckedKnown, ScanKnown, StagedAcksBacked, AcksBacked, TransactionsBacked, NothingLost, Located, JournalKnown,
         SealingSound, SealsSound, DaysSound;
  }

  lemma {:induction false} PullsAreSafe(w: World, ops: seq<CentralStep>)
    requires Safe(w) && PullAll(w, ops).Some?
    ensures Safe(PullAll(w, ops).value)
    decreases ops
  {
    hide Safe, CanPull, Pull;
    if ops != [] {
      PullIsSafe(w, ops[0]);
      PullsAreSafe(Pull(w, ops[0]), ops[1..]);
    }
  }

  /** Over a listing of a seal, a day is published exactly when the protocol's step can be taken. */
  lemma {:induction false} PublishIsProtocol(w: World, day: int, chunks: seq<ChunkRef>)
    requires day in w.seals && day !in w.days
    requires forall ref :: ref in chunks <==> ref in w.seals[day].Values
    ensures CanPull(w, PublishDay(day)) <==> JudgeDay(w.raw, chunks).Complete?
  {
    CompleteMeansAllHeld(w.raw, chunks);
    hide RefHeld, JudgeDay;
    if forall i :: 0 <= i < |chunks| ==> RefHeld(w.raw, chunks[i]) {
      forall k | k in w.seals[day]
        ensures RefHeld(w.raw, w.seals[day][k])
      {
        assert w.seals[day][k] in w.seals[day].Values;
        var i :| 0 <= i < |chunks| && chunks[i] == w.seals[day][k];
      }
    }
    if forall k :: k in w.seals[day] ==> RefHeld(w.raw, w.seals[day][k]) {
      forall i | 0 <= i < |chunks|
        ensures RefHeld(w.raw, chunks[i])
      {
        assert chunks[i] in w.seals[day].Values;
      }
    }
  }

  // ---- A chunk written again ---------------------------------------------------------------------------

  lemma {:induction false} ManifestIsKept(ops: seq<Op>, more: seq<Op>, p: Path)
    requires After(ops).Some? && After(ops + more).Some? && p in After(ops).value.rawManifests
    ensures p in After(ops + more).value.rawManifests && After(ops + more).value.rawManifests[p] == After(ops).value.rawManifests[p]
  {
    hide Safe, Can, Next;
    if more == [] {
      assert ops + more == ops;
    } else {
      var front, op := more[..|more| - 1], more[|more| - 1];
      assert (ops + more)[..|ops + more| - 1] == ops + front;
      ManifestIsKept(ops, front, p);
      EveryRunIsSafe(ops + front);
      SealsAndStoreAreFinal(After(ops + front).value, op);
    }
  }

  /**
   * Once the central store keeps a manifest, the same chunk under another manifest, as a repeated gap roll writes it, is
   * refused in every continuation.
   */
  lemma {:induction false} RewrittenChunkIsRefused(ops: seq<Op>, more: seq<Op>, n: Manifest)
    requires After(ops).Some? && After(ops + more).Some?
    requires n.path in After(ops).value.rawManifests && After(ops).value.rawManifests[n.path] != n
    ensures var w := After(ops + more).value; IngestFault(w.raw, w.rawManifests, w.staged, n).Some?
  {
    ManifestIsKept(ops, more, n.path);
    hide After, Good;
  }
}
