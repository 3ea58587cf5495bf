/**
 * The edge spool (collector/spool.py): acknowledged chunks leave the ready tree through a transaction file, one atomic
 * file operation at a time, so that a crash anywhere can be repaired by running again.
 */
module Spool {
  import opened Wrappers

  type ChunkId = int
  type Path = string
  type Content = seq<int>

  /** SHA-256 of some content; digests do not collide. */
  datatype Digest = Digest(of: Content)

  datatype ChunkRef = ChunkRef(chunkId: ChunkId, path: Path, sha: Digest, size: nat)

  datatype Manifest = Manifest(chunkId: ChunkId, path: Path, sha: Digest, size: nat, day: int, details: string)
  {
    function AsRef(): ChunkRef {
      ChunkRef(chunkId, path, sha, size)
    }
  }

  datatype ManifestFile = Torn | Readable(manifest: Manifest)

  datatype Ack = Ack(chunkId: ChunkId, sha: Digest)

  datatype AckFile = Garbled | Acknowledged(ack: Ack)

  datatype TransactionFile = Unreadable | Written(ack: Ack, manifest: Manifest)

  /** Files by their paths: a manifest by its data file's path, a retired one by its day as well, an ACK by its name. */
  datatype Edge = Edge(
    data: map<Path, Content>,
    ready: map<Path, ManifestFile>,
    acked: map<(int, Path), ManifestFile>,
    acks: map<ChunkId, AckFile>,
    applying: map<ChunkId, TransactionFile>,
    sealedDays: set<int>)

  // ---- Reading the trees -------------------------------------------------------------------------

  predicate Placed(ready: map<Path, ManifestFile>, p: Path) {
    p in ready && ready[p].Readable? && ready[p].manifest.path == p
  }

  /** No other well placed manifest names the same chunk. */
  predicate Alone(ready: map<Path, ManifestFile>, p: Path)
    requires Placed(ready, p)
  {
    forall q :: q in ready && Placed(ready, q) && ready[q].manifest.chunkId == ready[p].manifest.chunkId ==> q == p
  }

  /** The chunks whose manifest is well placed and unrivalled. */
  function Scan(ready: map<Path, ManifestFile>): map<ChunkId, Manifest> {
    map p | p in ready && Placed(ready, p) && Alone(ready, p) :: ready[p].manifest.chunkId := ready[p].manifest
  }

  /** The walk over the ready tree: a second manifest for a chunk makes the chunk conflicted for good. */
  method ScanReady(ready: map<Path, ManifestFile>) returns (manifests: map<ChunkId, Manifest>)
    ensures manifests == Scan(ready)
  {
    manifests := map[];
    var conflicted: set<ChunkId> := {};
    var todo := ready.Keys;
    while todo != {}
      invariant todo <= ready.Keys
      invariant forall id :: id in manifests ==>
        && id !in conflicted && manifests[id].chunkId == id
        && Placed(ready, manifests[id].path) && manifests[id].path !in todo && ready[manifests[id].path].manifest == manifests[id]
      invariant forall p :: p in ready && p !in todo && Placed(ready, p) ==>
        var id := ready[p].manifest.chunkId; id in conflicted || (id in manifests && manifests[id].path == p)
      invariant forall id :: id in conflicted ==> Rivals(ready, id)
      decreases |todo|
    {
      var p :| p in todo;
      todo := todo - {p};
      if Placed(ready, p) {
        var m := ready[p].manifest;
        if m.chunkId !in conflicted {
          if m.chunkId in manifests && manifests[m.chunkId] != m {
            assert manifests[m.chunkId].path != p;
            manifests := manifests - {m.chunkId};
            conflicted := conflicted + {m.chunkId};
          } else {
            manifests := manifests[m.chunkId := m];
          }
        }
      }
    }
    SameScan(ready, manifests, conflicted);
  }

  ghost predicate Rivals(ready: map<Path, ManifestFile>, id: ChunkId) {
    exists p, q :: p != q && Placed(ready, p) && Placed(ready, q) && ready[p].manifest.chunkId == id == ready[q].manifest.chunkId
  }

  lemma {:induction false} UnrivalledIfAlone(ready: map<Path, ManifestFile>, p: Path)
    requires Placed(ready, p) && Alone(ready, p)
    ensures !Rivals(ready, ready[p].manifest.chunkId)
  {
  }

  lemma {:induction false} SameScan(ready: map<Path, ManifestFile>, manifests: map<ChunkId, Manifest>, conflicted: set<ChunkId>)
    requires forall id :: id in manifests ==>
        && id !in conflicted && manifests[id].chunkId == id && Placed(ready, manifests[id].path) && ready[manifests[id].path].manifest == manifests[id]
    requires forall p :: p in ready && Placed(ready, p) ==>
        var id := ready[p].manifest.chunkId; id in conflicted || (id in manifests && manifests[id].path == p)
    requires forall id :: id in conflicted ==> Rivals(ready, id)
    ensures manifests == Scan(ready)
  {
    var scan := Scan(ready);
    forall id | id in manifests
      ensures id in scan && scan[id] == manifests[id]
    {
      var p := manifests[id].path;
      assert Alone(ready, p);
    }
    forall id | id in scan
      ensures id in manifests
    {
      var p :| p in ready && Placed(ready, p) && Alone(ready, p) && ready[p].manifest.chunkId == id;
      UnrivalledIfAlone(ready, p);
    }
  }

  function AckedCopies(acked: map<(int, Path), ManifestFile>, id: ChunkId): set<Manifest> {
    set k | k in acked && acked[k].Readable? && k == (acked[k].manifest.day, acked[k].manifest.path) && acked[k].manifest.chunkId == id
      :: acked[k].manifest
  }

  /** The retired manifest of a chunk, unless there are several. */
  function KnownAcked(acked: map<(int, Path), ManifestFile>, id: ChunkId): Option<Manifest> {
    var copies := AckedCopies(acked, id);
    if exists m | m in copies :: copies == {m} then
      var m :| m in copies && copies == {m};
      Some(m)
    else None
  }

  // ---- Judging an ACK ----------------------------------------------------------------------------

  datatype Verdict = Accepted | Replayed | Invalid | HashMismatch | Unknown | TransactionConflict

  function JudgeAck(e: Edge, id: ChunkId): Verdict
    requires id in e.acks
  {
    if e.acks[id].Garbled? || e.acks[id].ack.chunkId != id then Invalid
    else
      var sha, scan := e.acks[id].ack.sha, Scan(e.ready);
      if id !in scan then
        var known := KnownAcked(e.acked, id);
        if known.None? then Unknown else if sha != known.value.sha then HashMismatch else Replayed
      else if sha != scan[id].sha then HashMismatch
      else if id in e.applying && e.applying[id] != Written(e.acks[id].ack, scan[id]) then TransactionConflict
      else Accepted
  }

  // ---- Where a run ends --------------------------------------------------------------------------

  /** The manifest whose chunk a run will retire for an id: by its transaction, or by an ACK still to be accepted. */
  function Settled(e: Edge, id: ChunkId): Option<Manifest> {
    if id in e.applying then
      if e.applying[id].Written? && e.applying[id].ack.sha == e.applying[id].manifest.sha then Some(e.applying[id].manifest) else None
    else if id in e.acks && JudgeAck(e, id).Accepted? then Some(Scan(e.ready)[id])
    else None
  }

  function SettledPaths(e: Edge): set<Path> {
    set id | id in e.applying.Keys + e.acks.Keys && Settled(e, id).Some? :: Settled(e, id).value.path
  }

  /** Manifests that a run moves to the acked tree: those of days not sealed. */
  function Moved(e: Edge): set<(int, Path)> {
    set id | id in e.applying.Keys + e.acks.Keys && Settled(e, id).Some? && Settled(e, id).value.path in e.ready
             && Settled(e, id).value.day !in e.sealedDays
      :: (Settled(e, id).value.day, Settled(e, id).value.path)
  }

  /** The acked tree once some ready manifests have moved into it. */
  function AckedAfter(acked: map<(int, Path), ManifestFile>, moved: set<(int, Path)>, ready: map<Path, ManifestFile>): map<(int, Path), ManifestFile> {
    acked + map k | k in moved && k.1 in ready :: ready[k.1]
  }

  function Target(e: Edge): Edge {
    Edge(
      e.data - SettledPaths(e),
      e.ready - SettledPaths(e),
      AckedAfter(e.acked, Moved(e), e.ready),
      map[],
      map[],
      e.sealedDays)
  }

  /** Chunks to retire that share a data path are of one day; their manifests may have been written again meanwhile. */
  ghost predicate Coherent(e: Edge) {
    forall x, y :: Settled(e, x).Some? && Settled(e, y).Some? && Settled(e, x).value.path == Settled(e, y).value.path ==>
      Settled(e, x).value.day == Settled(e, y).value.day
  }

  // ---- The atomic steps of a run -----------------------------------------------------------------

  /** First phase: an accepted ACK gets its transaction file. */
  function WriteTransaction(e: Edge, id: ChunkId): Edge
    requires id in e.acks && JudgeAck(e, id).Accepted?
  {
    e.(applying := e.applying[id := Written(e.acks[id].ack, Scan(e.ready)[id])])
  }

  /** Then, or when it is refused or a replay, its ACK file goes. */
  function DropAck(e: Edge, id: ChunkId): Edge {
    e.(acks := e.acks - {id})
  }

  /** Second phase: the manifest leaves the ready tree. */
  function RetireManifest(e: Edge, m: Manifest): Edge {
    if m.path !in e.ready then e
    else if m.day in e.sealedDays then e.(ready := e.ready - {m.path})
    else e.(ready := e.ready - {m.path}, acked := e.acked[(m.day, m.path) := e.ready[m.path]])
  }

  function DropData(e: Edge, m: Manifest): Edge {
    e.(data := e.data - {m.path})
  }

  function DropTransaction(e: Edge, id: ChunkId): Edge {
    e.(applying := e.applying - {id})
  }

  /** Steps that a run can take next, wherever it stands; the second phase begins when no ACK is left. */
  datatype Step = Begin(id: ChunkId) | Dispose(id: ChunkId) | Retire(id: ChunkId) | Unlink(id: ChunkId) | Quarantine(id: ChunkId) | Finish(id: ChunkId)

  predicate Enabled(e: Edge, s: Step) {
    match s
    case Begin(id) => id in e.acks && JudgeAck(e, id).Accepted? && id !in e.applying
    case Dispose(id) => id in e.acks && (JudgeAck(e, id).Accepted? ==> id in e.applying)
    case Retire(id) => e.acks == map[] && id in e.applying && Settled(e, id).Some?
    case Unlink(id) => e.acks == map[] && id in e.applying && Settled(e, id).Some?
    case Quarantine(id) => e.acks == map[] && id in e.applying && Settled(e, id).None?
    case Finish(id) => e.acks == map[] && id in e.applying && Settled(e, id).Some?
                       && Settled(e, id).value.path !in e.ready && Settled(e, id).value.path !in e.data
  }

  function Take(e: Edge, s: Step): Edge
    requires Enabled(e, s)
  {
    match s
    case Begin(id) => WriteTransaction(e, id)
    case Dispose(id) => DropAck(e, id)
    case Retire(id) => RetireManifest(e, Settled(e, id).value)
    case Unlink(id) => DropData(e, Settled(e, id).value)
    case Quarantine(id) => DropTransaction(e, id)
    case Finish(id) => DropTransaction(e, id)
  }

  // ---- Every step keeps the target ---------------------------------------------------------------

  lemma ScanFacts(ready: map<Path, ManifestFile>, id: ChunkId)
    requires id in Scan(ready)
    ensures var m := Scan(ready)[id]; m.chunkId == id && m.path in ready && ready[m.path] == Readable(m)
  {
  }

  /** Runs that will settle the same chunks, over the same trees, have the same target. */
  lemma {:induction false} FirstPhaseKeepsTarget(e: Edge, f: Edge)
    requires f.data == e.data && f.ready == e.ready && f.acked == e.acked && f.sealedDays == e.sealedDays
    requires forall id :: Settled(e, id) == Settled(f, id)
    ensures Target(f) == Target(e)
  {
    SettledIsKnown(e);
    SettledIsKnown(f);
    hide JudgeAck, Scan, Settled;
    assert SettledPaths(e) == SettledPaths(f);
    assert Moved(e) == Moved(f);
  }

  lemma SettledIsKnown(e: Edge)
    ensures forall id :: Settled(e, id).Some? ==> id in e.applying.Keys + e.acks.Keys
  {
  }

  lemma {:induction false} BeginKeepsTarget(e: Edge, id: ChunkId)
    requires Coherent(e) && Enabled(e, Begin(id))
    ensures Target(Take(e, Begin(id))) == Target(e) && Coherent(Take(e, Begin(id)))
  {
    var f := Take(e, Begin(id));
    ScanFacts(e.ready, id);
    hide Scan, KnownAcked;
    forall x
      ensures Settled(e, x) == Settled(f, x)
    {
    }
    FirstPhaseKeepsTarget(e, f);
  }

  lemma {:induction false} DisposeKeepsTarget(e: Edge, id: ChunkId)
    requires Coherent(e) && Enabled(e, Dispose(id))
    ensures Target(Take(e, Dispose(id))) == Target(e) && Coherent(Take(e, Dispose(id)))
  {
    var f := Take(e, Dispose(id));
    hide Scan, KnownAcked;
    forall x | x in f.acks
      ensures JudgeAck(e, x) == JudgeAck(f, x)
    {
    }
    hide JudgeAck;
    forall x
      ensures Settled(e, x) == Settled(f, x)
    {
    }
    hide Settled, Target;
    FirstPhaseKeepsTarget(e, f);
  }

  /** In the second phase only transactions count. */
  lemma SecondPhaseSettles(e: Edge, id: ChunkId)
    requires e.acks == map[]
    ensures Settled(e, id).Some? <==> id in e.applying && e.applying[id].Written? && e.applying[id].ack.sha == e.applying[id].manifest.sha
    ensures Settled(e, id).Some? ==> Settled(e, id).value == e.applying[id].manifest
  {
  }

  lemma {:induction false} SameSettled(e: Edge, f: Edge)
    requires e.acks == f.acks == map[] && e.applying == f.applying
    ensures forall id :: Settled(e, id) == Settled(f, id)
    ensures SettledPaths(e) == SettledPaths(f)
  {
    forall id
      ensures Settled(e, id) == Settled(f, id)
    {
    }
    hide Settled;
    assert forall p :: p in SettledPaths(e) <==> p in SettledPaths(f);
  }

  lemma {:induction false} MovedFacts(e: Edge, k: (int, Path))
    requires Coherent(e) && k in Moved(e)
    ensures k.1 in e.ready && k.0 !in e.sealedDays
    ensures forall id :: Settled(e, id).Some? && Settled(e, id).value.path == k.1 ==> Settled(e, id).value.day == k.0
  {
  }

  lemma {:induction false} RetireMoves(e: Edge, id: ChunkId)
    requires Coherent(e) && Enabled(e, Retire(id))
    ensures var f, m := Take(e, Retire(id)), Settled(e, id).value;
            Moved(f) == Moved(e) - {(m.day, m.path)}
  {
    var f, m := Take(e, Retire(id)), Settled(e, id).value;
    SameSettled(e, f);
    forall k
      ensures k in Moved(f) <==> k in Moved(e) - {(m.day, m.path)}
    {
      if k in Moved(e) {
        MovedFacts(e, k);
        var x :| x in e.applying.Keys + e.acks.Keys && Settled(e, x).Some? && Settled(e, x).value.path in e.ready
             && Settled(e, x).value.day !in e.sealedDays && (Settled(e, x).value.day, Settled(e, x).value.path) == k;
        if k != (m.day, m.path) {
          assert k.1 in f.ready;
          assert Settled(f, x) == Settled(e, x) && x in f.applying.Keys;
        }
      }
      if k in Moved(f) {
        var x :| x in f.applying.Keys + f.acks.Keys && Settled(f, x).Some? && Settled(f, x).value.path in f.ready
             && Settled(f, x).value.day !in f.sealedDays && (Settled(f, x).value.day, Settled(f, x).value.path) == k;
        assert Settled(e, x) == Settled(f, x) && x in e.applying.Keys;
      }
    }
  }

  lemma {:induction false} RetireKeepsCoherent(e: Edge, id: ChunkId)
    requires Coherent(e) && Enabled(e, Retire(id))
    ensures Coherent(Take(e, Retire(id)))
    ensures Settled(e, id).value.path in SettledPaths(e)
  {
    SameSettled(e, Take(e, Retire(id)));
  }

  lemma {:induction false} OneMovedAlready(acked: map<(int, Path), ManifestFile>, moved: set<(int, Path)>, ready: map<Path, ManifestFile>, k0: (int, Path))
    requires k0 in moved && k0.1 in ready && forall k :: k in moved && k.1 == k0.1 ==> k == k0
    ensures AckedAfter(acked[k0 := ready[k0.1]], moved - {k0}, ready - {k0.1}) == AckedAfter(acked, moved, ready)
  {
    var p, was := k0.1, ready - {k0.1};
    var before := map k | k in moved && k.1 in ready :: ready[k.1];
    var later := map k | k in moved - {k0} && k.1 in was :: was[k.1];
    forall k | k in before && k != k0
      ensures k in later && later[k] == before[k]
    {
      assert k.1 != p;
    }
    assert before == later[k0 := ready[p]];
    assert acked[k0 := ready[p]] + later == acked + before;
  }

  lemma {:induction false} UnmovedDoNotMatter(acked: map<(int, Path), ManifestFile>, moved: set<(int, Path)>, ready: map<Path, ManifestFile>, m: Manifest)
    requires forall k :: k in moved ==> k.1 != m.path
    ensures AckedAfter(acked, moved - {(m.day, m.path)}, ready) == AckedAfter(acked, moved, ready)
    ensures AckedAfter(acked, moved - {(m.day, m.path)}, ready - {m.path}) == AckedAfter(acked, moved, ready)
  {
    assert moved - {(m.day, m.path)} == moved;
  }

  /** The acked tree a run leaves does not depend on whether one manifest has moved there already. */
  lemma {:induction false} RetireKeepsAcked(e: Edge, id: ChunkId)
    requires Coherent(e) && Enabled(e, Retire(id))
    ensures Target(Take(e, Retire(id))).acked == Target(e).acked
  {
    var f, m := Take(e, Retire(id)), Settled(e, id).value;
    RetireMoves(e, id);
    var k0 := (m.day, m.path);
    forall k | k in Moved(e)
      ensures k.1 in e.ready && k.0 !in e.sealedDays && (k.1 == m.path ==> k == k0)
    {
      MovedFacts(e, k);
    }
    assert m.path in e.ready && m.day !in e.sealedDays ==> k0 in Moved(e);
    hide Settled, SettledPaths, Moved, Coherent, AckedAfter;
    if k0 in Moved(e) {
      OneMovedAlready(e.acked, Moved(e), e.ready, k0);
    } else {
      UnmovedDoNotMatter(e.acked, Moved(e), e.ready, m);
    }
  }

  lemma {:induction false} RetireKeepsTarget(e: Edge, id: ChunkId)
    requires Coherent(e) && Enabled(e, Retire(id))
    ensures Target(Take(e, Retire(id))) == Target(e) && Coherent(Take(e, Retire(id)))
  {
    hide Scan, JudgeAck, KnownAcked, Moved, AckedAfter, WriteTransaction, DropAck, DropData, DropTransaction, Coherent;
    var m := Settled(e, id).value;
    var f := RetireManifest(e, m);
    assert Take(e, Retire(id)) == f;
    assert f.acks == map[] && f.applying == e.applying;
    RetireKeepsCoherent(e, id);
    RetireKeepsAcked(e, id);
    SameSettled(e, f);
    hide Take, Enabled;
    hide Settled, SettledPaths;
    var gone := SettledPaths(e);
    assert f.ready == e.ready - {m.path} || f.ready == e.ready;
    assert f.ready - gone == e.ready - gone;
    assert f.data == e.data && f.sealedDays == e.sealedDays;
  }

  lemma {:induction false} UnlinkKeepsTarget(e: Edge, id: ChunkId)
    requires Coherent(e) && Enabled(e, Unlink(id))
    ensures Target(Take(e, Unlink(id))) == Target(e) && Coherent(Take(e, Unlink(id)))
  {
    var f, m := Take(e, Unlink(id)), Settled(e, id).value;
    SameSettled(e, f);
    SettledIsKnown(e);
    assert m.path in SettledPaths(e);
    hide Settled, SettledPaths;
    assert Moved(f) == Moved(e);
    hide Moved;
    assert Target(f).data == Target(e).data;
  }

  lemma {:induction false} DropKeepsTarget(e: Edge, id: ChunkId)
    requires Coherent(e) && e.acks == map[] && id in e.applying
    requires Settled(e, id).Some? ==> Settled(e, id).value.path !in e.ready && Settled(e, id).value.path !in e.data
    ensures var f := DropTransaction(e, id); Target(f) == Target(e) && Coherent(f)
  {
    var f := DropTransaction(e, id);
    forall x | x != id
      ensures Settled(f, x) == Settled(e, x)
    {
    }
    assert Settled(f, id) == None;
    SettledIsKnown(e);
    SettledIsKnown(f);
    hide Settled;
    forall p | p in e.ready || p in e.data
      ensures p in SettledPaths(e) <==> p in SettledPaths(f)
    {
    }
    assert Moved(f) == Moved(e);
    hide Moved, SettledPaths;
    assert Target(f).ready == Target(e).ready;
    assert Target(f).data == Target(e).data;
  }

  /** No step of a run changes where the run ends. */
  lemma {:induction false} StepKeepsTarget(e: Edge, s: Step)
    requires Coherent(e) && Enabled(e, s)
    ensures Target(Take(e, s)) == Target(e) && Coherent(Take(e, s))
  {
    match s
    case Begin(id) => BeginKeepsTarget(e, id);
    case Dispose(id) => DisposeKeepsTarget(e, id);
    case Retire(id) => RetireKeepsTarget(e, id);
    case Unlink(id) => UnlinkKeepsTarget(e, id);
    case Quarantine(id) => DropKeepsTarget(e, id);
    case Finish(id) => DropKeepsTarget(e, id);
  }

  /** A run interrupted anywhere: any number of enabled steps. */
  ghost predicate Interrupted(e: Edge, f: Edge, steps: seq<Step>)
    decreases steps
  {
    if steps == [] then f == e else Enabled(e, steps[0]) && Interrupted(Take(e, steps[0]), f, steps[1..])
  }

  lemma {:induction false} CrashKeepsTarget(e: Edge, f: Edge, steps: seq<Step>)
    requires Coherent(e) && Interrupted(e, f, steps)
    ensures Target(f) == Target(e) && Coherent(f)
    decreases steps
  {
    hide Coherent, Enabled, Take, Target;
    if steps != [] {
      StepKeepsTarget(e, steps[0]);
      CrashKeepsTarget(Take(e, steps[0]), f, steps[1..]);
    }
  }

  lemma NothingLeft(e: Edge)
    requires e.acks == map[] && e.applying == map[]
    ensures Target(e) == e
  {
    assert SettledPaths(e) == {};
    assert Moved(e) == {};
  }
}
