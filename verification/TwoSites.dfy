/**
 * The transfer protocol between the edge and the central store, one atomic file operation at a time, in any order and
 * with crashes anywhere (collector/spool.py, collector/day_index.py, pipeline/pull.py).
 */
module TwoSites {
  import opened Wrappers
  import opened Spool
  import opened DayIndex

  /**
   * A seal under way: the inventory so far; and, for the record, the chunks it has come across in journal and trees, and
   * those whose manifest was written by the time it listed the ready tree.
   */
  datatype SealRun = SealRun(day: int, refs: Inventory, journaled: bool, readyRead: bool, ackedRead: bool,
                             seen: set<ChunkRef>, early: set<ChunkRef>)

  /** What is on record of a seal: the chunks of its day with a manifest when it was written, and what the run came across. */
  datatype SealRecord = SealRecord(written: set<ChunkRef>, journaled: bool, seen: set<ChunkRef>, early: set<ChunkRef>)

  datatype World = World(
    // the edge's files, and what its running process holds in memory
    edge: Edge,
    journal: map<int, seq<ChunkRef>>,
    seals: map<int, Inventory>,
    scan: map<ChunkId, Manifest>,
    sealing: Option<SealRun>,
    // the central mirror and store
    staged: map<Path, Content>,
    stagedManifests: map<Path, Manifest>,
    stagedAcks: map<ChunkId, Ack>,
    raw: map<Path, Content>,
    rawManifests: map<Path, Manifest>,
    days: map<int, Inventory>,
    // for the record: the manifests ever written, and what each seal had to go by
    published: set<Manifest>,
    records: map<int, SealRecord>)

  const EMPTY := World(Edge(map[], map[], map[], map[], map[], {}), map[], map[], map[], None,
                       map[], map[], map[], map[], map[], map[], {}, map[])

  predicate Good(m: Manifest, content: Content) {
    Digest(content) == m.sha && |content| == m.size
  }

  predicate Held(files: map<Path, Content>, m: Manifest) {
    m.path in files && Good(m, files[m.path])
  }

  predicate RefHeld(files: map<Path, Content>, ref: ChunkRef) {
    ref.path in files && Digest(files[ref.path]) == ref.sha && |files[ref.path]| == ref.size
  }

  /** The chunks of a day: with a manifest ever written, in its journal, in the ready tree, in the acked tree. */
  function ChunksOf(published: set<Manifest>, day: int): set<ChunkRef> {
    set m | m in published && m.day == day :: m.AsRef()
  }

  function JournalChunks(journal: map<int, seq<ChunkRef>>, day: int): set<ChunkRef> {
    if day in journal then set ref | ref in journal[day] else {}
  }

  function ReadyChunks(ready: map<Path, ManifestFile>, day: int): set<ChunkRef> {
    set p | p in ready && ready[p].Readable? && ready[p].manifest.day == day :: ready[p].manifest.AsRef()
  }

  function AckedChunks(acked: map<(int, Path), ManifestFile>, day: int): set<ChunkRef> {
    set k | k in acked && k.0 == day && acked[k].Readable? :: acked[k].manifest.AsRef()
  }

  predicate ReadyLists(e: Edge, day: int, listing: seq<Manifest>) {
    && (forall p :: p in e.ready && e.ready[p].Readable? && e.ready[p].manifest.day == day ==> e.ready[p].manifest in listing)
    && (forall i :: 0 <= i < |listing| ==> listing[i].path in e.ready && e.ready[listing[i].path] == Readable(listing[i]) && listing[i].day == day)
  }

  predicate AckedLists(e: Edge, day: int, listing: seq<Manifest>) {
    && (forall k :: k in e.acked && k.0 == day && e.acked[k].Readable? ==> e.acked[k].manifest in listing)
    && (forall i :: 0 <= i < |listing| ==> (day, listing[i].path) in e.acked && e.acked[(day, listing[i].path)] == Readable(listing[i]))
  }

  predicate ValidTransaction(e: Edge, id: ChunkId) {
    id in e.applying && e.applying[id].Written? && e.applying[id].ack.sha == e.applying[id].manifest.sha
  }

  // ---- The steps -----------------------------------------------------------------------------------

  /** The writer: a data file, then its manifest, then a journal line. */
  datatype WriterStep = WriteData(path: Path, content: Content) | WriteManifest(m: Manifest) | Record(m: Manifest)

  /** apply_acks; a crash forgets what it has scanned. */
  datatype ApplyStep = ScanTree | Accept(id: ChunkId) | Discard(id: ChunkId) | Retire(id: ChunkId, sawSeal: bool)
                     | Collect(id: ChunkId) | Finish(id: ChunkId) | CrashApply

  /** seal; a crash forgets what it has read. */
  datatype SealStep = BeginSeal(day: int) | SealReady(listing: seq<Manifest>) | SealAcked(listing: seq<Manifest>)
                    | WriteSeal | CleanDay(day: int) | CrashSeal

  /** The mirror, whose data may be partial or wrong, and the ingest. */
  datatype CentralStep = FetchManifest(path: Path) | FetchData(path: Path, content: Content) | DropStaged(path: Path)
                       | Promote(path: Path) | KeepManifest(path: Path) | SendAck(path: Path) | PushAck(id: ChunkId) | ForgetAck(id: ChunkId)
                       | PublishDay(day: int)

  datatype Op = Writes(writer: WriterStep) | Applies(apply: ApplyStep) | Seals(seal: SealStep) | Pulls(central: CentralStep)

  /** The same chunk: written again, a manifest may differ in its creation time and universe, but not in what it lists. */
  predicate SameChunk(m: Manifest, n: Manifest) {
    m.AsRef() == n.AsRef() && m.day == n.day
  }

  /** A chunk may be written again, as a repeated gap roll does, but only as the same chunk with the same content. */
  predicate CanWrite(w: World, op: WriterStep) {
    match op
    case WriteData(p, c) => forall m :: m in w.published && m.path == p ==> Good(m, c)
    case WriteManifest(m) => Held(w.edge.data, m)
                             && forall n :: n in w.published && (n.chunkId == m.chunkId || n.path == m.path) ==> SameChunk(m, n)
    case Record(m) => m in w.published && m.day !in w.seals
  }

  function Write(w: World, op: WriterStep): World
    requires CanWrite(w, op)
  {
    match op
    case WriteData(p, c) => w.(edge := w.edge.(data := w.edge.data[p := c]))
    case WriteManifest(m) => w.(edge := w.edge.(ready := w.edge.ready[m.path := Readable(m)]), published := w.published + {m})
    case Record(m) => w.(journal := w.journal[m.day := (if m.day in w.journal then w.journal[m.day] else []) + [m.AsRef()]])
  }

  predicate CanApply(w: World, op: ApplyStep) {
    match op
    case ScanTree => true
    case Accept(id) => && id in w.edge.acks && w.edge.acks[id].Acknowledged? && w.edge.acks[id].ack.chunkId == id
                       && id in w.scan && w.scan[id].sha == w.edge.acks[id].ack.sha && id !in w.edge.applying
    case Discard(id) => true
    case Retire(id, sawSeal) => ValidTransaction(w.edge, id) && (sawSeal ==> w.edge.applying[id].manifest.day in w.edge.sealedDays)
    case Collect(id) => ValidTransaction(w.edge, id)
    case Finish(id) => id in w.edge.applying
    case CrashApply => true
  }

  /** The seal may be written between looking for it and moving the manifest. */
  function RetireAfter(e: Edge, m: Manifest, sawSeal: bool): Edge {
    if m.path !in e.ready then e
    else if sawSeal then e.(ready := e.ready - {m.path})
    else e.(ready := e.ready - {m.path}, acked := e.acked[(m.day, m.path) := e.ready[m.path]])
  }

  function Apply(w: World, op: ApplyStep): World
    requires CanApply(w, op)
  {
    match op
    case ScanTree => w.(scan := Scan(w.edge.ready))
    case Accept(id) => w.(edge := w.edge.(applying := w.edge.applying[id := Written(w.edge.acks[id].ack, w.scan[id])]))
    case Discard(id) => w.(edge := DropAck(w.edge, id))
    case Retire(id, sawSeal) => w.(edge := RetireAfter(w.edge, w.edge.applying[id].manifest, sawSeal))
    case Collect(id) => w.(edge := DropData(w.edge, w.edge.applying[id].manifest))
    case Finish(id) => w.(edge := DropTransaction(w.edge, id))
    case CrashApply => w.(scan := map[])
  }

  predicate CanSeal(w: World, op: SealStep) {
    match op
    case BeginSeal(day) => day !in w.seals && w.sealing.None?
    case SealReady(listing) => w.sealing.Some? && !w.sealing.value.readyRead && ReadyLists(w.edge, w.sealing.value.day, listing)
    case SealAcked(listing) => && w.sealing.Some? && w.sealing.value.readyRead && !w.sealing.value.ackedRead
                               && AckedLists(w.edge, w.sealing.value.day, listing)
    case WriteSeal => w.sealing.Some? && w.sealing.value.ackedRead
    case CleanDay(day) => day in w.seals
    case CrashSeal => true
  }

  /** A day without a journal file reads as empty, and stays so. */
  function Read(run: SealRun, listing: seq<Manifest>): Inventory {
    if run.journaled then IndexAll(run.refs, Refs(listing)) else run.refs
  }

  function Seal(w: World, op: SealStep): World
    requires CanSeal(w, op)
  {
    match op
    case BeginSeal(day) =>
      w.(sealing := Some(SealRun(day, if day in w.journal then IndexAll(map[], w.journal[day]) else map[], day in w.journal, false, false,
                                 JournalChunks(w.journal, day), {})))
    case SealReady(listing) =>
      var run := w.sealing.value;
      w.(sealing := Some(run.(refs := Read(run, listing), readyRead := true,
                              seen := run.seen + ReadyChunks(w.edge.ready, run.day), early := ChunksOf(w.published, run.day))))
    case SealAcked(listing) =>
      var run := w.sealing.value;
      w.(sealing := Some(run.(refs := Read(run, listing), ackedRead := true, seen := run.seen + AckedChunks(w.edge.acked, run.day))))
    case WriteSeal =>
      var run := w.sealing.value;
      w.(seals := w.seals[run.day := run.refs], sealing := None,
         records := w.records[run.day := SealRecord(ChunksOf(w.published, run.day), run.journaled, run.seen, run.early)],
         edge := w.edge.(sealedDays := w.edge.sealedDays + {run.day}))
    case CleanDay(day) =>
      w.(journal := w.journal - {day}, edge := w.edge.(acked := map k | k in w.edge.acked && k.0 != day :: w.edge.acked[k]))
    case CrashSeal => w.(sealing := None)
  }

  predicate CanPull(w: World, op: CentralStep) {
    match op
    case FetchManifest(p) => p in w.edge.ready && w.edge.ready[p].Readable?
    case FetchData(_, _) => true
    case DropStaged(_) => true
    case Promote(p) => p in w.stagedManifests && p in w.staged && p !in w.raw && Good(w.stagedManifests[p], w.staged[p])
    case KeepManifest(p) => && p in w.stagedManifests && Held(w.raw, w.stagedManifests[p])
                            && (p in w.rawManifests ==> w.rawManifests[p] == w.stagedManifests[p])
    case SendAck(p) => && p in w.stagedManifests && Held(w.raw, w.stagedManifests[p])
                       && p in w.rawManifests && w.rawManifests[p] == w.stagedManifests[p]
    case PushAck(id) => id in w.stagedAcks
    case ForgetAck(_) => true
    case PublishDay(day) => day in w.seals && day !in w.days && forall k :: k in w.seals[day] ==> RefHeld(w.raw, w.seals[day][k])
  }

  function Pull(w: World, op: CentralStep): World
    requires CanPull(w, op)
  {
    match op
    case FetchManifest(p) => w.(stagedManifests := w.stagedManifests[p := w.edge.ready[p].manifest])
    case FetchData(p, c) => w.(staged := w.staged[p := c])
    case DropStaged(p) => w.(staged := w.staged - {p}, stagedManifests := w.stagedManifests - {p})
    case Promote(p) => w.(raw := w.raw[p := w.staged[p]], staged := w.staged - {p})
    case KeepManifest(p) => w.(rawManifests := w.rawManifests[p := w.stagedManifests[p]])
    case SendAck(p) => var m := w.stagedManifests[p]; w.(stagedAcks := w.stagedAcks[m.chunkId := Ack(m.chunkId, m.sha)])
    case PushAck(id) => w.(edge := w.edge.(acks := w.edge.acks[id := Acknowledged(w.stagedAcks[id])]))
    case ForgetAck(id) => w.(stagedAcks := w.stagedAcks - {id})
    case PublishDay(day) => w.(days := w.days[day := w.seals[day]])
  }

  predicate Can(w: World, op: Op) {
    match op
    case Writes(s) => CanWrite(w, s)
    case Applies(s) => CanApply(w, s)
    case Seals(s) => CanSeal(w, s)
    case Pulls(s) => CanPull(w, s)
  }

  function Next(w: World, op: Op): World
    requires Can(w, op)
  {
    match op
    case Writes(s) => Write(w, s)
    case Applies(s) => Apply(w, s)
    case Seals(s) => Seal(w, s)
    case Pulls(s) => Pull(w, s)
  }

  /** The world after a run; nothing for a run that takes a step it cannot. */
  function After(ops: seq<Op>): Option<World> {
    if ops == [] then Some(EMPTY)
    else
      var before, op := After(ops[..|ops| - 1]), ops[|ops| - 1];
      if before.Some? && Can(before.value, op) then Some(Next(before.value, op)) else None
  }

  // ---- What every run keeps ------------------------------------------------------------------------

  ghost predicate Unique(published: set<Manifest>) {
    forall m, n :: m in published && n in published && (m.chunkId == n.chunkId || m.path == n.path) ==> SameChunk(m, n)
  }

  predicate ReadyKnown(ready: map<Path, ManifestFile>, published: set<Manifest>) {
    forall p :: p in ready ==> ready[p].Readable? && ready[p].manifest.path == p && ready[p].manifest in published
  }

  predicate AckedKnown(acked: map<(int, Path), ManifestFile>, published: set<Manifest>) {
    forall k :: k in acked ==> acked[k].Readable? && acked[k].manifest in published && k == (acked[k].manifest.day, acked[k].manifest.path)
  }

  predicate ScanKnown(scan: map<ChunkId, Manifest>, published: set<Manifest>) {
    forall id :: id in scan ==> scan[id] in published && scan[id].chunkId == id
  }

  predicate StagedKnown(manifests: map<Path, Manifest>, published: set<Manifest>) {
    forall p :: p in manifests ==> manifests[p] in published && manifests[p].path == p
  }

  /** An ACK's chunk is in the central store. */
  ghost predicate Backed(ack: Ack, published: set<Manifest>, raw: map<Path, Content>) {
    exists m :: m in published && m.chunkId == ack.chunkId && m.sha == ack.sha && Held(raw, m)
  }

  ghost predicate StagedAcksBacked(acks: map<ChunkId, Ack>, published: set<Manifest>, raw: map<Path, Content>) {
    forall id :: id in acks ==> acks[id].chunkId == id && Backed(acks[id], published, raw)
  }

  ghost predicate AcksBacked(acks: map<ChunkId, AckFile>, published: set<Manifest>, raw: map<Path, Content>) {
    forall id :: id in acks ==> acks[id].Acknowledged? && acks[id].ack.chunkId == id && Backed(acks[id].ack, published, raw)
  }

  predicate TransactionsBacked(applying: map<ChunkId, TransactionFile>, published: set<Manifest>, raw: map<Path, Content>) {
    forall id :: id in applying ==>
      var t := applying[id];
      t.Written? && t.manifest in published && t.manifest.chunkId == id && t.ack.sha == t.manifest.sha && Held(raw, t.manifest)
  }

  /** What the central store keeps, it keeps with its data. */
  predicate KeptBacked(manifests: map<Path, Manifest>, published: set<Manifest>, raw: map<Path, Content>) {
    forall p :: p in manifests ==> manifests[p] in published && manifests[p].path == p && Held(raw, manifests[p])
  }

  /** No chunk is lost: its data is at the edge, or a copy with its hash and size is in the central store. */
  predicate NothingLost(published: set<Manifest>, data: map<Path, Content>, raw: map<Path, Content>) {
    forall m :: m in published ==> Held(data, m) || Held(raw, m)
  }

  /** Until its day is sealed, a chunk's manifest is in one of the two trees. */
  predicate Located(published: set<Manifest>, ready: map<Path, ManifestFile>, acked: map<(int, Path), ManifestFile>, sealedDays: set<int>) {
    forall m :: m in published && m.day !in sealedDays ==> m.path in ready || (m.day, m.path) in acked
  }

  ghost predicate SomeRef(ref: ChunkRef, published: set<Manifest>, day: int) {
    exists m :: m in published && m.day == day && m.AsRef() == ref
  }

  ghost predicate FromPublished(refs: Inventory, published: set<Manifest>, day: int) {
    forall k :: k in refs ==> k == IdentityOf(refs[k]) && SomeRef(refs[k], published, day)
  }

  predicate Listed(refs: Inventory, ref: ChunkRef) {
    IdentityOf(ref) in refs && refs[IdentityOf(ref)] == ref
  }

  /** An inventory of exactly these chunks. */
  ghost predicate Lists(refs: Inventory, seen: set<ChunkRef>) {
    forall ref :: Listed(refs, ref) <==> ref in seen
  }

  ghost predicate ChunksKnown(chunks: set<ChunkRef>, published: set<Manifest>, day: int) {
    forall ref :: ref in chunks ==> SomeRef(ref, published, day)
  }

  ghost predicate LinesKnown(lines: seq<ChunkRef>, published: set<Manifest>, day: int) {
    forall i :: 0 <= i < |lines| ==> SomeRef(lines[i], published, day)
  }

  ghost predicate JournalKnown(journal: map<int, seq<ChunkRef>>, published: set<Manifest>) {
    forall day :: day in journal ==> LinesKnown(journal[day], published, day)
  }

  ghost predicate SealingSound(sealing: Option<SealRun>, published: set<Manifest>, acked: map<(int, Path), ManifestFile>, sealed: set<int>) {
    sealing.Some? ==>
      var run := sealing.value;
      && run.day !in sealed && FromPublished(run.refs, published, run.day)
      && ChunksKnown(run.seen, published, run.day) && ChunksKnown(run.early, published, run.day)
      && (if run.journaled then Lists(run.refs, run.seen) else run.refs == map[])
      && (run.ackedRead ==> run.readyRead)
      && (run.readyRead ==> forall ref :: ref in run.early ==> ref in run.seen || (!run.ackedRead && (run.day, ref.path) in acked))
  }

  ghost predicate SealSound(refs: Inventory, record: SealRecord, published: set<Manifest>, day: int) {
    && FromPublished(refs, published, day) && ChunksKnown(record.written, published, day)
    && record.early <= record.seen <= record.written
    && (if record.journaled then Lists(refs, record.seen) else refs == map[])
  }

  ghost predicate SealsSound(seals: map<int, Inventory>, records: map<int, SealRecord>, published: set<Manifest>) {
    seals.Keys == records.Keys && forall d :: d in seals ==> SealSound(seals[d], records[d], published, d)
  }

  predicate AllHeld(raw: map<Path, Content>, refs: Inventory) {
    forall k :: k in refs ==> RefHeld(raw, refs[k])
  }

  predicate DaysSound(days: map<int, Inventory>, seals: map<int, Inventory>, raw: map<Path, Content>) {
    forall d :: d in days ==> d in seals && days[d] == seals[d] && AllHeld(raw, days[d])
  }

  ghost predicate Safe(w: World) {
    && Unique(w.published)
    && ReadyKnown(w.edge.ready, w.published) && AckedKnown(w.edge.acked, w.published)
    && ScanKnown(w.scan, w.published) && StagedKnown(w.stagedManifests, w.published)
    && StagedAcksBacked(w.stagedAcks, w.published, w.raw) && AcksBacked(w.edge.acks, w.published, w.raw)
    && TransactionsBacked(w.edge.applying, w.published, w.raw) && KeptBacked(w.rawManifests, w.published, w.raw)
    && NothingLost(w.published, w.edge.data, w.raw)
    && w.edge.sealedDays == w.seals.Keys && Located(w.published, w.edge.ready, w.edge.acked, w.edge.sealedDays)
    && JournalKnown(w.journal, w.published)
    && SealingSound(w.sealing, w.published, w.edge.acked, w.edge.sealedDays)
    && SealsSound(w.seals, w.records, w.published)
    && DaysSound(w.days, w.seals, w.raw)
  }

  // ---- The writer ----------------------------------------------------------------------------------

  lemma {:induction false} MorePublished(w: World, r: World)
    requires Safe(w) && w.published <= r.published && w.raw == r.raw
    ensures AckedKnown(w.edge.acked, r.published) && ScanKnown(w.scan, r.published) && StagedKnown(w.stagedManifests, r.published)
    ensures StagedAcksBacked(w.stagedAcks, r.published, r.raw) && AcksBacked(w.edge.acks, r.published, r.raw)
    ensures TransactionsBacked(w.edge.applying, r.published, r.raw) && KeptBacked(w.rawManifests, r.published, r.raw)
  {
    forall ack | Backed(ack, w.published, w.raw)
      ensures Backed(ack, r.published, r.raw)
    {
    }
    hide Backed;
  }

  lemma {:induction false} MorePublishedDays(w: World, published: set<Manifest>)
    requires Safe(w) && w.published <= published
    ensures JournalKnown(w.journal, published)
    ensures SealingSound(w.sealing, published, w.edge.acked, w.edge.sealedDays)
    ensures SealsSound(w.seals, w.records, published)
  {
    hide KeptBacked, Backed, StagedAcksBacked, AcksBacked, TransactionsBacked, NothingLost, Located, DaysSound, Listed;
    forall day | day in w.journal
      ensures LinesKnown(w.journal[day], published, day)
    {
      assert LinesKnown(w.journal[day], w.published, day);
      forall i | 0 <= i < |w.journal[day]|
        ensures SomeRef(w.journal[day][i], published, day)
      {
        assert SomeRef(w.journal[day][i], w.published, day);
      }
    }
    forall refs, day | FromPublished(refs, w.published, day)
      ensures FromPublished(refs, published, day)
    {
    }
    hide FromPublished, LinesKnown;
    forall d | d in w.seals
      ensures SealSound(w.seals[d], w.records[d], published, d)
    {
      assert SealSound(w.seals[d], w.records[d], w.published, d);
    }
  }

  lemma {:induction false} WriteManifestIsSafe(w: World, m: Manifest)
    requires Safe(w) && CanWrite(w, WriteManifest(m))
    ensures Safe(Write(w, WriteManifest(m)))
  {
    var r := Write(w, WriteManifest(m));
    MorePublished(w, r);
    MorePublishedDays(w, r.published);
    hide KeptBacked, AckedKnown, ScanKnown, StagedKnown, StagedAcksBacked, AcksBacked, TransactionsBacked, JournalKnown, SealingSound, SealsSound, DaysSound;
  }

  lemma {:induction false} WriteIsSafe(w: World, op: WriterStep)
    requires Safe(w) && CanWrite(w, op)
    ensures Safe(Write(w, op))
  {
    match op
    case WriteManifest(m) => WriteManifestIsSafe(w, m);
    case WriteData(p, c) =>
      hide KeptBacked, ReadyKnown, AckedKnown, ScanKnown, StagedKnown, StagedAcksBacked, AcksBacked, TransactionsBacked, Located,
           JournalKnown, SealingSound, SealsSound, DaysSound, Unique;
    case Record(m) =>
      hide KeptBacked, ReadyKnown, AckedKnown, ScanKnown, StagedKnown, StagedAcksBacked, AcksBacked, TransactionsBacked, Located,
           NothingLost, SealingSound, SealsSound, DaysSound, Unique;
      var r := Write(w, op);
      forall day | day in r.journal
        ensures LinesKnown(r.journal[day], r.published, day)
      {
        if day in w.journal {
          assert LinesKnown(w.journal[day], w.published, day);
        }
      }
  }

  // ---- apply_acks ----------------------------------------------------------------------------------

  lemma {:induction false} AcceptIsSafe(w: World, id: ChunkId)
    requires Safe(w) && CanApply(w, Accept(id))
    ensures Safe(Apply(w, Accept(id)))
  {
    hide KeptBacked, ReadyKnown, AckedKnown, StagedKnown, StagedAcksBacked, Located, NothingLost, JournalKnown, SealingSound, SealsSound, DaysSound;
    var m :| m in w.published && m.chunkId == w.edge.acks[id].ack.chunkId && m.sha == w.edge.acks[id].ack.sha && Held(w.raw, m);
    assert SameChunk(m, w.scan[id]);
  }

  lemma {:induction false} RetireIsSafe(w: World, id: ChunkId, sawSeal: bool)
    requires Safe(w) && CanApply(w, ApplyStep.Retire(id, sawSeal))
    ensures Safe(Apply(w, ApplyStep.Retire(id, sawSeal)))
  {
    hide KeptBacked, ScanKnown, StagedKnown, StagedAcksBacked, AcksBacked, NothingLost, JournalKnown, SealsSound, DaysSound, Listed, FromPublished;
    var r, t := Apply(w, ApplyStep.Retire(id, sawSeal)), w.edge.applying[id].manifest;
    assert t in w.published;
    forall m | m in w.published && m.day !in w.edge.sealedDays
      ensures m.path in r.edge.ready || (m.day, m.path) in r.edge.acked
    {
      if m.path == t.path {
        assert SameChunk(m, t);
      }
    }
    assert t.path in w.edge.ready ==> SameChunk(w.edge.ready[t.path].manifest, t);
  }

  lemma {:induction false} CollectIsSafe(w: World, id: ChunkId)
    requires Safe(w) && CanApply(w, Collect(id))
    ensures Safe(Apply(w, Collect(id)))
  {
    hide KeptBacked, ReadyKnown, AckedKnown, ScanKnown, StagedKnown, StagedAcksBacked, AcksBacked, Located, JournalKnown, SealingSound, SealsSound, DaysSound;
    var r, t := Apply(w, Collect(id)), w.edge.applying[id].manifest;
    assert t in w.published && Held(w.raw, t);
    forall m | m in w.published
      ensures Held(r.edge.data, m) || Held(r.raw, m)
    {
      if m.path == t.path {
        assert SameChunk(m, t);
      }
    }
  }

  lemma {:induction false} ApplyIsSafe(w: World, op: ApplyStep)
    requires Safe(w) && CanApply(w, op)
    ensures Safe(Apply(w, op))
  {
    match op
    case Accept(id) => AcceptIsSafe(w, id);
    case Retire(id, sawSeal) => RetireIsSafe(w, id, sawSeal);
    case Collect(id) => CollectIsSafe(w, id);
    case ScanTree =>
      forall id | id in Scan(w.edge.ready)
        ensures Scan(w.edge.ready)[id] in w.published && Scan(w.edge.ready)[id].chunkId == id
      {
        ScanFacts(w.edge.ready, id);
      }
      hide KeptBacked, Scan, ReadyKnown, AckedKnown, StagedKnown, StagedAcksBacked, AcksBacked, TransactionsBacked, Located, NothingLost,
           JournalKnown, SealingSound, SealsSound, DaysSound, Unique;
    case Discard(id) =>
      hide KeptBacked, Scan, ReadyKnown, AckedKnown, ScanKnown, StagedKnown, StagedAcksBacked, TransactionsBacked, Located, NothingLost,
           JournalKnown, SealingSound, SealsSound, DaysSound, Unique, Backed;
    case Finish(id) =>
      hide KeptBacked, Scan, ReadyKnown, AckedKnown, ScanKnown, StagedKnown, StagedAcksBacked, AcksBacked, Located, NothingLost,
           JournalKnown, SealingSound, SealsSound, DaysSound, Unique;
    case CrashApply =>
      hide KeptBacked, Scan, ReadyKnown, AckedKnown, StagedKnown, StagedAcksBacked, AcksBacked, TransactionsBacked, Located, NothingLost,
           JournalKnown, SealingSound, SealsSound, DaysSound, Unique;
  }

  // ---- seal ----------------------------------------------------------------------------------------

  /** Adding refs of published chunks of the day keeps the inventory theirs, and lists each of them and nothing else. */
  lemma {:induction false} IndexFromPublished(base: Inventory, refs: seq<ChunkRef>, published: set<Manifest>, day: int, seen: set<ChunkRef>)
    requires Unique(published) && FromPublished(base, published, day) && LinesKnown(refs, published, day) && Lists(base, seen)
    ensures FromPublished(IndexAll(base, refs), published, day)
    ensures Lists(IndexAll(base, refs), seen + set ref | ref in refs)
  {
    IndexAllFacts(base, refs);
    var r := IndexAll(base, refs);
    hide IndexAll;
    forall k | k in r
      ensures k == IdentityOf(r[k]) && SomeRef(r[k], published, day)
    {
      if !(k in base && r[k] == base[k]) {
        var i :| 0 <= i < |refs| && refs[i] == r[k];
        assert SomeRef(refs[i], published, day);
      }
    }
    forall ref
      ensures Listed(r, ref) <==> ref in seen + set ref | ref in refs
    {
      var k := IdentityOf(ref);
      if Listed(r, ref) && ref !in refs {
        assert Listed(base, ref);
      }
      if ref in refs || ref in seen {
        assert SomeRef(ref, published, day) by {
          if ref in refs {
            var i :| 0 <= i < |refs| && refs[i] == ref;
            assert SomeRef(refs[i], published, day);
          } else {
            assert Listed(base, ref);
          }
        }
        assert k in r;
        OneRef(published, day, ref, r[k]);
      }
    }
  }

  lemma OneRef(published: set<Manifest>, day: int, a: ChunkRef, b: ChunkRef)
    requires Unique(published) && SomeRef(a, published, day) && SomeRef(b, published, day)
    requires a.chunkId == b.chunkId || a.path == b.path
    ensures a == b
  {
    var m :| m in published && m.day == day && m.AsRef() == a;
    var n :| n in published && n.day == day && n.AsRef() == b;
    assert SameChunk(m, n);
  }

  lemma {:induction false} ReadyListingKnown(w: World, day: int, listing: seq<Manifest>)
    requires ReadyKnown(w.edge.ready, w.published) && ReadyLists(w.edge, day, listing)
    ensures LinesKnown(Refs(listing), w.published, day)
    ensures ReadyChunks(w.edge.ready, day) == set ref | ref in Refs(listing)
  {
    var refs, chunks := Refs(listing), ReadyChunks(w.edge.ready, day);
    forall i | 0 <= i < |refs|
      ensures SomeRef(refs[i], w.published, day) && refs[i] in chunks
    {
      assert listing[i] in w.published && listing[i].AsRef() == refs[i];
      assert w.edge.ready[listing[i].path].manifest == listing[i];
    }
    forall ref | ref in chunks
      ensures ref in refs
    {
      var p :| p in w.edge.ready && w.edge.ready[p].Readable? && w.edge.ready[p].manifest.day == day && w.edge.ready[p].manifest.AsRef() == ref;
      var i :| 0 <= i < |listing| && listing[i] == w.edge.ready[p].manifest;
      assert refs[i] == ref;
    }
  }

  lemma {:induction false} AckedListingKnown(w: World, day: int, listing: seq<Manifest>)
    requires AckedKnown(w.edge.acked, w.published) && AckedLists(w.edge, day, listing)
    ensures LinesKnown(Refs(listing), w.published, day)
    ensures AckedChunks(w.edge.acked, day) == set ref | ref in Refs(listing)
  {
    var refs, chunks := Refs(listing), AckedChunks(w.edge.acked, day);
    forall i | 0 <= i < |refs|
      ensures SomeRef(refs[i], w.published, day) && refs[i] in chunks
    {
      assert listing[i] in w.published && listing[i].AsRef() == refs[i];
      assert w.edge.acked[(day, listing[i].path)].manifest == listing[i];
    }
    forall ref | ref in chunks
      ensures ref in refs
    {
      var k :| k in w.edge.acked && k.0 == day && w.edge.acked[k].Readable? && w.edge.acked[k].manifest.AsRef() == ref;
      var i :| 0 <= i < |listing| && listing[i] == w.edge.acked[k].manifest;
      assert refs[i] == ref;
    }
  }

  lemma {:induction false} JournalIsIndexed(lines: seq<ChunkRef>, published: set<Manifest>, day: int)
    requires Unique(published) && LinesKnown(lines, published, day)
    ensures FromPublished(IndexAll(map[], lines), published, day)
    ensures Lists(IndexAll(map[], lines), set ref | ref in lines) && ChunksKnown((set ref | ref in lines), published, day)
  {
    IndexFromPublished(map[], lines, published, day, {});
    hide IndexAll, Lists, FromPublished;
    assert {} + (set ref | ref in lines) == set ref | ref in lines;
    forall ref | ref in lines
      ensures SomeRef(ref, published, day)
    {
      var i :| 0 <= i < |lines| && lines[i] == ref;
    }
  }

  lemma {:induction false} BeginSealIsSafe(w: World, day: int)
    requires Safe(w) && CanSeal(w, BeginSeal(day))
    ensures Safe(Seal(w, BeginSeal(day)))
  {
    hide KeptBacked, ReadyKnown, AckedKnown, ScanKnown, StagedKnown, StagedAcksBacked, AcksBacked, TransactionsBacked, Located, NothingLost, SealsSound, DaysSound, Unique;
    if day in w.journal {
      assert LinesKnown(w.journal[day], w.published, day);
      JournalIsIndexed(w.journal[day], w.published, day);
    }
    hide IndexAll, Lists, LinesKnown, SomeRef;
  }

  lemma {:induction false} ReadKeepsPublished(w: World, run: SealRun, listing: seq<Manifest>, chunks: set<ChunkRef>)
    requires Unique(w.published) && FromPublished(run.refs, w.published, run.day) && LinesKnown(Refs(listing), w.published, run.day)
    requires if run.journaled then Lists(run.refs, run.seen) else run.refs == map[]
    requires ChunksKnown(run.seen, w.published, run.day) && chunks == set ref | ref in Refs(listing)
    ensures FromPublished(Read(run, listing), w.published, run.day)
    ensures ChunksKnown(run.seen + chunks, w.published, run.day)
    ensures if run.journaled then Lists(Read(run, listing), run.seen + chunks) else Read(run, listing) == map[]
  {
    if run.journaled {
      IndexFromPublished(run.refs, Refs(listing), w.published, run.day, run.seen);
    }
    forall ref | ref in chunks
      ensures SomeRef(ref, w.published, run.day)
    {
      var i :| 0 <= i < |Refs(listing)| && Refs(listing)[i] == ref;
    }
  }

  lemma SealingIsSafe(w: World, next: SealRun)
    requires Safe(w) && SealingSound(Some(next), w.published, w.edge.acked, w.edge.sealedDays)
    ensures Safe(w.(sealing := Some(next)))
  {
    hide KeptBacked, Unique, ReadyKnown, AckedKnown, ScanKnown, StagedKnown, StagedAcksBacked, AcksBacked, TransactionsBacked, NothingLost, Located,
         JournalKnown, SealingSound, SealsSound, DaysSound;
  }

  lemma SafeSealing(w: World)
    requires Safe(w) && w.sealing.Some?
    ensures SealingSound(w.sealing, w.published, w.edge.acked, w.edge.sealedDays) && Unique(w.published)
    ensures ReadyKnown(w.edge.ready, w.published) && AckedKnown(w.edge.acked, w.published)
    ensures Located(w.published, w.edge.ready, w.edge.acked, w.edge.sealedDays)
  {
  }

  lemma {:induction false} EarlyIsFound(w: World, day: int)
    requires Unique(w.published) && ReadyKnown(w.edge.ready, w.published) && day !in w.edge.sealedDays
    requires Located(w.published, w.edge.ready, w.edge.acked, w.edge.sealedDays)
    ensures ChunksKnown(ChunksOf(w.published, day), w.published, day)
    ensures forall ref :: ref in ChunksOf(w.published, day) ==> ref in ReadyChunks(w.edge.ready, day) || (day, ref.path) in w.edge.acked
  {
    forall ref | ref in ChunksOf(w.published, day)
      ensures SomeRef(ref, w.published, day) && (ref in ReadyChunks(w.edge.ready, day) || (day, ref.path) in w.edge.acked)
    {
      var m :| m in w.published && m.day == day && m.AsRef() == ref;
      if m.path in w.edge.ready {
        assert SameChunk(m, w.edge.ready[m.path].manifest);
      }
    }
  }

  lemma {:induction false} SealReadyIsSafe(w: World, listing: seq<Manifest>)
    requires Safe(w) && CanSeal(w, SealReady(listing))
    ensures Safe(Seal(w, SealReady(listing)))
  {
    hide KeptBacked, Safe, Lists, LinesKnown, FromPublished, ChunksKnown, Read, ReadyLists, ReadyKnown, AckedKnown, Located, Unique, Refs, ChunksOf, ReadyChunks;
    SafeSealing(w);
    var run := w.sealing.value;
    ReadyListingKnown(w, run.day, listing);
    ReadKeepsPublished(w, run, listing, ReadyChunks(w.edge.ready, run.day));
    EarlyIsFound(w, run.day);
    SealingIsSafe(w, Seal(w, SealReady(listing)).sealing.value);
  }

  lemma {:induction false} AckedIsFound(w: World, day: int, early: set<ChunkRef>)
    requires Unique(w.published) && AckedKnown(w.edge.acked, w.published) && ChunksKnown(early, w.published, day)
    ensures forall ref :: ref in early && (day, ref.path) in w.edge.acked ==> ref in AckedChunks(w.edge.acked, day)
  {
    forall ref | ref in early && (day, ref.path) in w.edge.acked
      ensures ref in AckedChunks(w.edge.acked, day)
    {
      assert SomeRef(ref, w.published, day);
      var m :| m in w.published && m.day == day && m.AsRef() == ref;
      assert SameChunk(m, w.edge.acked[(day, ref.path)].manifest);
    }
  }

  lemma {:induction false} SealAckedIsSafe(w: World, listing: seq<Manifest>)
    requires Safe(w) && CanSeal(w, SealAcked(listing))
    ensures Safe(Seal(w, SealAcked(listing)))
  {
    hide KeptBacked, Safe, Lists, LinesKnown, FromPublished, ChunksKnown, Read, AckedLists, ReadyKnown, AckedKnown, Located, Unique, Refs, ChunksOf, AckedChunks;
    SafeSealing(w);
    var run := w.sealing.value;
    AckedListingKnown(w, run.day, listing);
    ReadKeepsPublished(w, run, listing, AckedChunks(w.edge.acked, run.day));
    AckedIsFound(w, run.day, run.early);
    SealingIsSafe(w, Seal(w, SealAcked(listing)).sealing.value);
  }

  lemma {:induction false} WriteSealIsSafe(w: World)
    requires Safe(w) && CanSeal(w, WriteSeal)
    ensures Safe(Seal(w, WriteSeal))
  {
    hide KeptBacked, ReadyKnown, AckedKnown, ScanKnown, StagedKnown, StagedAcksBacked, AcksBacked, TransactionsBacked, NothingLost, JournalKnown, Listed, FromPublished, Unique, AllHeld;
    var r, run := Seal(w, WriteSeal), w.sealing.value;
    assert forall ref :: ref in run.seen ==> SomeRef(ref, w.published, run.day);
    forall d | d in r.seals
      ensures SealSound(r.seals[d], r.records[d], r.published, d)
    {
      if d != run.day {
        assert SealSound(w.seals[d], w.records[d], w.published, d);
      }
    }
  }

  lemma {:induction false} CleanIsSafe(w: World, day: int)
    requires Safe(w) && CanSeal(w, CleanDay(day))
    ensures Safe(Seal(w, CleanDay(day)))
  {
    hide KeptBacked, ReadyKnown, ScanKnown, StagedKnown, StagedAcksBacked, AcksBacked, TransactionsBacked, NothingLost, SealsSound, DaysSound, Listed, FromPublished, Unique, LinesKnown;
  }

  lemma {:induction false} SealIsSafe(w: World, op: SealStep)
    requires Safe(w) && CanSeal(w, op)
    ensures Safe(Seal(w, op))
  {
    match op
    case BeginSeal(day) => BeginSealIsSafe(w, day);
    case SealReady(listing) => SealReadyIsSafe(w, listing);
    case SealAcked(listing) => SealAckedIsSafe(w, listing);
    case WriteSeal => WriteSealIsSafe(w);
    case CleanDay(day) => CleanIsSafe(w, day);
    case CrashSeal =>
      hide KeptBacked, ReadyKnown, AckedKnown, ScanKnown, StagedKnown, StagedAcksBacked, AcksBacked, TransactionsBacked, Located, NothingLost,
           JournalKnown, SealsSound, DaysSound, Unique;
  }

  // ---- The central store ---------------------------------------------------------------------------

  predicate Extends(r: map<Path, Content>, raw: map<Path, Content>) {
    forall p :: p in raw ==> p in r && r[p] == raw[p]
  }

  lemma {:induction false} MoreRaw(w: World, raw: map<Path, Content>)
    requires Safe(w) && Extends(raw, w.raw)
    ensures StagedAcksBacked(w.stagedAcks, w.published, raw) && AcksBacked(w.edge.acks, w.published, raw)
    ensures TransactionsBacked(w.edge.applying, w.published, raw) && NothingLost(w.published, w.edge.data, raw)
    ensures KeptBacked(w.rawManifests, w.published, raw)
    ensures DaysSound(w.days, w.seals, raw)
  {
    hide ReadyKnown, AckedKnown, ScanKnown, StagedKnown, Located, JournalKnown, SealingSound, SealsSound, Unique;
    forall m | Held(w.raw, m)
      ensures Held(raw, m)
    {
    }
    forall refs | AllHeld(w.raw, refs)
      ensures AllHeld(raw, refs)
    {
    }
    hide Held, AllHeld;
    forall ack | Backed(ack, w.published, w.raw)
      ensures Backed(ack, w.published, raw)
    {
      var m :| m in w.published && m.chunkId == ack.chunkId && m.sha == ack.sha && Held(w.raw, m);
      assert Held(raw, m);
    }
    hide Backed;
  }

  lemma {:induction false} PromoteIsSafe(w: World, p: Path)
    requires Safe(w) && CanPull(w, Promote(p))
    ensures Safe(Pull(w, Promote(p)))
  {
    hide KeptBacked, ReadyKnown, AckedKnown, ScanKnown, StagedKnown, Located, JournalKnown, SealingSound, SealsSound, Unique,
         StagedAcksBacked, AcksBacked, TransactionsBacked, NothingLost, DaysSound;
    var r := Pull(w, Promote(p));
    MoreRaw(w, r.raw);
  }

  lemma {:induction false} SendAckIsSafe(w: World, p: Path)
    requires Safe(w) && CanPull(w, SendAck(p))
    ensures Safe(Pull(w, SendAck(p)))
  {
    hide KeptBacked, ReadyKnown, AckedKnown, ScanKnown, AcksBacked, TransactionsBacked, Located, NothingLost, JournalKnown, SealingSound, SealsSound, DaysSound, Unique;
    var m := w.stagedManifests[p];
    assert m in w.published;
    assert Backed(Ack(m.chunkId, m.sha), w.published, w.raw);
  }

  lemma {:induction false} KeepManifestIsSafe(w: World, p: Path)
    requires Safe(w) && CanPull(w, KeepManifest(p))
    ensures Safe(Pull(w, KeepManifest(p)))
  {
    hide ReadyKnown, AckedKnown, ScanKnown, StagedAcksBacked, AcksBacked, TransactionsBacked, Located, NothingLost,
         JournalKnown, SealingSound, SealsSound, DaysSound, Unique, Held;
  }

  lemma {:induction false} FetchManifestIsSafe(w: World, p: Path)
    requires Safe(w) && CanPull(w, FetchManifest(p))
    ensures Safe(Pull(w, FetchManifest(p)))
  {
    hide KeptBacked, AckedKnown, ScanKnown, StagedAcksBacked, AcksBacked, TransactionsBacked, Located, NothingLost,
         JournalKnown, SealingSound, SealsSound, DaysSound, Unique, Held;
  }

  lemma {:induction false} PublishDayIsSafe(w: World, day: int)
    requires Safe(w) && CanPull(w, PublishDay(day))
    ensures Safe(Pull(w, PublishDay(day)))
  {
    hide KeptBacked, ReadyKnown, AckedKnown, ScanKnown, StagedKnown, StagedAcksBacked, AcksBacked, TransactionsBacked, Located, NothingLost,
         JournalKnown, SealingSound, SealsSound, Unique;
    assert AllHeld(w.raw, w.seals[day]);
  }

  lemma {:induction false} PullIsSafe(w: World, op: CentralStep)
    requires Safe(w) && CanPull(w, op)
    ensures Safe(Pull(w, op))
  {
    match op
    case Promote(p) => PromoteIsSafe(w, p);
    case SendAck(p) => SendAckIsSafe(w, p);
    case PublishDay(day) => PublishDayIsSafe(w, day);
    case FetchManifest(p) => FetchManifestIsSafe(w, p);
    case FetchData(p, c) =>
      hide KeptBacked, ReadyKnown, AckedKnown, ScanKnown, StagedKnown, StagedAcksBacked, AcksBacked, TransactionsBacked, Located, NothingLost,
           JournalKnown, SealingSound, SealsSound, DaysSound, Unique;
    case DropStaged(p) =>
      hide KeptBacked, ReadyKnown, AckedKnown, ScanKnown, StagedAcksBacked, AcksBacked, TransactionsBacked, Located, NothingLost,
           JournalKnown, SealingSound, SealsSound, DaysSound, Unique;
    case KeepManifest(p) => KeepManifestIsSafe(w, p);
    case PushAck(id) =>
      hide KeptBacked, ReadyKnown, AckedKnown, ScanKnown, StagedKnown, TransactionsBacked, Located, NothingLost,
           JournalKnown, SealingSound, SealsSound, DaysSound, Unique, Backed;
    case ForgetAck(id) =>
      hide KeptBacked, ReadyKnown, AckedKnown, ScanKnown, StagedKnown, AcksBacked, TransactionsBacked, Located, NothingLost,
           JournalKnown, SealingSound, SealsSound, DaysSound, Unique, Backed;
  }

  // ---- Every run -----------------------------------------------------------------------------------

  lemma {:induction false} StepIsSafe(w: World, op: Op)
    requires Safe(w) && Can(w, op)
    ensures Safe(Next(w, op))
  {
    hide Safe, CanWrite, CanApply, CanSeal, CanPull, Write, Apply, Seal, Pull;
    match op
    case Writes(s) => WriteIsSafe(w, s);
    case Applies(s) => ApplyIsSafe(w, s);
    case Seals(s) => SealIsSafe(w, s);
    case Pulls(s) => PullIsSafe(w, s);
  }

  /** Every run, with crashes anywhere, is safe: in particular no published chunk is ever lost. */
  lemma {:induction false} EveryRunIsSafe(ops: seq<Op>)
    requires After(ops).Some?
    ensures Safe(After(ops).value)
  {
    if ops != [] {
      EveryRunIsSafe(ops[..|ops| - 1]);
      hide Safe, Can, Next;
      StepIsSafe(After(ops[..|ops| - 1]).value, ops[|ops| - 1]);
    }
  }

  /** In every run each published chunk has its data at the edge or a copy with its hash in the central store. */
  lemma {:induction false} NoChunkIsLost(ops: seq<Op>, m: Manifest)
    requires After(ops).Some? && m in After(ops).value.published
    ensures var w := After(ops).value; Held(w.edge.data, m) || Held(w.raw, m)
  {
    EveryRunIsSafe(ops);
  }

  /** What a step may not touch: written seals, and data and manifests of the central store. */
  predicate Final(w: World, r: World) {
    && Extends(r.raw, w.raw) && (forall p :: p in w.rawManifests ==> p in r.rawManifests && r.rawManifests[p] == w.rawManifests[p])
    && forall d :: d in w.seals ==> d in r.seals && r.seals[d] == w.seals[d]
  }

  lemma {:induction false} SealingIsFinal(w: World, op: SealStep)
    requires w.sealing.Some? ==> w.sealing.value.day !in w.seals
    requires CanSeal(w, op)
    ensures Final(w, Seal(w, op))
  {
    hide Read, IndexAll, ReadyLists, AckedLists;
  }

  lemma {:induction false} PullingIsFinal(w: World, op: CentralStep)
    requires CanPull(w, op)
    ensures Final(w, Pull(w, op))
  {
    hide Held, Good, RefHeld;
  }

  lemma {:induction false} WritingIsFinal(w: World, op: WriterStep)
    requires CanWrite(w, op)
    ensures Final(w, Write(w, op))
  {
  }

  lemma {:induction false} ApplyingIsFinal(w: World, op: ApplyStep)
    requires CanApply(w, op)
    ensures Final(w, Apply(w, op))
  {
    hide Scan, RetireAfter;
  }

  /** A seal is never rewritten, and neither is anything the central store holds: sealing again changes nothing. */
  lemma {:induction false} SealsAndStoreAreFinal(w: World, op: Op)
    requires Safe(w) && Can(w, op)
    ensures Final(w, Next(w, op))
  {
    SealingUnsealed(w);
    hide Safe, CanWrite, CanApply, CanSeal, CanPull, Write, Apply, Seal, Pull, Final;
    match op
    case Writes(s) => WritingIsFinal(w, s);
    case Applies(s) => ApplyingIsFinal(w, s);
    case Seals(s) => SealingIsFinal(w, s);
    case Pulls(s) => PullingIsFinal(w, s);
  }

  lemma SealingUnsealed(w: World)
    requires Safe(w)
    ensures w.sealing.Some? ==> w.sealing.value.day !in w.seals
  {
    hide KeptBacked, ReadyKnown, AckedKnown, ScanKnown, StagedKnown, StagedAcksBacked, AcksBacked, TransactionsBacked, Located, NothingLost, JournalKnown, SealsSound, DaysSound;
  }

  lemma {:induction false} RunOneMore(ops: seq<Op>, op: Op, w: World)
    requires After(ops) == Some(w) && Can(w, op)
    ensures After(ops + [op]) == Some(Next(w, op))
  {
    hide Can, Next;
    assert (ops + [op])[..|ops|] == ops;
  }

  // ---- The run of apply_acks is made of these steps ------------------------------------------------

  lemma {:induction false} SettledIsPublished(w: World, id: ChunkId)
    requires Safe(w) && Settled(w.edge, id).Some?
    ensures Settled(w.edge, id).value in w.published
  {
    hide KeptBacked, AckedKnown, ScanKnown, StagedKnown, StagedAcksBacked, AcksBacked, NothingLost, Located, JournalKnown, SealingSound, SealsSound, DaysSound, Unique, KnownAcked;
    if id !in w.edge.applying {
      ScanFacts(w.edge.ready, id);
    }
  }

  /** In a safe world the spool meets the precondition of its ACK run. */
  lemma {:induction false} SafeIsCoherent(w: World)
    requires Safe(w)
    ensures Coherent(w.edge)
  {
    hide Settled;
    forall x, y | Settled(w.edge, x).Some? && Settled(w.edge, y).Some? && Settled(w.edge, x).value.path == Settled(w.edge, y).value.path
      ensures Settled(w.edge, x).value.day == Settled(w.edge, y).value.day
    {
      SettledIsPublished(w, x);
      SettledIsPublished(w, y);
      OneDay(w, Settled(w.edge, x).value, Settled(w.edge, y).value);
    }
    hide Safe;
  }

  lemma OneDay(w: World, m: Manifest, n: Manifest)
    requires Safe(w) && m in w.published && n in w.published && m.path == n.path
    ensures m.day == n.day
  {
    hide KeptBacked, ReadyKnown, AckedKnown, ScanKnown, StagedKnown, StagedAcksBacked, AcksBacked, TransactionsBacked, NothingLost, Located, JournalKnown, SealingSound, SealsSound, DaysSound;
    assert SameChunk(m, n);
  }

  lemma {:induction false} BeginIsAccept(w: World, id: ChunkId)
    requires w.scan == Scan(w.edge.ready) && Enabled(w.edge, Begin(id))
    ensures CanApply(w, Accept(id)) && Apply(w, Accept(id)) == w.(edge := Take(w.edge, Begin(id)))
  {
    hide Scan, KnownAcked, Settled;
  }

  lemma {:induction false} RetireIsProtocol(w: World, id: ChunkId)
    requires Enabled(w.edge, Step.Retire(id))
    ensures var op := ApplyStep.Retire(id, id in w.edge.applying && w.edge.applying[id].Written? && w.edge.applying[id].manifest.day in w.edge.sealedDays);
            CanApply(w, op) && Apply(w, op) == w.(edge := Take(w.edge, Step.Retire(id)))
  {
    hide Scan, JudgeAck, Settled, RetireAfter, RetireManifest;
    SecondPhaseSettles(w.edge, id);
    RetireAfterIsRetire(w.edge, w.edge.applying[id].manifest);
  }

  lemma RetireAfterIsRetire(e: Edge, m: Manifest)
    ensures RetireAfter(e, m, m.day in e.sealedDays) == RetireManifest(e, m)
  {
  }

  lemma {:induction false} FinishIsProtocol(w: World, id: ChunkId)
    requires Enabled(w.edge, Step.Finish(id)) || Enabled(w.edge, Quarantine(id))
    ensures var op := ApplyStep.Finish(id);
            CanApply(w, op) && Apply(w, op) == w.(edge := DropTransaction(w.edge, id))
  {
    hide Scan, JudgeAck, Settled, Take, DropTransaction;
    SecondPhaseSettles(w.edge, id);
  }

  /** Each step of that run is a step of the protocol; only a new transaction needs the manifests scanned at its start. */
  lemma {:induction false} RunStepsAreProtocolSteps(w: World, s: Step) returns (op: ApplyStep)
    requires Enabled(w.edge, s) && (s.Begin? ==> w.scan == Scan(w.edge.ready))
    ensures CanApply(w, op) && Apply(w, op) == w.(edge := Take(w.edge, s))
  {
    if s.Begin? {
      hide CanApply, Apply, Enabled, Take, Scan;
      BeginIsAccept(w, s.id);
      op := Accept(s.id);
    } else if s.Dispose? {
      hide Enabled, Scan, JudgeAck, Settled;
      op := Discard(s.id);
    } else {
      hide Scan, JudgeAck, Settled, DropData, DropTransaction;
      SecondPhaseSettles(w.edge, s.id);
      if s.Retire? {
        hide CanApply, Apply, Enabled, Take;
        RetireIsProtocol(w, s.id);
        op := ApplyStep.Retire(s.id, w.edge.applying[s.id].manifest.day in w.edge.sealedDays);
      } else if s.Unlink? {
        op := Collect(s.id);
      } else {
        FinishIsProtocol(w, s.id);
        op := ApplyStep.Finish(s.id);
      }
    }
  }

  /** While ACKs are left, a step leaves the ready tree alone; once none is left, none is begun. */
  lemma StepKeepsScan(e: Edge, s: Step)
    requires Enabled(e, s)
    ensures Take(e, s).acks != map[] ==> e.acks != map[] && Take(e, s).ready == e.ready
    ensures s.Begin? ==> e.acks != map[]
  {
    hide Scan, JudgeAck, Settled;
  }

  /** A run of apply_acks over a safe world, stopped by a crash after any of its steps, leaves a safe world. */
  lemma {:induction false} InterruptedRunIsSafe(w: World, f: Edge, steps: seq<Step>)
    requires Safe(w) && Interrupted(w.edge, f, steps)
    ensures Safe(w.(edge := f, scan := map[]))
  {
    hide Safe, Interrupted, Scan;
    ApplyIsSafe(w, ScanTree);
    ScannedRunIsSafe(w.(scan := Scan(w.edge.ready)), f, steps);
  }

  lemma {:induction false} ScannedRunIsSafe(w: World, f: Edge, steps: seq<Step>)
    requires Safe(w) && Interrupted(w.edge, f, steps) && (w.edge.acks != map[] ==> w.scan == Scan(w.edge.ready))
    ensures Safe(w.(edge := f, scan := map[]))
    decreases steps
  {
    hide Safe, Enabled, Take, CanApply, Scan;
    if steps == [] {
      CrashIsAlwaysPossible(w);
      ApplyIsSafe(w, CrashApply);
      assert Apply(w, CrashApply) == w.(edge := f, scan := map[]);
    } else {
      hide Apply;
      StepKeepsScan(w.edge, steps[0]);
      var op := RunStepsAreProtocolSteps(w, steps[0]);
      ApplyIsSafe(w, op);
      ScannedRunIsSafe(Apply(w, op), f, steps[1..]);
    }
  }

  lemma CrashIsAlwaysPossible(w: World)
    ensures CanApply(w, CrashApply)
  {
  }
}
