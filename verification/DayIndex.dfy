/** The chunk inventory of a UTC day (collector/day_index.py): journal lines, then ready manifests, then retired ones. */
module DayIndex {
  import opened Wrappers
  import opened Spool

  type Identity = (ChunkId, Digest)

  type Inventory = map<Identity, ChunkRef>

  function IdentityOf(ref: ChunkRef): Identity {
    (ref.chunkId, ref.sha)
  }

  /** Later refs replace earlier ones of the same identity. */
  function IndexAll(base: Inventory, refs: seq<ChunkRef>): Inventory {
    if refs == [] then base
    else IndexAll(base, refs[..|refs| - 1])[IdentityOf(refs[|refs| - 1]) := refs[|refs| - 1]]
  }

  function Refs(manifests: seq<Manifest>): (r: seq<ChunkRef>)
    ensures |r| == |manifests| && forall i :: 0 <= i < |r| ==> r[i] == manifests[i].AsRef()
  {
    seq(|manifests|, (i: nat) requires i < |manifests| => manifests[i].AsRef())
  }

  /** A day without a journal file is read as empty, whatever manifests it has. */
  function RefsOf(journal: Option<seq<ChunkRef>>, ready: seq<Manifest>, acked: seq<Manifest>): Inventory {
    if journal.None? then map[]
    else IndexAll(IndexAll(IndexAll(map[], journal.value), Refs(ready)), Refs(acked))
  }

  method AddAll(base: Inventory, refs: seq<ChunkRef>) returns (r: Inventory)
    ensures r == IndexAll(base, refs)
  {
    r := base;
    var i := 0;
    while i < |refs|
      invariant 0 <= i <= |refs| && r == IndexAll(base, refs[..i])
    {
      r := r[IdentityOf(refs[i]) := refs[i]];
      assert refs[..i + 1][..i] == refs[..i];
      i := i + 1;
    }
    assert refs[..i] == refs;
  }

  /** _read_refs. */
  method ReadRefs(journal: Option<seq<ChunkRef>>, ready: seq<Manifest>, acked: seq<Manifest>) returns (byIdentity: Inventory)
    ensures byIdentity == RefsOf(journal, ready, acked)
  {
    if journal.None? {
      return map[];
    }
    byIdentity := AddAll(map[], journal.value);
    byIdentity := AddAll(byIdentity, Refs(ready));
    byIdentity := AddAll(byIdentity, Refs(acked));
  }

  lemma {:induction false} IndexAllFacts(base: Inventory, refs: seq<ChunkRef>)
    ensures var r := IndexAll(base, refs);
            && (forall k :: k in base ==> k in r)
            && (forall ref :: ref in refs ==> IdentityOf(ref) in r)
            && (forall k :: k in r ==> (k in base && r[k] == base[k]) || (r[k] in refs && IdentityOf(r[k]) == k))
  {
    if refs != [] {
      var front, last := refs[..|refs| - 1], refs[|refs| - 1];
      IndexAllFacts(base, front);
      assert refs == front + [last];
    }
  }
}
