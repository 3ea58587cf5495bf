/**
 * Sliding-window deduplication with bucketed, lazy expiry and a day checkpoint (pipeline/normalize.py).
 * It decides as a plain map that remembers every identity's last sighting would.
 */
module Dedup {
  import opened Common
  import opened Wrappers
  import opened Sorting

  const WINDOW_NS := 600 * 1_000_000_000
  const BUCKET_NS := 1_000_000_000

  type Hash = string

  /** A logical event identity: its parts as text. */
  type Identity = seq<string>

  /** The checkpoint's digest of an identity; digests do not collide. */
  datatype Key = Key(digestOf: Identity)

  function IdentityKey(id: Identity): Key {
    Key(id)
  }

  datatype Sighting = Sighting(payloadHash: Hash, observedNs: int)

  datatype Observation = Observation(id: Identity, payloadHash: Hash, observedNs: int)

  datatype Verdict = Fresh | Duplicate | Conflict

  // ---- The plain map -------------------------------------------------------------------------

  /** Last sighting of every identity, never pruned, and the newest time seen. */
  datatype Plain = Plain(last: map<Identity, Sighting>, watermarkNs: int)

  /** A sighting counts while it is inside the window below the watermark. */
  predicate Live(s: Sighting, cutoffNs: int) {
    cutoffNs <= s.observedNs
  }

  function Judge(previous: Option<Sighting>, payloadHash: Hash, cutoffNs: int): Verdict {
    if previous.None? || previous.value.observedNs < cutoffNs then Fresh
    else if previous.value.payloadHash != payloadHash then Conflict
    else Duplicate
  }

  function PlainObserve(p: Plain, o: Observation): (Plain, Verdict) {
    var watermarkNs := Max(p.watermarkNs, o.observedNs);
    var v := Judge(if o.id in p.last then Some(p.last[o.id]) else None, o.payloadHash, watermarkNs - WINDOW_NS);
    if v.Conflict? then (p.(watermarkNs := watermarkNs), v)
    else (Plain(p.last[o.id := Sighting(o.payloadHash, o.observedNs)], watermarkNs), v)
  }

  // ---- The deduplicator's value ---------------------------------------------------------------

  /** Expiry buckets over keys of one kind: what is scheduled, and the heap of bucket numbers. */
  datatype Wheel<K(==,!new)> = Wheel(seen: map<K, Sighting>, buckets: map<int, seq<(K, int)>>, heap: multiset<int>)
  {
    /** Heap entries are exactly the bucket keys, once each, and every remembered sighting is scheduled. */
    ghost predicate Consistent() {
      && heap == multiset(buckets.Keys)
      && (forall k :: k in seen ==> seen[k].observedNs / BUCKET_NS in buckets && (k, seen[k].observedNs) in buckets[seen[k].observedNs / BUCKET_NS])
      && (forall b, k, t :: b in buckets && (k, t) in buckets[b] ==> t / BUCKET_NS == b)
    }
  }

  function EmptyWheel<K(==,!new)>(): Wheel<K> {
    Wheel(map[], map[], multiset{})
  }

  /** Records a sighting and schedules its expiry; a new bucket enters the heap. */
  function Remember<K(==,!new)>(w: Wheel<K>, k: K, s: Sighting): Wheel<K> {
    var b := s.observedNs / BUCKET_NS;
    if b in w.buckets then
      Wheel(w.seen[k := s], w.buckets[b := w.buckets[b] + [(k, s.observedNs)]], w.heap)
    else
      Wheel(w.seen[k := s], w.buckets[b := [(k, s.observedNs)]], w.heap + multiset{b})
  }

  /** A bucket's entries leave the map unless a later sighting replaced them. */
  function Forget<K(==,!new)>(seen: map<K, Sighting>, entries: seq<(K, int)>): map<K, Sighting> {
    if entries == [] then seen
    else
      var front := Forget(seen, entries[..|entries| - 1]);
      var (k, t) := entries[|entries| - 1];
      if k in front && front[k].observedNs == t then front - {k} else front
  }

  /** The wheel with every bucket up to a number expired. */
  function Expire<K(==,!new)>(w: Wheel<K>, through: int): Wheel<K> {
    Wheel(
      map k | k in w.seen && w.seen[k].observedNs / BUCKET_NS > through :: w.seen[k],
      map b | b in w.buckets && b > through :: w.buckets[b],
      multiset(set b | b in w.buckets && b > through))
  }

  lemma {:induction false} ForgetFacts<K(!new)>(seen: map<K, Sighting>, entries: seq<(K, int)>)
    ensures var r := Forget(seen, entries);
            && (forall k :: k in r <==> k in seen && (k, seen[k].observedNs) !in entries)
            && (forall k :: k in r ==> r[k] == seen[k])
  {
    if entries != [] {
      var front, last := entries[..|entries| - 1], entries[|entries| - 1];
      ForgetFacts(seen, front);
      assert entries == front + [last];
      forall k | k in seen
        ensures (k, seen[k].observedNs) in entries <==> (k, seen[k].observedNs) in front || (k, seen[k].observedNs) == last
      {
      }
    }
  }

  lemma {:induction false} ExpireConsistent<K(!new)>(w: Wheel<K>, through: int)
    requires w.Consistent()
    ensures Expire(w, through).Consistent()
  {
    var r := Expire(w, through);
    assert r.buckets.Keys == set b | b in w.buckets && b > through;
  }

  lemma {:induction false} RememberConsistent<K(!new)>(w: Wheel<K>, k: K, s: Sighting)
    requires w.Consistent()
    ensures Remember(w, k, s).Consistent()
  {
    var b := s.observedNs / BUCKET_NS;
    var r := Remember(w, k, s);
    assert forall c :: c in w.buckets ==> c in r.buckets && w.buckets[c] <= r.buckets[c];
  }

  /** Popping one bucket. */
  function PopBucket<K(==,!new)>(w: Wheel<K>, b: int): Wheel<K>
    requires b in w.buckets
  {
    Wheel(Forget(w.seen, w.buckets[b]), w.buckets - {b}, w.heap - multiset{b})
  }

  lemma {:induction false} PopFacts<K(!new)>(w: Wheel<K>, b: int)
    requires w.Consistent() && b in w.buckets
    ensures var r := PopBucket(w, b);
            && r.Consistent()
            && (forall k :: k in r.seen <==> k in w.seen && w.seen[k].observedNs / BUCKET_NS != b)
            && (forall k :: k in r.seen ==> r.seen[k] == w.seen[k])
  {
    ForgetFacts(w.seen, w.buckets[b]);
  }

  // ---- The class -------------------------------------------------------------------------------

  function Least(heap: multiset<int>): (b: int)
    requires heap != multiset{}
    ensures b in heap && forall c :: c in heap ==> b <= c
  {
    var buckets := set c | c in heap;
    assert buckets != {} by {
      if forall c :: c !in heap {
        assert false;
      }
      var c :| c in heap;
      assert c in buckets;
    }
    assert exists b :: b in buckets && forall c :: c in buckets ==> b <= c by {
      var le := (b: int, c: int) => b <= c;
      LeastExists(buckets, le);
      var b :| b in buckets && forall c :: c in buckets ==> le(b, c);
      assert forall c :: c in buckets ==> (le(b, c) <==> b <= c);
    }
    assert forall c :: c in heap <==> c in buckets;
    var b :| b in buckets && forall c | c in buckets :: b <= c;
    b
  }

  /** Expires every bucket up to a number: pop the smallest while it is due. */
  method ExpireThrough<K(==,!new)>(w: Wheel<K>, through: int) returns (r: Wheel<K>)
    requires w.Consistent()
    ensures r == Expire(w, through)
  {
    r := w;
    while r.heap != multiset{} && Least(r.heap) <= through
      invariant r.Consistent()
      invariant forall b :: b in r.buckets ==> b in w.buckets && r.buckets[b] == w.buckets[b]
      invariant forall b :: b in w.buckets && b > through ==> b in r.buckets
      invariant forall k :: k in r.seen ==> k in w.seen && r.seen[k] == w.seen[k]
      invariant forall k :: k in w.seen && w.seen[k].observedNs / BUCKET_NS > through ==> k in r.seen
      decreases |r.heap|
    {
      var bucket := Least(r.heap);
      PopFacts(r, bucket);
      r := PopBucket(r, bucket);
    }
    NoneDue(r, through);
    SameWheel(w, r, through);
  }

  lemma {:induction false} SameWheel<K(!new)>(w: Wheel<K>, r: Wheel<K>, through: int)
    requires w.Consistent() && r.Consistent()
    requires forall b :: b in r.buckets ==> b in w.buckets && r.buckets[b] == w.buckets[b] && b > through
    requires forall b :: b in w.buckets && b > through ==> b in r.buckets
    requires forall k :: k in r.seen ==> k in w.seen && r.seen[k] == w.seen[k]
    requires forall k :: k in w.seen && w.seen[k].observedNs / BUCKET_NS > through ==> k in r.seen
    ensures r == Expire(w, through)
  {
    var x := Expire(w, through);
    assert forall b :: b in x.buckets <==> b in w.buckets && b > through;
    assert forall b :: b in x.buckets <==> b in r.buckets;
    assert r.buckets.Keys == x.buckets.Keys;
    assert r.buckets == x.buckets;
    forall k | k in r.seen
      ensures k in x.seen
    {
      assert r.seen[k].observedNs / BUCKET_NS in r.buckets;
    }
    assert r.seen.Keys == x.seen.Keys;
    assert r.seen == x.seen;
    assert x.buckets.Keys == set b | b in w.buckets && b > through;
  }

  lemma {:induction false} NoneDue<K(!new)>(r: Wheel<K>, through: int)
    requires r.Consistent() && !(r.heap != multiset{} && Least(r.heap) <= through)
    ensures forall b :: b in r.buckets ==> b > through
  {
    forall b | b in r.buckets
      ensures b > through
    {
      assert b in r.heap;
    }
  }

  /** One line of a checkpoint file. */
  datatype CheckpointEntry = CheckpointEntry(key: Key, sighting: Sighting)

  datatype DedupValue = DedupValue(
    recent: Wheel<Identity>,
    legacy: Wheel<Key>,
    prunedThrough: int,
    nextPruneNs: int,
    watermarkNs: int)
  {
    ghost predicate Consistent() {
      recent.Consistent() && legacy.Consistent()
    }
  }

  function PruneValue(v: DedupValue, cutoffNs: int): DedupValue {
    var through := cutoffNs / BUCKET_NS - 1;
    if through <= v.prunedThrough then v
    else DedupValue(Expire(v.recent, through), Expire(v.legacy, through), through, (through + 2) * BUCKET_NS, v.watermarkNs)
  }

  function Consult(v: DedupValue, id: Identity, cutoffNs: int): Option<Sighting> {
    if id in v.recent.seen && Live(v.recent.seen[id], cutoffNs) then Some(v.recent.seen[id])
    else if IdentityKey(id) in v.legacy.seen && Live(v.legacy.seen[IdentityKey(id)], cutoffNs) then Some(v.legacy.seen[IdentityKey(id)])
    else None
  }

  /** The watermark moves, and what is due expires. */
  function Advance(v: DedupValue, observedNs: int): DedupValue {
    var moved := v.(watermarkNs := Max(v.watermarkNs, observedNs));
    if moved.watermarkNs - WINDOW_NS >= v.nextPruneNs then PruneValue(moved, moved.watermarkNs - WINDOW_NS) else moved
  }

  function ObserveValue(v: DedupValue, o: Observation): (DedupValue, Verdict) {
    var m := Advance(v, o.observedNs);
    var previous := Consult(m, o.id, m.watermarkNs - WINDOW_NS);
    if previous.Some? && previous.value.payloadHash != o.payloadHash then (m, Conflict)
    else (m.(recent := Remember(m.recent, o.id, Sighting(o.payloadHash, o.observedNs))), if previous.Some? then Duplicate else Fresh)
  }

  predicate Kept(seen: map<Identity, Sighting>, done: set<Identity>, id: Identity, cutoffNs: int) {
    id in done && id in seen && Live(seen[id], cutoffNs)
  }

  /** Checkpointed sightings overlaid by the live recent ones of some identities, the newer one per key. */
  function Overlay(kept: map<Key, Sighting>, seen: map<Identity, Sighting>, done: set<Identity>, cutoffNs: int): (r: map<Key, Sighting>)
    ensures forall k :: k in r <==> k in kept || Kept(seen, done, k.digestOf, cutoffNs)
    ensures forall k :: k in r ==>
      r[k] == if Kept(seen, done, k.digestOf, cutoffNs) && (k !in kept || seen[k.digestOf].observedNs >= kept[k].observedNs)
              then seen[k.digestOf] else if k in kept then kept[k] else r[k]
  {
    var keys := set id | id in done && Kept(seen, done, id, cutoffNs) :: IdentityKey(id);
    assert forall id :: Kept(seen, done, id, cutoffNs) ==> IdentityKey(id) in keys;
    map k | k in kept.Keys + keys ::
      if Kept(seen, done, k.digestOf, cutoffNs) && (k !in kept || seen[k.digestOf].observedNs >= kept[k].observedNs)
      then seen[k.digestOf] else if k in kept then kept[k] else Sighting("", 0)
  }

  function LiveLegacy(legacy: map<Key, Sighting>, cutoffNs: int): map<Key, Sighting> {
    map k | k in legacy && Live(legacy[k], cutoffNs) :: legacy[k]
  }

  /** The sightings a checkpoint keeps: those inside the window before the day end, the newer one per key. */
  function CheckpointMap(v: DedupValue, dayEndNs: int): map<Key, Sighting> {
    var cutoffNs := dayEndNs - WINDOW_NS;
    Overlay(LiveLegacy(v.legacy.seen, cutoffNs), v.recent.seen, v.recent.seen.Keys, cutoffNs)
  }

  lemma {:induction false} OverlayStep(kept: map<Key, Sighting>, seen: map<Identity, Sighting>, done: set<Identity>, id: Identity, cutoffNs: int)
    requires id in seen && id !in done
    ensures var before, after := Overlay(kept, seen, done, cutoffNs), Overlay(kept, seen, done + {id}, cutoffNs);
            var key := IdentityKey(id);
            if Live(seen[id], cutoffNs) && (key !in before || seen[id].observedNs >= before[key].observedNs)
            then after == before[key := seen[id]] else after == before
  {
    var before, after := Overlay(kept, seen, done, cutoffNs), Overlay(kept, seen, done + {id}, cutoffNs);
    hide Overlay;
    var key := IdentityKey(id);
    assert !Kept(seen, done, id, cutoffNs);
    assert forall other :: other != id ==> (Kept(seen, done, other, cutoffNs) <==> Kept(seen, done + {id}, other, cutoffNs));
    hide Kept;
    assert forall k: Key :: k != key ==> k.digestOf != id;
    assert forall k :: k != key ==> (k in before <==> k in after) && (k in before ==> before[k] == after[k]);
  }

  function LoadEntries(entries: seq<CheckpointEntry>): DedupValue {
    if entries == [] then DedupValue(EmptyWheel(), EmptyWheel(), -1, BUCKET_NS, 0)
    else
      var v, e := LoadEntries(entries[..|entries| - 1]), entries[|entries| - 1];
      v.(legacy := Remember(v.legacy, e.key, e.sighting), watermarkNs := Max(v.watermarkNs, e.sighting.observedNs))
  }

  /** A deduplicator restored from a checkpoint file. */
  function LoadValue(entries: seq<CheckpointEntry>): DedupValue {
    var v := LoadEntries(entries);
    PruneValue(v, v.watermarkNs - WINDOW_NS)
  }

  lemma {:induction false} EmptyConsistent<K(!new)>()
    ensures EmptyWheel<K>().Consistent()
  {
  }

  lemma {:induction false} LoadConsistent(entries: seq<CheckpointEntry>)
    ensures LoadEntries(entries).Consistent()
  {
    hide Wheel.Consistent, Remember, EmptyWheel;
    if entries == [] {
      EmptyConsistent<Identity>();
      EmptyConsistent<Key>();
    } else {
      var front, e := entries[..|entries| - 1], entries[|entries| - 1];
      LoadConsistent(front);
      RememberConsistent(LoadEntries(front).legacy, e.key, e.sighting);
    }
  }

  lemma {:induction false} PruneConsistent(v: DedupValue, cutoffNs: int)
    requires v.Consistent()
    ensures PruneValue(v, cutoffNs).Consistent()
  {
    var through := cutoffNs / BUCKET_NS - 1;
    ExpireConsistent(v.recent, through);
    ExpireConsistent(v.legacy, through);
  }

  class Deduplicator {
    var recent: Wheel<Identity>
    var legacy: Wheel<Key>
    var prunedThrough: int
    var nextPruneNs: int
    var watermarkNs: int

    ghost function Value(): DedupValue
      reads this
    {
      DedupValue(recent, legacy, prunedThrough, nextPruneNs, watermarkNs)
    }

    constructor ()
      ensures Value() == DedupValue(EmptyWheel(), EmptyWheel(), -1, BUCKET_NS, 0)
    {
      recent, legacy := EmptyWheel(), EmptyWheel();
      prunedThrough, nextPruneNs, watermarkNs := -1, BUCKET_NS, 0;
    }

    /** Restores a deduplicator from the entries of a checkpoint file. */
    constructor Load(entries: seq<CheckpointEntry>)
      ensures Value().Consistent() && Value() == LoadValue(entries)
    {
      recent, legacy := EmptyWheel(), EmptyWheel();
      prunedThrough, nextPruneNs, watermarkNs := -1, BUCKET_NS, 0;
      new;
      hide Remember, PruneValue, DedupValue.Consistent;
      var i := 0;
      while i < |entries|
        invariant 0 <= i <= |entries|
        invariant Value() == LoadEntries(entries[..i])
      {
        legacy := Remember(legacy, entries[i].key, entries[i].sighting);
        watermarkNs := Max(watermarkNs, entries[i].sighting.observedNs);
        assert entries[..i + 1][..i] == entries[..i];
        i := i + 1;
      }
      assert entries[..i] == entries;
      LoadConsistent(entries);
      PruneConsistent(Value(), watermarkNs - WINDOW_NS);
      Prune(watermarkNs - WINDOW_NS);
    }

    /** The day-end checkpoint, as a map from key to sighting. */
    method Checkpoint(dayEndNs: int) returns (byKey: map<Key, Sighting>)
      ensures byKey == CheckpointMap(Value(), dayEndNs)
    {
      hide Overlay;
      var cutoff := dayEndNs - WINDOW_NS;
      ghost var legacyLive := LiveLegacy(legacy.seen, cutoff);
      byKey := map k | k in legacy.seen && legacy.seen[k].observedNs >= cutoff :: legacy.seen[k];
      assert byKey == Overlay(legacyLive, recent.seen, {}, cutoff);
      var todo := recent.seen.Keys;
      ghost var done: set<Identity> := {};
      while todo != {}
        invariant done !! todo && done + todo == recent.seen.Keys
        invariant byKey == Overlay(legacyLive, recent.seen, done, cutoff)
        decreases todo
      {
        var id :| id in todo;
        OverlayStep(legacyLive, recent.seen, done, id, cutoff);
        todo, done := todo - {id}, done + {id};
        var sighting := recent.seen[id];
        if sighting.observedNs >= cutoff {
          var key := IdentityKey(id);
          if key !in byKey || sighting.observedNs >= byKey[key].observedNs {
            byKey := byKey[key := sighting];
          }
        }
      }
      assert done == recent.seen.Keys;
    }

    /** Expires everything that is a whole bucket older than the cutoff. */
    method Prune(cutoffNs: int)
      requires Value().Consistent()
      modifies this`recent, this`legacy, this`prunedThrough, this`nextPruneNs
      ensures Value() == PruneValue(old(Value()), cutoffNs)
    {
      var expiredThrough := cutoffNs / BUCKET_NS - 1;
      if expiredThrough <= prunedThrough {
        return;
      }
      prunedThrough := expiredThrough;
      nextPruneNs := (expiredThrough + 2) * BUCKET_NS;
      recent := ExpireThrough(recent, expiredThrough);
      legacy := ExpireThrough(legacy, expiredThrough);
    }

    /** One event. A payload conflict, which the source raises as an error, records nothing. */
    method Observe(o: Observation) returns (verdict: Verdict)
      requires Value().Consistent()
      modifies this
      ensures Value().Consistent()
      ensures (Value(), verdict) == ObserveValue(old(Value()), o)
    {
      watermarkNs := Max(watermarkNs, o.observedNs);
      var cutoffNs := watermarkNs - WINDOW_NS;
      if cutoffNs >= nextPruneNs {
        PruneConsistent(Value(), cutoffNs);
        Prune(cutoffNs);
      }
      ghost var pruned := Value();
      var previous := Previous(o.id, cutoffNs);
      if previous.Some? && previous.value.payloadHash != o.payloadHash {
        return Conflict;
      }
      RememberConsistent(recent, o.id, Sighting(o.payloadHash, o.observedNs));
      recent := Remember(recent, o.id, Sighting(o.payloadHash, o.observedNs));
      return if previous.Some? then Duplicate else Fresh;
    }

    /** The sighting to compare with: the recent one while live, else the checkpoint's while live. */
    method Previous(id: Identity, cutoffNs: int) returns (previous: Option<Sighting>)
      ensures previous == Consult(Value(), id, cutoffNs)
    {
      previous := None;
      if id in recent.seen {
        previous := Some(recent.seen[id]);
        if previous.value.observedNs < cutoffNs {
          previous := None;
        }
      }
      if previous.None? && legacy.seen != map[] {
        var key := IdentityKey(id);
        if key in legacy.seen {
          previous := Some(legacy.seen[key]);
          if previous.value.observedNs < cutoffNs {
            previous := None;
          }
        }
      }
    }
  }
}
