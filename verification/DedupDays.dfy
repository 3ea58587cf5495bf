/**
 * The deduplicator against the plain "last seen" map: one event, a whole day, and any number of days cut at midnight
 * through the checkpoint file (pipeline/normalize.py).
 */
module DedupDays {
  import opened Common
  import opened Wrappers
  import opened Dedup

  /** What the checkpointed half may say about an identity: it is the last sighting, or this day has a newer one. */
  predicate LegacyAgrees(s: Sighting, k: Key, p: Plain, dayStartNs: int) {
    && s.observedNs < dayStartNs
    && k.digestOf in p.last
    && (p.last[k.digestOf] == s || p.last[k.digestOf].observedNs >= dayStartNs)
  }

  predicate Remembered(v: DedupValue, p: Plain, id: Identity)
    requires id in p.last
  {
    || (id in v.recent.seen && v.recent.seen[id] == p.last[id])
    || (id !in v.recent.seen && IdentityKey(id) in v.legacy.seen && v.legacy.seen[IdentityKey(id)] == p.last[id])
  }

  predicate WatermarksAgree(v: DedupValue, p: Plain, dayStartNs: int) {
    && 0 <= v.watermarkNs <= p.watermarkNs
    && (v.watermarkNs == p.watermarkNs || p.watermarkNs < dayStartNs)
  }

  predicate RecentAgrees(v: DedupValue, p: Plain) {
    forall id :: id in v.recent.seen ==> id in p.last && v.recent.seen[id] == p.last[id]
  }

  predicate AllLegacyAgrees(v: DedupValue, p: Plain, dayStartNs: int) {
    forall k :: k in v.legacy.seen ==> LegacyAgrees(v.legacy.seen[k], k, p, dayStartNs)
  }

  /** Every sighting live at a cutoff is remembered. */
  predicate KeepsLive(v: DedupValue, p: Plain, cutoffNs: int) {
    forall id :: id in p.last && Live(p.last[id], cutoffNs) ==> Remembered(v, p, id)
  }

  predicate NoneAhead(p: Plain) {
    forall id :: id in p.last ==> p.last[id].observedNs <= p.watermarkNs
  }

  /** The deduplicator holds what the plain map holds, as far as any event of the day can ask. */
  ghost predicate Mirrors(v: DedupValue, p: Plain, dayStartNs: int) {
    && v.Consistent()
    && WatermarksAgree(v, p, dayStartNs)
    && RecentAgrees(v, p)
    && AllLegacyAgrees(v, p, dayStartNs)
    && KeepsLive(v, p, Max(p.watermarkNs, dayStartNs) - WINDOW_NS)
    && NoneAhead(p)
  }

  /** Pruning at a cutoff drops no sighting that is live there, and changes none it keeps. */
  lemma {:induction false} PruneKeepsLive(v: DedupValue, cutoffNs: int)
    ensures var r := PruneValue(v, cutoffNs);
            && (forall id :: id in r.recent.seen ==> id in v.recent.seen && r.recent.seen[id] == v.recent.seen[id])
            && (forall id :: id in v.recent.seen && Live(v.recent.seen[id], cutoffNs) ==> id in r.recent.seen)
            && (forall k :: k in r.legacy.seen ==> k in v.legacy.seen && r.legacy.seen[k] == v.legacy.seen[k])
            && (forall k :: k in v.legacy.seen && Live(v.legacy.seen[k], cutoffNs) ==> k in r.legacy.seen)
            && r.watermarkNs == v.watermarkNs
  {
    forall t: int | cutoffNs <= t
      ensures t / BUCKET_NS > cutoffNs / BUCKET_NS - 1
    {
    }
  }

  /** Expiry at a cutoff keeps the agreement with the plain map for everything live there. */
  lemma {:induction false} PruneKeepsAgreement(v: DedupValue, p: Plain, dayStartNs: int, cutoffNs: int)
    requires v.Consistent() && RecentAgrees(v, p) && AllLegacyAgrees(v, p, dayStartNs) && KeepsLive(v, p, cutoffNs)
    ensures var r := PruneValue(v, cutoffNs);
            && r.Consistent() && RecentAgrees(r, p) && AllLegacyAgrees(r, p, dayStartNs) && KeepsLive(r, p, cutoffNs)
            && r.watermarkNs == v.watermarkNs
  {
    PruneKeepsLive(v, cutoffNs);
    PruneConsistent(v, cutoffNs);
    var r := PruneValue(v, cutoffNs);
    hide PruneValue, DedupValue.Consistent;
    forall id | id in p.last && Live(p.last[id], cutoffNs)
      ensures Remembered(r, p, id)
    {
      assert Remembered(v, p, id);
    }
  }

  lemma {:induction false} AdvanceMirrors(v: DedupValue, p: Plain, dayStartNs: int, observedNs: int)
    requires Mirrors(v, p, dayStartNs) && dayStartNs <= observedNs
    ensures var m := Advance(v, observedNs);
            && m.watermarkNs == Max(p.watermarkNs, observedNs)
            && m.Consistent() && RecentAgrees(m, p) && AllLegacyAgrees(m, p, dayStartNs)
            && KeepsLive(m, p, m.watermarkNs - WINDOW_NS)
  {
    var moved := v.(watermarkNs := Max(v.watermarkNs, observedNs));
    var cutoffNs := moved.watermarkNs - WINDOW_NS;
    assert KeepsLive(moved, p, cutoffNs) by {
      forall id | id in p.last && Live(p.last[id], cutoffNs)
        ensures Remembered(moved, p, id)
      {
        assert Remembered(v, p, id);
      }
    }
    hide PruneValue;
    PruneKeepsAgreement(moved, p, dayStartNs, cutoffNs);
  }

  /** With agreement at the cutoff, the lookup finds exactly the plain map's live sighting. */
  lemma {:induction false} ConsultFindsTheLiveSighting(m: DedupValue, p: Plain, dayStartNs: int, id: Identity, cutoffNs: int)
    requires RecentAgrees(m, p) && AllLegacyAgrees(m, p, dayStartNs) && KeepsLive(m, p, cutoffNs)
    ensures Consult(m, id, cutoffNs) == if id in p.last && Live(p.last[id], cutoffNs) then Some(p.last[id]) else None
  {
    if id in p.last && Live(p.last[id], cutoffNs) {
      assert Remembered(m, p, id);
    }
    var k := IdentityKey(id);
    if k in m.legacy.seen {
      assert LegacyAgrees(m.legacy.seen[k], k, p, dayStartNs);
    }
  }

  lemma {:induction false} VerdictsAgree(v: DedupValue, p: Plain, dayStartNs: int, o: Observation)
    requires Mirrors(v, p, dayStartNs) && dayStartNs <= o.observedNs
    ensures ObserveValue(v, o).1 == PlainObserve(p, o).1
  {
    AdvanceMirrors(v, p, dayStartNs, o.observedNs);
    var m := Advance(v, o.observedNs);
    hide Mirrors;
    ConsultFindsTheLiveSighting(m, p, dayStartNs, o.id, m.watermarkNs - WINDOW_NS);
    hide Advance, Consult, Remember, RecentAgrees, AllLegacyAgrees, KeepsLive, DedupValue.Consistent;
  }

  /** One event of the day: the same verdict, and the mirror survives, whatever order events come in. */
  lemma {:induction false} ObserveRefinesPlain(v: DedupValue, p: Plain, dayStartNs: int, o: Observation)
    requires Mirrors(v, p, dayStartNs) && dayStartNs <= o.observedNs
    ensures ObserveValue(v, o).1 == PlainObserve(p, o).1
    ensures Mirrors(ObserveValue(v, o).0, PlainObserve(p, o).0, dayStartNs)
  {
    assert 0 <= p.watermarkNs && NoneAhead(p);
    VerdictsAgree(v, p, dayStartNs, o);
    AdvanceMirrors(v, p, dayStartNs, o.observedNs);
    var m, q := Advance(v, o.observedNs), PlainObserve(p, o).0;
    hide Advance, Consult, Remember, RecentAgrees, AllLegacyAgrees, KeepsLive, NoneAhead, DedupValue.Consistent, Mirrors;
    if PlainObserve(p, o).1.Conflict? {
      PassMirrors(m, p, q, dayStartNs);
    } else {
      RecordMirrors(m, p, q, dayStartNs, o.id, Sighting(o.payloadHash, o.observedNs));
    }
  }

  lemma {:induction false} PassMirrors(m: DedupValue, p: Plain, q: Plain, dayStartNs: int)
    requires m.Consistent() && RecentAgrees(m, p) && AllLegacyAgrees(m, p, dayStartNs) && KeepsLive(m, p, m.watermarkNs - WINDOW_NS)
    requires dayStartNs <= m.watermarkNs && 0 <= p.watermarkNs <= m.watermarkNs && NoneAhead(p)
    requires q == Plain(p.last, m.watermarkNs)
    ensures Mirrors(m, q, dayStartNs)
  {
    hide DedupValue.Consistent;
    forall id | id in q.last && Live(q.last[id], m.watermarkNs - WINDOW_NS)
      ensures Remembered(m, q, id)
    {
      assert Remembered(m, p, id);
    }
    assert AllLegacyAgrees(m, q, dayStartNs);
  }

  lemma {:induction false} RecordKeepsAgreement(m: DedupValue, r: DedupValue, p: Plain, q: Plain, dayStartNs: int, id: Identity, s: Sighting)
    requires RecentAgrees(m, p) && AllLegacyAgrees(m, p, dayStartNs) && KeepsLive(m, p, m.watermarkNs - WINDOW_NS)
    requires dayStartNs <= s.observedNs && q == Plain(p.last[id := s], m.watermarkNs)
    requires r.recent.seen == m.recent.seen[id := s] && r.legacy == m.legacy && r.watermarkNs == m.watermarkNs
    ensures RecentAgrees(r, q) && AllLegacyAgrees(r, q, dayStartNs) && KeepsLive(r, q, m.watermarkNs - WINDOW_NS)
  {
    forall k | k in r.legacy.seen
      ensures LegacyAgrees(r.legacy.seen[k], k, q, dayStartNs)
    {
      assert LegacyAgrees(m.legacy.seen[k], k, p, dayStartNs);
    }
    forall other | other in q.last && Live(q.last[other], m.watermarkNs - WINDOW_NS)
      ensures Remembered(r, q, other)
    {
      if other != id {
        assert Remembered(m, p, other);
      }
    }
  }

  lemma {:induction false} RecordMirrors(m: DedupValue, p: Plain, q: Plain, dayStartNs: int, id: Identity, s: Sighting)
    requires m.Consistent() && RecentAgrees(m, p) && AllLegacyAgrees(m, p, dayStartNs) && KeepsLive(m, p, m.watermarkNs - WINDOW_NS)
    requires dayStartNs <= s.observedNs <= m.watermarkNs && 0 <= p.watermarkNs <= m.watermarkNs && NoneAhead(p)
    requires q == Plain(p.last[id := s], m.watermarkNs)
    ensures Mirrors(m.(recent := Remember(m.recent, id, s)), q, dayStartNs)
  {
    var r := m.(recent := Remember(m.recent, id, s));
    RememberConsistent(m.recent, id, s);
    assert NoneAhead(q);
    assert r.recent.seen == m.recent.seen[id := s];
    hide Remember, Wheel.Consistent, AllLegacyAgrees, RecentAgrees, KeepsLive, NoneAhead;
    RecordKeepsAgreement(m, r, p, q, dayStartNs, id, s);
  }

  // ---- Whole runs ------------------------------------------------------------------------------

  /** Verdicts of a run of events; the first payload conflict, an error in the source, ends it. */
  function PlainRun(p: Plain, os: seq<Observation>): (Plain, seq<Verdict>)
    decreases os
  {
    if os == [] then (p, [])
    else
      var (q, verdict) := PlainObserve(p, os[0]);
      if verdict.Conflict? then (q, [verdict])
      else
        var (end, rest) := PlainRun(q, os[1..]);
        (end, [verdict] + rest)
  }

  function DedupRun(v: DedupValue, os: seq<Observation>): (DedupValue, seq<Verdict>)
    decreases os
  {
    if os == [] then (v, [])
    else
      var (w, verdict) := ObserveValue(v, os[0]);
      if verdict.Conflict? then (w, [verdict])
      else
        var (end, rest) := DedupRun(w, os[1..]);
        (end, [verdict] + rest)
  }

  predicate InDay(os: seq<Observation>, startNs: int, endNs: int) {
    forall i :: 0 <= i < |os| ==> startNs <= os[i].observedNs < endNs
  }

  lemma {:induction false} DayRefinesPlain(v: DedupValue, p: Plain, startNs: int, endNs: int, os: seq<Observation>)
    requires Mirrors(v, p, startNs) && InDay(os, startNs, endNs)
    ensures DedupRun(v, os).1 == PlainRun(p, os).1
    ensures Mirrors(DedupRun(v, os).0, PlainRun(p, os).0, startNs)
    ensures p.watermarkNs < endNs ==> PlainRun(p, os).0.watermarkNs < endNs
    decreases os
  {
    if os != [] {
      assert startNs <= os[0].observedNs < endNs;
      ObserveRefinesPlain(v, p, startNs, os[0]);
      var (w, verdict) := ObserveValue(v, os[0]);
      var (q, _) := PlainObserve(p, os[0]);
      hide ObserveValue, Mirrors;
      if !verdict.Conflict? {
        assert InDay(os[1..], startNs, endNs);
        DayRefinesPlain(w, q, startNs, endNs, os[1..]);
      }
    }
  }

  // ---- The checkpoint --------------------------------------------------------------------------

  /** A checkpoint file lists exactly a map's sightings. */
  predicate Lists(file: seq<CheckpointEntry>, m: map<Key, Sighting>) {
    && (forall i :: 0 <= i < |file| ==> file[i].key in m && m[file[i].key] == file[i].sighting)
    && (forall k :: k in m ==> CheckpointEntry(k, m[k]) in file)
  }

  /** The checkpoint holds exactly the plain map's sightings inside the window before the day end. */
  lemma {:induction false} CheckpointIsTheLiveMap(v: DedupValue, p: Plain, dayStartNs: int, dayEndNs: int)
    requires Mirrors(v, p, dayStartNs) && p.watermarkNs < dayEndNs && dayStartNs <= dayEndNs
    ensures var m, cutoffNs := CheckpointMap(v, dayEndNs), dayEndNs - WINDOW_NS;
            && (forall k :: k in m <==> k.digestOf in p.last && Live(p.last[k.digestOf], cutoffNs))
            && (forall k :: k in m ==> m[k] == p.last[k.digestOf])
  {
    var m, cutoffNs := CheckpointMap(v, dayEndNs), dayEndNs - WINDOW_NS;
    hide Overlay, Wheel.Consistent;
    forall k: Key
      ensures k in m <==> k.digestOf in p.last && Live(p.last[k.digestOf], cutoffNs)
      ensures k in m ==> m[k] == p.last[k.digestOf]
    {
      if k.digestOf in p.last && Live(p.last[k.digestOf], cutoffNs) {
        assert Remembered(v, p, k.digestOf);
      }
      if k in v.legacy.seen {
        assert LegacyAgrees(v.legacy.seen[k], k, p, dayStartNs);
      }
    }
  }

  lemma {:induction false} LoadedEntries(file: seq<CheckpointEntry>)
    ensures var v := LoadEntries(file);
            && v.recent.seen == map[] && 0 <= v.watermarkNs
            && (forall k :: k in v.legacy.seen ==> CheckpointEntry(k, v.legacy.seen[k]) in file)
            && (forall i :: 0 <= i < |file| ==> file[i].key in v.legacy.seen)
            && (forall i :: 0 <= i < |file| ==> file[i].sighting.observedNs <= v.watermarkNs)
            && (v.watermarkNs == 0 || exists i :: 0 <= i < |file| && file[i].sighting.observedNs == v.watermarkNs)
  {
    if file != [] {
      var front, e := file[..|file| - 1], file[|file| - 1];
      LoadedEntries(front);
      var f, v := LoadEntries(front), LoadEntries(file);
      assert v.legacy.seen == f.legacy.seen[e.key := e.sighting];
      assert file == front + [e];
      assert forall i :: 0 <= i < |front| ==> file[i] == front[i];
      hide LoadEntries, Remember;
      forall k | k in v.legacy.seen
        ensures CheckpointEntry(k, v.legacy.seen[k]) in file
      {
        if k == e.key {
          assert file[|front|] == CheckpointEntry(k, v.legacy.seen[k]);
        } else {
          assert CheckpointEntry(k, f.legacy.seen[k]) in front;
        }
      }
      if v.watermarkNs != 0 {
        if v.watermarkNs == e.sighting.observedNs {
          assert file[|front|].sighting.observedNs == v.watermarkNs;
        } else {
          var i :| 0 <= i < |front| && front[i].sighting.observedNs == f.watermarkNs;
          assert file[i].sighting.observedNs == v.watermarkNs;
        }
      }
    }
  }

  ghost predicate Loaded(w: DedupValue, p: Plain, dayEndNs: int) {
    && w.Consistent() && AllLegacyAgrees(w, p, dayEndNs) && KeepsLive(w, p, dayEndNs - WINDOW_NS)
    && 0 <= w.watermarkNs <= p.watermarkNs
    && w.recent.seen == map[] && (forall k :: k in w.legacy.seen ==> w.legacy.seen[k] == p.last[k.digestOf])
  }

  /** What the file's entries, before any expiry, say about the plain map. */
  lemma {:induction false} LoadedAgrees(p: Plain, m: map<Key, Sighting>, dayEndNs: int, file: seq<CheckpointEntry>)
    requires forall k :: k in m <==> k.digestOf in p.last && Live(p.last[k.digestOf], dayEndNs - WINDOW_NS)
    requires forall k :: k in m ==> m[k] == p.last[k.digestOf]
    requires Lists(file, m) && NoneAhead(p) && 0 <= p.watermarkNs < dayEndNs
    ensures Loaded(LoadEntries(file), p, dayEndNs)
  {
    LoadedEntries(file);
    LoadConsistent(file);
    var w := LoadEntries(file);
    hide LoadEntries, DedupValue.Consistent;
    forall k | k in w.legacy.seen
      ensures LegacyAgrees(w.legacy.seen[k], k, p, dayEndNs)
    {
      assert CheckpointEntry(k, w.legacy.seen[k]) in file;
    }
    forall id | id in p.last && Live(p.last[id], dayEndNs - WINDOW_NS)
      ensures Remembered(w, p, id)
    {
      var k := IdentityKey(id);
      assert CheckpointEntry(k, m[k]) in file;
      assert CheckpointEntry(k, w.legacy.seen[k]) in file;
    }
  }

  /** Loading any listing of the checkpoint mirrors the uncut plain map for the next day. */
  lemma {:induction false} LoadMirrors(v: DedupValue, p: Plain, dayStartNs: int, dayEndNs: int, nextStartNs: int, file: seq<CheckpointEntry>)
    requires Mirrors(v, p, dayStartNs) && p.watermarkNs < dayEndNs && dayStartNs <= dayEndNs <= nextStartNs
    requires Lists(file, CheckpointMap(v, dayEndNs))
    ensures Mirrors(LoadValue(file), p, nextStartNs)
  {
    CheckpointIsTheLiveMap(v, p, dayStartNs, dayEndNs);
    assert NoneAhead(p) && 0 <= p.watermarkNs;
    hide Mirrors, NoneAhead, CheckpointMap, Loaded, Lists, LoadEntries, PruneValue, AllLegacyAgrees, RecentAgrees, KeepsLive, DedupValue.Consistent;
    LoadedAgrees(p, CheckpointMap(v, dayEndNs), dayEndNs, file);
    PruneKeepsRemembered(LoadEntries(file), p, dayEndNs, nextStartNs);
  }

  /** Expiry below the loaded watermark forgets nothing that a later cutoff still counts. */
  lemma {:induction false} PruneKeepsRemembered(w: DedupValue, p: Plain, dayEndNs: int, nextStartNs: int)
    requires Loaded(w, p, dayEndNs) && NoneAhead(p) && p.watermarkNs < dayEndNs <= nextStartNs
    ensures Mirrors(PruneValue(w, w.watermarkNs - WINDOW_NS), p, nextStartNs)
  {
    var r := PruneValue(w, w.watermarkNs - WINDOW_NS);
    PruneKeepsLive(w, w.watermarkNs - WINDOW_NS);
    PruneConsistent(w, w.watermarkNs - WINDOW_NS);
    hide PruneValue, DedupValue.Consistent;
    forall id | id in p.last && Live(p.last[id], nextStartNs - WINDOW_NS)
      ensures Remembered(r, p, id)
    {
      assert Remembered(w, p, id);
    }
    forall k | k in r.legacy.seen
      ensures LegacyAgrees(r.legacy.seen[k], k, p, nextStartNs)
    {
      assert LegacyAgrees(w.legacy.seen[k], k, p, dayEndNs);
    }
  }

  // ---- Many days -------------------------------------------------------------------------------

  datatype Day = Day(startNs: int, endNs: int, observations: seq<Observation>)

  /** Days in order, each holding its own observations. */
  predicate Consecutive(days: seq<Day>, fromNs: int) {
    days == [] ||
    (fromNs <= days[0].startNs <= days[0].endNs && 0 < days[0].endNs && InDay(days[0].observations, days[0].startNs, days[0].endNs)
     && Consecutive(days[1..], days[0].endNs))
  }

  function AllObservations(days: seq<Day>): seq<Observation> {
    if days == [] then [] else days[0].observations + AllObservations(days[1..])
  }

  predicate Stopped(verdicts: seq<Verdict>) {
    verdicts != [] && verdicts[|verdicts| - 1].Conflict?
  }

  /** Verdicts of days run apart: each day loads some listing of the checkpoint the day before wrote. */
  ghost predicate CutRun(v: DedupValue, days: seq<Day>, verdicts: seq<Verdict>)
    decreases days
  {
    if days == [] then verdicts == []
    else
      var (w, first) := DedupRun(v, days[0].observations);
      if Stopped(first) then verdicts == first
      else exists file, rest ::
        Lists(file, CheckpointMap(w, days[0].endNs)) && CutRun(LoadValue(file), days[1..], rest) && verdicts == first + rest
  }

  lemma {:induction false} PlainRunConcat(p: Plain, a: seq<Observation>, b: seq<Observation>)
    ensures var first := PlainRun(p, a);
            PlainRun(p, a + b).1 == if Stopped(first.1) then first.1 else first.1 + PlainRun(first.0, b).1
    decreases a
  {
    hide PlainObserve;
    if a == [] {
      assert a + b == b;
    } else {
      assert (a + b)[0] == a[0] && (a + b)[1..] == a[1..] + b;
      PlainRunConcat(PlainObserve(p, a[0]).0, a[1..], b);
    }
  }

  /** Cutting a run at midnights through checkpoint files gives the verdicts of one plain map over all the days. */
  lemma {:induction false} CuttingAtMidnightIsInvisible(v: DedupValue, p: Plain, fromNs: int, days: seq<Day>, verdicts: seq<Verdict>)
    requires Consecutive(days, fromNs)
    requires days != [] ==> Mirrors(v, p, days[0].startNs) && p.watermarkNs < days[0].endNs
    requires CutRun(v, days, verdicts)
    ensures verdicts == PlainRun(p, AllObservations(days)).1
    decreases days
  {
    if days != [] {
      var d := days[0];
      DayRefinesPlain(v, p, d.startNs, d.endNs, d.observations);
      var (w, first) := DedupRun(v, d.observations);
      var q := PlainRun(p, d.observations).0;
      PlainRunConcat(p, d.observations, AllObservations(days[1..]));
      hide DedupRun, PlainRun, Mirrors, CheckpointMap, LoadValue;
      if !Stopped(first) {
        var file, rest :| Lists(file, CheckpointMap(w, d.endNs)) && CutRun(LoadValue(file), days[1..], rest) && verdicts == first + rest;
        if days[1..] != [] {
          LoadMirrors(w, q, d.startNs, d.endNs, days[1].startNs, file);
        }
        CuttingAtMidnightIsInvisible(LoadValue(file), q, d.endNs, days[1..], rest);
      }
    }
  }

  /** The same from an empty deduplicator: the first day has no checkpoint to load. */
  lemma {:induction false} EveryRunIsThePlainMap(days: seq<Day>, verdicts: seq<Verdict>)
    requires Consecutive(days, 0) && CutRun(LoadValue([]), days, verdicts)
    ensures verdicts == PlainRun(Plain(map[], 0), AllObservations(days)).1
  {
    if days != [] {
      LoadConsistent([]);
      assert Mirrors(LoadValue([]), Plain(map[], 0), days[0].startNs);
    }
    CuttingAtMidnightIsInvisible(LoadValue([]), Plain(map[], 0), 0, days, verdicts);
  }

  /** Every checkpoint can be listed, so cut runs exist: the results above are never about nothing. */
  lemma {:induction false} ListingExists(m: map<Key, Sighting>) returns (file: seq<CheckpointEntry>)
    ensures Lists(file, m)
    decreases |m|
  {
    if m == map[] {
      file := [];
    } else {
      assert exists k :: k in m by {
        if forall k :: k !in m {
          assert false;
        }
      }
      var k :| k in m;
      var rest := ListingExists(m - {k});
      file := [CheckpointEntry(k, m[k])] + rest;
      forall x | x in m
        ensures CheckpointEntry(x, m[x]) in file
      {
        if x != k {
          assert CheckpointEntry(x, (m - {k})[x]) in rest;
        } else {
          assert file[0] == CheckpointEntry(x, m[x]);
        }
      }
    }
  }

  lemma {:induction false} CutRunExists(v: DedupValue, days: seq<Day>) returns (verdicts: seq<Verdict>)
    ensures CutRun(v, days, verdicts)
    decreases days
  {
    if days == [] {
      verdicts := [];
    } else {
      var (w, first) := DedupRun(v, days[0].observations);
      if Stopped(first) {
        verdicts := first;
      } else {
        var file := ListingExists(CheckpointMap(w, days[0].endNs));
        var rest := CutRunExists(LoadValue(file), days[1..]);
        verdicts := first + rest;
      }
    }
  }
}
