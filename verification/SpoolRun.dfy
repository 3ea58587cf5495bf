/** SpoolManager.apply_acks (collector/spool.py): the run over all ACKs and transactions, proved to end at its target. */
module SpoolRun {
  import opened Wrappers
  import opened Spool

  class EdgeSpool {
    var data: map<Path, Content>
    var ready: map<Path, ManifestFile>
    var acked: map<(int, Path), ManifestFile>
    var acks: map<ChunkId, AckFile>
    var applying: map<ChunkId, TransactionFile>
    var sealedDays: set<int>

    ghost function Value(): Edge
      reads this
    {
      Edge(data, ready, acked, acks, applying, sealedDays)
    }

    constructor (e: Edge)
      ensures Value() == e
    {
      data, ready, acked, acks, applying, sealedDays := e.data, e.ready, e.acked, e.acks, e.applying, e.sealedDays;
    }

    /**
     * Applies every ACK, then every transaction. Whatever an earlier run left behind, this ends at the target, each ACK
     * judged as the state at the start demands.
     */
    method ApplyAcks() returns (verdicts: map<ChunkId, Verdict>)
      requires Coherent(Value())
      modifies this
      ensures Value() == Target(old(Value()))
      ensures verdicts.Keys == old(acks.Keys) && forall id :: id in verdicts ==> verdicts[id] == JudgeAck(old(Value()), id)
    {
      hide Coherent, Target, JudgeAck, Scan, Settled, Enabled, Take;
      verdicts := TakeInAcks();
      ApplyTransactions();
      NothingLeft(Value());
    }

    method TakeInAcks() returns (verdicts: map<ChunkId, Verdict>)
      requires Coherent(Value())
      modifies this`acks, this`applying
      ensures acks == map[] && Coherent(Value()) && Target(Value()) == Target(old(Value()))
      ensures verdicts.Keys == old(acks.Keys) && forall id :: id in verdicts ==> verdicts[id] == JudgeAck(old(Value()), id)
    {
      hide Coherent, Target, JudgeAck, Scan, Settled;
      var manifests := ScanReady(ready);
      verdicts := map[];
      while acks != map[]
        invariant acks.Keys <= old(acks.Keys) && verdicts.Keys == old(acks.Keys) - acks.Keys
        invariant forall id :: id in verdicts ==> verdicts[id] == JudgeAck(old(Value()), id)
        invariant forall id :: id in acks ==> acks[id] == old(acks[id]) && SameTransaction(applying, old(applying), id)
        invariant Coherent(Value()) && Target(Value()) == Target(old(Value()))
        decreases |acks|
      {
        var id := Pick(acks.Keys);
        ghost var before := Value();
        JudgedAlone(old(Value()), before, id);
        var verdict := TakeInAck(id, manifests);
        verdicts := verdicts[id := verdict];
        forall x | x in acks
          ensures acks[x] == old(acks[x]) && SameTransaction(applying, old(applying), x)
        {
          assert SameTransaction(applying, before.applying, x);
        }
      }
    }

    /** One ACK: accepted ones leave a transaction, and every one leaves the directory. */
    method TakeInAck(id: ChunkId, manifests: map<ChunkId, Manifest>) returns (verdict: Verdict)
      requires id in acks && manifests == Scan(ready) && Coherent(Value())
      modifies this`acks, this`applying
      ensures verdict == JudgeAck(old(Value()), id)
      ensures acks == old(acks) - {id} && forall x :: x != id ==> SameTransaction(applying, old(applying), x)
      ensures Coherent(Value()) && Target(Value()) == Target(old(Value()))
    {
      hide Coherent, Target, Scan, Settled, KnownAcked;
      ghost var before := Value();
      verdict := Judge(id, manifests);
      hide JudgeAck;
      if verdict.Accepted? && id !in applying {
        StepKeepsTarget(before, Begin(id));
        applying := applying[id := Written(acks[id].ack, manifests[id])];
        assert Value() == Take(before, Begin(id)) by {
          AcceptedHasAck(before, id);
        }
        StillAccepted(before, id);
      }
      ghost var begun := Value();
      assert Enabled(begun, Dispose(id));
      StepKeepsTarget(begun, Dispose(id));
      acks := acks - {id};
      assert Value() == Take(begun, Dispose(id));
    }

    /** The branches an ACK goes through. */
    method Judge(id: ChunkId, manifests: map<ChunkId, Manifest>) returns (verdict: Verdict)
      requires id in acks && manifests == Scan(ready)
      ensures verdict == JudgeAck(Value(), id)
      ensures verdict.Accepted? ==> acks[id].Acknowledged? && id in manifests
    {
      hide Scan, KnownAcked;
      if acks[id].Garbled? || acks[id].ack.chunkId != id {
        return Invalid;
      }
      var ack := acks[id].ack;
      if id !in manifests {
        var known := KnownAcked(acked, id);
        if known.Some? {
          return if ack.sha != known.value.sha then HashMismatch else Replayed;
        }
        return Unknown;
      }
      if ack.sha != manifests[id].sha {
        return HashMismatch;
      }
      if id in applying && applying[id] != Written(ack, manifests[id]) {
        return TransactionConflict;
      }
      return Accepted;
    }

    method ApplyTransactions()
      requires acks == map[] && Coherent(Value())
      modifies this`data, this`ready, this`acked, this`applying
      ensures acks == map[] && applying == map[] && Coherent(Value()) && Target(Value()) == Target(old(Value()))
    {
      hide Coherent, Target, Settled;
      var todo := applying.Keys;
      var completed: set<ChunkId> := {};
      while todo != {}
        invariant todo !! completed && todo + completed == applying.Keys
        invariant forall id :: id in completed ==> Cleared(Value(), id)
        invariant acks == map[] && Coherent(Value()) && Target(Value()) == Target(old(Value()))
        decreases |todo|
      {
        var id := Pick(todo);
        todo := todo - {id};
        ghost var before := Value();
        var done := ApplyTransaction(id);
        if done {
          completed := completed + {id};
        }
        hide Cleared;
        forall x | x in completed && x != id
          ensures Cleared(Value(), x)
        {
          ClearedStays(before, Value(), x);
        }
      }
      FinishTransactions(completed);
    }

    /** At the very end the completed transaction files go. */
    method FinishTransactions(all: set<ChunkId>)
      requires acks == map[] && Coherent(Value())
      requires all == applying.Keys && forall id :: id in all ==> Cleared(Value(), id)
      modifies this`applying
      ensures applying == map[] && Coherent(Value()) && Target(Value()) == Target(old(Value()))
    {
      hide Coherent, Target, Settled, JudgeAck;
      var completed := all;
      while completed != {}
        invariant completed == applying.Keys
        invariant forall id :: id in completed ==> Cleared(Value(), id)
        invariant Coherent(Value()) && Target(Value()) == Target(old(Value()))
        decreases |completed|
      {
        var id := Pick(completed);
        ghost var before := Value();
        StepKeepsTarget(before, Finish(id));
        applying := applying - {id};
        completed := completed - {id};
        forall x | x in completed
          ensures Cleared(Value(), x)
        {
          ClearedStays(before, Value(), x);
        }
      }
      assert applying == map[];
    }

    /** One transaction: the manifest moves or, on a sealed day, goes; then the data; a bad file is quarantined. */
    method ApplyTransaction(id: ChunkId) returns (done: bool)
      requires acks == map[] && id in applying && Coherent(Value())
      modifies this`data, this`ready, this`acked, this`applying
      ensures Coherent(Value()) && Target(Value()) == Target(old(Value()))
      ensures ready.Keys <= old(ready.Keys) && data.Keys <= old(data.Keys)
      ensures done ==> applying == old(applying) && Cleared(Value(), id)
      ensures !done ==> applying == old(applying) - {id}
    {
      hide Coherent, Target, JudgeAck, Scan;
      ghost var start := Value();
      if applying[id].Unreadable? || applying[id].ack.sha != applying[id].manifest.sha {
        StepKeepsTarget(start, Quarantine(id));
        applying := applying - {id};
        return false;
      }
      var m := applying[id].manifest;
      StepKeepsTarget(start, Retire(id));
      if m.path in ready && m.day in sealedDays {
        ready := ready - {m.path};
      } else if m.path in ready {
        acked := acked[(m.day, m.path) := ready[m.path]];
        ready := ready - {m.path};
      }
      ghost var retired := Value();
      assert retired == Take(start, Retire(id));
      StepKeepsTarget(retired, Unlink(id));
      if m.path in data {
        data := data - {m.path};
      }
      assert Value() == Take(retired, Unlink(id));
      done := true;
    }
  }

  /** Whichever comes next in a directory listing. */
  method Pick(s: set<ChunkId>) returns (x: ChunkId)
    requires s != {}
    ensures x in s
  {
    assert exists k :: k in s by {
      if forall k :: k !in s {
        assert false;
      }
    }
    x :| x in s;
  }

  predicate SameTransaction(a: map<ChunkId, TransactionFile>, b: map<ChunkId, TransactionFile>, id: ChunkId) {
    (id in a <==> id in b) && (id in a ==> a[id] == b[id])
  }

  /** A transaction with nothing left to do. */
  ghost predicate Cleared(e: Edge, id: ChunkId) {
    id in e.applying && Settled(e, id).Some? && Settled(e, id).value.path !in e.ready && Settled(e, id).value.path !in e.data
  }

  lemma ClearedStays(e: Edge, f: Edge, id: ChunkId)
    requires Cleared(e, id) && id in f.applying && f.applying[id] == e.applying[id]
    requires f.ready.Keys <= e.ready.Keys && f.data.Keys <= e.data.Keys
    ensures Cleared(f, id)
  {
  }

  /** An ACK's verdict depends on its own file and transaction and on the trees, not on other ACKs. */
  lemma JudgedAlone(e: Edge, f: Edge, id: ChunkId)
    requires id in e.acks && id in f.acks && e.acks[id] == f.acks[id] && SameTransaction(f.applying, e.applying, id)
    requires e.ready == f.ready && e.acked == f.acked
    ensures JudgeAck(e, id) == JudgeAck(f, id)
  {
  }

  lemma AcceptedHasAck(e: Edge, id: ChunkId)
    requires id in e.acks && JudgeAck(e, id).Accepted?
    ensures e.acks[id].Acknowledged? && id in Scan(e.ready)
  {
  }

  lemma StillAccepted(e: Edge, id: ChunkId)
    requires Enabled(e, Begin(id))
    ensures JudgeAck(Take(e, Begin(id)), id).Accepted?
  {
  }

  /** A run that dies after any of its steps, and the run after it, end where one uninterrupted run ends. */
  lemma RerunReachesTheSameState(e: Edge, f: Edge, steps: seq<Step>)
    requires Coherent(e) && Interrupted(e, f, steps)
    ensures Coherent(f) && Target(f) == Target(e)
  {
    CrashKeepsTarget(e, f, steps);
  }
}
