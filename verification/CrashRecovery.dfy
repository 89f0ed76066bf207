/**
 What every run of the durable store recovers after a crash: exactly the
 memory, for keys that were never given a time to live.
 */
module CrashRecovery {
  import opened Bytes
  import opened Lww
  import opened Records
  import opened Recovery
  import opened Durable

  /** The part of the log that memory has seen. */
  function Applied(s: State): seq<Op>
  {
    if s.phase.Logged? && s.log != [] then s.log[..|s.log| - 1] else s.log
  }

  /** The entries of memory once the operation in flight, if any, is done. */
  function Settled(s: State): Entries
  {
    if s.phase.Logged? then Apply(s.mem.entries, s.phase.op) else s.mem.entries
  }

  // ------------------------------------------------ exact recovery of a key

  /** No request of the run gives `k` a time to live. */
  ghost predicate UntimedRun(es: seq<Event>, k: Key)
  {
    forall i :: 0 <= i < |es| && es[i].LogSet? && es[i].key == k ==> es[i].ttl == 0
  }

  predicate UntimedSlot(s: Slot)
  {
    s.Some? ==> s.value.expiresAt == 0
  }

  predicate UntimedOp(op: Op, k: Key)
  {
    op.key == k && op.Set? ==> op.expiresAt == 0
  }

  ghost predicate UntimedOps(ops: seq<Op>, k: Key)
  {
    forall i :: 0 <= i < |ops| ==> UntimedOp(ops[i], k)
  }

  /** Memory holds for `k` what the snapshot and the applied log give, and none of it is timed. */
  ghost predicate Exact(s: State, k: Key)
  {
    && FoldAt(Lookup(s.snap, k), k, Applied(s)) == Lookup(s.mem.entries, k)
    && UntimedOps(s.log, k)
    && UntimedSlot(Lookup(s.snap, k))
    && UntimedSlot(Lookup(s.mem.entries, k))
    && (s.phase.Renamed? ==> Lookup(s.snap, k) == Lookup(s.mem.entries, k))
  }

  lemma {:induction false} UntimedLive(s: Slot, k: Key, ops: seq<Op>, now: nat)
    requires UntimedOps(ops, k)
    ensures FoldAt(s, k, LiveOps(ops, now)) == FoldAt(s, k, ops)
  {
    if ops != [] {
      var n := |ops| - 1;
      UntimedLive(s, k, ops[..n], now);
      if !DeadOp(ops[n], now) {
        FoldAtSnoc(s, k, LiveOps(ops[..n], now), ops[n]);
      } else {
        assert UntimedOp(ops[n], k);
      }
    }
  }

  lemma {:induction false} FoldUntimed(s: Slot, k: Key, ops: seq<Op>)
    requires UntimedOps(ops, k) && UntimedSlot(s)
    ensures UntimedSlot(FoldAt(s, k, ops))
  {
    if ops != [] {
      var n := |ops| - 1;
      assert UntimedOp(ops[n], k);
      FoldUntimed(s, k, ops[..n]);
    }
  }

  lemma BeginExact(s: State, op: Op, last: nat, k: Key)
    requires OnDisk(s) && Exact(s, k) && UntimedOp(op, k)
    ensures Exact(Begin(s, op, last), k)
  {
    hide FoldAt, LogFile, SnapshotHolds, StorableEntries, Encode, InRange;
    var s' := Begin(s, op, last);
    assert Applied(s') == Applied(s);
  }

  lemma LoggedLast(s: State)
    requires OnDisk(s) && s.phase.Logged?
    ensures s.log == Applied(s) + [s.phase.op]
  {
    hide LogFile, SnapshotHolds, StorableEntries;
  }

  /** What the whole log gives for a key is what memory holds once the logged operation is applied. */
  lemma SettledFold(s: State, k: Key)
    requires OnDisk(s) && FoldAt(Lookup(s.snap, k), k, Applied(s)) == Lookup(s.mem.entries, k)
    ensures FoldAt(Lookup(s.snap, k), k, s.log) == Lookup(Settled(s), k)
  {
    hide FoldAt, OnDisk, Apply, StepAt;
    if s.phase.Logged? {
      LoggedLast(s);
      FoldAtSnoc(Lookup(s.snap, k), k, Applied(s), s.phase.op);
      LookupApply(s.mem.entries, s.phase.op, k);
    }
  }

  lemma FinishExact(s: State, k: Key)
    requires OnDisk(s) && Exact(s, k)
    ensures Exact(Finish(s), k)
  {
    hide FoldAt, OnDisk, Apply;
    SettledFold(s, k);
    FoldUntimed(Lookup(s.snap, k), k, s.log);
  }

  /** A committed snapshot under the log it was taken from: the log replays over its own result. */
  lemma CommitExact(s: State, order: seq<Key>, k: Key)
    requires Exact(s, k)
    ensures Exact(Commit(s, order), k)
  {
    hide FoldAt, SnapshotFile, IsListing;
    FoldTwice(Lookup(s.snap, k), k, s.log);
  }

  lemma TruncateExact(s: State, k: Key)
    requires Exact(s, k)
    ensures Exact(Truncate(s), k)
  {
    assert FoldAt(Lookup(s.snap, k), k, []) == Lookup(s.snap, k);
    hide FoldAt;
  }

  lemma RestartFrame(s: State)
    ensures Restart(s).log == s.log && Restart(s).snap == s.snap
  {
    hide Recover;
  }

  lemma RestartExact(s: State, k: Key)
    requires OnDisk(s) && Exact(s, k)
    ensures Exact(Restart(s), k)
  {
    hide OnDisk, Restart, FoldAt, ApplyAll, LiveOps;
    RestartOnDisk(s);
    LookupApplyAll(s.snap, LiveOps(s.log, s.clock), k);
    UntimedLive(Lookup(s.snap, k), k, s.log, s.clock);
    FoldUntimed(Lookup(s.snap, k), k, s.log);
    RestartFrame(s);
  }

  lemma TickExact(s: State, d: nat, k: Key)
    requires Exact(s, k)
    ensures Exact(s.(clock := s.clock + d), k)
  {
    hide FoldAt;
  }

  lemma ReapExact(s: State, key: Key, k: Key)
    requires Exact(s, k)
    ensures Exact(ReapKey(s, key), k)
  {
    hide FoldAt;
  }

  lemma StepExact(s: State, e: Event, k: Key)
    requires OnDisk(s) && Exact(s, k)
    requires e.LogSet? && e.key == k ==> e.ttl == 0
    ensures Exact(Step(s, e), k)
  {
    hide OnDisk, Exact, Begin, Finish, ReapKey, Commit, Truncate, Restart;
    match e {
      case Tick(d) => TickExact(s, d, k);
      case LogSet(key, v, ttl, version) =>
        BeginExact(s, Set(key, v, Chosen(s.mem.lastVersion, version, s.clock), if ttl > 0 then s.clock + ttl else 0),
                   Minted(s.mem.lastVersion, version, s.clock), k);
      case LogDelete(key, version) =>
        BeginExact(s, Delete(key, Chosen(s.mem.lastVersion, version, s.clock)),
                   Minted(s.mem.lastVersion, version, s.clock), k);
      case ApplyLogged => FinishExact(s, k);
      case Reap(key) => ReapExact(s, key, k);
      case CommitSnapshot(order) => CommitExact(s, order, k);
      case TruncateLog => TruncateExact(s, k);
      case Crash => RestartExact(s, k);
    }
  }

  lemma InitialExact(k: Key)
    ensures Exact(INITIAL, k)
  {
    assert FoldAt(None, k, []) == None;
  }

  lemma UntimedPrefix(es: seq<Event>, k: Key)
    requires UntimedRun(es, k) && es != []
    ensures UntimedRun(es[..|es| - 1], k)
    ensures var e := es[|es| - 1]; e.LogSet? && e.key == k ==> e.ttl == 0
  {
  }

  lemma {:induction false} RunExact(es: seq<Event>, k: Key)
    requires UntimedRun(es, k)
    ensures Exact(Run(es), k)
  {
    hide Exact, Step, OnDisk, UntimedRun;
    if es == [] {
      InitialExact(k);
    } else {
      var n := |es| - 1;
      UntimedPrefix(es, k);
      RunExact(es[..n], k);
      RunOnDisk(es[..n]);
      StepExact(Run(es[..n]), es[n], k);
    }
  }

  lemma RecoversExact(s: State, k: Key, now: nat)
    requires OnDisk(s) && Exact(s, k)
    ensures Recover(s.disk, now).Ok?
    ensures Lookup(Recover(s.disk, now).value.entries, k) == Lookup(Settled(s), k)
  {
    hide OnDisk, Recover, ApplyAll, LiveOps, FoldAt;
    RecoverOnDisk(s, now);
    LookupApplyAll(s.snap, LiveOps(s.log, now), k);
    UntimedLive(Lookup(s.snap, k), k, s.log, now);
    SettledFold(s, k);
  }

  /**
   Crash recovery, key by key: in every run, whatever crashes it already holds and
   wherever it stops, start-up succeeds at any later time and restores every key
   that was never given a time to live to its value in memory, with the operation in
   flight, if any, completed.
   */
  lemma RecoversKeyExactly(es: seq<Event>, k: Key, now: nat)
    requires UntimedRun(es, k)
    ensures Recover(Run(es).disk, now).Ok?
    ensures Lookup(Recover(Run(es).disk, now).value.entries, k) == Lookup(Settled(Run(es)), k)
  {
    hide *;
    RunOnDisk(es);
    RunExact(es, k);
    RecoversExact(Run(es), k, now);
  }

  /**
   Crash recovery of the whole map: a run without any time to live restores exactly the
   map just before or, when an operation was logged but not applied, just after it.
   */
  lemma RecoversExactly(es: seq<Event>, now: nat)
    requires forall i :: 0 <= i < |es| && es[i].LogSet? ==> es[i].ttl == 0
    ensures Recover(Run(es).disk, now).Ok?
    ensures Recover(Run(es).disk, now).value.entries == Settled(Run(es))
  {
    hide Run, Recover, Settled;
    RecoversKeyExactly(es, [], now);
    var got := Recover(Run(es).disk, now).value.entries;
    forall k
      ensures Lookup(got, k) == Lookup(Settled(Run(es)), k)
    {
      RecoversKeyExactly(es, k, now);
    }
    SameLookups(got, Settled(Run(es)));
  }
}
