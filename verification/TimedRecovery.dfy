/**
 Recovery with times to live: expired records are skipped by replay, expired
 entries are reaped from memory, and snapshots are loaded whether expired or not.
 */
module TimedRecovery {
  import opened Bytes
  import opened Lww
  import opened Records
  import opened Recovery
  import opened Durable
  import opened CrashRecovery

  /** An operation that leaves an entry of version `v` for `k` in place from `now` on. */
  predicate Harmless(op: Op, k: Key, v: nat, now: nat)
  {
    op.key == k ==> op.version < v || DeadOp(op, now)
  }

  /**
   `e` was put by an operation of the log, or by the snapshot under it, and everything
   logged for `k` since then is harmless to it.
   */
  predicate Backed(s: Slot, k: Key, ops: seq<Op>, e: Entry, now: nat)
  {
    if ops == [] then s == Some(e)
    else
      var front, last := ops[..|ops| - 1], ops[|ops| - 1];
      last == SetOf(k, e) || (Harmless(last, k, e.version, now) && Backed(s, k, front, e, now))
  }

  lemma BackedSnoc(s: Slot, k: Key, ops: seq<Op>, op: Op, e: Entry, now: nat)
    ensures Backed(s, k, ops + [op], e, now) <==>
            op == SetOf(k, e) || (Harmless(op, k, e.version, now) && Backed(s, k, ops, e, now))
  {
    assert (ops + [op])[..|ops + [op]| - 1] == ops;
  }

  lemma {:induction false} BackedLater(s: Slot, k: Key, ops: seq<Op>, e: Entry, t: nat, now: nat)
    requires Backed(s, k, ops, e, t) && t <= now
    ensures Backed(s, k, ops, e, now)
  {
    if ops != [] && ops[|ops| - 1] != SetOf(k, e) {
      BackedLater(s, k, ops[..|ops| - 1], e, t, now);
    }
  }

  lemma {:induction false} BackedBySnapshot(s: Slot, k: Key, ops: seq<Op>, e: Entry, now: nat)
    requires Backed(s, k, ops, e, now)
    ensures Backed(Some(e), k, ops, e, now)
  {
    if ops != [] && ops[|ops| - 1] != SetOf(k, e) {
      BackedBySnapshot(s, k, ops[..|ops| - 1], e, now);
    }
  }

  function FoldLive(s: Slot, k: Key, ops: seq<Op>, now: nat): Slot
  {
    FoldAt(s, k, LiveOps(ops, now))
  }

  lemma FoldLiveStep(s: Slot, k: Key, ops: seq<Op>, now: nat)
    requires ops != []
    ensures var n := |ops| - 1;
            FoldLive(s, k, ops, now) ==
            if DeadOp(ops[n], now) then FoldLive(s, k, ops[..n], now)
            else StepAt(FoldLive(s, k, ops[..n], now), k, ops[n])
  {
    var n := |ops| - 1;
    if !DeadOp(ops[n], now) {
      FoldAtSnoc(s, k, LiveOps(ops[..n], now), ops[n]);
    }
  }

  lemma FoldLiveNil(s: Slot, k: Key, now: nat)
    ensures FoldLive(s, k, [], now) == s
  {
  }

  /** What replay ends with is backed by the log it replayed. */
  lemma {:induction false} ReplayBacks(s: Slot, k: Key, ops: seq<Op>, now: nat)
    requires FoldLive(s, k, ops, now).Some?
    ensures Backed(s, k, ops, FoldLive(s, k, ops, now).value, now)
  {
    hide FoldLive;
    if ops == [] {
      assert FoldLive(s, k, [], now) == s by { FoldLiveNil(s, k, now); }
    } else {
      FoldLiveStep(s, k, ops, now);
      if FoldLive(s, k, ops[..|ops| - 1], now).Some? {
        ReplayBacks(s, k, ops[..|ops| - 1], now);
      }
    }
  }

  /** A backed entry that is still running comes back with at least its version. */
  lemma {:induction false} BackedRecovers(s: Slot, k: Key, ops: seq<Op>, e: Entry, t: nat, now: nat)
    requires Backed(s, k, ops, e, t) && t <= now && !Gone(e.expiresAt, now)
    ensures FoldLive(s, k, ops, now).Some?
    ensures FoldLive(s, k, ops, now).value.version >= e.version
  {
    hide FoldLive;
    if ops == [] {
      FoldLiveNil(s, k, now);
    } else {
      FoldLiveStep(s, k, ops, now);
      if ops[|ops| - 1] != SetOf(k, e) {
        BackedRecovers(s, k, ops[..|ops| - 1], e, t, now);
      }
    }
  }

  /** No operation that replay applies reaches the version of the snapshot's entry: replay leaves it in place. */
  ghost predicate Kept(s: Slot, k: Key, ops: seq<Op>, now: nat)
  {
    s.Some? && AllBelow(k, LiveOps(ops, now), s.value.version)
  }

  /** The snapshot's entry for `k` has expired, and replay leaves it in place. */
  ghost predicate Shadowed(s: Slot, k: Key, ops: seq<Op>, now: nat)
  {
    Kept(s, k, ops, now) && Expired(s.value, now)
  }

  /** Replay puts nothing whose time is up, so such an entry was left from the snapshot. */
  lemma {:induction false} GoneIsKept(s: Slot, k: Key, ops: seq<Op>, now: nat)
    requires FoldLive(s, k, ops, now).Some? && Gone(FoldLive(s, k, ops, now).value.expiresAt, now)
    ensures Kept(s, k, ops, now) && FoldLive(s, k, ops, now) == s
  {
    if ops == [] {
      FoldLiveNil(s, k, now);
    } else {
      FoldLiveStep(s, k, ops, now);
      hide FoldLive;
      GoneIsKept(s, k, ops[..|ops| - 1], now);
    }
  }

  /** Replay ends with an expired entry exactly when an expired snapshot entry shadows the log. */
  lemma ExpiredIffShadowed(s: Slot, k: Key, ops: seq<Op>, now: nat)
    requires FoldLive(s, k, ops, now).Some?
    ensures Expired(FoldLive(s, k, ops, now).value, now) <==> Shadowed(s, k, ops, now)
  {
    if Kept(s, k, ops, now) {
      FoldBelow(s, k, LiveOps(ops, now));
    } else if Expired(FoldLive(s, k, ops, now).value, now) {
      GoneIsKept(s, k, ops, now);
    }
  }

  // ------------------------------------------------------- what comes back

  predicate Readable(s: Slot, now: nat)
  {
    s.Some? && !Expired(s.value, now)
  }

  /** What is readable after replay, told from the snapshot's entry and the log alone. */
  ghost predicate ComesBack(s: Slot, k: Key, ops: seq<Op>, now: nat)
  {
    if Kept(s, k, ops, now) then !Expired(s.value, now)
    else exists e :: Backed(s, k, ops, e, now) && !Gone(e.expiresAt, now)
  }

  /** Exactly which keys replay makes readable, whatever expires when, the very moment of recovery included. */
  lemma ReadableIff(s: Slot, k: Key, ops: seq<Op>, now: nat)
    ensures Readable(FoldLive(s, k, ops, now), now) <==> ComesBack(s, k, ops, now)
  {
    if Kept(s, k, ops, now) {
      FoldBelow(s, k, LiveOps(ops, now));
    } else {
      hide Kept, FoldLive, Backed;
      if FoldLive(s, k, ops, now).Some? {
        ReplayBacks(s, k, ops, now);
        if Gone(FoldLive(s, k, ops, now).value.expiresAt, now) {
          GoneIsKept(s, k, ops, now);
        }
      }
      if e :| Backed(s, k, ops, e, now) && !Gone(e.expiresAt, now) {
        BackedRecovers(s, k, ops, e, now, now);
        ExpiredIffShadowed(s, k, ops, now);
      }
    }
  }

  // ------------------------------------------------------------- every run

  /** Memory's entry for `k`, while it is still running, is backed by the files. */
  ghost predicate Covered(s: State, k: Key)
  {
    k in s.mem.entries && !Gone(s.mem.entries[k].expiresAt, s.clock) ==>
      && Backed(Lookup(s.snap, k), k, Applied(s), s.mem.entries[k], s.clock)
      && (s.phase.Renamed? ==> Lookup(s.snap, k) == Some(s.mem.entries[k]))
  }

  lemma TickCovered(s: State, d: nat, k: Key)
    requires Covered(s, k)
    ensures Covered(s.(clock := s.clock + d), k)
  {
    hide Backed;
    var s' := s.(clock := s.clock + d);
    if k in s'.mem.entries && !Gone(s'.mem.entries[k].expiresAt, s'.clock) {
      BackedLater(Lookup(s.snap, k), k, Applied(s), s.mem.entries[k], s.clock, s'.clock);
    }
  }

  lemma BeginCovered(s: State, op: Op, last: nat, k: Key)
    requires Covered(s, k)
    ensures Covered(Begin(s, op, last), k)
  {
    hide Backed, InRange, Encode;
    assert Applied(Begin(s, op, last)) == Applied(s);
  }

  lemma FinishCovered(s: State, k: Key)
    requires OnDisk(s) && Covered(s, k)
    ensures Covered(Finish(s), k)
  {
    hide Backed, OnDisk;
    if s.phase.Logged? && k in Finish(s).mem.entries {
      LoggedLast(s);
      BackedSnoc(Lookup(s.snap, k), k, Applied(s), s.phase.op, Finish(s).mem.entries[k], s.clock);
    }
  }

  lemma ReapCovered(s: State, key: Key, k: Key)
    requires Covered(s, k)
    ensures Covered(ReapKey(s, key), k)
  {
    hide Backed;
  }

  lemma CommitCovered(s: State, order: seq<Key>, k: Key)
    requires Covered(s, k)
    ensures Covered(Commit(s, order), k)
  {
    hide Backed, SnapshotFile, IsListing;
    if s.phase.Idle? && k in s.mem.entries && !Gone(s.mem.entries[k].expiresAt, s.clock) {
      BackedBySnapshot(Lookup(s.snap, k), k, s.log, s.mem.entries[k], s.clock);
    }
  }

  lemma TruncateCovered(s: State, k: Key)
    requires Covered(s, k)
    ensures Covered(Truncate(s), k)
  {
  }

  lemma RestartClock(s: State)
    ensures Restart(s).clock == s.clock
  {
    hide Recover;
  }

  lemma RestartCovered(s: State, k: Key)
    requires OnDisk(s)
    ensures Covered(Restart(s), k)
  {
    hide OnDisk, Restart, Backed, ApplyAll, LiveOps, FoldAt;
    RestartOnDisk(s);
    RestartFrame(s);
    LookupApplyAll(s.snap, LiveOps(s.log, s.clock), k);
    if k in Restart(s).mem.entries {
      ReplayBacks(Lookup(s.snap, k), k, s.log, s.clock);
      assert Restart(s).clock == s.clock by { RestartClock(s); }
    }
  }

  lemma StepCovered(s: State, e: Event, k: Key)
    requires OnDisk(s) && Covered(s, k)
    ensures Covered(Step(s, e), k)
  {
    hide OnDisk, Covered, Begin, Finish, ReapKey, Commit, Truncate, Restart;
    match e {
      case Tick(d) => TickCovered(s, d, k);
      case LogSet(key, v, ttl, version) =>
        BeginCovered(s, Set(key, v, Chosen(s.mem.lastVersion, version, s.clock), if ttl > 0 then s.clock + ttl else 0),
                     Minted(s.mem.lastVersion, version, s.clock), k);
      case LogDelete(key, version) =>
        BeginCovered(s, Delete(key, Chosen(s.mem.lastVersion, version, s.clock)),
                     Minted(s.mem.lastVersion, version, s.clock), k);
      case ApplyLogged => FinishCovered(s, k);
      case Reap(key) => ReapCovered(s, key, k);
      case CommitSnapshot(order) => CommitCovered(s, order, k);
      case TruncateLog => TruncateCovered(s, k);
      case Crash => RestartCovered(s, k);
    }
  }

  lemma {:induction false} RunCovered(es: seq<Event>, k: Key)
    ensures Covered(Run(es), k)
  {
    if es != [] {
      hide Covered, Step, OnDisk;
      var n := |es| - 1;
      RunCovered(es[..n], k);
      RunOnDisk(es[..n]);
      StepCovered(Run(es[..n]), es[n], k);
    }
  }

  /** What start-up at `now` finds under `k`. */
  function Recovered(s: State, k: Key, now: nat): Slot
    requires Recover(s.disk, now).Ok?
  {
    Lookup(Recover(s.disk, now).value.entries, k)
  }

  lemma NotDown(s: State)
    requires OnDisk(s)
    ensures !s.phase.Down?
  {
  }

  /** Applying the operation in flight settles memory and leaves the files alone. */
  lemma SettledRun(es: seq<Event>)
    ensures var s, t := Run(es), Run(es + [ApplyLogged]);
            && t.mem.entries == Settled(s) && !t.phase.Logged?
            && t.disk == s.disk && t.log == s.log && t.snap == s.snap && t.clock == s.clock
  {
    RunSnoc(es, ApplyLogged);
    RunOnDisk(es);
    hide Run, OnDisk, Apply;
    assert !Run(es).phase.Down? by { NotDown(Run(es)); }
  }

  lemma RecoveredFrom(s: State, t: State, k: Key, now: nat)
    requires s.disk == t.disk && Recover(t.disk, now).Ok?
    ensures Recover(s.disk, now).Ok? && Recovered(s, k, now) == Recovered(t, k, now)
  {
    hide Recover;
  }

  lemma CoveredRecovers(s: State, k: Key, now: nat)
    requires OnDisk(s) && Covered(s, k)
    requires k in s.mem.entries && now >= s.clock && !Gone(s.mem.entries[k].expiresAt, now)
    requires !s.phase.Logged?
    ensures Recover(s.disk, now).Ok?
    ensures Recovered(s, k, now).Some?
    ensures Recovered(s, k, now).value.version >= s.mem.entries[k].version
    ensures Expired(Recovered(s, k, now).value, now) <==> Shadowed(Lookup(s.snap, k), k, s.log, now)
  {
    hide OnDisk, Recover, ApplyAll, LiveOps, FoldAt, Backed, Shadowed;
    var slot, e := Lookup(s.snap, k), s.mem.entries[k];
    RecoverOnDisk(s, now);
    LookupApplyAll(s.snap, LiveOps(s.log, now), k);
    BackedRecovers(slot, k, s.log, e, s.clock, now);
    ExpiredIffShadowed(slot, k, s.log, now);
  }

  /**
   Recovery with times to live never goes back on a running key: whatever the run, an entry of
   memory, with the operation in flight completed, that has time left at recovery comes back
   with at least its version. It comes back readable exactly when no expired entry of the
   snapshot shadows the log.
   */
  lemma NeverGoesBack(es: seq<Event>, k: Key, now: nat)
    requires k in Settled(Run(es))
    requires now >= Run(es).clock && !Gone(Settled(Run(es))[k].expiresAt, now)
    ensures Recover(Run(es).disk, now).Ok?
    ensures Recovered(Run(es), k, now).Some?
    ensures Recovered(Run(es), k, now).value.version >= Settled(Run(es))[k].version
    ensures Expired(Recovered(Run(es), k, now).value, now) <==>
            Shadowed(Lookup(Run(es).snap, k), k, Run(es).log, now)
  {
    hide *;
    var fs := es + [ApplyLogged];
    SettledRun(es);
    RunOnDisk(fs);
    RunCovered(fs, k);
    CoveredRecovers(Run(fs), k, now);
    RecoveredFrom(Run(es), Run(fs), k, now);
  }

  /**
   In every run, wherever it stops: a key is readable after recovery if and only if the snapshot
   and the log say so. In particular a key that is absent from memory, or expired there, stays
   gone if and only if it does not come back from them.
   */
  lemma ReadableAfterRecovery(es: seq<Event>, k: Key, now: nat)
    ensures Recover(Run(es).disk, now).Ok?
    ensures Readable(Recovered(Run(es), k, now), now) <==>
            ComesBack(Lookup(Run(es).snap, k), k, Run(es).log, now)
  {
    hide Run, OnDisk, Recover, ApplyAll, LiveOps, ComesBack;
    RunOnDisk(es);
    var s := Run(es);
    RecoverOnDisk(s, now);
    LookupApplyAll(s.snap, LiveOps(s.log, now), k);
    ReadableIff(Lookup(s.snap, k), k, s.log, now);
  }

  /**
   In numbers, and over every run: an entry of memory without expiry, or that expires after the restart,
   is there after the restart with at least its version.
   */
  lemma UnexpiredComesBack(es: seq<Event>, k: Key, now: nat)
    requires k in Settled(Run(es)) && now >= Run(es).clock
    requires Settled(Run(es))[k].expiresAt == 0 || now < Settled(Run(es))[k].expiresAt
    ensures Recover(Run(es).disk, now).Ok?
    ensures k in Recover(Run(es).disk, now).value.entries
    ensures Recover(Run(es).disk, now).value.entries[k].version >= Settled(Run(es))[k].version
  {
    hide Run, Recover, Settled;
    NeverGoesBack(es, k, now);
  }

  lemma {:induction false} FoldExpired(k: Key, ops: seq<Op>, now: nat)
    requires forall i :: 0 <= i < |ops| && ops[i].key == k && ops[i].Set? ==> 0 < ops[i].expiresAt <= now
    ensures FoldLive(None, k, ops, now) == None
  {
    if ops == [] {
      FoldLiveNil(None, k, now);
    } else {
      FoldLiveStep(None, k, ops, now);
      hide FoldLive;
      FoldExpired(k, ops[..|ops| - 1], now);
    }
  }

  /** And conversely: a key with no entry in the snapshot, whose every logged Set has expired, is absent. */
  lemma ExpiredStaysAway(es: seq<Event>, k: Key, now: nat)
    requires k !in Run(es).snap
    requires forall i :: 0 <= i < |Run(es).log| && Run(es).log[i].key == k && Run(es).log[i].Set? ==>
               0 < Run(es).log[i].expiresAt <= now
    ensures Recover(Run(es).disk, now).Ok?
    ensures k !in Recover(Run(es).disk, now).value.entries
  {
    hide Run, OnDisk, Recover, ApplyAll, LiveOps;
    RunOnDisk(es);
    var s := Run(es);
    RecoverOnDisk(s, now);
    LookupApplyAll(s.snap, LiveOps(s.log, now), k);
    FoldExpired(k, s.log, now);
  }

  // ------------------------------------------------------------- witnesses

  const K: Key := [107]
  const A: Value := [97]
  const B: Value := [98]

  lemma EmptyRun()
    ensures Run([]) == INITIAL
  {
    hide Step;
  }

  /** Logging and applying a Set of K with a version of its own. */
  lemma PutK(es: seq<Event>, v: Value, ttl: nat, version: nat) returns (fs: seq<Event>)
    requires |v| == 1 && 0 < version < 100 && ttl < 100
    requires Run(es).phase.Idle? && Run(es).clock < 100
    ensures var s, op := Run(es), Set(K, v, version, if ttl > 0 then Run(es).clock + ttl else 0);
            && Run(fs).mem.entries == Apply(s.mem.entries, op)
            && Run(fs).log == s.log + [op]
            && Run(fs).snap == s.snap && Run(fs).clock == s.clock && Run(fs).phase.Idle?
  {
    hide Run, Encode, Apply;
    fs := es + [LogSet(K, v, ttl, version)];
    RunSnoc(es, LogSet(K, v, ttl, version));
    RunSnoc(fs, ApplyLogged);
    fs := fs + [ApplyLogged];
  }

  /** Advancing the clock and reaping K. */
  lemma ReapLater(es: seq<Event>, d: nat) returns (fs: seq<Event>)
    requires var s := Run(es);
             && s.phase.Idle? && K in s.mem.entries && Expired(s.mem.entries[K], s.clock + d)
    ensures var s := Run(es);
            && Run(fs).mem.entries == s.mem.entries - {K}
            && Run(fs).log == s.log && Run(fs).snap == s.snap
            && Run(fs).clock == s.clock + d && Run(fs).phase.Idle?
  {
    hide Run;
    fs := es + [Tick(d)];
    RunSnoc(es, Tick(d));
    RunSnoc(fs, Reap(K));
    fs := fs + [Reap(K)];
  }

  /** Compacting a store that holds just K. */
  lemma CompactK(es: seq<Event>) returns (fs: seq<Event>)
    requires var s := Run(es);
             && s.phase.Idle? && s.mem.entries.Keys == {K} && !Expired(s.mem.entries[K], s.clock)
    ensures var s := Run(es);
            && Run(fs).mem == s.mem && Run(fs).log == [] && Run(fs).snap == s.mem.entries
            && Run(fs).clock == s.clock && Run(fs).phase.Idle?
  {
    hide Run, SnapshotFile;
    var s := Run(es);
    assert IsListing([K], s.mem.entries.Keys);
    fs := es + [CommitSnapshot([K])];
    RunSnoc(es, CommitSnapshot([K]));
    assert Unexpired(s.mem.entries, s.clock) == s.mem.entries;
    RunSnoc(fs, TruncateLog);
    fs := fs + [TruncateLog];
  }

  const UNTIMED := Set(K, A, 1, 0)
  const TIMED := Set(K, B, 2, 5)

  lemma UntimedState() returns (es: seq<Event>)
    ensures Run(es).mem.entries == map[K := Entry(A, 1, 0)] && Run(es).log == [UNTIMED] && Run(es).snap == map[]
    ensures Run(es).clock == 0 && Run(es).phase.Idle?
  {
    EmptyRun();
    hide Run;
    es := PutK([], A, 0, 1);
  }

  lemma TimedState() returns (es: seq<Event>)
    ensures Run(es).mem.entries == map[K := Entry(B, 2, 5)] && Run(es).log == [UNTIMED, TIMED] && Run(es).snap == map[]
    ensures Run(es).clock == 0 && Run(es).phase.Idle?
  {
    hide Run;
    var fs := UntimedState();
    es := PutK(fs, B, 5, 2);
    assert Run(es).log == [UNTIMED] + [TIMED];
    assert Run(es).mem.entries == Apply(map[K := Entry(A, 1, 0)], TIMED);
  }

  lemma ReapedState() returns (es: seq<Event>)
    ensures Run(es).mem.entries == map[] && Run(es).log == [UNTIMED, TIMED] && Run(es).snap == map[]
    ensures Run(es).clock == 10 && Run(es).phase.Idle?
  {
    hide Run;
    var fs := TimedState();
    es := ReapLater(fs, 10);
  }

  lemma ReapedLog()
    ensures ApplyAll(map[], LiveOps([UNTIMED, TIMED], 10)) == map[K := Entry(A, 1, 0)]
  {
    assert [UNTIMED, TIMED][..1] == [UNTIMED];
    assert [UNTIMED][..0] == [];
    assert LiveOps([UNTIMED], 10) == [] + [UNTIMED];
    assert LiveOps([UNTIMED, TIMED], 10) == [UNTIMED];
    assert ApplyAll(map[], [UNTIMED]) == Apply(map[], UNTIMED);
  }

  lemma ReapedBacked()
    ensures Backed(None, K, [UNTIMED, TIMED], Entry(A, 1, 0), 10)
  {
    assert [UNTIMED, TIMED][..1] == [UNTIMED];
    assert [UNTIMED][..0] == [];
  }

  /**
   The converse fails: an older untimed value reappears after a newer timed one has
   expired and been reaped.
   */
  lemma OlderValueReappears() returns (es: seq<Event>)
    ensures K !in Run(es).mem.entries && Run(es).phase.Idle?
    ensures ComesBack(Lookup(Run(es).snap, K), K, Run(es).log, Run(es).clock)
    ensures Recover(Run(es).disk, Run(es).clock).Ok?
    ensures Recovered(Run(es), K, Run(es).clock) == Some(Entry(A, 1, 0))
  {
    hide Run, OnDisk, Recover, ApplyAll, LiveOps;
    es := ReapedState();
    RunOnDisk(es);
    RecoverOnDisk(Run(es), 10);
    ReapedLog();
    ReapedBacked();
  }

  const REWRITTEN := Set(K, B, 10, 0)

  lemma FirstState() returns (es: seq<Event>)
    ensures Run(es).mem.entries == map[K := Entry(A, 20, 5)]
    ensures Run(es).clock == 0 && Run(es).phase.Idle?
  {
    EmptyRun();
    hide Run;
    es := PutK([], A, 5, 20);
  }

  lemma CompactedState() returns (es: seq<Event>)
    ensures Run(es).mem.entries == Run(es).snap == map[K := Entry(A, 20, 5)] && Run(es).log == []
    ensures Run(es).clock == 0 && Run(es).phase.Idle?
  {
    hide Run;
    var fs := FirstState();
    es := CompactK(fs);
  }

  lemma ExpiredState() returns (es: seq<Event>)
    ensures Run(es).mem.entries == map[] && Run(es).snap == map[K := Entry(A, 20, 5)] && Run(es).log == []
    ensures Run(es).clock == 10 && Run(es).phase.Idle?
  {
    hide Run;
    var fs := CompactedState();
    es := ReapLater(fs, 10);
  }

  lemma ShadowedState() returns (es: seq<Event>)
    ensures Run(es).mem.entries == map[K := Entry(B, 10, 0)] && Run(es).log == [REWRITTEN]
    ensures Run(es).snap == map[K := Entry(A, 20, 5)]
    ensures Run(es).clock == 10 && Run(es).phase.Idle?
  {
    hide Run;
    var fs := ExpiredState();
    es := PutK(fs, B, 0, 10);
    assert Run(es).log == [] + [REWRITTEN];
  }

  lemma ShadowedLog()
    ensures ApplyAll(map[K := Entry(A, 20, 5)], LiveOps([REWRITTEN], 10)) == map[K := Entry(A, 20, 5)]
  {
    var snap := map[K := Entry(A, 20, 5)];
    assert [REWRITTEN][..0] == [];
    assert LiveOps([REWRITTEN], 10) == [] + [REWRITTEN];
    assert ApplyAll(snap, [REWRITTEN]) == Apply(snap, REWRITTEN);
  }

  /**
   A key that is readable in memory and has no expiry is lost: the snapshot still holds an
   expired entry of a higher version, which replay does not overwrite.
   */
  lemma LiveKeyShadowed() returns (es: seq<Event>)
    ensures Run(es).mem.entries == map[K := Entry(B, 10, 0)] && Run(es).phase.Idle?
    ensures Recover(Run(es).disk, Run(es).clock).Ok?
    ensures Recovered(Run(es), K, Run(es).clock) == Some(Entry(A, 20, 5))
    ensures Expired(Entry(A, 20, 5), Run(es).clock)
  {
    hide Run, OnDisk, Recover, ApplyAll, LiveOps;
    es := ShadowedState();
    RunOnDisk(es);
    RecoverOnDisk(Run(es), 10);
    ShadowedLog();
  }
}
