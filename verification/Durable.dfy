/**
 The durable store as a machine of single steps over the bytes on disk: log,
 apply, reap, commit a snapshot, truncate the log, and crash at any point.
 `log` and `snap` are history variables: what the two files are meant to hold.
 A crash reads the files only.
 */
module Durable {
  import opened Bytes
  import opened Lww
  import opened Records
  import opened Recovery

  /** Logged: appended and not yet applied. Renamed: snapshot committed, log not yet truncated. */
  datatype Phase = Idle | Logged(op: Op) | Renamed | Down

  datatype State = State(mem: Memory, disk: Disk, phase: Phase, clock: nat, log: seq<Op>, snap: Entries)

  datatype Event =
    | Tick(d: nat)
    | LogSet(key: Key, value: Value, ttl: nat, version: nat)
    | LogDelete(key: Key, version: nat)
    | ApplyLogged
    | Reap(key: Key)
    | CommitSnapshot(order: seq<Key>)
    | TruncateLog
    | Crash

  const INITIAL := State(BLANK, Disk(None, []), Idle, 0, [], map[])

  /** Values, versions and expiries within the widths of the format. */
  predicate InRange(op: Op)
  {
    var r := RecordOf(op);
    && 19 + MAX_KEY + |r.value| < 0x1_0000_0000
    && r.version < 0x1_0000_0000_0000_0000
    && r.expiresAt < 0x8000_0000_0000_0000
  }

  function Begin(s: State, op: Op, last: nat): State
  {
    if !s.phase.Idle? || !InRange(op) then s
    else if |op.key| > MAX_KEY then s.(mem := s.mem.(lastVersion := last))
    else s.(
      mem := s.mem.(lastVersion := last),
      disk := s.disk.(wal := s.disk.wal + Encode(RecordOf(op))),
      phase := Logged(op),
      log := s.log + [op])
  }

  function BeginSet(s: State, key: Key, value: Value, ttl: nat, version: nat): State
  {
    Begin(s, Set(key, value, Chosen(s.mem.lastVersion, version, s.clock), if ttl > 0 then s.clock + ttl else 0),
          Minted(s.mem.lastVersion, version, s.clock))
  }

  function BeginDelete(s: State, key: Key, version: nat): State
  {
    Begin(s, Delete(key, Chosen(s.mem.lastVersion, version, s.clock)), Minted(s.mem.lastVersion, version, s.clock))
  }

  function Finish(s: State): State
  {
    if s.phase.Logged?
    then s.(mem := s.mem.(entries := Apply(s.mem.entries, s.phase.op)), phase := Idle)
    else s
  }

  /** A lazy reap by Get, or one deletion of the background reaper. */
  function ReapKey(s: State, key: Key): State
  {
    if !s.phase.Renamed? && key in s.mem.entries && Expired(s.mem.entries[key], s.clock)
    then s.(mem := s.mem.(entries := s.mem.entries - {key}))
    else s
  }

  ghost function Commit(s: State, order: seq<Key>): State
  {
    if s.phase.Idle? && IsListing(order, s.mem.entries.Keys)
    then s.(
      disk := s.disk.(snapshot := Some(SnapshotFile(s.mem.entries, order, s.clock))),
      phase := Renamed,
      snap := Unexpired(s.mem.entries, s.clock))
    else s
  }

  function Truncate(s: State): State
  {
    if s.phase.Renamed? then s.(disk := s.disk.(wal := []), phase := Idle, log := []) else s
  }

  function Restart(s: State): State
  {
    match Recover(s.disk, s.clock)
    case Ok(m) => s.(mem := m, phase := Idle)
    case Error => s.(phase := Down)
  }

  /** One step; an event that is not possible in a state leaves it as it is. */
  ghost function Step(s: State, e: Event): State
  {
    if s.phase.Down? then s else
    match e
    case Tick(d) => s.(clock := s.clock + d)
    case LogSet(k, v, ttl, version) => BeginSet(s, k, v, ttl, version)
    case LogDelete(k, version) => BeginDelete(s, k, version)
    case ApplyLogged => Finish(s)
    case Reap(k) => ReapKey(s, k)
    case CommitSnapshot(order) => Commit(s, order)
    case TruncateLog => Truncate(s)
    case Crash => Restart(s)
  }

  ghost function Run(es: seq<Event>): State
  {
    if es == [] then INITIAL else Step(Run(es[..|es| - 1]), es[|es| - 1])
  }

  lemma RunSnoc(es: seq<Event>, e: Event)
    ensures Run(es + [e]) == Step(Run(es), e)
  {
    hide Step;
    assert (es + [e])[..|es + [e]| - 1] == es;
  }

  // -------------------------------------------------- the files are readable

  ghost predicate LogFile(wal: seq<Byte>, log: seq<Op>)
  {
    && wal == EncodeAll(RecordsOf(log))
    && forall i :: 0 <= i < |log| ==> Storable(RecordOf(log[i])) && log[i].version != 0
  }

  ghost predicate SnapshotHolds(snapshot: Option<seq<Byte>>, snap: Entries)
  {
    if snapshot.None? then snap == map[]
    else LoadFile(snapshot.value).Ok? && LoadFile(snapshot.value).value.entries == snap
         && CounterIsMax(LoadFile(snapshot.value).value)
  }

  ghost predicate OnDisk(s: State)
  {
    && !s.phase.Down?
    && LogFile(s.disk.wal, s.log)
    && SnapshotHolds(s.disk.snapshot, s.snap)
    && StorableEntries(s.snap)
    && StorableEntries(s.mem.entries)
    && (s.phase.Logged? ==> s.log != [] && s.log[|s.log| - 1] == s.phase.op)
  }

  lemma LogFileReads(wal: seq<Byte>, log: seq<Op>)
    requires LogFile(wal, log)
    ensures Parse(wal) == Parsed(RecordsOf(log), Complete)
  {
    hide Storable, Parse, EncodeAll;
    CleanLog(RecordsOf(log));
  }

  lemma LogFileGrows(wal: seq<Byte>, log: seq<Op>, op: Op)
    requires LogFile(wal, log) && Storable(RecordOf(op)) && op.version != 0
    ensures LogFile(wal + Encode(RecordOf(op)), log + [op])
  {
    hide Storable, Encode, EncodeAll;
    assert RecordsOf(log + [op]) == RecordsOf(log) + [RecordOf(op)];
    EncodeAllSnoc(RecordsOf(log), RecordOf(op));
  }

  lemma SnapshotCommits(m: Entries, order: seq<Key>, now: nat)
    requires StorableEntries(m) && IsListing(order, m.Keys)
    ensures SnapshotHolds(Some(SnapshotFile(m, order, now)), Unexpired(m, now))
  {
    hide Storable, SnapshotFile, LoadFile, CounterIsMax;
    SnapshotRoundTrip(m, order, now);
  }

  lemma BaseHolds(snapshot: Option<seq<Byte>>, snap: Entries)
    requires SnapshotHolds(snapshot, snap)
    ensures Base(snapshot).Ok? && Base(snapshot).value.entries == snap && CounterIsMax(Base(snapshot).value)
  {
    hide LoadFile;
  }

  lemma ReplayOverBase(d: Disk, log: seq<Op>, now: nat)
    requires Base(d.snapshot).Ok? && LogFile(d.wal, log)
    ensures var base := Base(d.snapshot).value;
            Recover(d, now) == Ok(Memory(ApplyAll(base.entries, LiveOps(log, now)), base.lastVersion))
  {
    hide Parse, LoadFile, LiveOps, ApplyAll, ReplayRecords, Storable, EncodeAll;
    LogFileReads(d.wal, log);
    ReplayAppliesLive(Base(d.snapshot).value, log, now);
  }

  /**
   The files give back the history variables: the snapshot with the live part of the log on top.
   The version counter is the highest version of the snapshot alone.
   */
  lemma RecoverOnDisk(s: State, now: nat)
    requires OnDisk(s)
    ensures Recover(s.disk, now).Ok?
    ensures Recover(s.disk, now).value.entries == ApplyAll(s.snap, LiveOps(s.log, now))
    ensures CounterIsMax(Memory(s.snap, Recover(s.disk, now).value.lastVersion))
  {
    hide LiveOps, ApplyAll, Recover, Base, LogFile, SnapshotHolds, StorableEntries, CounterIsMax;
    BaseHolds(s.disk.snapshot, s.snap);
    ReplayOverBase(s.disk, s.log, now);
  }

  lemma {:induction false} ApplyAllStorable(m: Entries, ops: seq<Op>)
    requires StorableEntries(m)
    requires forall i :: 0 <= i < |ops| ==> Storable(RecordOf(ops[i]))
    ensures StorableEntries(ApplyAll(m, ops))
  {
    hide Storable;
    if ops != [] {
      ApplyAllStorable(m, ops[..|ops| - 1]);
    }
  }

  lemma {:induction false} LiveOpsSubset(ops: seq<Op>, now: nat)
    ensures forall op :: op in LiveOps(ops, now) ==> op in ops && !DeadOp(op, now)
  {
    if ops != [] {
      LiveOpsSubset(ops[..|ops| - 1], now);
    }
  }

  lemma ReplayStorable(wal: seq<Byte>, log: seq<Op>, snap: Entries, now: nat)
    requires LogFile(wal, log) && StorableEntries(snap)
    ensures StorableEntries(ApplyAll(snap, LiveOps(log, now)))
  {
    hide Storable, EncodeAll, StorableEntries, ApplyAll;
    LiveOpsSubset(log, now);
    var live := LiveOps(log, now);
    forall i | 0 <= i < |live|
      ensures Storable(RecordOf(live[i]))
    {
      assert live[i] in log;
    }
    ApplyAllStorable(snap, live);
  }

  lemma BeginOnDisk(s: State, op: Op, last: nat)
    requires OnDisk(s) && op.version != 0
    ensures OnDisk(Begin(s, op, last))
  {
    hide LogFile, SnapshotHolds, StorableEntries, Encode;
    if s.phase.Idle? && InRange(op) && |op.key| <= MAX_KEY {
      LogFileGrows(s.disk.wal, s.log, op);
    }
  }

  lemma RestartOnDisk(s: State)
    requires OnDisk(s)
    ensures OnDisk(Restart(s))
    ensures Restart(s).mem.entries == ApplyAll(s.snap, LiveOps(s.log, s.clock))
    ensures Restart(s).phase.Idle?
  {
    hide LogFile, SnapshotHolds, StorableEntries, Recover, ApplyAll, LiveOps;
    RecoverOnDisk(s, s.clock);
    ReplayStorable(s.disk.wal, s.log, s.snap, s.clock);
  }

  lemma ApplyStorable(m: Entries, op: Op)
    requires StorableEntries(m) && Storable(RecordOf(op))
    ensures StorableEntries(Apply(m, op))
  {
    hide Storable;
  }

  lemma LastStorable(wal: seq<Byte>, log: seq<Op>)
    requires LogFile(wal, log) && log != []
    ensures Storable(RecordOf(log[|log| - 1]))
  {
  }

  lemma FewerStorable(m: Entries, n: Entries)
    requires StorableEntries(m)
    requires forall k :: k in n ==> k in m && n[k] == m[k]
    ensures StorableEntries(n)
  {
    hide Storable;
  }

  lemma FinishOnDisk(s: State)
    requires OnDisk(s)
    ensures OnDisk(Finish(s))
  {
    hide LogFile, SnapshotHolds, StorableEntries, Apply;
    if s.phase.Logged? {
      LastStorable(s.disk.wal, s.log);
      ApplyStorable(s.mem.entries, s.phase.op);
    }
  }

  lemma ReapOnDisk(s: State, k: Key)
    requires OnDisk(s)
    ensures OnDisk(ReapKey(s, k))
  {
    hide LogFile, SnapshotHolds, StorableEntries;
    FewerStorable(s.mem.entries, s.mem.entries - {k});
  }

  lemma CommitOnDisk(s: State, order: seq<Key>)
    requires OnDisk(s)
    ensures OnDisk(Commit(s, order))
  {
    hide LogFile, SnapshotHolds, StorableEntries, SnapshotFile, IsListing;
    if s.phase.Idle? && IsListing(order, s.mem.entries.Keys) {
      SnapshotCommits(s.mem.entries, order, s.clock);
      FewerStorable(s.mem.entries, Unexpired(s.mem.entries, s.clock));
    }
  }

  lemma TruncateOnDisk(s: State)
    requires OnDisk(s)
    ensures OnDisk(Truncate(s))
  {
    hide SnapshotHolds, StorableEntries, Storable;
  }

  lemma TickOnDisk(s: State, d: nat)
    requires OnDisk(s)
    ensures OnDisk(s.(clock := s.clock + d))
  {
    hide LogFile, SnapshotHolds, StorableEntries;
  }

  lemma StepOnDisk(s: State, e: Event)
    requires OnDisk(s)
    ensures OnDisk(Step(s, e))
  {
    hide OnDisk, Begin, Finish, ReapKey, Commit, Truncate, Restart;
    match e {
      case Tick(d) => TickOnDisk(s, d);
      case LogSet(k, v, ttl, version) =>
        BeginOnDisk(s, Set(k, v, Chosen(s.mem.lastVersion, version, s.clock), if ttl > 0 then s.clock + ttl else 0),
                    Minted(s.mem.lastVersion, version, s.clock));
      case LogDelete(k, version) =>
        BeginOnDisk(s, Delete(k, Chosen(s.mem.lastVersion, version, s.clock)),
                    Minted(s.mem.lastVersion, version, s.clock));
      case ApplyLogged => FinishOnDisk(s);
      case Reap(k) => ReapOnDisk(s, k);
      case CommitSnapshot(order) => CommitOnDisk(s, order);
      case TruncateLog => TruncateOnDisk(s);
      case Crash => RestartOnDisk(s);
    }
  }

  lemma InitialOnDisk()
    ensures OnDisk(INITIAL)
  {
  }

  /** In every run the two files can be read at any moment, so no crash is fatal. */
  lemma {:induction false} RunOnDisk(es: seq<Event>)
    ensures OnDisk(Run(es))
  {
    hide Step, OnDisk;
    assert OnDisk(INITIAL) by { InitialOnDisk(); }
    if es != [] {
      RunOnDisk(es[..|es| - 1]);
      StepOnDisk(Run(es[..|es| - 1]), es[|es| - 1]);
    }
  }

  // -------------------------------------------------- a crash inside an append

  /** The disk when a crash lets only the first `n` bytes of the record of `op` reach the log. */
  function Torn(d: Disk, op: Op, n: nat): Disk
    requires n <= |Encode(RecordOf(op))|
  {
    d.(wal := d.wal + Encode(RecordOf(op))[..n])
  }

  lemma TornOnDisk(s: State, op: Op, n: nat, now: nat)
    requires OnDisk(s) && Storable(RecordOf(op)) && n < |Encode(RecordOf(op))|
    ensures Recover(Torn(s.disk, op, n), now).Ok? <==> n < 8
    ensures n < 8 ==> Recover(Torn(s.disk, op, n), now) == Recover(s.disk, now)
  {
    hide Encode, EncodeAll, Parse, LoadFile, ReplayRecords, Storable, StorableEntries;
    TornTail(RecordsOf(s.log), RecordOf(op), n);
    LogFileReads(s.disk.wal, s.log);
  }

  /**
   A crash in the middle of an append, after any run: start-up succeeds if and only if fewer than
   8 bytes of the record were written, and then recovers as if none had been.
   */
  lemma TornAppend(es: seq<Event>, op: Op, n: nat, now: nat)
    requires Storable(RecordOf(op)) && n < |Encode(RecordOf(op))|
    ensures Recover(Torn(Run(es).disk, op, n), now).Ok? <==> n < 8
    ensures n < 8 ==> Recover(Torn(Run(es).disk, op, n), now) == Recover(Run(es).disk, now)
  {
    hide Run, Encode, Storable;
    RunOnDisk(es);
    TornOnDisk(Run(es), op, n, now);
  }

  /** The disk once `more` operations have been logged behind what it holds. */
  function Grown(d: Disk, more: seq<Op>): Disk
  {
    d.(wal := d.wal + EncodeAll(RecordsOf(more)))
  }

  lemma TornGrown(s: State, op: Op, n: nat, more: seq<Op>, now: nat)
    requires OnDisk(s) && Storable(RecordOf(op)) && 4 <= n < 8
    requires more != [] && n + |EncodeAll(RecordsOf(more))| < |Encode(RecordOf(op))|
    ensures Recover(Grown(Torn(s.disk, op, n), more), now) == Error
  {
    hide Encode, EncodeAll, Parse, LoadFile, ReplayRecords, Storable, StorableEntries;
    AppendAfterTornTail(RecordsOf(s.log), RecordOf(op), n, RecordsOf(more));
  }

  /**
   After any run, an append torn at 4 to 7 bytes goes unnoticed at the next start-up. Whatever is
   logged and acknowledged after it makes every later start-up fail, as long as it is shorter than
   the rest of the torn record.
   */
  lemma TornThenFatal(es: seq<Event>, op: Op, n: nat, more: seq<Op>, now: nat)
    requires Storable(RecordOf(op)) && 4 <= n < 8
    requires more != [] && n + |EncodeAll(RecordsOf(more))| < |Encode(RecordOf(op))|
    ensures Recover(Torn(Run(es).disk, op, n), now).Ok?
    ensures Recover(Grown(Torn(Run(es).disk, op, n), more), now) == Error
  {
    hide Run, Encode, Storable, EncodeAll, Recover, OnDisk;
    TornAppend(es, op, n, now);
    RunOnDisk(es);
    TornGrown(Run(es), op, n, more, now);
  }

  // -------------------------------------------------- a flipped byte on disk

  /** The log with byte `at` of the payload of record `i` changed to `x`. */
  function Flipped(log: seq<Op>, i: nat, at: nat, x: Byte): seq<Byte>
    requires i < |log| && at < |Payload(RecordOf(log[i]))|
  {
    EncodeAll(RecordsOf(log[..i])) + Encode(RecordOf(log[i]))[8 + at := x] + EncodeAll(RecordsOf(log[i + 1..]))
  }

  lemma FlippedFatal(s: State, i: nat, at: nat, x: Byte, now: nat)
    requires OnDisk(s) && i < |s.log| && at < |Payload(RecordOf(s.log[i]))| && x != Payload(RecordOf(s.log[i]))[at]
    ensures Recover(s.disk.(wal := Flipped(s.log, i, at, x)), now) == Error
  {
    hide Payload, Encode, EncodeAll, Parse, LoadFile, ReplayRecords, Storable, StorableEntries, SnapshotHolds;
    ByteFlipCaught(RecordsOf(s.log[..i]), RecordOf(s.log[i]), EncodeAll(RecordsOf(s.log[i + 1..])), at, x);
  }

  /** After every run, start-up refuses a log in which one payload byte of any record has changed. */
  lemma FlippedLogFatal(es: seq<Event>, i: nat, at: nat, x: Byte, now: nat)
    requires i < |Run(es).log| && at < |Payload(RecordOf(Run(es).log[i]))| && x != Payload(RecordOf(Run(es).log[i]))[at]
    ensures Recover(Run(es).disk.(wal := Flipped(Run(es).log, i, at, x)), now) == Error
  {
    hide Run, OnDisk, Payload, Encode, EncodeAll, Recover;
    RunOnDisk(es);
    FlippedFatal(Run(es), i, at, x, now);
  }
}
