/**
 The store object follows the durable machine: each call takes the machine through
 the events of that call, so what is proved of every run holds of the object.
 */
module Refinement {
  import opened Bytes
  import opened Lww
  import opened Records
  import opened Recovery
  import opened Sharding
  import opened Wals
  import opened Stores
  import opened Server
  import opened Durable
  import opened CrashRecovery

  /** The object holds the memory the run ends in, and its files hold the disk. */
  ghost predicate Mirrors(s: Store, es: seq<Event>)
    reads s, s.shards, s.wal, if s.wal == null then {} else {s.wal.dir}
  {
    && s.Valid() && s.wal != null && s.wal.Valid()
    && Run(es).phase.Idle?
    && s.View() == Run(es).mem
    && Disk(s.wal.dir.snapshot, s.wal.file) == Run(es).disk
  }

  /** The clock moves on to `now`. */
  ghost function Until(es: seq<Event>, now: nat): seq<Event>
    requires Run(es).clock <= now
  {
    es + [Tick(now - Run(es).clock)]
  }

  lemma RunUntil(es: seq<Event>, now: nat)
    requires Run(es).clock <= now && Run(es).phase.Idle?
    ensures Run(Until(es, now)) == Run(es).(clock := now)
  {
    hide Run;
    RunSnoc(es, Tick(now - Run(es).clock));
  }

  lemma RunTwo(es: seq<Event>, e: Event, f: Event)
    ensures Run(es + [e, f]) == Step(Step(Run(es), e), f)
  {
    hide Step, Run;
    assert es + [e, f] == (es + [e]) + [f];
    RunSnoc(es, e);
    RunSnoc(es + [e], f);
  }

  /** What a Set leaves, in one go. */
  lemma SetDone(st: State, key: Key, value: Value, ttl: nat, version: nat)
    requires st.phase.Idle?
    requires InRange(Lww.Set(key, value, Chosen(st.mem.lastVersion, version, st.clock),
                             if ttl > 0 then st.clock + ttl else 0))
    ensures var exp := if ttl > 0 then st.clock + ttl else 0;
            var op := Lww.Set(key, value, Chosen(st.mem.lastVersion, version, st.clock), exp);
            var st' := Step(Step(st, LogSet(key, value, ttl, version)), ApplyLogged);
            && st'.phase.Idle? && st'.clock == st.clock
            && st'.mem == (if |key| <= MAX_KEY then SetIn(st.mem, key, value, exp, version, st.clock)
                           else st.mem.(lastVersion := Minted(st.mem.lastVersion, version, st.clock)))
            && st'.disk == st.disk.(wal := st.disk.wal + if |key| <= MAX_KEY then Encode(RecordOf(op)) else [])
            && st'.log == st.log + (if |key| <= MAX_KEY then [op] else []) && st'.snap == st.snap
  {
    hide InRange, Encode, Apply;
    assert st.disk.wal + [] == st.disk.wal;
  }

  lemma DeleteDone(st: State, key: Key, version: nat)
    requires st.phase.Idle?
    requires InRange(Lww.Delete(key, Chosen(st.mem.lastVersion, version, st.clock)))
    ensures var op := Lww.Delete(key, Chosen(st.mem.lastVersion, version, st.clock));
            var st' := Step(Step(st, LogDelete(key, version)), ApplyLogged);
            && st'.phase.Idle? && st'.clock == st.clock
            && st'.mem == (if |key| <= MAX_KEY then DeleteIn(st.mem, key, version, st.clock)
                           else st.mem.(lastVersion := Minted(st.mem.lastVersion, version, st.clock)))
            && st'.disk == st.disk.(wal := st.disk.wal + if |key| <= MAX_KEY then Encode(RecordOf(op)) else [])
            && st'.log == st.log + (if |key| <= MAX_KEY then [op] else []) && st'.snap == st.snap
  {
    hide InRange, Encode, Apply;
    assert st.disk.wal + [] == st.disk.wal;
  }

  method SetFollows(s: Store, key: Key, value: Value, ttl: nat, version: nat, now: nat, ghost es: seq<Event>)
    returns (v: nat, ok: bool)
    requires Mirrors(s, es) && Run(es).clock <= now
    requires InRange(Lww.Set(key, value, Chosen(s.lastVersion, version, now), if ttl > 0 then now + ttl else 0))
    modifies s`lastVersion, s`keyCount, s.shards, s.wal
    ensures var fs := Until(es, now) + [LogSet(key, value, ttl, version), ApplyLogged];
            Mirrors(s, fs) && Run(fs).clock == now
    ensures ok <==> |key| <= MAX_KEY
    ensures ok ==> s.View() == SetIn(old(s.View()), key, value, if ttl > 0 then now + ttl else 0, version, now)
  {
    hide Flatten, Total, Placed, Apply, Encode, InRange, Run, Step, Until, SetIn;
    RunUntil(es, now);
    RunTwo(Until(es, now), LogSet(key, value, ttl, version), ApplyLogged);
    SetDone(Run(es).(clock := now), key, value, ttl, version);
    v, ok := s.Set(key, value, ttl, version, now);
  }

  method DeleteFollows(s: Store, key: Key, version: nat, now: nat, ghost es: seq<Event>)
    returns (v: nat, deleted: bool, ok: bool)
    requires Mirrors(s, es) && Run(es).clock <= now
    requires InRange(Lww.Delete(key, Chosen(s.lastVersion, version, now)))
    modifies s`lastVersion, s`keyCount, s.shards, s.wal
    ensures var fs := Until(es, now) + [LogDelete(key, version), ApplyLogged];
            Mirrors(s, fs) && Run(fs).clock == now
    ensures ok <==> |key| <= MAX_KEY
    ensures ok ==> s.View() == DeleteIn(old(s.View()), key, version, now)
  {
    hide Flatten, Total, Placed, Apply, Encode, InRange, Run, Step, Until, DeleteIn;
    RunUntil(es, now);
    RunTwo(Until(es, now), LogDelete(key, version), ApplyLogged);
    DeleteDone(Run(es).(clock := now), key, version);
    v, deleted, ok := s.Delete(key, version, now);
  }

  lemma ReapDone(st: State, key: Key)
    requires st.phase.Idle?
    ensures var st' := Step(st, Reap(key));
            && st' == st.(mem := st'.mem) && st'.mem.lastVersion == st.mem.lastVersion
            && st'.mem.entries == if key in st.mem.entries && Expired(st.mem.entries[key], st.clock)
                                  then st.mem.entries - {key} else st.mem.entries
  {
    hide Expired;
  }

  method GetFollows(s: Store, key: Key, now: nat, ghost es: seq<Event>) returns (found: Option<Entry>)
    requires Mirrors(s, es) && Run(es).clock <= now
    modifies s`keyCount, s.shards
    ensures var fs := Until(es, now) + [Reap(key)];
            Mirrors(s, fs) && Run(fs).clock == now
    ensures found == if key in old(s.Contents()) && !Expired(old(s.Contents())[key], now)
                     then Some(old(s.Contents())[key]) else None
  {
    hide Flatten, Total, Placed, Run, Step, Until, Expired;
    RunUntil(es, now);
    RunSnoc(Until(es, now), Reap(key));
    ReapDone(Run(es).(clock := now), key);
    found := s.Get(key, now);
  }

  /** The entries without the expired ones among `gone`. */
  function Without(m: Entries, gone: set<Key>, now: nat): Entries
  {
    map k | k in m && !(k in gone && Expired(m[k], now)) :: m[k]
  }

  lemma WithoutOne(m: Entries, gone: set<Key>, k: Key, now: nat)
    requires k in gone
    ensures var m' := if k in m && Expired(m[k], now) then m - {k} else m;
            Without(m', gone - {k}, now) == Without(m, gone, now)
  {
    hide Expired;
  }

  /** The reaper, one key at a time. */
  lemma {:induction false} ReapKeys(es: seq<Event>, gone: set<Key>) returns (fs: seq<Event>)
    requires Run(es).phase.Idle?
    ensures es <= fs && forall i :: |es| <= i < |fs| ==> fs[i].Reap?
    ensures var st := Run(es);
            Run(fs) == st.(mem := Memory(Without(st.mem.entries, gone, st.clock), st.mem.lastVersion))
    decreases gone
  {
    hide Run, Step, Expired;
    var st := Run(es);
    if gone == {} {
      assert Without(st.mem.entries, gone, st.clock) == st.mem.entries;
      fs := es;
    } else {
      var k :| k in gone;
      RunSnoc(es, Reap(k));
      ReapDone(st, k);
      WithoutOne(st.mem.entries, gone, k, st.clock);
      hide Without;
      fs := ReapKeys(es + [Reap(k)], gone - {k});
    }
  }

  method ReapFollows(s: Store, now: nat, ghost es: seq<Event>) returns (ghost fs: seq<Event>)
    requires Mirrors(s, es) && Run(es).clock <= now
    modifies s`keyCount, s.shards
    ensures Until(es, now) <= fs && Mirrors(s, fs) && Run(fs).clock == now
    ensures forall i :: |Until(es, now)| <= i < |fs| ==> fs[i].Reap?
  {
    hide Flatten, Total, Placed, Run, Step, Until, Expired;
    RunUntil(es, now);
    ghost var m := s.Contents();
    fs := ReapKeys(Until(es, now), m.Keys);
    assert Without(m, m.Keys, now) == Unexpired(m, now);
    s.Reap(now);
  }

  lemma SnapshotDone(st: State, order: seq<Key>)
    requires st.phase.Idle? && IsListing(order, st.mem.entries.Keys)
    ensures var st' := Step(Step(st, CommitSnapshot(order)), TruncateLog);
            && st'.phase.Idle? && st'.mem == st.mem && st'.clock == st.clock
            && st'.snap == Unexpired(st.mem.entries, st.clock)
            && st'.disk == Disk(Some(SnapshotFile(st.mem.entries, order, st.clock)), [])
  {
    hide SnapshotFile, IsListing, Unexpired;
  }

  method SnapshotFollows(s: Store, now: nat, ghost es: seq<Event>) returns (ghost order: seq<Key>)
    requires Mirrors(s, es) && Run(es).clock <= now
    modifies s.wal, s.wal.dir
    ensures var fs := Until(es, now) + [CommitSnapshot(order), TruncateLog];
            Mirrors(s, fs) && Run(fs).clock == now && Run(fs).snap == Unexpired(s.Contents(), now)
  {
    hide Flatten, Total, Placed, Run, Step, Until, SnapshotFile, IsListing, Unexpired;
    RunUntil(es, now);
    var ok;
    ok, order := s.CreateSnapshot(now);
    RunTwo(Until(es, now), CommitSnapshot(order), TruncateLog);
    SnapshotDone(Run(es).(clock := now), order);
  }

  lemma CrashDone(es: seq<Event>, now: nat)
    requires Run(es).clock <= now && Run(es).phase.Idle?
    ensures Recover(Run(es).disk, now).Ok?
    ensures var st := Run(Until(es, now) + [Crash]);
            && st.phase.Idle? && st.clock == now
            && st.disk == Run(es).disk && st.mem == Recover(Run(es).disk, now).value
            && CounterIsMax(Memory(Run(es).snap, st.mem.lastVersion))
  {
    hide Run, Until, Recover, OnDisk, CounterIsMax;
    RunUntil(es, now);
    RunSnoc(Until(es, now), Crash);
    RunOnDisk(es);
    RecoverOnDisk(Run(es), now);
  }

  /**
   The process dies and comes up again over the files it left: start-up always succeeds, the new
   object follows the run, and without any time to live in the run it holds what the old one held.
   Its version counter starts from the snapshot.
   */
  method Reboot(s: Store, now: nat, ghost es: seq<Event>) returns (s': Store)
    requires Mirrors(s, es) && Run(es).clock <= now
    ensures Mirrors(s', Until(es, now) + [Crash]) && Run(Until(es, now) + [Crash]).clock == now
    ensures fresh(s') && fresh(s'.shards) && fresh(s'.wal)
    ensures s'.wal.dir == s.wal.dir && s'.hash == s.hash
    ensures (forall i :: 0 <= i < |es| && es[i].LogSet? ==> es[i].ttl == 0) ==> s'.Contents() == s.Contents()
    ensures CounterIsMax(Memory(Run(es).snap, s'.lastVersion))
  {
    hide Flatten, Total, Placed, Run, Until, Recover, CounterIsMax;
    CrashDone(es, now);
    var booted := Start(s.hash, s.wal.dir, s.wal.file, now);
    s' := booted;
    if forall i :: 0 <= i < |es| && es[i].LogSet? ==> es[i].ttl == 0 {
      RecoversExactly(es, now);
    }
  }

  /** Start-up over an empty data directory is the empty run. */
  method FirstBoot(hash: Hash, now: nat) returns (s: Store)
    ensures Mirrors(s, []) && Run([]).clock == 0 && s.View() == BLANK && s.hash == hash
    ensures fresh(s) && fresh(s.shards) && fresh(s.wal) && fresh(s.wal.dir)
  {
    hide Flatten, Total, Placed;
    var dir := new DataDir();
    assert Recover(Disk(None, []), now) == Ok(BLANK) by {
      assert Parse([]) == Parsed([], Complete);
    }
    var booted := Start(hash, dir, [], now);
    s := booted;
  }

  lemma LoadedRecords(file: seq<Byte>)
    requires LoadFile(file).Ok?
    ensures HasHeader(file) && LoadFile(file).value == LoadRecords(BLANK, Parse(file[6..]).records)
  {
    hide Parse, LoadRecords, FromBigEndian;
  }

  /**
   A snapshot created from one store and loaded into a new one: exactly the unexpired entries,
   whatever the two hash functions and walking orders, a right key count, and a version counter
   that is the highest version loaded.
   */
  method SnapshotAndLoad(s: Store, hash: Hash, now: nat) returns (t: Store)
    requires s.Valid() && s.wal != null && s.wal.Valid() && StorableEntries(s.Contents())
    modifies s.wal, s.wal.dir
    ensures t.Valid() && t.Contents() == Unexpired(s.Contents(), now)
    ensures t.keyCount == |Unexpired(s.Contents(), now)|
    ensures CounterIsMax(t.View())
    ensures s.wal.file == []
  {
    hide Flatten, Total, Placed, SnapshotFile, IsListing, Parse, LoadFile, LoadRecords, FromBigEndian, Unexpired,
         CounterIsMax, StorableEntries;
    var ok, order := s.CreateSnapshot(now);
    SnapshotRoundTrip(s.Contents(), order, now);
    var file := s.wal.dir.snapshot.value;
    LoadedRecords(file);
    t := new Store(hash, null);
    var loaded, fine := t.LoadSnapshot(Some(file));
    t.SizeIsCount();
  }
}
