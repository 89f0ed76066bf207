/**
 Start-up of the server: an unlinked store, the snapshot, the log, and only then
 the link between store and log.
 */
module Server {
  import opened Bytes
  import opened Lww
  import opened Records
  import opened Recovery
  import opened Sharding
  import opened Wals
  import opened Stores

  /** The replay callback on the store. */
  method ReplayOne(s: Store, r: Record, now: nat)
    requires s.Valid() && s.wal == null
    modifies s`lastVersion, s`keyCount, s.shards
    ensures s.Valid() && s.View() == ReplayRecord(old(s.View()), r, now)
    ensures r.recType == 1 && (r.expiresAt == 0 || now < r.expiresAt) ==>
              s.View() == SetIn(old(s.View()), r.key, r.value, r.expiresAt, r.version, now)
    ensures r.recType == 1 && 0 < r.expiresAt <= now ==> s.View() == old(s.View())
    ensures r.recType == 2 ==> s.View() == DeleteIn(old(s.View()), r.key, r.version, now)
    ensures r.recType != 1 && r.recType != 2 ==> s.View() == old(s.View())
  {
    hide Flatten, Total, Placed, Apply, Encode;
    if r.recType == TYPE_SET {
      var ttl := 0;
      if r.expiresAt != 0 {
        if r.expiresAt <= now {
          return;
        }
        ttl := r.expiresAt - now;
      }
      var _, _ := s.Set(r.key, r.value, ttl, r.version, now);
    } else if r.recType == TYPE_DELETE {
      var _, _, _ := s.Delete(r.key, r.version, now);
    }
  }

  /** Replay of the log with that callback, called as each record is read. */
  method ReplayLog(s: Store, wal: Wal, now: nat) returns (status: Status)
    requires s.Valid() && s.wal == null
    modifies s`lastVersion, s`keyCount, s.shards
    ensures s.Valid() && s.View() == ReplayRecords(old(s.View()), Parse(wal.file).records, now)
    ensures status == Parse(wal.file).status
  {
    hide Flatten, Total, Placed, Parse, ReplayRecord, ReadFrame, PayloadSize, Reading;
    ghost var base, delivered: seq<Record> := s.View(), [];
    var file, pos := wal.file, 0;
    ReadingStarts(file, 0);
    assert file[0..] == file;
    while true
      invariant s.Valid() && s.wal == null && pos <= |file|
      invariant Reading(file, 0, pos, delivered)
      invariant s.View() == ReplayRecords(base, delivered, now)
      decreases |file| - pos
    {
      var read, next := ReadNext(file, pos);
      match read {
        case End(ending) =>
          ReadingEnds(file, 0, pos, delivered, ending);
          return ending;
        case Item(r) =>
          ReadingGoesOn(file, 0, pos, delivered, r, next);
          assert (delivered + [r])[..|delivered|] == delivered;
          ReplayOne(s, r, now);
          delivered := delivered + [r];
          pos := next;
      }
    }
  }

  /** The store that start-up builds from the files; null stands for a fatal error. */
  method Start(hash: Hash, dir: DataDir, existing: seq<Byte>, now: nat) returns (s: Store?)
    ensures s != null <==> Recover(Disk(dir.snapshot, existing), now).Ok?
    ensures s != null ==> s.Valid() && s.View() == Recover(Disk(dir.snapshot, existing), now).value
    ensures s != null ==> s.wal != null && s.wal.Valid() && s.wal.file == existing && s.wal.dir == dir
    ensures s != null ==> s.hash == hash && fresh(s) && fresh(s.shards) && fresh(s.wal)
  {
    hide Flatten, Total, Placed, Parse, ReplayRecords;
    var store := new Store(hash, null);
    var loaded, ok := store.LoadSnapshot(dir.snapshot);
    if !ok {
      return null;
    }
    var wal := new Wal(dir, existing);
    var status := ReplayLog(store, wal, now);
    if status != Complete {
      return null;
    }
    store.SetWal(wal);
    return store;
  }
}
