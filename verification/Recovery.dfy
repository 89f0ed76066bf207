/**
 What start-up rebuilds from the two files on disk: the snapshot file, its
 loader, and the replay of the log with the callback of the server's main.
 */
module Recovery {
  import opened Bytes
  import opened Lww
  import opened Records

  /** The in-memory state that survives in the files: the entries and the version counter. */
  datatype Memory = Memory(entries: Entries, lastVersion: nat)

  const BLANK := Memory(map[], 0)

  datatype Result<+T> = Ok(value: T) | Error

  // ------------------------------------------------------------- log replay

  /** The version of a mutation: version 0 asks for a new one. */
  function Chosen(last: nat, version: nat, now: nat): (v: nat)
    ensures v != 0 && (version != 0 ==> v == version)
  {
    if version == 0 then NextVersion(last, now) else version
  }

  /** The version counter afterwards. */
  function Minted(last: nat, version: nat, now: nat): (v: nat)
    ensures v == if version == 0 then Chosen(last, version, now) else last
  {
    if version == 0 then NextVersion(last, now) else last
  }

  /** Store.Set and Store.Delete on memory. */
  function SetIn(m: Memory, key: Key, value: Value, expiresAt: nat, version: nat, now: nat): Memory
  {
    Memory(Apply(m.entries, Set(key, value, Chosen(m.lastVersion, version, now), expiresAt)),
           Minted(m.lastVersion, version, now))
  }

  function DeleteIn(m: Memory, key: Key, version: nat, now: nat): Memory
  {
    Memory(Apply(m.entries, Delete(key, Chosen(m.lastVersion, version, now))),
           Minted(m.lastVersion, version, now))
  }

  /** Passed, or exactly at, its expiry: the time to live left is not positive. */
  predicate Gone(expiresAt: nat, now: nat)
  {
    expiresAt != 0 && expiresAt <= now
  }

  /** The replay callback: expired Sets and unknown record types are skipped. */
  function ReplayRecord(m: Memory, r: Record, now: nat): Memory
  {
    if r.recType == TYPE_SET then
      if Gone(r.expiresAt, now) then m else SetIn(m, r.key, r.value, r.expiresAt, r.version, now)
    else if r.recType == TYPE_DELETE then DeleteIn(m, r.key, r.version, now)
    else m
  }

  function ReplayRecords(m: Memory, rs: seq<Record>, now: nat): Memory
  {
    if rs == [] then m else ReplayRecord(ReplayRecords(m, rs[..|rs| - 1], now), rs[|rs| - 1], now)
  }

  /** The Sets that replay at `now` skips. */
  predicate DeadOp(op: Op, now: nat)
  {
    op.Set? && Gone(op.expiresAt, now)
  }

  function LiveOps(ops: seq<Op>, now: nat): seq<Op>
  {
    if ops == [] then []
    else
      var front, last := LiveOps(ops[..|ops| - 1], now), ops[|ops| - 1];
      if DeadOp(last, now) then front else front + [last]
  }

  /** With nonzero versions in the log, replay never mints: it applies the live operations in order. */
  lemma {:induction false} ReplayAppliesLive(m: Memory, ops: seq<Op>, now: nat)
    requires forall i :: 0 <= i < |ops| ==> ops[i].version != 0
    ensures ReplayRecords(m, RecordsOf(ops), now) ==
            Memory(ApplyAll(m.entries, LiveOps(ops, now)), m.lastVersion)
  {
    var rs := RecordsOf(ops);
    if ops != [] {
      var n := |ops| - 1;
      assert rs[..n] == RecordsOf(ops[..n]);
      ReplayAppliesLive(m, ops[..n], now);
      if !DeadOp(ops[n], now) {
        ApplyAllSnoc(m.entries, LiveOps(ops[..n], now), ops[n]);
      }
    }
  }

  // ------------------------------------------------------------- snapshots

  /** "KVSN". */
  const MAGIC: seq<Byte> := [75, 86, 83, 78]
  const FORMAT_VERSION: nat := 1

  function Header(): (h: seq<Byte>)
    ensures |h| == 6
  {
    MAGIC + BigEndian(FORMAT_VERSION, 2)
  }

  function EntryRecord(k: Key, e: Entry): Record
  {
    Record(TYPE_SET, k, e.value, e.version, e.expiresAt)
  }

  predicate StorableEntries(m: Entries)
  {
    forall k :: k in m ==> Storable(EntryRecord(k, m[k]))
  }

  function SnapshotRecords(m: Entries, order: seq<Key>, now: nat): seq<Record>
    requires forall k :: k in order ==> k in m
  {
    if order == [] then []
    else
      var n := |order| - 1;
      var front := SnapshotRecords(m, order[..n], now);
      if Expired(m[order[n]], now) then front else front + [EntryRecord(order[n], m[order[n]])]
  }

  function SnapshotFile(m: Entries, order: seq<Key>, now: nat): seq<Byte>
    requires forall k :: k in order ==> k in m
  {
    Header() + EncodeAll(SnapshotRecords(m, order, now))
  }

  lemma SnapshotFileGrows(m: Entries, order: seq<Key>, k: Key, now: nat)
    requires k in m && forall x :: x in order ==> x in m
    ensures SnapshotFile(m, order + [k], now) ==
            SnapshotFile(m, order, now) + if Expired(m[k], now) then [] else Encode(EntryRecord(k, m[k]))
  {
    hide EncodeAll, Encode, Expired, Header;
    assert (order + [k])[..|order + [k]| - 1] == order;
    if !Expired(m[k], now) {
      EncodeAllSnoc(SnapshotRecords(m, order, now), EntryRecord(k, m[k]));
      Associate(Header(), EncodeAll(SnapshotRecords(m, order, now)), Encode(EntryRecord(k, m[k])));
    }
  }

  lemma EmptySnapshotFile(m: Entries, now: nat)
    ensures SnapshotFile(m, [], now) == Header()
  {
  }

  function LoadRecord(m: Memory, r: Record): Memory
  {
    if r.recType == TYPE_SET && (r.key in m.entries ==> r.version > m.entries[r.key].version) then
      Memory(m.entries[r.key := Entry(r.value, r.version, r.expiresAt)],
             if r.version > m.lastVersion then r.version else m.lastVersion)
    else m
  }

  function LoadRecords(m: Memory, rs: seq<Record>): Memory
  {
    if rs == [] then m else LoadRecord(LoadRecords(m, rs[..|rs| - 1]), rs[|rs| - 1])
  }

  predicate HasHeader(b: seq<Byte>)
  {
    |b| >= 6 && b[0..4] == MAGIC && FromBigEndian(b[4..6]) == FORMAT_VERSION
  }

  /** LoadSnapshot into an empty store. */
  function LoadFile(b: seq<Byte>): Result<Memory>
  {
    if !HasHeader(b) then Error
    else
      var p := Parse(b[6..]);
      if p.status == Complete then Ok(LoadRecords(BLANK, p.records)) else Error
  }

  /** The counter is the highest version loaded. */
  ghost predicate CounterIsMax(m: Memory)
  {
    && (forall k :: k in m.entries ==> m.entries[k].version <= m.lastVersion)
    && (m.lastVersion == 0 || exists k :: k in m.entries && m.entries[k].version == m.lastVersion)
  }

  lemma LoadFresh(m: Memory, r: Record)
    requires CounterIsMax(m) && r.recType == TYPE_SET && r.key !in m.entries
    ensures CounterIsMax(LoadRecord(m, r))
    ensures LoadRecord(m, r).entries == m.entries[r.key := Entry(r.value, r.version, r.expiresAt)]
  {
    var l := LoadRecord(m, r);
    assert l.entries[r.key].version == r.version;
    if l.lastVersion != r.version && m.lastVersion != 0 {
      var x :| x in m.entries && m.entries[x].version == m.lastVersion;
      assert l.entries[x].version == l.lastVersion;
    }
  }

  /** The listed part of the entries that are not expired. */
  function Listed(m: Entries, order: seq<Key>, now: nat): Entries
    requires forall k :: k in order ==> k in m
  {
    map k | k in order && !Expired(m[k], now) :: m[k]
  }

  lemma ListedSnoc(m: Entries, front: seq<Key>, k: Key, now: nat)
    requires k in m && forall x :: x in front ==> x in m
    requires k !in front
    ensures Listed(m, front + [k], now) ==
            if Expired(m[k], now) then Listed(m, front, now) else Listed(m, front, now)[k := m[k]]
  {
  }

  lemma LoadRecordsSnoc(m: Memory, rs: seq<Record>, r: Record)
    ensures LoadRecords(m, rs + [r]) == LoadRecord(LoadRecords(m, rs), r)
  {
    assert (rs + [r])[..|rs + [r]| - 1] == rs;
  }

  lemma {:induction false} LoadListed(m: Entries, order: seq<Key>, now: nat)
    requires forall k :: k in order ==> k in m
    requires NoRepeats(order)
    ensures CounterIsMax(LoadRecords(BLANK, SnapshotRecords(m, order, now)))
    ensures LoadRecords(BLANK, SnapshotRecords(m, order, now)).entries == Listed(m, order, now)
  {
    if order != [] {
      var n := |order| - 1;
      var front, k := order[..n], order[n];
      assert order == front + [k];
      LoadListed(m, front, now);
      ListedSnoc(m, front, k, now);
      if !Expired(m[k], now) {
        var rs, r := SnapshotRecords(m, front, now), EntryRecord(k, m[k]);
        LoadRecordsSnoc(BLANK, rs, r);
        hide CounterIsMax, LoadRecord, LoadRecords;
        LoadFresh(LoadRecords(BLANK, rs), r);
      }
    }
  }

  lemma {:induction false} SnapshotRecordsStorable(m: Entries, order: seq<Key>, now: nat)
    requires StorableEntries(m)
    requires forall k :: k in order ==> k in m
    ensures forall i :: 0 <= i < |SnapshotRecords(m, order, now)| ==> Storable(SnapshotRecords(m, order, now)[i])
  {
    if order != [] {
      SnapshotRecordsStorable(m, order[..|order| - 1], now);
    }
  }

  lemma ListedAll(m: Entries, order: seq<Key>, now: nat)
    requires IsListing(order, m.Keys)
    ensures Listed(m, order, now) == Unexpired(m, now)
  {
  }

  lemma HeaderReads(rest: seq<Byte>)
    ensures var b := Header() + rest;
            b[0..4] == MAGIC && FromBigEndian(b[4..6]) == FORMAT_VERSION && b[6..] == rest
  {
    FieldWidths();
    BigEndianRoundTrip(FORMAT_VERSION, 2);
    hide FromBigEndian, BigEndian;
    var b := Header() + rest;
    assert b[4..6] == BigEndian(FORMAT_VERSION, 2);
  }

  lemma LoadEncoded(rs: seq<Record>)
    requires forall i :: 0 <= i < |rs| ==> Storable(rs[i])
    ensures LoadFile(Header() + EncodeAll(rs)) == Ok(LoadRecords(BLANK, rs))
  {
    HeaderReads(EncodeAll(rs));
    hide Storable, EncodeAll, Parse, Header, FromBigEndian;
    CleanLog(rs);
  }

  /**
   For every iteration order, loading a created snapshot into an empty store gives
   exactly the entries unexpired when it was written, and the highest loaded
   version as the counter.
   */
  lemma SnapshotRoundTrip(m: Entries, order: seq<Key>, now: nat)
    requires StorableEntries(m) && IsListing(order, m.Keys)
    ensures LoadFile(SnapshotFile(m, order, now)).Ok?
    ensures LoadFile(SnapshotFile(m, order, now)).value.entries == Unexpired(m, now)
    ensures CounterIsMax(LoadFile(SnapshotFile(m, order, now)).value)
  {
    SnapshotRecordsStorable(m, order, now);
    ListedAll(m, order, now);
    hide Storable, CounterIsMax, SnapshotRecords, LoadFile, LoadRecords, EncodeAll, Listed, Unexpired;
    LoadListed(m, order, now);
    LoadEncoded(SnapshotRecords(m, order, now));
  }

  /** The first six bytes: "KVSN" and format version 1. */
  lemma HeaderBytes(m: Entries, order: seq<Key>, now: nat)
    requires forall k :: k in order ==> k in m
    ensures SnapshotFile(m, order, now)[..6] == [75, 86, 83, 78, 0, 1]
    ensures forall b :: HasHeader(b) <==> |b| >= 6 && b[..6] == [75, 86, 83, 78, 0, 1]
  {
    hide EncodeAll, SnapshotRecords;
    assert BigEndian(1, 2) == [0, 1] by { BigEndianAt(1, 2, 0); BigEndianAt(1, 2, 1); assert Pow256(1) == 256; }
    forall b: seq<Byte>
      ensures HasHeader(b) <==> |b| >= 6 && b[..6] == [75, 86, 83, 78, 0, 1]
    {
      if |b| >= 6 {
        assert b[..6] == b[0..4] + b[4..6];
        BigEndianOfRead(b[4..6]);
        TwoBytes(b[4..6]);
      }
    }
  }

  /** What follows the header decides. */
  lemma UnreadableFatal(rest: seq<Byte>)
    requires Parse(rest).status != Complete
    ensures LoadFile(Header() + rest) == Error
  {
    hide Parse, Header, FromBigEndian, LoadRecords;
    HeaderReads(rest);
  }

  /** A snapshot in which one payload byte of any record has changed does not load. */
  lemma FlippedSnapshotFatal(before: seq<Record>, r: Record, after: seq<Record>, at: nat, x: Byte)
    requires forall i :: 0 <= i < |before| ==> Storable(before[i])
    requires Storable(r) && at < |Payload(r)| && x != Payload(r)[at]
    ensures LoadFile(Header() + (EncodeAll(before) + Encode(r)[8 + at := x] + EncodeAll(after))) == Error
  {
    hide Storable, EncodeAll, Payload, Parse, Header, LoadFile;
    ByteFlipCaught(before, r, EncodeAll(after), at, x);
    UnreadableFatal(EncodeAll(before) + Encode(r)[8 + at := x] + EncodeAll(after));
  }

  /** Record `i` is the first of the highest version among the Sets of its key. */
  ghost predicate FirstHighest(rs: seq<Record>, k: Key, i: int)
  {
    && 0 <= i < |rs| && rs[i].recType == 1 && rs[i].key == k
    && (forall j :: 0 <= j < i && rs[j].recType == 1 && rs[j].key == k ==> rs[j].version < rs[i].version)
    && (forall j :: i < j < |rs| && rs[j].recType == 1 && rs[j].key == k ==> rs[j].version <= rs[i].version)
  }

  lemma FirstElsewhere(rs: seq<Record>, k: Key, i: int)
    requires rs != [] && !(rs[|rs| - 1].recType == 1 && rs[|rs| - 1].key == k)
    ensures FirstHighest(rs, k, i) <==> FirstHighest(rs[..|rs| - 1], k, i)
  {
    var front := rs[..|rs| - 1];
    assert forall j :: 0 <= j < |front| ==> front[j] == rs[j];
  }

  /** One more Set of the key takes over exactly when its version is higher. */
  lemma FirstGrows(front: seq<Record>, r: Record, k: Key, i: int)
    requires FirstHighest(front, k, i) && r.recType == 1 && r.key == k
    ensures var rs := front + [r];
            forall x :: FirstHighest(rs, k, x) <==> x == if r.version > front[i].version then |front| else i
  {
    var rs := front + [r];
    forall x
      ensures FirstHighest(rs, k, x) <==> x == if r.version > front[i].version then |front| else i
    {
      assert rs[|front|] == r && rs[i] == front[i];
      assert forall j :: 0 <= j < |front| ==> front[j] == rs[j];
    }
  }

  lemma {:induction false} FindFirst(rs: seq<Record>, k: Key, x: int) returns (i: int)
    requires 0 <= x < |rs| && rs[x].recType == 1 && rs[x].key == k
    ensures FirstHighest(rs, k, i)
  {
    var n := |rs| - 1;
    var front, r := rs[..n], rs[n];
    assert rs == front + [r];
    if y :| 0 <= y < n && rs[y].recType == 1 && rs[y].key == k {
      i := FindFirst(front, k, y);
      if r.recType == 1 && r.key == k {
        FirstGrows(front, r, k, i);
        i := if r.version > front[i].version then n else i;
      } else {
        FirstElsewhere(rs, k, i);
      }
    } else {
      i := n;
    }
  }

  lemma NoneYet(front: seq<Record>, r: Record, k: Key)
    requires (forall i :: !FirstHighest(front, k, i)) && r.recType == 1 && r.key == k
    ensures forall x :: FirstHighest(front + [r], k, x) <==> x == |front|
  {
    var rs := front + [r];
    if y :| 0 <= y < |front| && front[y].recType == 1 && front[y].key == k {
      var i := FindFirst(front, k, y);
    }
    assert rs[|front|] == r && forall j :: 0 <= j < |front| ==> front[j] == rs[j];
  }

  /** Of several records of a key, whatever their order, a load keeps the first of the highest version. */
  lemma {:induction false} LoadsFirstHighest(rs: seq<Record>, k: Key)
    ensures k in LoadRecords(BLANK, rs).entries <==> exists i :: FirstHighest(rs, k, i)
    ensures forall i :: FirstHighest(rs, k, i) ==>
              Lookup(LoadRecords(BLANK, rs).entries, k) == Some(Entry(rs[i].value, rs[i].version, rs[i].expiresAt))
  {
    if rs != [] {
      var n := |rs| - 1;
      var front, r := rs[..n], rs[n];
      LoadsFirstHighest(front, k);
      hide LoadRecords, FirstHighest;
      assert rs == front + [r];
      assert LoadRecords(BLANK, rs) == LoadRecord(LoadRecords(BLANK, front), r) by {
        assert rs == front + [r];
        LoadRecordsSnoc(BLANK, front, r);
      }
      if r.recType == 1 && r.key == k {
        if i :| FirstHighest(front, k, i) {
          FirstGrows(front, r, k, i);
          assert FirstHighest(rs, k, if r.version > front[i].version then n else i);
        } else {
          NoneYet(front, r, k);
          assert FirstHighest(rs, k, n);
        }
      } else {
        forall i
          ensures FirstHighest(rs, k, i) <==> FirstHighest(front, k, i)
        {
          FirstElsewhere(rs, k, i);
        }
      }
    }
  }

  // ------------------------------------------------------------- start-up

  datatype Disk = Disk(snapshot: Option<seq<Byte>>, wal: seq<Byte>)

  /** What LoadSnapshot leaves before the log is replayed. */
  function Base(snapshot: Option<seq<Byte>>): Result<Memory>
  {
    if snapshot.None? then Ok(BLANK) else LoadFile(snapshot.value)
  }

  /** The start-up sequence: load the snapshot if there is one, then replay the log; any error is fatal. */
  function Recover(d: Disk, now: nat): Result<Memory>
  {
    match Base(d.snapshot)
    case Error => Error
    case Ok(m) =>
      var p := Parse(d.wal);
      if p.status == Complete then Ok(ReplayRecords(m, p.records, now)) else Error
  }
}
