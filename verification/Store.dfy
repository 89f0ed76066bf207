/**
 The sharded store as an object whose methods update it in place. Its contract
 is a single unsharded map with a version counter; the clock is a parameter.
 */
module Stores {
  import opened Bytes
  import opened Lww
  import opened Records
  import opened Recovery
  import opened Sharding
  import opened Wals
  import opened Sorting
  import opened Paging

  ghost function LiveMatches(m: Entries, prefix: Key, now: nat): set<Key>
  {
    set k | k in Unexpired(m, now) && prefix <= k
  }

  lemma {:induction false} NoRepeatsCount(s: seq<Key>, k: Key)
    requires NoRepeats(s)
    ensures multiset(s)[k] <= 1
  {
    if s != [] {
      var n := |s| - 1;
      assert s == s[..n] + [s[n]];
      NoRepeatsCount(s[..n], k);
      if s[n] == k {
        assert k !in s[..n];
        assert k !in multiset(s[..n]);
      }
    }
  }

  lemma {:induction false} CountNoRepeats(s: seq<Key>, i: nat, j: nat)
    requires i < j < |s| && multiset(s)[s[i]] <= 1
    ensures s[i] != s[j]
  {
    assert s == s[..j] + [s[j]] + s[j + 1..];
    assert s[i] in s[..j];
    assert multiset(s) == multiset(s[..j]) + multiset{s[j]} + multiset(s[j + 1..]);
  }

  /** Sorting a listing puts it in strictly increasing order. */
  lemma SortedListing(keys: seq<Key>, sorted: seq<Key>, all: set<Key>)
    requires IsListing(keys, all) && Sorted(sorted) && multiset(sorted) == multiset(keys)
    ensures Increasing(sorted) && forall k :: k in sorted <==> k in all
  {
    hide Less;
    assert NoRepeats(keys);
    forall k
      ensures k in sorted <==> k in all
    {
      assert k in sorted <==> k in multiset(sorted);
      assert k in keys <==> k in multiset(keys);
    }
    forall i, j | 0 <= i < j < |sorted|
      ensures Less(sorted[i], sorted[j])
    {
      NoRepeatsCount(keys, sorted[i]);
      CountNoRepeats(sorted, i, j);
      LessTotal(sorted[i], sorted[j]);
    }
  }

  /** From the first key above the cursor on, the sorted keys are exactly the matches. */
  lemma TailMatches(s: seq<Key>, start: nat, cursor: Key, prefix: Key, live: set<Key>)
    requires Increasing(s) && forall k :: k in s <==> k in live && prefix <= k
    requires start <= |s|
    requires cursor == [] ==> start == 0
    requires cursor != [] ==> forall j :: 0 <= j < start ==> !Less(cursor, s[j])
    requires cursor != [] && start < |s| ==> Less(cursor, s[start])
    ensures Increasing(s[start..])
    ensures forall k :: k in s[start..] <==> Matches(k, live, prefix, cursor)
  {
    hide Less;
    var t := s[start..];
    forall k | k in t
      ensures Matches(k, live, prefix, cursor)
    {
      var j :| 0 <= j < |t| && t[j] == k;
      assert s[start + j] == k && k in s;
      if cursor != [] && j > 0 {
        LessTransitive(cursor, s[start], s[start + j]);
      }
    }
    forall k | Matches(k, live, prefix, cursor)
      ensures k in t
    {
      var j :| 0 <= j < |s| && s[j] == k;
      assert t[j - start] == k;
    }
  }

  lemma LeavesNext(t: seq<Key>, n: nat, cursor: Key, prefix: Key, live: set<Key>)
    requires n < |t| && Increasing(t) && Matches(t[n], live, prefix, cursor)
    ensures Remains(t[n], t[..n], live, prefix, cursor)
  {
    hide Less, Matches;
    forall i | 0 <= i < n
      ensures t[i] != t[n]
    {
      LessIrreflexive(t[n]);
    }
  }

  /** The first keys of the sorted matches are a page. */
  lemma FrontIsPage(t: seq<Key>, n: nat, limit: nat, cursor: Key, prefix: Key, live: set<Key>)
    requires limit >= 1 && Increasing(t) && forall k :: k in t <==> Matches(k, live, prefix, cursor)
    requires n == if limit > |t| then |t| else limit
    ensures IsPage(t[..n], if n < |t| then t[n - 1] else [], live, prefix, limit, cursor)
  {
    hide Less, Matches;
    var page := t[..n];
    forall k | k in page
      ensures Matches(k, live, prefix, cursor)
    {
      assert k in t;
    }
    forall k | Remains(k, page, live, prefix, cursor)
      ensures n < |t| && forall p :: p in page ==> Less(p, k)
    {
      var j :| 0 <= j < |t| && t[j] == k;
      assert j >= n;
      forall p | p in page
        ensures Less(p, k)
      {
        var i :| 0 <= i < n && page[i] == p;
      }
    }
    if n < |t| {
      LeavesNext(t, n, cursor, prefix, live);
    }
  }

  /** The cursor loop and the slice of Scan, over the sorted keys. */
  method CutPage(all: array<Key>, limit: nat, cursor: Key, ghost prefix: Key, ghost live: set<Key>)
    returns (page: seq<Key>, next: Key)
    requires limit >= 1 && Increasing(all[..])
    requires forall k :: k in all[..] <==> k in live && prefix <= k
    ensures IsPage(page, next, live, prefix, limit, cursor)
  {
    hide Less;
    var start := 0;
    if cursor != [] {
      var i := 0;
      while i < all.Length
        invariant 0 <= i <= all.Length
        invariant forall j :: 0 <= j < i ==> !Less(cursor, all[j])
        invariant start == if i == all.Length then all.Length else 0
      {
        if Less(cursor, all[i]) {
          start := i;
          break;
        }
        if i == all.Length - 1 {
          start := all.Length;
        }
        i := i + 1;
      }
    }
    var end := start + limit;
    if end > all.Length {
      end := all.Length;
    }
    ghost var tail := all[start..];
    TailMatches(all[..], start, cursor, prefix, live);
    assert tail == all[..][start..];
    FrontIsPage(tail, end - start, limit, cursor, prefix, live);
    if start >= all.Length {
      assert tail[..0] == [];
      return [], [];
    }
    page := all[start..end];
    assert page == tail[..end - start];
    next := [];
    if end < all.Length {
      next := page[|page| - 1];
    }
  }

  /** What is left of a shard when all but the keys in `left` have been looked at. */
  function Reaping(m: Entries, left: set<Key>, now: nat): Entries
  {
    map k | k in m && (k in left || !Expired(m[k], now)) :: m[k]
  }

  lemma ReapNext(m: Entries, left: set<Key>, k: Key, now: nat)
    requires k in left && k in m
    ensures k in Reaping(m, left, now) && Reaping(m, left, now)[k] == m[k]
    ensures Reaping(m, left - {k}, now) ==
            if Expired(m[k], now) then Reaping(m, left, now) - {k} else Reaping(m, left, now)
  {
  }

  class Store {
    const hash: Hash
    const shards: array<Entries>
    var lastVersion: nat
    var keyCount: int
    var wal: Wal?

    /** Each key sits in its own shard. */
    ghost predicate Sharded()
      reads this, shards
    {
      shards.Length == SHARD_COUNT && Placed(shards[..], hash)
    }

    /** Moreover the key count is right. */
    ghost predicate Valid()
      reads this, shards
    {
      Sharded() && keyCount == Total(shards[..])
    }

    ghost function Contents(): Entries
      reads this, shards
    {
      Flatten(shards[..])
    }

    ghost function View(): Memory
      reads this, shards
    {
      Memory(Contents(), lastVersion)
    }

    constructor (hash: Hash, wal: Wal?)
      ensures Valid() && View() == BLANK && keyCount == 0
      ensures this.hash == hash && this.wal == wal && fresh(shards)
    {
      this.hash := hash;
      this.wal := wal;
      this.shards := new Entries[SHARD_COUNT](_ => map[]);
      this.lastVersion := 0;
      this.keyCount := 0;
      new;
      TotalEmpty(shards[..]);
    }

    lemma SizeIsCount()
      requires Valid()
      ensures keyCount == |Contents()|
    {
      TotalIsSize(shards[..], hash);
    }

    method NextVersion(now: nat) returns (v: nat)
      modifies this`lastVersion
      ensures v == Lww.NextVersion(old(lastVersion), now) && lastVersion == v
    {
      v := now;
      if v <= lastVersion {
        v := lastVersion + 1;
      }
      lastVersion := v;
    }

    /** An expired entry reads as absent and is reaped. */
    method Get(key: Key, now: nat) returns (found: Option<Entry>)
      requires Valid()
      modifies shards, this`keyCount
      ensures Valid()
      ensures found == if key in old(Contents()) && !Expired(old(Contents())[key], now)
                       then Some(old(Contents())[key]) else None
      ensures Contents() == if key in old(Contents()) && found == None then old(Contents()) - {key} else old(Contents())
      ensures found.Some? <==>
                key in old(Contents()) && (old(Contents())[key].expiresAt == 0 || now <= old(Contents())[key].expiresAt)
    {
      hide Flatten, Total, Home;
      ghost var before := shards[..];
      FlattenAt(before, hash, key);
      var i := Home(hash, key);
      if key !in shards[i] {
        return None;
      }
      var entry := shards[i][key];
      if Expired(entry, now) {
        ShardRemove(before, hash, key);
        TotalUpdate(before, i, shards[i] - {key});
        RemoveSize(shards[i], key);
        shards[i] := shards[i] - {key};
        assert shards[..] == before[i := before[i] - {key}];
        keyCount := keyCount - 1;
        return None;
      }
      return Some(entry);
    }

    /** The part of Set under the shard's lock. */
    method ApplySet(key: Key, value: Value, version: nat, expiresAt: nat) returns (v: nat)
      requires Valid()
      modifies this`keyCount, shards
      ensures Valid()
      ensures Contents() == Apply(old(Contents()), Lww.Set(key, value, version, expiresAt))
      ensures v == Reply(old(Contents()), Lww.Set(key, value, version, expiresAt))
    {
      hide Flatten, Total, Home;
      ghost var op := Lww.Set(key, value, version, expiresAt);
      ghost var before := shards[..];
      var i := Home(hash, key);
      ShardApply(before, hash, op);
      TotalUpdate(before, i, Apply(before[i], op));
      FlattenAt(before, hash, key);
      if key in shards[i] {
        if version < shards[i][key].version {
          assert before[i := before[i]] == before;
          return shards[i][key].version;
        }
      } else {
        keyCount := keyCount + 1;
      }
      PutSize(shards[i], key, EntryOf(op));
      shards[i] := shards[i][key := Entry(value, version, expiresAt)];
      assert shards[..] == before[i := Apply(before[i], op)];
      return version;
    }

    /** The part of Delete under the shard's lock. */
    method ApplyDelete(key: Key, version: nat) returns (v: nat, deleted: bool)
      requires Valid()
      modifies this`keyCount, shards
      ensures Valid()
      ensures Contents() == Apply(old(Contents()), Lww.Delete(key, version))
      ensures v == Reply(old(Contents()), Lww.Delete(key, version))
      ensures deleted <==> key in old(Contents()) && key !in Contents()
    {
      hide Flatten, Total, Home, Placed, Apply;
      ghost var before := shards[..];
      ShardRead(before, hash, key);
      ShardDelete(before, hash, Lww.Delete(key, version));
      var i := Home(hash, key);
      if key !in shards[i] {
        return version, false;
      }
      if version < shards[i][key].version {
        return shards[i][key].version, false;
      }
      shards[i] := shards[i] - {key};
      assert shards[..] == before[i := before[i] - {key}];
      keyCount := keyCount - 1;
      return version, true;
    }

    /** Logs first, then applies: `ok` is false, and nothing is applied, when the log refuses the record. */
    method Set(key: Key, value: Value, ttl: nat, version: nat, now: nat) returns (v: nat, ok: bool)
      requires Valid() && (wal != null ==> wal.Valid())
      modifies this`lastVersion, this`keyCount, shards, if wal == null then {} else {wal}
      ensures Valid() && (wal != null ==> wal.Valid())
      ensures ok <==> wal == null || |key| <= MAX_KEY
      ensures var exp := if ttl > 0 then now + ttl else 0;
              var op := Lww.Set(key, value, Chosen(old(lastVersion), version, now), exp);
              && (ok ==> View() == SetIn(old(View()), key, value, exp, version, now))
              && (ok ==> v == Reply(old(Contents()), op))
              && (!ok ==> View() == old(View()).(lastVersion := Minted(old(lastVersion), version, now)) && v == 0)
              && (wal != null ==> wal.file == old(wal.file) + if ok then Encode(RecordOf(op)) else [])
    {
      hide Encode, Flatten, Total, Placed, Apply, Reply;
      var expiresAt := if ttl > 0 then now + ttl else 0;
      var chosen := version;
      if version == 0 {
        chosen := NextVersion(now);
      }
      if wal != null {
        var appended := wal.Append(TYPE_SET, key, value, chosen, expiresAt);
        if !appended {
          return 0, false;
        }
      }
      ok := true;
      v := ApplySet(key, value, chosen, expiresAt);
    }

    method Delete(key: Key, version: nat, now: nat) returns (v: nat, deleted: bool, ok: bool)
      requires Valid() && (wal != null ==> wal.Valid())
      modifies this`lastVersion, this`keyCount, shards, if wal == null then {} else {wal}
      ensures Valid() && (wal != null ==> wal.Valid())
      ensures ok <==> wal == null || |key| <= MAX_KEY
      ensures var op := Lww.Delete(key, Chosen(old(lastVersion), version, now));
              && (ok ==> View() == DeleteIn(old(View()), key, version, now))
              && (ok ==> v == Reply(old(Contents()), op))
              && (deleted <==> ok && key in old(Contents()) && key !in Contents())
              && (!ok ==> View() == old(View()).(lastVersion := Minted(old(lastVersion), version, now)) && v == 0)
              && (wal != null ==> wal.file == old(wal.file) + if ok then Encode(RecordOf(op)) else [])
    {
      hide Encode, Flatten, Total, Placed, Apply, Reply;
      var chosen := version;
      if version == 0 {
        chosen := NextVersion(now);
      }
      if wal != null {
        var appended := wal.Append(TYPE_DELETE, key, [], chosen, 0);
        if !appended {
          return 0, false, false;
        }
      }
      ok := true;
      v, deleted := ApplyDelete(key, chosen);
    }

    // ------------------------------------------------------------- reaping

    /** One shard of the reaper's pass. */
    method ReapShard(i: nat, now: nat)
      requires shards.Length == SHARD_COUNT && i < SHARD_COUNT
      modifies shards, this`keyCount
      ensures shards[..] == old(shards[..])[i := Unexpired(old(shards[i]), now)]
      ensures keyCount == old(keyCount) - |old(shards[i])| + |shards[i]|
    {
      hide Expired;
      ghost var before, m := shards[..], shards[i];
      var left := shards[i].Keys;
      assert Reaping(m, left, now) == m && before[i := m] == before;
      while left != {}
        invariant left <= m.Keys
        invariant shards[..] == before[i := Reaping(m, left, now)]
        invariant keyCount == old(keyCount) - |m| + |shards[i]|
        decreases left
      {
        var k :| k in left;
        ReapNext(m, left, k, now);
        left := left - {k};
        if Expired(shards[i][k], now) {
          RemoveSize(shards[i], k);
          shards[i] := shards[i] - {k};
          keyCount := keyCount - 1;
        }
      }
      assert Reaping(m, {}, now) == Unexpired(m, now);
    }

    method Reap(now: nat)
      requires Valid()
      modifies shards, this`keyCount
      ensures Valid() && Contents() == Unexpired(old(Contents()), now)
      ensures forall k :: k in Contents() <==>
                k in old(Contents()) && (old(Contents())[k].expiresAt == 0 || now <= old(Contents())[k].expiresAt)
    {
      hide Flatten, Total, Placed;
      ghost var before := shards[..];
      for i := 0 to SHARD_COUNT
        invariant keyCount == Total(shards[..])
        invariant forall j :: 0 <= j < i ==> shards[j] == Unexpired(before[j], now)
        invariant forall j :: i <= j < SHARD_COUNT ==> shards[j] == before[j]
      {
        TotalUpdate(shards[..], i, Unexpired(shards[i], now));
        ReapShard(i, now);
      }
      UnexpiredShards(before, shards[..], hash, now);
    }

    // ------------------------------------------------------------- scanning

    /** The live keys with the prefix, in the order the maps are walked. */
    method Gather(prefix: Key, now: nat) returns (keys: seq<Key>)
      requires Valid()
      ensures IsListing(keys, LiveMatches(Contents(), prefix, now))
    {
      hide Flatten, Total, Home, Placed;
      ghost var live := LiveMatches(Contents(), prefix, now);
      keys := [];
      for i := 0 to SHARD_COUNT
        invariant NoRepeats(keys)
        invariant forall k :: k in keys <==> k in live && Home(hash, k) < i
      {
        ShardKeys(shards[..], hash, i);
        var left := shards[i].Keys;
        while left != {}
          invariant left <= shards[i].Keys
          invariant NoRepeats(keys)
          invariant forall k :: k in keys <==> k in live && Passed(hash, k, i, left)
          decreases left
        {
          var k :| k in left;
          var entry := shards[i][k];
          assert Home(hash, k) == i && k !in keys;
          if !Expired(entry, now) && prefix <= k {
            keys := keys + [k];
          }
          left := left - {k};
        }
      }
    }

    /** One page of keys: gather, sort in place, skip to the cursor, cut at the limit. */
    method Scan(prefix: Key, limit: nat, cursor: Key, now: nat) returns (page: seq<Key>, next: Key)
      requires Valid() && limit >= 1
      ensures IsPage(page, next, Unexpired(Contents(), now).Keys, prefix, limit, cursor)
      ensures forall i, j :: 0 <= i < j < |page| ==> Before(page[i], page[j])
      ensures forall k :: k in page ==> prefix <= k && (cursor == [] || Before(cursor, k))
    {
      hide Flatten, Total, Placed, Less, AtMost, Before;
      var keys := Gather(prefix, now);
      var all := new Key[|keys|](i requires 0 <= i < |keys| => keys[i]);
      assert all[..] == keys;
      SortStrings(all);
      SortedListing(keys, all[..], LiveMatches(Contents(), prefix, now));
      page, next := CutPage(all, limit, cursor, prefix, Unexpired(Contents(), now).Keys);
      PageByPosition(page, next, Unexpired(Contents(), now).Keys, prefix, limit, cursor);
    }

    // ------------------------------------------------------------- snapshots

    /**
     Writes every unexpired entry to a temporary file, renames it over the snapshot, then
     truncates the log. `order` is the order in which the maps were walked.
     */
    method CreateSnapshot(now: nat) returns (ok: bool, ghost order: seq<Key>)
      requires Valid() && (wal != null ==> wal.Valid())
      modifies if wal == null then {} else {wal, wal.dir}
      ensures ok <==> wal != null
      ensures ok ==> wal.Valid() && wal.file == []
      ensures ok ==> IsListing(order, Contents().Keys)
      ensures ok ==> wal.dir.snapshot == Some(SnapshotFile(Contents(), order, now))
    {
      hide Flatten, Total, Home, Placed, Encode, SnapshotFile, Expired;
      order := [];
      if wal == null {
        return false, [];
      }
      ghost var m := Contents();
      var file := Header();
      EmptySnapshotFile(m, now);
      for i := 0 to SHARD_COUNT
        invariant NoRepeats(order)
        invariant forall k :: k in order <==> k in m && Home(hash, k) < i
        invariant file == SnapshotFile(m, order, now)
      {
        ShardKeys(shards[..], hash, i);
        var left := shards[i].Keys;
        while left != {}
          invariant left <= shards[i].Keys
          invariant NoRepeats(order)
          invariant forall k :: k in order <==> k in m && Passed(hash, k, i, left)
          invariant file == SnapshotFile(m, order, now)
          decreases left
        {
          var k :| k in left;
          var entry := shards[i][k];
          assert Home(hash, k) == i && k !in order;
          SnapshotFileGrows(m, order, k, now);
          if !Expired(entry, now) {
            var buf := FillRecord(EntryRecord(k, entry));
            file := file + buf[..];
          }
          order := order + [k];
          left := left - {k};
        }
      }
      wal.dir.snapshot := Some(file);
      wal.Truncate();
      ok := true;
    }

    /** One record of a snapshot, put straight into its shard. */
    method LoadOne(r: Record) returns (added: bool)
      requires Sharded()
      modifies shards, this`lastVersion
      ensures Sharded()
      ensures View() == LoadRecord(old(View()), r)
      ensures Total(shards[..]) == old(Total(shards[..])) + if added then 1 else 0
    {
      hide Flatten, Total, Home, Placed;
      added := false;
      if r.recType == TYPE_SET {
        ghost var before := shards[..];
        var i := Home(hash, r.key);
        ShardRead(before, hash, r.key);
        if r.key !in shards[i] || r.version > shards[i][r.key].version {
          var e := Entry(r.value, r.version, r.expiresAt);
          added := r.key !in shards[i];
          ShardPut(before, hash, r.key, e);
          TotalUpdate(before, i, shards[i][r.key := e]);
          PutSize(shards[i], r.key, e);
          shards[i] := shards[i][r.key := e];
          assert shards[..] == before[i := before[i][r.key := e]];
          if r.version > lastVersion {
            lastVersion := r.version;
          }
        }
      }
    }

    /**
     Loads the records of a snapshot file over what the store holds, up to the first bad one. The
     key count becomes the number of keys added, so it is right exactly when the store was empty;
     after an error it is not touched.
     */
    method LoadSnapshot(snapshot: Option<seq<Byte>>) returns (loaded: bool, ok: bool)
      requires Sharded()
      modifies shards, this`lastVersion, this`keyCount
      ensures Sharded()
      ensures loaded <==> ok && snapshot.Some?
      ensures snapshot == None ==>
                ok && View() == old(View()) && keyCount == old(keyCount) && shards[..] == old(shards[..])
      ensures snapshot.Some? ==> (ok <==> LoadFile(snapshot.value).Ok?)
      ensures snapshot.Some? ==>
                View() == if HasHeader(snapshot.value) then LoadRecords(old(View()), Parse(snapshot.value[6..]).records)
                          else old(View())
      ensures keyCount == if loaded then Total(shards[..]) - old(Total(shards[..])) else old(keyCount)
    {
      hide Flatten, Total, Placed, Parse, ReadFrame, PayloadSize, Reading;
      if snapshot == None {
        return false, true;
      }
      var file := snapshot.value;
      if |file| < 6 {
        return false, false;
      }
      if file[0..4] != MAGIC {
        return false, false;
      }
      if FromBigEndian(file[4..6]) != FORMAT_VERSION {
        return false, false;
      }
      ghost var view, total, delivered: seq<Record> := View(), Total(shards[..]), [];
      var pos, count := 6, 0;
      ReadingStarts(file, 6);
      while true
        invariant Sharded() && pos <= |file|
        invariant keyCount == old(keyCount)
        invariant Reading(file, 6, pos, delivered)
        invariant View() == LoadRecords(view, delivered)
        invariant Total(shards[..]) == total + count
        decreases |file| - pos
      {
        var read, next := ReadNext(file, pos);
        match read {
          case End(ending) =>
            ReadingEnds(file, 6, pos, delivered, ending);
            if ending != Complete {
              return false, false;
            }
            break;
          case Item(r) =>
            ReadingGoesOn(file, 6, pos, delivered, r, next);
            LoadRecordsSnoc(view, delivered, r);
            var added := LoadOne(r);
            if added {
              count := count + 1;
            }
            delivered := delivered + [r];
            pos := next;
        }
      }
      keyCount := count;
      return true, true;
    }

    /** Links the log for future writes. */
    method SetWal(wal: Wal)
      modifies this`wal
      ensures this.wal == wal
    {
      this.wal := wal;
    }
  }
}
