/**
 One map split over shards by a hash of the key. The hash is any function; its
 remainder picks the shard.
 */
module Sharding {
  import opened Bytes
  import opened Lww

  const SHARD_COUNT: nat := 32

  type Hash = Key -> nat

  function Home(hash: Hash, k: Key): (i: nat)
    ensures i == hash(k) % 32
  {
    hash(k) % SHARD_COUNT
  }

  /** Every key lives in its own shard only. */
  ghost predicate Placed(shards: seq<Entries>, hash: Hash)
  {
    forall i, k :: 0 <= i < |shards| && k in shards[i] ==> Home(hash, k) == i
  }

  function Flatten(shards: seq<Entries>): Entries
  {
    if shards == [] then map[] else Flatten(shards[..|shards| - 1]) + shards[|shards| - 1]
  }

  function Total(shards: seq<Entries>): nat
  {
    if shards == [] then 0 else Total(shards[..|shards| - 1]) + |shards[|shards| - 1]|
  }

  /** Looking a key up in the whole is looking it up in its shard. */
  lemma {:induction false} FlattenAt(shards: seq<Entries>, hash: Hash, k: Key)
    requires Placed(shards, hash)
    ensures Lookup(Flatten(shards), k) ==
            if Home(hash, k) < |shards| then Lookup(shards[Home(hash, k)], k) else None
  {
    if shards != [] {
      hide Home;
      var n := |shards| - 1;
      assert Placed(shards[..n], hash);
      FlattenAt(shards[..n], hash, k);
    }
  }

  /** The shards hold as many entries together as the one map. */
  lemma {:induction false} TotalIsSize(shards: seq<Entries>, hash: Hash)
    requires Placed(shards, hash)
    ensures Total(shards) == |Flatten(shards)|
  {
    if shards != [] {
      hide Home;
      var n := |shards| - 1;
      var front, last := shards[..n], shards[n];
      assert Placed(front, hash);
      TotalIsSize(front, hash);
      forall k | k in last
        ensures k !in Flatten(front)
      {
        FlattenAt(front, hash, k);
        assert Home(hash, k) == n;
      }
      assert Flatten(shards).Keys == Flatten(front).Keys + last.Keys;
      assert |Flatten(shards).Keys| == |Flatten(front).Keys| + |last.Keys|;
    }
  }

  lemma {:induction false} TotalUpdate(shards: seq<Entries>, i: nat, m: Entries)
    requires i < |shards|
    ensures Total(shards[i := m]) == Total(shards) - |shards[i]| + |m|
  {
    var n := |shards| - 1;
    var shards' := shards[i := m];
    if i < n {
      assert shards'[..n] == shards[..n][i := m];
      TotalUpdate(shards[..n], i, m);
    } else {
      assert shards'[..n] == shards[..n];
    }
  }

  lemma {:induction false} TotalEmpty(shards: seq<Entries>)
    requires forall i :: 0 <= i < |shards| ==> shards[i] == map[]
    ensures Total(shards) == 0 && Flatten(shards) == map[]
  {
    if shards != [] {
      TotalEmpty(shards[..|shards| - 1]);
    }
  }

  /** Replacing one shard by entries that belong there. */
  lemma ShardReplaced(shards: seq<Entries>, hash: Hash, i: nat, m: Entries, k: Key)
    requires Placed(shards, hash) && i < |shards|
    requires forall x :: x in m ==> Home(hash, x) == i
    ensures Placed(shards[i := m], hash)
    ensures Lookup(Flatten(shards[i := m]), k) ==
            if Home(hash, k) == i then Lookup(m, k) else Lookup(Flatten(shards), k)
  {
    hide Flatten, Home;
    FlattenAt(shards, hash, k);
    FlattenAt(shards[i := m], hash, k);
  }

  /** A mutation of one key in its shard is that mutation of the whole map. */
  lemma ShardApply(shards: seq<Entries>, hash: Hash, op: Op)
    requires Placed(shards, hash) && |shards| == SHARD_COUNT
    ensures var i := Home(hash, op.key);
            var shards' := shards[i := Apply(shards[i], op)];
            Placed(shards', hash) && Flatten(shards') == Apply(Flatten(shards), op)
  {
    hide Flatten, Home;
    var i := Home(hash, op.key);
    var m := Apply(shards[i], op);
    forall k
      ensures Lookup(Flatten(shards[i := m]), k) == Lookup(Apply(Flatten(shards), op), k)
    {
      ShardReplaced(shards, hash, i, m, k);
      FlattenAt(shards, hash, k);
      LookupApply(shards[i], op, k);
      LookupApply(Flatten(shards), op, k);
    }
    SameLookups(Flatten(shards[i := m]), Apply(Flatten(shards), op));
    ShardReplaced(shards, hash, i, m, op.key);
  }

  /** The shards with a key taken out of the shard it hashes to. */
  lemma ShardRemove(shards: seq<Entries>, hash: Hash, key: Key)
    requires Placed(shards, hash) && |shards| == SHARD_COUNT
    ensures var i := Home(hash, key);
            var shards' := shards[i := shards[i] - {key}];
            Placed(shards', hash) && Flatten(shards') == Flatten(shards) - {key}
  {
    hide Flatten, Home;
    var i := Home(hash, key);
    var m := shards[i] - {key};
    var whole := Flatten(shards) - {key};
    forall k
      ensures Lookup(Flatten(shards[i := m]), k) == Lookup(whole, k)
    {
      ShardReplaced(shards, hash, i, m, k);
      FlattenAt(shards, hash, k);
    }
    SameLookups(Flatten(shards[i := m]), whole);
    ShardReplaced(shards, hash, i, m, key);
  }

  /** The shards with an entry put into the shard its key hashes to. */
  lemma ShardPut(shards: seq<Entries>, hash: Hash, key: Key, e: Entry)
    requires Placed(shards, hash) && |shards| == SHARD_COUNT
    ensures var i := Home(hash, key);
            var shards' := shards[i := shards[i][key := e]];
            Placed(shards', hash) && Flatten(shards') == Flatten(shards)[key := e]
  {
    hide Flatten, Home;
    var i := Home(hash, key);
    var m := shards[i][key := e];
    var whole := Flatten(shards)[key := e];
    forall k
      ensures Lookup(Flatten(shards[i := m]), k) == Lookup(whole, k)
    {
      ShardReplaced(shards, hash, i, m, k);
      FlattenAt(shards, hash, k);
    }
    SameLookups(Flatten(shards[i := m]), whole);
    ShardReplaced(shards, hash, i, m, key);
  }

  lemma RemoveSize(m: Entries, k: Key)
    requires k in m
    ensures |m - {k}| == |m| - 1
  {
    assert (m - {k}).Keys == m.Keys - {k};
  }

  lemma PutSize(m: Entries, k: Key, e: Entry)
    ensures |m[k := e]| == if k in m then |m| else |m| + 1
  {
    assert m[k := e].Keys == m.Keys + {k};
  }

  /** Reading a key in its shard. */
  lemma ShardRead(shards: seq<Entries>, hash: Hash, key: Key)
    requires Placed(shards, hash) && |shards| == SHARD_COUNT
    ensures Lookup(Flatten(shards), key) == Lookup(shards[Home(hash, key)], key)
  {
    FlattenAt(shards, hash, key);
  }

  /** The shard under a Delete: either nothing changes, or one entry goes. */
  lemma ShardDelete(shards: seq<Entries>, hash: Hash, op: Op)
    requires Placed(shards, hash) && |shards| == SHARD_COUNT && op.Delete?
    ensures var i := Home(hash, op.key);
            if op.key in shards[i] && shards[i][op.key].version <= op.version then
              var shards' := shards[i := shards[i] - {op.key}];
              && Placed(shards', hash)
              && Flatten(shards') == Apply(Flatten(shards), op)
              && op.key !in Flatten(shards')
              && Total(shards') == Total(shards) - 1
            else
              Apply(Flatten(shards), op) == Flatten(shards)
  {
    hide Flatten, Total, Home;
    var i := Home(hash, op.key);
    ShardRead(shards, hash, op.key);
    ShardApply(shards, hash, op);
    if op.key in shards[i] && shards[i][op.key].version <= op.version {
      TotalUpdate(shards, i, shards[i] - {op.key});
      RemoveSize(shards[i], op.key);
    }
  }

  /** Unexpired shard by shard is unexpired as a whole. */
  lemma UnexpiredShards(shards: seq<Entries>, kept: seq<Entries>, hash: Hash, now: nat)
    requires Placed(shards, hash) && |shards| == |kept| == SHARD_COUNT
    requires forall i :: 0 <= i < SHARD_COUNT ==> kept[i] == Unexpired(shards[i], now)
    ensures Placed(kept, hash)
    ensures Flatten(kept) == Unexpired(Flatten(shards), now)
  {
    hide Flatten, Home;
    forall k
      ensures Lookup(Flatten(kept), k) == Lookup(Unexpired(Flatten(shards), now), k)
    {
      ShardRead(shards, hash, k);
      ShardRead(kept, hash, k);
    }
    SameLookups(Flatten(kept), Unexpired(Flatten(shards), now));
  }

  /** A shard holds exactly the keys that hash to it. */
  lemma ShardKeys(shards: seq<Entries>, hash: Hash, i: nat)
    requires Placed(shards, hash) && |shards| == SHARD_COUNT && i < SHARD_COUNT
    ensures forall k :: k in shards[i] <==> k in Flatten(shards) && Home(hash, k) == i
    ensures forall k :: k in shards[i] ==> shards[i][k] == Flatten(shards)[k]
  {
    hide Flatten, Home;
    forall k
      ensures k in shards[i] <==> k in Flatten(shards) && Home(hash, k) == i
      ensures k in shards[i] ==> shards[i][k] == Flatten(shards)[k]
    {
      ShardRead(shards, hash, k);
    }
  }

  /** A walk over the shards has passed `k`: its shard is done, or is `i` and `k` is not left there. */
  predicate Passed(hash: Hash, k: Key, i: nat, left: set<Key>)
  {
    Home(hash, k) < i || (Home(hash, k) == i && k !in left)
  }
}
