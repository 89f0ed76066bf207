/**
 Whole sequences of calls on the objects: what the step-by-step contracts give a client that
 boots, writes, restarts and replicates.
 */
module Scenarios {
  import opened Bytes
  import opened Lww
  import opened Records
  import opened Recovery
  import opened Sharding
  import opened Wals
  import opened Stores
  import opened Durable
  import opened Membership
  import opened Api
  import Refinement
  import Replicas
  import Cluster

  // ------------------------------------------------------------- one node

  predicate Fits(key: Key, value: Value)
  {
    |key| <= MAX_KEY && 19 + MAX_KEY + |value| < 0x1_0000_0000
  }

  ghost predicate Untimed(es: seq<Event>)
  {
    forall i :: 0 <= i < |es| && es[i].LogSet? ==> es[i].ttl == 0
  }

  lemma UntimedOn(es: seq<Event>, now: nat, fs: seq<Event>)
    requires Run(es).clock <= now && Untimed(es) && Untimed(fs)
    ensures Untimed(Refinement.Until(es, now) + fs)
  {
    hide Run;
  }

  lemma OneSet(j: Key, u: Value)
    ensures Untimed([]) && Untimed([LogSet(j, u, 0, 0), ApplyLogged])
  {
  }

  lemma OneSnapshot(order: seq<Key>)
    ensures Untimed([CommitSnapshot(order), TruncateLog])
  {
  }

  lemma CounterOfOne(j: Key, e: Entry, last: nat)
    requires CounterIsMax(Memory(map[j := e], last))
    ensures last == e.version
  {
    var m := map[j := e];
    assert m[j].version <= last;
  }

  /** A new store, one key written to it, and the log compacted. */
  method WriteAndCompact(hash: Hash, j: Key, u: Value, now: nat) returns (s: Store, ghost es: seq<Event>)
    requires Fits(j, u) && 0 < now < 0x7fff_ffff_ffff_ffff
    ensures Refinement.Mirrors(s, es) && Run(es).clock == now && Untimed(es)
    ensures s.Contents() == Run(es).snap == map[j := Entry(u, now, 0)]
  {
    hide Flatten, Total, Placed, Run, Refinement.Until, Untimed;
    es := [];
    s := Refinement.FirstBoot(hash, now);
    var _, _ := Refinement.SetFollows(s, j, u, 0, 0, now, es);
    OneSet(j, u);
    UntimedOn(es, now, [LogSet(j, u, 0, 0), ApplyLogged]);
    es := Refinement.Until(es, now) + [LogSet(j, u, 0, 0), ApplyLogged];
    ghost var order := Refinement.SnapshotFollows(s, now, es);
    OneSnapshot(order);
    UntimedOn(es, now, [CommitSnapshot(order), TruncateLog]);
    es := Refinement.Until(es, now) + [CommitSnapshot(order), TruncateLog];
    assert Unexpired(s.Contents(), now) == map[j := Entry(u, now, 0)];
  }

  /** A restart of a store that holds one entry, in memory and in its snapshot. */
  method RestartOne(s: Store, j: Key, e: Entry, now: nat, ghost es: seq<Event>)
    returns (s': Store, ghost fs: seq<Event>)
    requires Refinement.Mirrors(s, es) && Run(es).clock <= now && Untimed(es)
    requires s.Contents() == Run(es).snap == map[j := e]
    ensures Refinement.Mirrors(s', fs) && Run(fs).clock == now
    ensures fresh(s') && fresh(s'.shards) && fresh(s'.wal)
    ensures s'.Contents() == map[j := e] && s'.lastVersion == e.version
  {
    hide Flatten, Total, Placed, Run, Refinement.Until, CounterIsMax;
    s' := Refinement.Reboot(s, now, es);
    CounterOfOne(j, e, s'.lastVersion);
    fs := Refinement.Until(es, now) + [Crash];
  }

  /**
   One key is written, the log compacted, the process restarted, and another key written at the same
   clock: both are there, and the second has the higher version.
   */
  method WriteRestartWrite(hash: Hash, j: Key, u: Value, k: Key, v: Value, now: nat) returns (s: Store)
    requires Fits(j, u) && Fits(k, v) && j != k && 0 < now < 0x7fff_ffff_ffff_ffff
    ensures s.Valid() && s.keyCount == 2
    ensures s.Contents() == map[j := Entry(u, now, 0), k := Entry(v, now + 1, 0)]
  {
    hide Flatten, Total, Placed, Run, Refinement.Until;
    ghost var es;
    s, es := WriteAndCompact(hash, j, u, now);
    s, es := RestartOne(s, j, Entry(u, now, 0), now, es);
    var _, _ := Refinement.SetFollows(s, k, v, 0, 0, now, es);
    s.SizeIsCount();
  }

  // ------------------------------------------------------------- times to live

  /** A Set that is not outranked, and a Get some time later: when the value is found, in numbers. */
  method SetThenGet(s: Store, key: Key, value: Value, ttl: nat, version: nat, t: nat, u: nat)
    returns (found: Option<Entry>)
    requires s.Valid() && (s.wal != null ==> s.wal.Valid() && |key| <= MAX_KEY) && t <= u
    requires key in s.Contents() ==> s.Contents()[key].version <= Chosen(s.lastVersion, version, t)
    modifies s`lastVersion, s`keyCount, s.shards, if s.wal == null then {} else {s.wal}
    ensures found.Some? <==> ttl == 0 || u <= t + ttl
    ensures found.Some? ==>
              found.value == Entry(value, Chosen(old(s.lastVersion), version, t), if ttl == 0 then 0 else t + ttl)
    ensures key in s.Contents() <==> found.Some?
    ensures forall k :: k != key ==> Lookup(s.Contents(), k) == Lookup(old(s.Contents()), k)
  {
    hide Flatten, Total, Placed, Encode, Expired;
    var _, _ := s.Set(key, value, ttl, version, t);
    found := s.Get(key, u);
  }

  /** A reaper's pass some time after a Set removes the key exactly when its time is up. */
  method SetThenReap(s: Store, key: Key, value: Value, ttl: nat, version: nat, t: nat, u: nat)
    requires s.Valid() && (s.wal != null ==> s.wal.Valid() && |key| <= MAX_KEY) && t <= u
    requires key in s.Contents() ==> s.Contents()[key].version <= Chosen(s.lastVersion, version, t)
    modifies s`lastVersion, s`keyCount, s.shards, if s.wal == null then {} else {s.wal}
    ensures key in s.Contents() <==> ttl == 0 || u <= t + ttl
  {
    hide Flatten, Total, Placed, Encode, Expired, Unexpired;
    var _, _ := s.Set(key, value, ttl, version, t);
    s.Reap(u);
  }

  lemma NothingRun()
    ensures Run([]) == INITIAL
  {
    hide Step;
  }

  lemma FitsRange(k: Key, v: Value, t: nat, exp: nat)
    requires Fits(k, v) && t < 0x7fff_ffff_ffff_ffff && exp < 0x7fff_ffff_ffff_ffff
    ensures InRange(Lww.Set(k, v, t, exp))
  {
  }

  lemma OneTimedSet(k: Key, v: Value, ttl: nat, t: nat)
    requires Fits(k, v) && t > 0 && t + ttl < 0x7fff_ffff_ffff_ffff && Run([]).clock == 0
    ensures var st := Run(Refinement.Until([], t) + [LogSet(k, v, ttl, 0), ApplyLogged]);
            st.log == [Lww.Set(k, v, t, if ttl > 0 then t + ttl else 0)] && st.snap == map[]
  {
    hide Run, Step, Refinement.Until, Encode, Apply, InRange, SetIn;
    NothingRun();
    var st := Run([]).(clock := t);
    assert Chosen(st.mem.lastVersion, 0, t) == t;
    FitsRange(k, v, t, if ttl > 0 then t + ttl else 0);
    Refinement.RunUntil([], t);
    Refinement.RunTwo(Refinement.Until([], t), LogSet(k, v, ttl, 0), ApplyLogged);
    Refinement.SetDone(st, k, v, ttl, 0);
  }

  lemma OneReplayed(k: Key, v: Value, t: nat, exp: nat, u: nat)
    requires t > 0
    ensures ApplyAll(map[], LiveOps([Lww.Set(k, v, t, exp)], u)) ==
            if exp == 0 || u < exp then map[k := Entry(v, t, exp)] else map[]
  {
    var op := Lww.Set(k, v, t, exp);
    assert [op][..0] == [];
    assert LiveOps([], u) == [];
    if exp == 0 || u < exp {
      assert LiveOps([op], u) == [] + [op];
      assert ApplyAll(map[], [op]) == Apply(ApplyAll(map[], []), op);
    }
  }

  /** What start-up at `u` makes of a log that holds that one Set. */
  lemma OneRecovered(es: seq<Event>, k: Key, v: Value, t: nat, exp: nat, u: nat)
    requires Run(es).phase.Idle? && Run(es).clock <= u && t > 0
    requires Run(es).log == [Lww.Set(k, v, t, exp)] && Run(es).snap == map[]
    ensures Run(Refinement.Until(es, u) + [Crash]).mem.entries ==
            if exp == 0 || u < exp then map[k := Entry(v, t, exp)] else map[]
  {
    hide Run, Refinement.Until, Recover, OnDisk, ApplyAll, LiveOps, CounterIsMax;
    Refinement.CrashDone(es, u);
    RunOnDisk(es);
    RecoverOnDisk(Run(es), u);
    OneReplayed(k, v, t, exp, u);
  }

  /** A write with a time to live, a restart at `u`, and a read: found exactly when its time is not up. */
  method TimedRestart(hash: Hash, k: Key, v: Value, ttl: nat, t: nat, u: nat) returns (found: Option<Entry>)
    requires Fits(k, v) && 0 < t <= u && t + ttl < 0x7fff_ffff_ffff_ffff
    ensures found == if ttl == 0 then Some(Entry(v, t, 0))
                     else if u < t + ttl then Some(Entry(v, t, t + ttl)) else None
  {
    hide Flatten, Total, Placed, Run, Refinement.Until;
    ghost var es: seq<Event> := [];
    var s := Refinement.FirstBoot(hash, t);
    var _, _ := Refinement.SetFollows(s, k, v, ttl, 0, t, es);
    OneTimedSet(k, v, ttl, t);
    es := Refinement.Until(es, t) + [LogSet(k, v, ttl, 0), ApplyLogged];
    s := Refinement.Reboot(s, u, es);
    OneRecovered(es, k, v, t, if ttl > 0 then t + ttl else 0, u);
    es := Refinement.Until(es, u) + [Crash];
    found := Refinement.GetFollows(s, k, u, es);
  }

  /** A delivered write and a read some time later: an expiry that has passed leaves it a millisecond. */
  method DeliverThenGet(h: Handlers, req: Message, u: nat, w: nat) returns (found: Option<Entry>)
    requires h.Ready() && req.action == "SET" && req.version != 0 && |req.key| <= MAX_KEY && u <= w
    requires req.key in h.store.Contents() ==> h.store.Contents()[req.key].version <= req.version
    modifies h.store`lastVersion, h.store`keyCount, h.store.shards, if h.store.wal == null then {} else {h.store.wal}
    ensures found.Some? ==> found.value.value == req.value && found.value.version == req.version
    ensures req.expiresAt == 0 ==> found.Some?
    ensures req.expiresAt > u ==> (found.Some? <==> w <= req.expiresAt)
    ensures 0 < req.expiresAt <= u ==> (found.Some? <==> w <= u + 1_000_000)
  {
    hide Flatten, Total, Placed, Encode, Expired, DeliveredLog;
    var _ := h.HandleInternalReplicate(req, u);
    found := h.store.Get(req.key, w);
  }

  // ------------------------------------------------------------- many nodes

  /** A node that comes up over an empty data directory. */
  method NodeUp(hash: Hash, nodeId: Id, address: string, now: nat) returns (h: Handlers)
    ensures fresh(h) && fresh(Replicas.Footprint(h))
    ensures h.Ready() && h.replicator.pm == h.pm && h.store.View() == BLANK && h.replicator.sent == []
    ensures h.nodeId == h.replicator.nodeId == nodeId && h.pm.peers == map[]
  {
    hide Flatten, Total, Placed, Run;
    var store := Refinement.FirstBoot(hash, now);
    var pm := new PeerManager();
    var replicator := new Replicator(nodeId, pm);
    h := new Handlers(store, pm, replicator, nodeId, address);
  }

  /** A node that has come up and been pinged by one other. */
  method NodePinged(hash: Hash, nodeId: Id, peer: Id, now: nat) returns (h: Handlers)
    requires peer != ""
    ensures fresh(h) && fresh(Replicas.Footprint(h))
    ensures h.Ready() && h.replicator.pm == h.pm && h.store.View() == BLANK && h.replicator.sent == []
    ensures h.replicator.nodeId == nodeId && peer in h.pm.peers && h.pm.peers[peer].state == Alive
  {
    hide Flatten, Total, Placed, NoDuplicates;
    h := NodeUp(hash, nodeId, "self", now);
    var _ := h.HandleInternalPing(peer, "other", now);
  }

  /** Two nodes that have pinged each other are a cluster about to start. */
  method TwoUp(hash: Hash, a: Id, b: Id, now: nat) returns (hs: seq<Handlers>, ghost s: Cluster.State)
    requires a != "" && b != ""
    ensures |hs| == 2 && Replicas.Mirrors(hs, s) && Cluster.Initial(s)
    ensures fresh(Replicas.Footprint(hs[0])) && fresh(Replicas.Footprint(hs[1]))
    ensures hs[0].replicator.nodeId == a && b in hs[0].pm.peers && hs[0].pm.peers[b].state == Alive
    ensures hs[0].store.View() == hs[1].store.View() == BLANK && hs[0].replicator.sent == []
  {
    hide Flatten, Total, Placed, WellKeyed;
    var first := NodePinged(hash, a, b, now);
    var second := NodePinged(hash, b, a, now);
    hs := [first, second];
    assert hs[0] == first && hs[1] == second;
    s := Replicas.FreshNodes(hs);
  }

  lemma Receives(ids: seq<Id>, t: Table, self: Id, id: Id)
    requires Recipients(ids, t, self) && id in t && id != self && t[id].state != Dead
    ensures id in ids
  {
  }

  lemma {:induction false} FirstSent(ids: seq<Id>, msg: Message)
    requires ids != []
    ensures Addressed(ids, msg) != [] && Addressed(ids, msg)[0].1 == msg
  {
    if |ids| > 1 {
      FirstSent(ids[..|ids| - 1], msg);
    }
  }

  /** A PUT on a blank cluster and its delivery, as steps. */
  lemma BothHold(s: Cluster.State, key: Key, value: Value, now: nat)
    requires 0 in s.nodes && 1 in s.nodes && s.nodes[0] == s.nodes[1] == Cluster.Node(map[], 0) && now > 0
    ensures var t := Cluster.Step(Cluster.Step(s, Cluster.Put(0, key, value, now)),
                                  Cluster.Deliver(1, Lww.Set(key, value, now, 0)));
            t.nodes[0].mem == t.nodes[1].mem == map[key := Entry(value, now, 0)]
  {
  }

  lemma OnlyMessage(s: Cluster.State, key: Key, value: Value, now: nat, msg: Message)
    requires 0 in s.nodes && s.nodes[0] == Cluster.Node(map[], 0) && s.msgs == {} && now > 0
    requires Replicas.Carries(msg, Cluster.Step(s, Cluster.Put(0, key, value, now)).msgs)
    ensures Replicas.OpOf(msg) == Lww.Set(key, value, now, 0)
  {
  }

  /** The first of two blank nodes takes a PUT and its message is delivered to the second. */
  method PutThenDeliver(hs: seq<Handlers>, b: Id, key: Key, value: Value, now: nat, ghost s: Cluster.State)
    requires |hs| == 2 && Replicas.Mirrors(hs, s) && Cluster.Initial(s) && hs[0].replicator.sent == []
    requires s.nodes[0] == Cluster.Node(map[], 0)
    requires b != hs[0].replicator.nodeId && b in hs[0].pm.peers && hs[0].pm.peers[b].state == Alive
    requires key != [] && |key| <= MAX_KEY && now > 0
    modifies Replicas.Footprint(hs[0]), Replicas.Footprint(hs[1])
    ensures Replicas.Mirrors(hs, Cluster.Step(Cluster.Step(s, Cluster.Put(0, key, value, now)),
                                              Cluster.Deliver(1, Lww.Set(key, value, now, 0))))
  {
    hide Flatten, Total, Placed, Cluster.Step, Recipients, Addressed, Replicas.Carries, Replicas.OpOf;
    var code, version, ids := Replicas.PutFollows(hs, 0, key, value, now, now, s);
    ghost var t := Cluster.Step(s, Cluster.Put(0, key, value, now));
    Receives(ids, hs[0].pm.peers, hs[0].replicator.nodeId, b);
    FirstSent(ids, Message(key, value, version, 0, SET));
    assert Replicas.Embodies(hs[0], t, 0);
    OnlyMessage(s, key, value, now, hs[0].replicator.sent[0].1);
    code := Replicas.DeliverFollows(hs, 0, 0, 1, now, t);
  }

  /** A PUT to the first of two nodes and the delivery of what it sends leave one entry on both. */
  method PutReaches(hash: Hash, a: Id, b: Id, key: Key, value: Value, now: nat) returns (hs: seq<Handlers>)
    requires a != b && a != "" && b != "" && key != [] && |key| <= MAX_KEY && now > 0
    ensures |hs| == 2
    ensures hs[0].store.Contents() == hs[1].store.Contents() == map[key := Entry(value, now, 0)]
  {
    hide Flatten, Total, Placed, Cluster.Step, Replicas.Carries;
    ghost var s;
    hs, s := TwoUp(hash, a, b, now);
    assert Replicas.Embodies(hs[0], s, 0) && Replicas.Embodies(hs[1], s, 1);
    PutThenDeliver(hs, b, key, value, now, s);
    BothHold(s, key, value, now);
    ghost var t := Cluster.Step(Cluster.Step(s, Cluster.Put(0, key, value, now)),
                                Cluster.Deliver(1, Lww.Set(key, value, now, 0)));
    assert Replicas.Embodies(hs[0], t, 0) && Replicas.Embodies(hs[1], t, 1);
  }

  // ------------------------------------------------------------- failure detection

  /** A ping of a live peer fails at `t`: a check from `t` plus the window on declares it dead, and none before. */
  method DetectFailure(gm: GossipManager, id: Id, t: nat, u: nat)
    requires WellKeyed(gm.pm.peers) && id in gm.pm.peers && gm.pm.peers[id].state == Alive
    modifies gm.pm
    ensures id in gm.pm.peers
    ensures gm.pm.peers[id].state == if u >= t + gm.window then Dead else Suspect
    ensures gm.pm.peers[id].suspiciousAt == t
  {
    var p := gm.pm.Get(id);
    var _, _ := gm.PingReturned(p.value, None, t);
    gm.CheckSuspicious(u);
  }
}
