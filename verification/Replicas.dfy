/**
 The handlers of many nodes follow the cluster machine: each request takes it through one
 step, so what is proved of every run of the cluster holds of the objects.
 */
module Replicas {
  import opened Bytes
  import opened Lww
  import opened Records
  import opened Recovery
  import opened Sharding
  import opened Wals
  import opened Stores
  import opened Membership
  import opened Api
  import Cluster

  // ------------------------------------------------------------- messages

  /** The replicate request that carries a mutation without expiry. */
  function MessageOf(op: Op): Message
  {
    match op
    case Set(k, v, version, _) => Message(k, v, version, 0, SET)
    case Delete(k, version) => Message(k, [], version, 0, DELETE)
  }

  function OpOf(msg: Message): Op
  {
    if msg.action == SET then Lww.Set(msg.key, msg.value, msg.version, 0) else Lww.Delete(msg.key, msg.version)
  }

  /** The request carries one of the mutations `msgs`. */
  predicate Carries(msg: Message, msgs: set<Op>)
  {
    OpOf(msg) in msgs && MessageOf(OpOf(msg)) == msg && msg.version != 0
  }

  lemma {:induction false} AddressedCarry(ids: seq<Id>, msg: Message, x: nat)
    requires x < |Addressed(ids, msg)|
    ensures Addressed(ids, msg)[x].1 == msg
  {
    if x < |Addressed(ids[..|ids| - 1], msg)| {
      AddressedCarry(ids[..|ids| - 1], msg, x);
    }
  }

  // ------------------------------------------------------------- nodes

  ghost function Footprint(h: Handlers): set<object>
    reads h.store
  {
    {h.store, h.store.shards, h.replicator, h.pm} + if h.store.wal == null then {} else {h.store.wal}
  }

  /** The node's store is what the cluster holds for it, and all it has sent are messages of the cluster. */
  ghost predicate Embodies(h: Handlers, s: Cluster.State, n: nat)
    reads h.store, Footprint(h)
  {
    && h.Ready() && h.replicator.pm == h.pm
    && n in s.nodes && s.nodes[n] == Cluster.Node(h.store.Contents(), h.store.lastVersion)
    && forall x :: 0 <= x < |h.replicator.sent| ==> Carries(h.replicator.sent[x].1, s.msgs)
  }

  /** No two nodes share an object. */
  ghost predicate Apart(hs: seq<Handlers>)
    reads set h | h in hs :: h.store
  {
    forall i, j :: 0 <= i < j < |hs| ==> Footprint(hs[i]) !! Footprint(hs[j])
  }

  /** The objects are the nodes of the cluster. */
  ghost predicate Mirrors(hs: seq<Handlers>, s: Cluster.State)
    reads set h | h in hs :: h.store, set h, o | h in hs && o in Footprint(h) :: o
  {
    Apart(hs) && forall i :: 0 <= i < |hs| ==> Embodies(hs[i], s, i)
  }

  /** A step elsewhere that only adds messages. */
  lemma StillEmbodies(h: Handlers, s: Cluster.State, s': Cluster.State, n: nat)
    requires Embodies(h, s, n) && n in s'.nodes && s'.nodes[n] == s.nodes[n] && s.msgs <= s'.msgs
    ensures Embodies(h, s', n)
  {
  }

  function BlankNodes(n: nat): (nodes: map<nat, Cluster.Node>)
    ensures forall i: nat :: i in nodes <==> i < n
    ensures forall i: nat :: i in nodes ==> nodes[i] == Cluster.Node(map[], 0)
  {
    if n == 0 then map[] else BlankNodes(n - 1)[n - 1 := Cluster.Node(map[], 0)]
  }

  /** Nodes that have just started, over empty data directories. */
  lemma FreshNodes(hs: seq<Handlers>) returns (s: Cluster.State)
    requires Apart(hs)
    requires forall i :: 0 <= i < |hs| ==>
               && hs[i].Ready() && hs[i].replicator.pm == hs[i].pm
               && hs[i].replicator.sent == [] && hs[i].store.View() == BLANK
    ensures Cluster.Initial(s) && Mirrors(hs, s)
  {
    hide Flatten, Total, Placed, BlankNodes;
    s := Cluster.State(BlankNodes(|hs|), {}, {});
  }

  // ------------------------------------------------------------- local writes

  /** `s'` is `s` after node `n` has written `op`, which carries the version just minted. */
  ghost predicate Wrote(s: Cluster.State, s': Cluster.State, n: nat, m: Memory, op: Op)
  {
    && s'.nodes == s.nodes[n := Cluster.Node(Apply(m.entries, op), op.version)]
    && s'.msgs == s.msgs + {op.(version := Reply(m.entries, op))}
  }

  lemma PutStep(s: Cluster.State, n: nat, key: Key, value: Value, now: nat, m: Memory)
    requires n in s.nodes && s.nodes[n] == Cluster.Node(m.entries, m.lastVersion)
    ensures Wrote(s, Cluster.Step(s, Cluster.Put(n, key, value, now)), n, m,
                  Lww.Set(key, value, Lww.NextVersion(m.lastVersion, now), 0))
  {
    hide Apply, Reply;
  }

  lemma RemoveStep(s: Cluster.State, n: nat, key: Key, now: nat, m: Memory)
    requires n in s.nodes && s.nodes[n] == Cluster.Node(m.entries, m.lastVersion)
    ensures Wrote(s, Cluster.Step(s, Cluster.Remove(n, key, now)), n, m,
                  Lww.Delete(key, Lww.NextVersion(m.lastVersion, now)))
  {
    hide Apply, Reply;
  }

  lemma RefuseStep(s: Cluster.State, n: nat, now: nat, m: Memory)
    requires n in s.nodes && s.nodes[n] == Cluster.Node(m.entries, m.lastVersion)
    ensures var s' := Cluster.Step(s, Cluster.Refuse(n, now));
            && s'.nodes == s.nodes[n := Cluster.Node(m.entries, Lww.NextVersion(m.lastVersion, now))]
            && s'.msgs == s.msgs
  {
  }

  /** What is sent after a write carries the mutation that the cluster adds. */
  lemma WroteCarries(s: Cluster.State, s': Cluster.State, n: nat, m: Memory, op: Op, msg: Message)
    requires Wrote(s, s', n, m, op) && op.version != 0 && (op.Set? ==> op.expiresAt == 0)
    requires msg == MessageOf(op.(version := Reply(m.entries, op)))
    ensures Carries(msg, s'.msgs) && s.msgs <= s'.msgs
  {
    hide Apply;
  }

  lemma SentCarry(sent: seq<(Id, Message)>, ids: seq<Id>, msg: Message, msgs: set<Op>, msgs': set<Op>)
    requires msgs <= msgs' && Carries(msg, msgs')
    requires forall x :: 0 <= x < |sent| ==> Carries(sent[x].1, msgs)
    ensures var sent' := sent + Addressed(ids, msg);
            forall x :: 0 <= x < |sent'| ==> Carries(sent'[x].1, msgs')
  {
    hide Addressed;
    var sent' := sent + Addressed(ids, msg);
    forall x | 0 <= x < |sent'|
      ensures Carries(sent'[x].1, msgs')
    {
      if x >= |sent| {
        AddressedCarry(ids, msg, x - |sent|);
      }
    }
  }

  /** A step of node `n` changes no other node and only adds messages. */
  ghost predicate Elsewhere(s: Cluster.State, s': Cluster.State, n: nat)
  {
    s.msgs <= s'.msgs && forall j :: j in s.nodes && j != n ==> j in s'.nodes && s'.nodes[j] == s.nodes[j]
  }

  method PutAlone(h: Handlers, n: nat, key: Key, value: Value, now: nat, later: nat, ghost s: Cluster.State)
    returns (code: Code, version: nat, ghost ids: seq<Id>, ghost s': Cluster.State)
    requires Embodies(h, s, n)
    modifies Footprint(h) - {h.pm}
    ensures Footprint(h) == old(Footprint(h))
    ensures s' == if code == OK then Cluster.Step(s, Cluster.Put(n, key, value, now))
                  else if code == BadRequest then s else Cluster.Step(s, Cluster.Refuse(n, now))
    ensures Elsewhere(s, s', n) && Embodies(h, s', n)
    ensures code == if key == [] then BadRequest
                    else if h.store.wal != null && |key| > MAX_KEY then ServerError else OK
    ensures code == OK ==>
              && h.replicator.sent == old(h.replicator.sent) + Addressed(ids, Message(key, value, version, 0, SET))
              && Recipients(ids, h.pm.peers, h.replicator.nodeId)
  {
    hide Flatten, Total, Placed, Apply, Reply, Encode, Addressed, Recipients, Carries, Cluster.Step;
    ghost var m, sent := h.store.View(), h.replicator.sent;
    ghost var op := Lww.Set(key, value, Lww.NextVersion(m.lastVersion, now), 0);
    PutStep(s, n, key, value, now, m);
    RefuseStep(s, n, now, m);
    code, version, ids := h.HandlePutKey(key, value, 0, now, later);
    s' := if code == OK then Cluster.Step(s, Cluster.Put(n, key, value, now))
          else if code == BadRequest then s else Cluster.Step(s, Cluster.Refuse(n, now));
    if code == OK {
      var msg := Message(key, value, version, 0, SET);
      WroteCarries(s, s', n, m, op, msg);
      SentCarry(sent, ids, msg, s.msgs, s'.msgs);
    }
  }

  /** A PUT without a time to live is one step of the cluster. */
  method PutFollows(hs: seq<Handlers>, n: nat, key: Key, value: Value, now: nat, later: nat, ghost s: Cluster.State)
    returns (code: Code, version: nat, ghost ids: seq<Id>)
    requires n < |hs| && Mirrors(hs, s)
    modifies Footprint(hs[n]) - {hs[n].pm}
    ensures Footprint(hs[n]) == old(Footprint(hs[n]))
    ensures code == OK ==> Mirrors(hs, Cluster.Step(s, Cluster.Put(n, key, value, now)))
    ensures code == BadRequest ==> Mirrors(hs, s)
    ensures code == ServerError ==> Mirrors(hs, Cluster.Step(s, Cluster.Refuse(n, now)))
    ensures code == if key == [] then BadRequest
                    else if hs[n].store.wal != null && |key| > MAX_KEY then ServerError else OK
    ensures code == OK ==>
              && hs[n].replicator.sent ==
                 old(hs[n].replicator.sent) + Addressed(ids, Message(key, value, version, 0, SET))
              && Recipients(ids, hs[n].pm.peers, hs[n].replicator.nodeId)
  {
    hide Cluster.Step, Carries, Flatten, Total, Placed;
    ghost var s';
    code, version, ids, s' := PutAlone(hs[n], n, key, value, now, later, s);
    forall j | 0 <= j < |hs| && j != n
      ensures Embodies(hs[j], s', j)
    {
      StillEmbodies(hs[j], s, s', j);
    }
  }

  method RemoveAlone(h: Handlers, n: nat, key: Key, now: nat, ghost s: Cluster.State)
    returns (code: Code, version: nat, deleted: bool, ghost ids: seq<Id>, ghost s': Cluster.State)
    requires Embodies(h, s, n)
    modifies Footprint(h) - {h.pm}
    ensures Footprint(h) == old(Footprint(h))
    ensures s' == if code == OK then Cluster.Step(s, Cluster.Remove(n, key, now))
                  else if code == BadRequest then s else Cluster.Step(s, Cluster.Refuse(n, now))
    ensures Elsewhere(s, s', n) && Embodies(h, s', n)
    ensures code == if key == [] then BadRequest
                    else if h.store.wal != null && |key| > MAX_KEY then ServerError else OK
    ensures code == OK ==>
              && h.replicator.sent == old(h.replicator.sent) + Addressed(ids, Message(key, [], version, 0, DELETE))
              && Recipients(ids, h.pm.peers, h.replicator.nodeId)
  {
    hide Flatten, Total, Placed, Apply, Reply, Encode, Addressed, Recipients, Carries, Cluster.Step;
    ghost var m, sent := h.store.View(), h.replicator.sent;
    ghost var op := Lww.Delete(key, Lww.NextVersion(m.lastVersion, now));
    RemoveStep(s, n, key, now, m);
    RefuseStep(s, n, now, m);
    code, version, deleted, ids := h.HandleDeleteKey(key, now);
    s' := if code == OK then Cluster.Step(s, Cluster.Remove(n, key, now))
          else if code == BadRequest then s else Cluster.Step(s, Cluster.Refuse(n, now));
    if code == OK {
      var msg := Message(key, [], version, 0, DELETE);
      WroteCarries(s, s', n, m, op, msg);
      SentCarry(sent, ids, msg, s.msgs, s'.msgs);
    }
  }

  /** So is a DELETE. */
  method RemoveFollows(hs: seq<Handlers>, n: nat, key: Key, now: nat, ghost s: Cluster.State)
    returns (code: Code, version: nat, deleted: bool, ghost ids: seq<Id>)
    requires n < |hs| && Mirrors(hs, s)
    modifies Footprint(hs[n]) - {hs[n].pm}
    ensures Footprint(hs[n]) == old(Footprint(hs[n]))
    ensures code == OK ==> Mirrors(hs, Cluster.Step(s, Cluster.Remove(n, key, now)))
    ensures code == BadRequest ==> Mirrors(hs, s)
    ensures code == ServerError ==> Mirrors(hs, Cluster.Step(s, Cluster.Refuse(n, now)))
    ensures code == if key == [] then BadRequest
                    else if hs[n].store.wal != null && |key| > MAX_KEY then ServerError else OK
    ensures code == OK ==>
              && hs[n].replicator.sent ==
                 old(hs[n].replicator.sent) + Addressed(ids, Message(key, [], version, 0, DELETE))
              && Recipients(ids, hs[n].pm.peers, hs[n].replicator.nodeId)
  {
    hide Cluster.Step, Carries, Flatten, Total, Placed;
    ghost var s';
    code, version, deleted, ids, s' := RemoveAlone(hs[n], n, key, now, s);
    forall j | 0 <= j < |hs| && j != n
      ensures Embodies(hs[j], s', j)
    {
      StillEmbodies(hs[j], s, s', j);
    }
  }

  // ------------------------------------------------------------- delivery

  /** Delivering a message of the cluster applies the mutation it carries under its version. */
  lemma DeliveredStep(s: Cluster.State, n: nat, m: Memory, msg: Message, now: nat)
    requires Carries(msg, s.msgs) && n in s.nodes && s.nodes[n] == Cluster.Node(m.entries, m.lastVersion)
    ensures var s', m' := Cluster.Step(s, Cluster.Deliver(n, OpOf(msg))), Delivered(m, msg, now);
            && s'.nodes == s.nodes[n := Cluster.Node(m'.entries, m'.lastVersion)]
            && s'.msgs == s.msgs && OpOf(msg) in s.msgs
    ensures Minted(m.lastVersion, msg.version, now) == m.lastVersion
    ensures msg.action == SET || msg.action == DELETE
  {
    hide Apply;
  }

  method DeliverAlone(h: Handlers, n: nat, msg: Message, now: nat, ghost s: Cluster.State)
    returns (code: Code, ghost s': Cluster.State)
    requires Embodies(h, s, n) && Carries(msg, s.msgs)
    modifies Footprint(h) - {h.pm, h.replicator}
    ensures Footprint(h) == old(Footprint(h))
    ensures s' == if code == OK then Cluster.Step(s, Cluster.Deliver(n, OpOf(msg))) else s
    ensures Elsewhere(s, s', n) && Embodies(h, s', n)
    ensures code == if h.store.wal != null && |msg.key| > MAX_KEY then ServerError else OK
  {
    hide Flatten, Total, Placed, Apply, Encode, Delivered, DeliveredLog, Carries, OpOf, Cluster.Step;
    DeliveredStep(s, n, h.store.View(), msg, now);
    code := h.HandleInternalReplicate(msg, now);
    s' := if code == OK then Cluster.Step(s, Cluster.Deliver(n, OpOf(msg))) else s;
  }

  /** Whatever request any node has sent, its delivery to any node is one step of the cluster, or refused. */
  method DeliverFollows(hs: seq<Handlers>, sender: nat, x: nat, n: nat, now: nat, ghost s: Cluster.State)
    returns (code: Code)
    requires n < |hs| && sender < |hs| && x < |hs[sender].replicator.sent| && Mirrors(hs, s)
    modifies Footprint(hs[n]) - {hs[n].pm, hs[n].replicator}
    ensures Footprint(hs[n]) == old(Footprint(hs[n]))
    ensures var op := OpOf(old(hs[sender].replicator.sent[x].1));
            && op in s.msgs
            && (code == OK ==> Mirrors(hs, Cluster.Step(s, Cluster.Deliver(n, op))))
            && (code != OK ==> Mirrors(hs, s))
    ensures var key := old(hs[sender].replicator.sent[x].1.key);
            code == if hs[n].store.wal != null && |key| > MAX_KEY then ServerError else OK
  {
    hide Cluster.Step, Flatten, Total, Placed;
    var msg := hs[sender].replicator.sent[x].1;
    assert Embodies(hs[sender], s, sender);
    ghost var s';
    code, s' := DeliverAlone(hs[n], n, msg, now, s);
    forall j | 0 <= j < |hs| && j != n
      ensures Embodies(hs[j], s', j)
    {
      StillEmbodies(hs[j], s, s', j);
    }
  }

  // ------------------------------------------------------------- what follows

  /**
   Objects that have followed a run in which every minted version was new and above the stored one:
   two nodes with one version of a key hold one value, and a message sent by any node carries
   the value of every entry of its key and version.
   */
  lemma VersionsAgree(hs: seq<Handlers>, s: Cluster.State, es: seq<Cluster.Event>, i: nat, j: nat, k: Key)
    requires Cluster.Initial(s) && Cluster.CleanRun(s, es) && Mirrors(hs, Cluster.Run(s, es))
    requires i < |hs| && j < |hs| && k in hs[i].store.Contents()
    ensures k in hs[j].store.Contents() && hs[j].store.Contents()[k].version == hs[i].store.Contents()[k].version ==>
              hs[j].store.Contents()[k] == hs[i].store.Contents()[k]
    ensures forall x :: 0 <= x < |hs[j].replicator.sent| ==>
              var msg := hs[j].replicator.sent[x].1;
              msg.key == k && msg.version == hs[i].store.Contents()[k].version ==>
                msg.action == SET && msg.value == hs[i].store.Contents()[k].value
  {
    hide Flatten, Total, Placed, Cluster.Run, Cluster.CleanRun;
    Cluster.VersionDeterminesMutation(s, es);
    var t := Cluster.Run(s, es);
    assert Embodies(hs[i], t, i) && Embodies(hs[j], t, j);
    var held := SetOf(k, hs[i].store.Contents()[k]);
    assert Cluster.HeldBy(t, i, held) && Cluster.Present(t, held);
    if k in hs[j].store.Contents() {
      var other := SetOf(k, hs[j].store.Contents()[k]);
      assert Cluster.HeldBy(t, j, other) && Cluster.Present(t, other);
    }
    forall x | 0 <= x < |hs[j].replicator.sent|
      ensures var msg := hs[j].replicator.sent[x].1;
              msg.key == k && msg.version == held.version ==> msg.action == SET && msg.value == held.value
    {
      assert Cluster.Present(t, OpOf(hs[j].replicator.sent[x].1));
    }
  }
}
