/**
 The handlers that take part in the replication and membership protocols, and
 the fan-out of a local write to the peers.
 */
module Api {
  import opened Bytes
  import opened Lww
  import opened Records
  import opened Recovery
  import opened Sharding
  import opened Wals
  import opened Stores
  import opened Paging
  import opened Membership

  const SET := "SET"
  const DELETE := "DELETE"

  /** A replicate request. */
  datatype Message = Message(key: Key, value: Value, version: nat, expiresAt: nat, action: string)

  datatype Code = OK | BadRequest | ServerError

  /** One message per addressee. */
  function Addressed(ids: seq<Id>, msg: Message): (out: seq<(Id, Message)>)
    ensures |out| == |ids| && forall i :: 0 <= i < |ids| ==> out[i] == (ids[i], msg)
  {
    if ids == [] then [] else Addressed(ids[..|ids| - 1], msg) + [(ids[|ids| - 1], msg)]
  }

  /** The peers of a list that a node sends to. */
  function Targets(list: seq<Peer>, self: Id): seq<Id>
  {
    if list == [] then []
    else
      var front, p := Targets(list[..|list| - 1], self), list[|list| - 1];
      if p.id == self || p.state == Dead then front else front + [p.id]
  }

  /** Each peer of the table that is not this node and not dead, once. */
  ghost predicate Recipients(ids: seq<Id>, t: Table, self: Id)
  {
    && (forall i, j :: 0 <= i < j < |ids| ==> ids[i] != ids[j])
    && (forall id :: id in ids <==> id in t && id != self && t[id].state != Dead)
  }

  lemma TargetsSnoc(list: seq<Peer>, i: nat, self: Id)
    requires i < |list|
    ensures Targets(list[..i + 1], self) ==
            if list[i].id == self || list[i].state == Dead then Targets(list[..i], self)
            else Targets(list[..i], self) + [list[i].id]
  {
    assert list[..i + 1][..i] == list[..i];
  }

  lemma {:induction false} TargetNamed(list: seq<Peer>, self: Id, id: Id) returns (x: nat)
    requires id in Targets(list, self)
    ensures x < |list| && list[x].id == id && id != self && list[x].state != Dead
  {
    x := |list| - 1;
    if id in Targets(list[..x], self) {
      x := TargetNamed(list[..x], self, id);
    }
  }

  lemma {:induction false} NamedTarget(list: seq<Peer>, self: Id, x: nat)
    requires x < |list| && list[x].id != self && list[x].state != Dead
    ensures list[x].id in Targets(list, self)
  {
    if x < |list| - 1 {
      NamedTarget(list[..|list| - 1], self, x);
    }
  }

  lemma {:induction false} TargetsDistinct(list: seq<Peer>, self: Id)
    requires NoDuplicates(list)
    ensures forall i, j :: 0 <= i < j < |Targets(list, self)| ==> Targets(list, self)[i] != Targets(list, self)[j]
  {
    if list != [] {
      var n := |list| - 1;
      TargetsDistinct(list[..n], self);
      if list[n].id in Targets(list[..n], self) {
        var x := TargetNamed(list[..n], self, list[n].id);
      }
    }
  }

  lemma NoTargets(list: seq<Peer>, self: Id, msg: Message)
    requires list == []
    ensures Targets(list, self) == [] && Addressed([], msg) == []
  {
  }

  lemma AddressedSnoc(ids: seq<Id>, id: Id, msg: Message)
    ensures Addressed(ids + [id], msg) == Addressed(ids, msg) + [(id, msg)]
  {
    assert (ids + [id])[..|ids + [id]| - 1] == ids;
  }

  /** Over any listing of the table, the targets are the peers that are not this node and not dead. */
  lemma TargetsOf(t: Table, list: seq<Peer>, self: Id)
    requires NoDuplicates(list) && WellKeyed(t)
    requires forall p :: p in list <==> p.id in t && t[p.id] == p
    ensures Recipients(Targets(list, self), t, self)
  {
    TargetsDistinct(list, self);
    hide Targets;
    forall id
      ensures id in Targets(list, self) <==> id in t && id != self && t[id].state != Dead
    {
      if id in Targets(list, self) {
        var x := TargetNamed(list, self, id);
        assert list[x] in list;
      } else if id in t {
        assert t[id] in list;
        var x :| 0 <= x < |list| && list[x] == t[id];
        if id != self && t[id].state != Dead {
          NamedTarget(list, self, x);
        }
      }
    }
  }

  /** From position `start` on, something was sent to `id`. */
  ghost predicate SentTo(sent: seq<(Id, Message)>, start: nat, id: Id)
  {
    exists x :: start <= x < |sent| && sent[x].0 == id
  }

  /** Who is addressed by what a fan-out adds. */
  lemma AddressedTo(before: seq<(Id, Message)>, ids: seq<Id>, msg: Message, t: Table, self: Id)
    requires Recipients(ids, t, self)
    ensures var sent := before + Addressed(ids, msg);
            && (forall id :: SentTo(sent, |before|, id) <==> id in t && id != self && t[id].state != Dead)
            && (forall x :: |before| <= x < |sent| ==> sent[x].1 == msg)
  {
    hide Addressed;
    var out := Addressed(ids, msg);
    var sent := before + out;
    forall id | id in ids
      ensures SentTo(sent, |before|, id)
    {
      var i :| 0 <= i < |ids| && ids[i] == id;
      assert sent[|before| + i] == out[i];
    }
    forall x | |before| <= x < |sent|
      ensures sent[x].1 == msg && sent[x].0 in ids
    {
      assert sent[x] == out[x - |before|];
    }
  }

  class Replicator {
    const nodeId: Id
    const pm: PeerManager
    var lastServed: nat
    var sent: seq<(Id, Message)>

    constructor (nodeId: Id, pm: PeerManager)
      ensures this.nodeId == nodeId && this.pm == pm && lastServed == 0 && sent == []
    {
      this.nodeId := nodeId;
      this.pm := pm;
      this.lastServed := 0;
      this.sent := [];
    }

    method UpdateLastServed(version: nat)
      modifies this`lastServed
      ensures lastServed == if version > old(lastServed) then version else old(lastServed)
    {
      if version > lastServed {
        lastServed := version;
      }
    }

    /** Sends to every peer that is not this node and not dead, each once. */
    method Replicate(msg: Message) returns (ghost ids: seq<Id>)
      requires WellKeyed(pm.peers)
      modifies this
      ensures lastServed == if msg.version > old(lastServed) then msg.version else old(lastServed)
      ensures sent == old(sent) + Addressed(ids, msg)
      ensures Recipients(ids, pm.peers, nodeId)
      ensures forall id :: SentTo(sent, |old(sent)|, id) <==>
                id in pm.peers && id != nodeId && pm.peers[id].state != Dead
      ensures forall x :: |old(sent)| <= x < |sent| ==> sent[x].1 == msg
    {
      hide Targets, Addressed, NoDuplicates, WellKeyed, Recipients;
      UpdateLastServed(msg.version);
      var list := pm.GetAll();
      assert Targets(list[..0], nodeId) == [] && Addressed([], msg) == [] by { NoTargets(list[..0], nodeId, msg); }
      ids := Targets(list, nodeId);
      for i := 0 to |list|
        invariant sent == old(sent) + Addressed(Targets(list[..i], nodeId), msg)
        invariant lastServed == if msg.version > old(lastServed) then msg.version else old(lastServed)
      {
        TargetsSnoc(list, i, nodeId);
        var p := list[i];
        if p.id != nodeId && p.state != Dead {
          AddressedSnoc(Targets(list[..i], nodeId), p.id, msg);
          sent := sent + [(p.id, msg)];
        }
      }
      assert list[..|list|] == list;
      TargetsOf(pm.peers, list, nodeId);
      AddressedTo(old(sent), ids, msg, pm.peers, nodeId);
    }
  }

  /** The expiry a delivered Set is stored with: one that has passed is pushed a millisecond ahead. */
  function DeliveredExpiry(expiresAt: nat, now: nat): nat
  {
    if expiresAt == 0 then 0 else if expiresAt <= now then now + 1_000_000 else expiresAt
  }

  /** What a delivered request does to the receiving store. */
  function Delivered(m: Memory, req: Message, now: nat): Memory
  {
    if req.action == SET then SetIn(m, req.key, req.value, DeliveredExpiry(req.expiresAt, now), req.version, now)
    else if req.action == DELETE then DeleteIn(m, req.key, req.version, now)
    else m
  }

  /** What a delivered request adds to the receiver's log. */
  function DeliveredLog(last: nat, req: Message, now: nat): seq<Byte>
  {
    var version := Chosen(last, req.version, now);
    if req.action == SET then
      Encode(RecordOf(Lww.Set(req.key, req.value, version, DeliveredExpiry(req.expiresAt, now))))
    else if req.action == DELETE then Encode(RecordOf(Lww.Delete(req.key, version)))
    else []
  }

  /** The page size used: 100 unless a positive one is asked for, and at most 1000. */
  function PageLimit(asked: Option<int>): (limit: nat)
    ensures 1 <= limit <= 1000
  {
    if asked == None || asked.value <= 0 then 100 else if asked.value > 1000 then 1000 else asked.value
  }

  class Handlers {
    const store: Store
    const pm: PeerManager
    const replicator: Replicator
    const nodeId: Id
    const address: string

    constructor (store: Store, pm: PeerManager, replicator: Replicator, nodeId: Id, address: string)
      ensures this.store == store && this.pm == pm && this.replicator == replicator
      ensures this.nodeId == nodeId && this.address == address
    {
      this.store := store;
      this.pm := pm;
      this.replicator := replicator;
      this.nodeId := nodeId;
      this.address := address;
    }

    ghost predicate Ready()
      reads store, store.shards, store.wal, pm
    {
      store.Valid() && (store.wal != null ==> store.wal.Valid()) && WellKeyed(pm.peers)
    }

    /**
     A local PUT. The broadcast carries the caller's value under the version the store answered
     with, which is the winner's when the write was rejected. `later` is the clock of the second
     reading, for the expiry that is sent.
     */
    method HandlePutKey(key: Key, value: Value, ttl: nat, now: nat, later: nat)
      returns (code: Code, version: nat, ghost ids: seq<Id>)
      requires Ready() && replicator.pm == pm
      modifies store`lastVersion, store`keyCount, store.shards, replicator,
               if store.wal == null then {} else {store.wal}
      ensures Ready()
      ensures code == if key == [] then BadRequest else if store.wal != null && |key| > MAX_KEY then ServerError else OK
      ensures code == BadRequest ==> store.View() == old(store.View())
      ensures code == ServerError ==>
                store.View() == old(store.View()).(lastVersion := Lww.NextVersion(old(store.lastVersion), now))
      ensures code != OK ==> replicator.sent == old(replicator.sent) && store.Contents() == old(store.Contents())
      ensures code != OK && store.wal != null ==> store.wal.file == old(store.wal.file)
      ensures code == OK ==>
                var exp := if ttl > 0 then now + ttl else 0;
                var op := Lww.Set(key, value, Lww.NextVersion(old(store.lastVersion), now), exp);
                && store.View() == SetIn(old(store.View()), key, value, exp, 0, now)
                && version == Reply(old(store.Contents()), op)
                && replicator.sent == old(replicator.sent) +
                     Addressed(ids, Message(key, value, version, if ttl > 0 then later + ttl else 0, SET))
                && Recipients(ids, pm.peers, replicator.nodeId)
                && (store.wal != null ==> store.wal.file == old(store.wal.file) + Encode(RecordOf(op)))
    {
      hide Flatten, Total, Placed, Apply, Encode, Reply, Addressed, Recipients;
      ids := [];
      if key == [] {
        return BadRequest, 0, [];
      }
      var v, ok := store.Set(key, value, ttl, 0, now);
      if !ok {
        return ServerError, 0, [];
      }
      var expiresAt := if ttl > 0 then later + ttl else 0;
      ids := replicator.Replicate(Message(key, value, v, expiresAt, SET));
      return OK, v, ids;
    }

    method HandleDeleteKey(key: Key, now: nat)
      returns (code: Code, version: nat, deleted: bool, ghost ids: seq<Id>)
      requires Ready() && replicator.pm == pm
      modifies store`lastVersion, store`keyCount, store.shards, replicator,
               if store.wal == null then {} else {store.wal}
      ensures Ready()
      ensures code == if key == [] then BadRequest else if store.wal != null && |key| > MAX_KEY then ServerError else OK
      ensures code == BadRequest ==> store.View() == old(store.View())
      ensures code == ServerError ==>
                store.View() == old(store.View()).(lastVersion := Lww.NextVersion(old(store.lastVersion), now))
      ensures code != OK ==> replicator.sent == old(replicator.sent) && store.Contents() == old(store.Contents())
      ensures code != OK && store.wal != null ==> store.wal.file == old(store.wal.file)
      ensures code == OK ==>
                var op := Lww.Delete(key, Lww.NextVersion(old(store.lastVersion), now));
                && store.View() == DeleteIn(old(store.View()), key, 0, now)
                && version == Reply(old(store.Contents()), op)
                && (deleted <==> key in old(store.Contents()) && key !in store.Contents())
                && replicator.sent == old(replicator.sent) + Addressed(ids, Message(key, [], version, 0, DELETE))
                && Recipients(ids, pm.peers, replicator.nodeId)
                && (store.wal != null ==> store.wal.file == old(store.wal.file) + Encode(RecordOf(op)))
    {
      hide Flatten, Total, Placed, Apply, Encode, Reply, Addressed, Recipients;
      ids := [];
      if key == [] {
        return BadRequest, 0, false, [];
      }
      var v, gone, ok := store.Delete(key, 0, now);
      if !ok {
        return ServerError, 0, false, [];
      }
      ids := replicator.Replicate(Message(key, [], v, 0, DELETE));
      return OK, v, gone, ids;
    }

    /** A delivered replicate request; unknown actions are accepted and ignored. */
    method HandleInternalReplicate(req: Message, now: nat) returns (code: Code)
      requires Ready()
      modifies store`lastVersion, store`keyCount, store.shards, if store.wal == null then {} else {store.wal}
      ensures Ready()
      ensures code == if (req.action == SET || req.action == DELETE) && store.wal != null && |req.key| > MAX_KEY
                      then ServerError else OK
      ensures code == OK ==> store.View() == Delivered(old(store.View()), req, now)
      ensures code != OK ==>
                store.View() == old(store.View()).(lastVersion := Minted(old(store.lastVersion), req.version, now))
      ensures store.wal != null ==>
                store.wal.file == old(store.wal.file) +
                  if code == OK then DeliveredLog(old(store.lastVersion), req, now) else []
    {
      hide Flatten, Total, Placed, Apply, Encode, Reply;
      var ok := true;
      if req.action == SET {
        var ttl := 0;
        if req.expiresAt > 0 {
          if req.expiresAt <= now {
            ttl := 1_000_000;
          } else {
            ttl := req.expiresAt - now;
          }
        }
        var _, done := store.Set(req.key, req.value, ttl, req.version, now);
        ok := done;
      } else if req.action == DELETE {
        var _, _, done := store.Delete(req.key, req.version, now);
        ok := done;
      }
      return if ok then OK else ServerError;
    }

    /** Records the sender as alive, whatever was known of it, and answers with the table and this node. */
    method HandleInternalPing(senderId: Id, senderAddress: string, now: nat) returns (list: seq<Peer>)
      requires WellKeyed(pm.peers)
      modifies pm
      ensures WellKeyed(pm.peers)
      ensures pm.peers == if senderId != "" && senderAddress != ""
                          then Recorded(old(pm.peers), senderId, senderAddress, Alive, now) else old(pm.peers)
      ensures |list| > 0 && list[|list| - 1] == Peer(nodeId, address, Alive, now, 0)
      ensures NoDuplicates(list[..|list| - 1])
      ensures forall p :: p in list[..|list| - 1] <==> p.id in pm.peers && pm.peers[p.id] == p
    {
      if senderId != "" && senderAddress != "" {
        pm.AddOrUpdate(senderId, senderAddress, Alive, now);
      }
      list := pm.GetAll();
      ghost var peers := list;
      list := list + [Peer(nodeId, address, Alive, now, 0)];
      assert list[..|list| - 1] == peers;
    }

    method HandleListKeys(prefix: Key, asked: Option<int>, cursor: Key, now: nat) returns (page: seq<Key>, next: Key)
      requires Ready()
      ensures var limit := if asked.None? || asked.value < 1 then 100
                           else if asked.value < 1000 then asked.value else 1000;
              IsPage(page, next, Unexpired(store.Contents(), now).Keys, prefix, limit, cursor)
    {
      page, next := store.Scan(prefix, PageLimit(asked), cursor, now);
    }
  }
}
