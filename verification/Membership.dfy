/**
 The peer table of a node, its merge with the table of another node, and the
 suspicion check. Times are in one unit; `now` is the clock of the call.
 */
module Membership {
  import opened Lww

  type Id = string

  datatype Health = Alive | Suspect | Dead | Other(name: string)

  /** RTT and replication lag are not part of the model. */
  datatype Peer = Peer(id: Id, address: string, state: Health, lastSeen: nat, suspiciousAt: nat)

  type Table = map<Id, Peer>

  const SEED: Id := "seed"

  function Find(t: Table, id: Id): Option<Peer>
  {
    if id in t then Some(t[id]) else None
  }

  /** AddOrUpdate on one entry: a known peer keeps its id and address. */
  function Update(p: Option<Peer>, id: Id, address: string, state: Health, now: nat): Peer
  {
    Peer(if p.Some? then p.value.id else id,
         if p.Some? then p.value.address else address,
         state,
         now,
         if state == Suspect then now else if p.Some? then p.value.suspiciousAt else 0)
  }

  function Recorded(t: Table, id: Id, address: string, state: Health, now: nat): Table
  {
    t[id := Update(Find(t, id), id, address, state, now)]
  }

  /** What a merge decides about one remote peer: the state to record, if any. */
  function Verdict(local: Option<Peer>, remote: Peer, window: nat): Option<Health>
  {
    if local.None? then (if remote.state != Dead then Some(remote.state) else None)
    else if local.value.state == Dead then None
    else if remote.state == Dead then Some(Dead)
    else if remote.state == Suspect && local.value.state == Alive then Some(Suspect)
    else if remote.state == Alive && local.value.state == Suspect
            && remote.lastSeen > local.value.lastSeen + window then Some(Alive)
    else None
  }

  /** One remote peer merged into the entry it names. */
  function MergeSlot(local: Option<Peer>, remote: Peer, window: nat, now: nat): Option<Peer>
  {
    match Verdict(local, remote, window)
    case None => local
    case Some(state) => Some(Update(local, remote.id, remote.address, state, now))
  }

  function MergeOne(t: Table, self: Id, window: nat, remote: Peer, now: nat): Table
  {
    if remote.id == self then t
    else match Verdict(Find(t, remote.id), remote, window)
      case None => t
      case Some(state) => Recorded(t, remote.id, remote.address, state, now)
  }

  function MergeAll(t: Table, self: Id, window: nat, remotes: seq<Peer>, now: nat): Table
  {
    if remotes == [] then t
    else MergeOne(MergeAll(t, self, window, remotes[..|remotes| - 1], now),
                  self, window, remotes[|remotes| - 1], now)
  }

  // ------------------------------------------------------ merge, entry by entry

  ghost predicate NoDuplicates(remotes: seq<Peer>)
  {
    forall i, j :: 0 <= i < j < |remotes| ==> remotes[i].id != remotes[j].id
  }

  lemma MergeLast(t: Table, self: Id, window: nat, remotes: seq<Peer>, now: nat, id: Id)
    requires remotes != []
    ensures var n := |remotes| - 1;
            var found := Find(MergeAll(t, self, window, remotes[..n], now), id);
            Find(MergeAll(t, self, window, remotes, now), id) ==
              if remotes[n].id == id && id != self then MergeSlot(found, remotes[n], window, now) else found
  {
  }

  /** With no duplicate ids, each entry is merged with the one remote peer that names it. */
  lemma {:induction false} MergeFinds(t: Table, self: Id, window: nat, remotes: seq<Peer>, now: nat, id: Id)
    requires NoDuplicates(remotes)
    ensures (forall i :: 0 <= i < |remotes| ==> remotes[i].id != id) || id == self ==>
              Find(MergeAll(t, self, window, remotes, now), id) == Find(t, id)
    ensures forall i :: 0 <= i < |remotes| && remotes[i].id == id && id != self ==>
              Find(MergeAll(t, self, window, remotes, now), id) == MergeSlot(Find(t, id), remotes[i], window, now)
  {
    hide MergeSlot, Find;
    if remotes != [] {
      hide MergeAll;
      var n := |remotes| - 1;
      var front := remotes[..n];
      MergeFinds(t, self, window, front, now, id);
      MergeLast(t, self, window, remotes, now, id);
      assert forall i :: 0 <= i < n ==> front[i] == remotes[i];
    }
  }

  lemma SameFinds(a: Table, b: Table)
    requires forall id :: Find(a, id) == Find(b, id)
    ensures a == b
  {
    forall id
      ensures id in a <==> id in b
      ensures id in a && id in b ==> a[id] == b[id]
    {
      assert Find(a, id) == Find(b, id);
    }
  }

  /** A merge does not depend on the order of the remote list. */
  lemma MergeOrderIndependent(t: Table, self: Id, window: nat, a: seq<Peer>, b: seq<Peer>, now: nat)
    requires NoDuplicates(a) && NoDuplicates(b)
    requires forall p :: p in a <==> p in b
    ensures MergeAll(t, self, window, a, now) == MergeAll(t, self, window, b, now)
  {
    hide MergeAll, MergeSlot;
    forall id
      ensures Find(MergeAll(t, self, window, a, now), id) == Find(MergeAll(t, self, window, b, now), id)
    {
      MergeFinds(t, self, window, a, now, id);
      MergeFinds(t, self, window, b, now, id);
      if i :| 0 <= i < |a| && a[i].id == id {
        assert a[i] in b;
        var j :| 0 <= j < |b| && b[j] == a[i];
      } else {
        forall j | 0 <= j < |b|
          ensures b[j].id != id
        {
          assert b[j] in a;
        }
      }
    }
    SameFinds(MergeAll(t, self, window, a, now), MergeAll(t, self, window, b, now));
  }

  lemma MergeSlotTwice(local: Option<Peer>, remote: Peer, window: nat, now: nat)
    ensures MergeSlot(MergeSlot(local, remote, window, now), remote, window, now) ==
            MergeSlot(local, remote, window, now)
  {
  }

  /** Merging the same list a second time at the same clock changes nothing. */
  lemma MergeIdempotent(t: Table, self: Id, window: nat, remotes: seq<Peer>, now: nat)
    requires NoDuplicates(remotes)
    ensures var once := MergeAll(t, self, window, remotes, now);
            MergeAll(once, self, window, remotes, now) == once
  {
    hide MergeAll, MergeSlot;
    var once := MergeAll(t, self, window, remotes, now);
    var twice := MergeAll(once, self, window, remotes, now);
    forall id
      ensures Find(twice, id) == Find(once, id)
    {
      MergeFinds(t, self, window, remotes, now, id);
      MergeFinds(once, self, window, remotes, now, id);
      if i :| 0 <= i < |remotes| && remotes[i].id == id {
        MergeSlotTwice(Find(t, id), remotes[i], window, now);
      }
    }
    SameFinds(twice, once);
  }

  lemma MergePair(t: Table, self: Id, window: nat, a: Peer, b: Peer, now: nat)
    ensures MergeAll(t, self, window, [a, b], now) ==
            MergeOne(MergeOne(t, self, window, a, now), self, window, b, now)
  {
    assert [a, b][..1] == [a];
    assert [a][..0] == [];
    assert MergeAll(t, self, window, [a], now) == MergeOne(t, self, window, a, now);
  }

  /** A list that names an unknown peer twice depends on its order: dead then alive, or alive then dead. */
  lemma DuplicatesOrderMatters(t: Table, self: Id, window: nat, a: Peer, d: Peer, now: nat)
    requires a.id == d.id && a.id != self && a.id !in t && a.state == Alive && d.state == Dead
    ensures Find(MergeAll(t, self, window, [d, a], now), a.id) == Some(Peer(a.id, a.address, Alive, now, 0))
    ensures Find(MergeAll(t, self, window, [a, d], now), a.id) == Some(Peer(a.id, a.address, Dead, now, 0))
  {
    MergePair(t, self, window, d, a, now);
    MergePair(t, self, window, a, d, now);
  }

  /** How one merged list may change an entry. */
  predicate Allowed(before: Option<Peer>, after: Option<Peer>, remotes: seq<Peer>, id: Id, window: nat)
  {
    || after == before
    || (before.None? && after.Some? && after.value.state != Dead)
    || (before.Some? && after.Some? && before.value.state != Dead && after.value.state == Dead)
    || (before.Some? && after.Some? && before.value.state == Alive && after.value.state == Suspect)
    || (before.Some? && after.Some? && before.value.state == Suspect && after.value.state == Alive
        && exists i :: 0 <= i < |remotes| && remotes[i].id == id && remotes[i].state == Alive
                       && remotes[i].lastSeen > before.value.lastSeen + window)
  }

  /**
   A merge never changes a dead entry, never adds the local node or an unknown dead node,
   and lowers a state only from suspect to alive, on evidence newer than the suspicion window.
   */
  lemma MergeIsSafe(t: Table, self: Id, window: nat, remotes: seq<Peer>, now: nat, id: Id)
    requires NoDuplicates(remotes)
    ensures Find(MergeAll(t, self, window, remotes, now), self) == Find(t, self)
    ensures id in t && t[id].state == Dead ==> Find(MergeAll(t, self, window, remotes, now), id) == Some(t[id])
    ensures Allowed(Find(t, id), Find(MergeAll(t, self, window, remotes, now), id), remotes, id, window)
  {
    hide MergeAll;
    MergeFinds(t, self, window, remotes, now, self);
    MergeFinds(t, self, window, remotes, now, id);
  }

  // ------------------------------------------------------ suspicion

  predicate Overdue(p: Peer, window: nat, now: nat)
  {
    p.state == Suspect && now >= p.suspiciousAt + window
  }

  function CheckPeer(p: Peer, window: nat, now: nat): Peer
  {
    if Overdue(p, window, now) then Update(Some(p), p.id, p.address, Dead, now) else p
  }

  function CheckTable(t: Table, window: nat, now: nat): Table
  {
    map id | id in t :: CheckPeer(t[id], window, now)
  }

  /** The check as a pass over a list of copies. */
  function CheckList(t: Table, list: seq<Peer>, window: nat, now: nat): Table
  {
    if list == [] then t
    else
      var t', p := CheckList(t, list[..|list| - 1], window, now), list[|list| - 1];
      if Overdue(p, window, now) then Recorded(t', p.id, p.address, Dead, now) else t'
  }

  lemma {:induction false} CheckListFinds(t: Table, list: seq<Peer>, window: nat, now: nat, id: Id)
    requires NoDuplicates(list)
    requires forall i :: 0 <= i < |list| ==> Find(t, list[i].id) == Some(list[i])
    ensures (forall i :: 0 <= i < |list| ==> list[i].id != id) ==>
              Find(CheckList(t, list, window, now), id) == Find(t, id)
    ensures forall i :: 0 <= i < |list| && list[i].id == id ==>
              Find(CheckList(t, list, window, now), id) == Some(CheckPeer(list[i], window, now))
  {
    if list != [] {
      var n := |list| - 1;
      CheckListFinds(t, list[..n], window, now, id);
      assert forall i :: 0 <= i < n ==> list[..n][i] == list[i];
    }
  }

  predicate WellKeyed(t: Table)
  {
    forall id :: id in t ==> t[id].id == id
  }

  /** Over any listing of the table the pass checks every entry once. */
  lemma CheckListIsTable(t: Table, list: seq<Peer>, window: nat, now: nat)
    requires NoDuplicates(list)
    requires forall p :: p in list <==> p.id in t && t[p.id] == p
    requires WellKeyed(t)
    ensures CheckList(t, list, window, now) == CheckTable(t, window, now)
  {
    hide CheckList, CheckPeer;
    forall i | 0 <= i < |list|
      ensures Find(t, list[i].id) == Some(list[i])
    {
      assert list[i] in list;
    }
    forall id
      ensures Find(CheckList(t, list, window, now), id) == Find(CheckTable(t, window, now), id)
    {
      CheckListFinds(t, list, window, now, id);
      if id in t {
        assert t[id] in list;
        var i :| 0 <= i < |list| && list[i] == t[id];
      }
    }
    SameFinds(CheckList(t, list, window, now), CheckTable(t, window, now));
  }

  // ------------------------------------------------------ a finished ping

  /** The id under which the answer says the seed's address is known. */
  function SeedId(remotes: seq<Peer>, address: string): Option<Id>
  {
    if remotes == [] then None
    else if remotes[0].address == address then Some(remotes[0].id)
    else SeedId(remotes[1..], address)
  }

  /** pingPeer once the answer is in: None stands for a failed or refused ping. */
  function AfterPing(t: Table, self: Id, window: nat, p: Peer, answer: Option<seq<Peer>>, now: nat): Table
  {
    match answer
    case None =>
      if p.state == Alive || p.id == SEED then Recorded(t, p.id, p.address, Suspect, now) else t
    case Some(remotes) =>
      var actual := if p.id == SEED then SeedId(remotes, p.address) else None;
      var t1 := if actual.Some? then t - {SEED} else t;
      var t2 := Recorded(t1, if actual.Some? then actual.value else p.id, p.address, Alive, now);
      MergeAll(t2, self, window, remotes, now)
  }

  /** Some peer of the answer has the address. */
  ghost predicate Answers(remotes: seq<Peer>, address: string)
  {
    exists i :: 0 <= i < |remotes| && remotes[i].address == address
  }

  /** `id` names the first peer of the answer that has the address. */
  ghost predicate IsFirst(remotes: seq<Peer>, address: string, id: Id)
  {
    exists i :: 0 <= i < |remotes| && remotes[i].address == address && remotes[i].id == id
                && forall j :: 0 <= j < i ==> remotes[j].address != address
  }

  /** A merge forgets nobody, and knows every peer it was told of that is not dead. */
  lemma {:induction false} MergeAdds(t: Table, self: Id, window: nat, remotes: seq<Peer>, now: nat, i: int)
    requires 0 <= i < |remotes| && remotes[i].id != self && remotes[i].state != Dead
    ensures remotes[i].id in MergeAll(t, self, window, remotes, now)
  {
    if i < |remotes| - 1 {
      MergeAdds(t, self, window, remotes[..|remotes| - 1], now, i);
    }
  }

  // ------------------------------------------------------ the objects

  class PeerManager {
    var peers: Table

    constructor ()
      ensures peers == map[]
    {
      peers := map[];
    }

    method AddOrUpdate(id: Id, address: string, state: Health, now: nat)
      modifies this
      ensures peers == Recorded(old(peers), id, address, state, now)
      ensures id in peers && peers[id].state == state && peers[id].lastSeen == now
      ensures peers[id].address == if id in old(peers) then old(peers)[id].address else address
      ensures peers[id].suspiciousAt ==
              if state == Suspect then now else if id in old(peers) then old(peers)[id].suspiciousAt else 0
      ensures forall x :: x != id ==> Find(peers, x) == Find(old(peers), x)
    {
      var p := Peer(id, address, Other(""), 0, 0);
      if id in peers {
        p := peers[id];
      }
      p := p.(state := state, lastSeen := now);
      if state == Suspect {
        p := p.(suspiciousAt := now);
      }
      peers := peers[id := p];
    }

    method Get(id: Id) returns (p: Option<Peer>)
      ensures p == Find(peers, id)
    {
      if id in peers {
        p := Some(peers[id]);
      } else {
        p := None;
      }
    }

    /** The peers in some order of iteration over the map. */
    method GetAll() returns (list: seq<Peer>)
      requires WellKeyed(peers)
      ensures NoDuplicates(list)
      ensures forall p :: p in list <==> p.id in peers && peers[p.id] == p
    {
      list := [];
      var left := peers.Keys;
      while left != {}
        invariant left <= peers.Keys
        invariant NoDuplicates(list)
        invariant forall p :: p in list ==> p.id in peers && p.id !in left && peers[p.id] == p
        invariant forall id :: id in peers && id !in left ==> peers[id] in list
        decreases left
      {
        var id :| id in left;
        left := left - {id};
        list := list + [peers[id]];
      }
    }

    method Remove(id: Id)
      modifies this
      ensures peers == old(peers) - {id}
    {
      peers := peers - {id};
    }
  }

  class GossipManager {
    const nodeId: Id
    const window: nat
    const pm: PeerManager

    constructor (nodeId: Id, window: nat, pm: PeerManager)
      ensures this.nodeId == nodeId && this.window == window && this.pm == pm
    {
      this.nodeId := nodeId;
      this.window := window;
      this.pm := pm;
    }

    method MergePeers(remotes: seq<Peer>, now: nat)
      modifies pm
      ensures pm.peers == MergeAll(old(pm.peers), nodeId, window, remotes, now)
    {
      ghost var before := pm.peers;
      for i := 0 to |remotes|
        invariant pm.peers == MergeAll(before, nodeId, window, remotes[..i], now)
      {
        assert remotes[..i + 1][..i] == remotes[..i];
        var rp := remotes[i];
        if rp.id != nodeId {
          var local := pm.Get(rp.id);
          if local == None {
            if rp.state != Dead {
              pm.AddOrUpdate(rp.id, rp.address, rp.state, now);
            }
          } else if local.value.state != Dead {
            if rp.state == Dead {
              pm.AddOrUpdate(rp.id, rp.address, Dead, now);
            } else if rp.state == Suspect && local.value.state == Alive {
              pm.AddOrUpdate(rp.id, rp.address, Suspect, now);
            } else if rp.state == Alive && local.value.state == Suspect {
              if rp.lastSeen > local.value.lastSeen + window {
                pm.AddOrUpdate(rp.id, rp.address, Alive, now);
              }
            }
          }
        }
      }
      assert remotes[..|remotes|] == remotes;
    }

    method CheckSuspicious(now: nat)
      requires WellKeyed(pm.peers)
      modifies pm
      ensures pm.peers == CheckTable(old(pm.peers), window, now)
      ensures pm.peers.Keys == old(pm.peers).Keys
      ensures forall id :: id in pm.peers ==>
                var p := old(pm.peers)[id];
                pm.peers[id] == if p.state == Suspect && now >= p.suspiciousAt + window
                                then p.(state := Dead, lastSeen := now) else p
    {
      ghost var before := pm.peers;
      var list := pm.GetAll();
      for i := 0 to |list|
        invariant pm.peers == CheckList(before, list[..i], window, now)
      {
        assert list[..i + 1][..i] == list[..i];
        var p := list[i];
        if p.state == Suspect && now >= p.suspiciousAt + window {
          pm.AddOrUpdate(p.id, p.address, Dead, now);
        }
      }
      assert list[..|list|] == list;
      CheckListIsTable(before, list, window, now);
    }

    /**
     The rest of a ping once it has failed or its answer is in. `before` is the table that an answer is
     merged into, and `actual` the id under which the pinged peer is recorded there.
     */
    method PingReturned(p: Peer, answer: Option<seq<Peer>>, now: nat) returns (ghost before: Table, ghost actual: Id)
      modifies pm
      ensures pm.peers == AfterPing(old(pm.peers), nodeId, window, p, answer, now)
      ensures answer.None? && (p.state == Alive || p.id == "seed") ==>
                && p.id in pm.peers && pm.peers[p.id].state == Suspect
                && pm.peers[p.id].lastSeen == pm.peers[p.id].suspiciousAt == now
                && forall id :: id != p.id ==> Find(pm.peers, id) == Find(old(pm.peers), id)
      ensures answer.None? && !(p.state == Alive || p.id == "seed") ==> pm.peers == old(pm.peers)
      ensures answer.Some? ==>
                && pm.peers == MergeAll(before, nodeId, window, answer.value, now)
                && actual in before && before[actual].state == Alive && before[actual].lastSeen == now
                && forall id :: id != actual && id != "seed" ==> Find(before, id) == Find(old(pm.peers), id)
      ensures answer.Some? ==>
                if p.id == "seed" && Answers(answer.value, p.address)
                then ("seed" in before <==> actual == "seed") && IsFirst(answer.value, p.address, actual)
                else actual == p.id && (actual != "seed" ==> Find(before, "seed") == Find(old(pm.peers), "seed"))
      ensures answer.Some? ==>
                forall i :: 0 <= i < |answer.value| && answer.value[i].id != nodeId && answer.value[i].state != Dead ==>
                  answer.value[i].id in pm.peers
    {
      before, actual := pm.peers, p.id;
      if answer == None {
        if p.state == Alive || p.id == SEED {
          pm.AddOrUpdate(p.id, p.address, Suspect, now);
        }
        return;
      }
      var remotes := answer.value;
      var id := p.id;
      if p.id == SEED {
        var i := 0;
        while i < |remotes| && remotes[i].address != p.address
          invariant 0 <= i <= |remotes|
          invariant SeedId(remotes, p.address) == SeedId(remotes[i..], p.address)
          invariant forall j :: 0 <= j < i ==> remotes[j].address != p.address
        {
          i := i + 1;
        }
        if i < |remotes| {
          id := remotes[i].id;
          assert IsFirst(remotes, p.address, id);
          pm.Remove(SEED);
        }
      }
      pm.AddOrUpdate(id, p.address, Alive, now);
      before, actual := pm.peers, id;
      MergePeers(remotes, now);
      forall i | 0 <= i < |remotes| && remotes[i].id != nodeId && remotes[i].state != Dead
        ensures remotes[i].id in pm.peers
      {
        MergeAdds(before, nodeId, window, remotes, now, i);
      }
    }
  }
}
