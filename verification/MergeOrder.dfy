/**
 Merges of lists that may name a peer more than once, and exactly which of them do not depend on
 their order.
 */
module MergeOrder {
  import opened Lww
  import opened Membership

  /** Two records of one peer that can be merged in either order, whatever is known of the peer. */
  predicate Compatible(p: Peer, q: Peer, window: nat)
  {
    if p.state == Dead || q.state == Dead then p.state == q.state
    else
      && p.address == q.address
      && (|| p.state == q.state
          || (p.state == Alive && q.state == Suspect && p.lastSeen <= window)
          || (q.state == Alive && p.state == Suspect && q.lastSeen <= window))
  }

  ghost predicate Harmonious(remotes: seq<Peer>, self: Id, window: nat)
  {
    forall p, q :: p in remotes && q in remotes && p.id == q.id && p.id != self ==> Compatible(p, q, window)
  }

  /** Into every table, every rearrangement of the list merges to the same. */
  ghost predicate OrderFree(remotes: seq<Peer>, self: Id, window: nat, now: nat)
  {
    forall t, b :: multiset(b) == multiset(remotes) ==>
      MergeAll(t, self, window, b, now) == MergeAll(t, self, window, remotes, now)
  }

  // ------------------------------------------------------ compatible records commute

  lemma SlotCommutes(local: Option<Peer>, p: Peer, q: Peer, window: nat, now: nat)
    requires p.id == q.id && Compatible(p, q, window)
    ensures MergeSlot(MergeSlot(local, p, window, now), q, window, now) ==
            MergeSlot(MergeSlot(local, q, window, now), p, window, now)
  {
  }

  lemma FindOne(t: Table, self: Id, window: nat, p: Peer, now: nat, id: Id)
    ensures Find(MergeOne(t, self, window, p, now), id) ==
            if p.id == id && id != self then MergeSlot(Find(t, id), p, window, now) else Find(t, id)
  {
  }

  lemma MergeCommutes(t: Table, self: Id, window: nat, p: Peer, q: Peer, now: nat)
    requires p.id == q.id && p.id != self ==> Compatible(p, q, window)
    ensures MergeOne(MergeOne(t, self, window, p, now), self, window, q, now) ==
            MergeOne(MergeOne(t, self, window, q, now), self, window, p, now)
  {
    hide MergeOne, MergeSlot, Compatible, Find;
    var a := MergeOne(MergeOne(t, self, window, p, now), self, window, q, now);
    var b := MergeOne(MergeOne(t, self, window, q, now), self, window, p, now);
    forall id
      ensures Find(a, id) == Find(b, id)
    {
      FindOne(t, self, window, p, now, id);
      FindOne(t, self, window, q, now, id);
      FindOne(MergeOne(t, self, window, p, now), self, window, q, now, id);
      FindOne(MergeOne(t, self, window, q, now), self, window, p, now, id);
      if p.id == q.id && p.id != self {
        SlotCommutes(Find(t, id), p, q, window, now);
      }
    }
    SameFinds(a, b);
  }

  lemma MergeSnoc(t: Table, self: Id, window: nat, b: seq<Peer>, p: Peer, now: nat)
    ensures MergeAll(t, self, window, b + [p], now) == MergeOne(MergeAll(t, self, window, b, now), self, window, p, now)
  {
    hide MergeOne;
    assert (b + [p])[..|b + [p]| - 1] == b;
  }

  function Without(b: seq<Peer>, j: int): seq<Peer>
    requires 0 <= j < |b|
  {
    b[..j] + b[j + 1..]
  }

  /** Any record of a harmonious list can be merged last. */
  lemma {:induction false} MoveLast(t: Table, self: Id, window: nat, b: seq<Peer>, j: int, now: nat)
    requires Harmonious(b, self, window) && 0 <= j < |b|
    ensures MergeAll(t, self, window, b, now) == MergeAll(t, self, window, Without(b, j) + [b[j]], now)
  {
    hide MergeAll, MergeOne, Compatible;
    var n := |b| - 1;
    if j == n {
      assert Without(b, j) + [b[j]] == b;
    } else {
      var c, x, z := b[..n], b[j], b[n];
      assert b == c + [z] && c[j] == x;
      var rest := Without(c, j);
      MoveLast(t, self, window, c, j, now);
      MergeSnoc(t, self, window, c, z, now);
      MergeSnoc(t, self, window, rest, x, now);
      MergeSnoc(t, self, window, rest, z, now);
      MergeSnoc(t, self, window, rest + [z], x, now);
      MergeCommutes(MergeAll(t, self, window, rest, now), self, window, x, z, now);
      assert Without(b, j) == rest + [z];
    }
  }

  lemma WithoutCounts(b: seq<Peer>, j: int)
    requires 0 <= j < |b|
    ensures multiset(b) == multiset(Without(b, j)) + multiset{b[j]}
  {
    assert b == b[..j] + [b[j]] + b[j + 1..];
  }

  lemma SameMembers(a: seq<Peer>, b: seq<Peer>, p: Peer)
    requires multiset(a) == multiset(b)
    ensures p in a <==> p in b
  {
    assert p in a <==> p in multiset(a);
    assert p in b <==> p in multiset(b);
  }

  lemma SameRest(front: seq<Peer>, rest: seq<Peer>, x: Peer, a: seq<Peer>, b: seq<Peer>)
    requires a == front + [x] && multiset(b) == multiset(rest) + multiset{x} && multiset(a) == multiset(b)
    ensures multiset(front) == multiset(rest)
  {
    assert multiset(a) == multiset(front) + multiset{x};
    assert multiset(front) == multiset(a) - multiset{x};
    assert multiset(rest) == multiset(b) - multiset{x};
  }

  lemma {:induction false} HarmonyIsOrderFree(t: Table, self: Id, window: nat, a: seq<Peer>, b: seq<Peer>, now: nat)
    requires multiset(a) == multiset(b) && Harmonious(a, self, window)
    ensures MergeAll(t, self, window, a, now) == MergeAll(t, self, window, b, now)
  {
    hide MergeOne, Compatible;
    if a == [] {
      assert |multiset(b)| == |b|;
    } else {
      hide MergeAll;
      var n := |a| - 1;
      var front, x := a[..n], a[n];
      assert a == front + [x];
      SameMembers(a, b, x);
      var j :| 0 <= j < |b| && b[j] == x;
      forall p
        ensures p in a <==> p in b
      {
        SameMembers(a, b, p);
      }
      MoveLast(t, self, window, b, j, now);
      WithoutCounts(b, j);
      SameRest(front, Without(b, j), x, a, b);
      HarmonyIsOrderFree(t, self, window, front, Without(b, j), now);
      MergeSnoc(t, self, window, front, x, now);
      MergeSnoc(t, self, window, Without(b, j), x, now);
    }
  }

  // ------------------------------------------------------ one entry through a list

  /** What a list makes of one entry. */
  function SlotAll(local: Option<Peer>, window: nat, remotes: seq<Peer>, now: nat, id: Id): Option<Peer>
  {
    if remotes == [] then local
    else
      var n := |remotes| - 1;
      var s := SlotAll(local, window, remotes[..n], now, id);
      if remotes[n].id == id then MergeSlot(s, remotes[n], window, now) else s
  }

  lemma {:induction false} FindAll(t: Table, self: Id, window: nat, remotes: seq<Peer>, now: nat, id: Id)
    requires id != self
    ensures Find(MergeAll(t, self, window, remotes, now), id) == SlotAll(Find(t, id), window, remotes, now, id)
  {
    if remotes != [] {
      hide MergeOne, MergeSlot, Find;
      var n := |remotes| - 1;
      FindAll(t, self, window, remotes[..n], now, id);
      FindOne(MergeAll(t, self, window, remotes[..n], now), self, window, remotes[n], now, id);
    }
  }

  lemma {:induction false} SlotConcat(local: Option<Peer>, window: nat, a: seq<Peer>, b: seq<Peer>, now: nat, id: Id)
    ensures SlotAll(local, window, a + b, now, id) ==
            SlotAll(SlotAll(local, window, a, now, id), window, b, now, id)
  {
    hide MergeSlot;
    if b == [] {
      assert a + b == a;
    } else {
      var n := |b| - 1;
      assert (a + b)[..|a + b| - 1] == a + b[..n];
      SlotConcat(local, window, a, b[..n], now, id);
    }
  }

  predicate Names(r: Peer, id: Id, dead: bool)
  {
    r.id == id && (r.state == Dead <==> dead)
  }

  /** The records of `id` in the list are all dead, or all not dead. */
  ghost predicate AllNamed(remotes: seq<Peer>, id: Id, dead: bool)
  {
    forall i :: 0 <= i < |remotes| && remotes[i].id == id ==> Names(remotes[i], id, dead)
  }

  lemma {:induction false} DeadsSkipped(window: nat, remotes: seq<Peer>, now: nat, id: Id)
    requires AllNamed(remotes, id, true)
    ensures SlotAll(None, window, remotes, now, id) == None
  {
    if remotes != [] {
      DeadsSkipped(window, remotes[..|remotes| - 1], now, id);
    }
  }

  lemma {:induction false} StaysUndead(local: Option<Peer>, window: nat, remotes: seq<Peer>, now: nat, id: Id)
    requires AllNamed(remotes, id, false) && (local.Some? ==> local.value.state != Dead)
    ensures var s := SlotAll(local, window, remotes, now, id); s.Some? ==> s.value.state != Dead
  {
    if remotes != [] {
      StaysUndead(local, window, remotes[..|remotes| - 1], now, id);
    }
  }

  lemma {:induction false} StaysKnown(local: Option<Peer>, window: nat, remotes: seq<Peer>, now: nat, id: Id)
    requires local.Some?
    ensures var s := SlotAll(local, window, remotes, now, id); s.Some? && s.value.address == local.value.address
  {
    if remotes != [] {
      StaysKnown(local, window, remotes[..|remotes| - 1], now, id);
    }
  }

  lemma {:induction false} BecomesKnown(local: Option<Peer>, window: nat, remotes: seq<Peer>, now: nat, id: Id, x: int)
    requires 0 <= x < |remotes| && Names(remotes[x], id, false)
    ensures SlotAll(local, window, remotes, now, id).Some?
  {
    var n := |remotes| - 1;
    if x < n {
      BecomesKnown(local, window, remotes[..n], now, id, x);
    }
  }

  lemma {:induction false} Killed(local: Option<Peer>, window: nat, remotes: seq<Peer>, now: nat, id: Id, x: int)
    requires local.Some? && 0 <= x < |remotes| && Names(remotes[x], id, true)
    ensures var s := SlotAll(local, window, remotes, now, id); s.Some? && s.value.state == Dead
  {
    var n := |remotes| - 1;
    StaysKnown(local, window, remotes[..n], now, id);
    if x < n {
      Killed(local, window, remotes[..n], now, id, x);
    }
  }

  lemma {:induction false} OtherStays(local: Option<Peer>, window: nat, remotes: seq<Peer>, now: nat, id: Id, h: Health)
    requires h.Other? && local.Some?
    ensures var s := SlotAll(local, window, remotes, now, id);
            && s.Some?
            && (local.value.state != h ==> s.value.state != h)
            && (local.value.state == h && AllNamed(remotes, id, false) ==> s.value.state == h)
  {
    if remotes != [] {
      OtherStays(local, window, remotes[..|remotes| - 1], now, id, h);
    }
  }

  ghost predicate AllOf(remotes: seq<Peer>, id: Id, h: Health)
  {
    forall i :: 0 <= i < |remotes| && remotes[i].id == id ==> remotes[i].state == h
  }

  predicate AliveOrSuspect(s: Option<Peer>)
  {
    s.Some? && (s.value.state == Alive || s.value.state == Suspect)
  }

  lemma {:induction false} Suspicions(local: Option<Peer>, window: nat, remotes: seq<Peer>, now: nat, id: Id)
    requires AllOf(remotes, id, Suspect) && AliveOrSuspect(local)
    ensures var s := SlotAll(local, window, remotes, now, id);
            && AliveOrSuspect(s)
            && (local.value.state == Suspect ==> s == local)
            && ((exists i :: 0 <= i < |remotes| && remotes[i].id == id) ==> s.value.state == Suspect)
  {
    if remotes != [] {
      var n := |remotes| - 1;
      Suspicions(local, window, remotes[..n], now, id);
      if i :| 0 <= i < |remotes| && remotes[i].id == id && remotes[n].id != id {
        assert remotes[..n][i].id == id;
      }
    }
  }

  lemma {:induction false} Refutations(local: Option<Peer>, window: nat, remotes: seq<Peer>, now: nat, id: Id)
    requires AllOf(remotes, id, Alive) && AliveOrSuspect(local)
    ensures var s := SlotAll(local, window, remotes, now, id);
            && AliveOrSuspect(s)
            && (s.value.state == Suspect ==> s == local)
            && ((exists i :: 0 <= i < |remotes| && remotes[i].id == id
                             && remotes[i].lastSeen > local.value.lastSeen + window) ==> s.value.state == Alive)
  {
    if remotes != [] {
      var n := |remotes| - 1;
      Refutations(local, window, remotes[..n], now, id);
      if i :| 0 <= i < n && remotes[i].id == id && remotes[i].lastSeen > local.value.lastSeen + window {
        assert remotes[..n][i].id == id && remotes[..n][i].lastSeen > local.value.lastSeen + window;
      }
    }
  }

  // ------------------------------------------------------ rearrangements

  function Keep(remotes: seq<Peer>, f: Peer -> bool): (kept: seq<Peer>)
    ensures forall r :: r in kept ==> r in remotes && f(r)
    ensures forall r :: r in remotes && f(r) ==> r in kept
  {
    if remotes == [] then []
    else
      var n := |remotes| - 1;
      if f(remotes[n]) then Keep(remotes[..n], f) + [remotes[n]] else Keep(remotes[..n], f)
  }

  /** The records with a property, and those without. */
  lemma {:induction false} KeepCounts(remotes: seq<Peer>, f: Peer -> bool, g: Peer -> bool)
    requires forall r :: f(r) <==> !g(r)
    ensures multiset(Keep(remotes, f)) + multiset(Keep(remotes, g)) == multiset(remotes)
  {
    if remotes != [] {
      var n := |remotes| - 1;
      KeepCounts(remotes[..n], f, g);
      assert remotes == remotes[..n] + [remotes[n]];
    }
  }

  lemma Differs(t: Table, self: Id, window: nat, remotes: seq<Peer>, a: seq<Peer>, b: seq<Peer>, now: nat, id: Id)
    requires id != self && multiset(a) == multiset(b) == multiset(remotes)
    requires SlotAll(Find(t, id), window, a, now, id) != SlotAll(Find(t, id), window, b, now, id)
    ensures !OrderFree(remotes, self, window, now)
  {
    hide MergeAll, SlotAll;
    FindAll(t, self, window, a, now, id);
    FindAll(t, self, window, b, now, id);
  }

  /** `p` first, the rest after it. */
  lemma First(remotes: seq<Peer>, p: Peer) returns (rest: seq<Peer>)
    requires p in remotes
    ensures multiset([p] + rest) == multiset(remotes)
    ensures forall r :: r in rest ==> r in remotes
  {
    var j :| 0 <= j < |remotes| && remotes[j] == p;
    rest := Without(remotes, j);
    WithoutCounts(remotes, j);
  }

  lemma SlotFirst(window: nat, p: Peer, rest: seq<Peer>, now: nat)
    requires p.state != Dead
    ensures SlotAll(None, window, [p] + rest, now, p.id) ==
            SlotAll(Some(Update(None, p.id, p.address, p.state, now)), window, rest, now, p.id)
  {
    SlotConcat(None, window, [p], rest, now, p.id);
    assert [p][..0] == [];
  }

  lemma KeptNamed(list: seq<Peer>, id: Id, dead: bool)
    requires forall r :: r in list ==> (r.state == Dead <==> dead)
    ensures AllNamed(list, id, dead)
  {
    forall i | 0 <= i < |list| && list[i].id == id
      ensures Names(list[i], id, dead)
    {
      assert list[i] in list;
    }
  }

  lemma KeptAll(list: seq<Peer>, id: Id, h: Health)
    requires forall r :: r in list && r.id == id ==> r.state == h
    ensures AllOf(list, id, h)
  {
    forall i | 0 <= i < |list| && list[i].id == id
      ensures list[i].state == h
    {
      assert list[i] in list;
    }
  }

  /** The dead records first: the peer stays unknown through them and is not dead in the end. */
  lemma DeadsFirst(window: nat, deads: seq<Peer>, others: seq<Peer>, now: nat, id: Id)
    requires AllNamed(deads, id, true) && AllNamed(others, id, false)
    ensures var s := SlotAll(None, window, deads + others, now, id); s.Some? ==> s.value.state != Dead
  {
    hide SlotAll, AllNamed;
    SlotConcat(None, window, deads, others, now, id);
    DeadsSkipped(window, deads, now, id);
    StaysUndead(None, window, others, now, id);
  }

  /** The dead records last: the peer is known by then, and dies. */
  lemma DeadsLast(window: nat, deads: seq<Peer>, others: seq<Peer>, now: nat, d: Peer, p: Peer)
    requires d in deads && p in others && p.id == d.id && p.state != Dead && d.state == Dead
    ensures var s := SlotAll(None, window, others + deads, now, p.id); s.Some? && s.value.state == Dead
  {
    hide SlotAll;
    SlotConcat(None, window, others, deads, now, p.id);
    var x :| 0 <= x < |others| && others[x] == p;
    BecomesKnown(None, window, others, now, p.id, x);
    var y :| 0 <= y < |deads| && deads[y] == d;
    Killed(SlotAll(None, window, others, now, p.id), window, deads, now, p.id, y);
  }

  /** A dead record and another of one peer: the dead ones first are skipped, last they kill. */
  lemma DeadAndAlive(self: Id, window: nat, remotes: seq<Peer>, now: nat, d: Peer, p: Peer)
    requires d in remotes && p in remotes && d.id == p.id != self && d.state == Dead && p.state != Dead
    ensures !OrderFree(remotes, self, window, now)
  {
    hide SlotAll, OrderFree;
    var id := p.id;
    var f, g := (r: Peer) => r.state == Dead, (r: Peer) => r.state != Dead;
    var deads, others := Keep(remotes, f), Keep(remotes, g);
    KeepCounts(remotes, f, g);
    KeptNamed(deads, id, true);
    KeptNamed(others, id, false);
    DeadsFirst(window, deads, others, now, id);
    DeadsLast(window, deads, others, now, d, p);
    Differs(map[], self, window, remotes, deads + others, others + deads, now, id);
  }

  lemma NotDead(remotes: seq<Peer>, p: Peer, id: Id)
    requires AllNamed(remotes, id, false) && p in remotes && p.id == id
    ensures p.state != Dead
  {
  }

  lemma RestUndead(remotes: seq<Peer>, rest: seq<Peer>, id: Id)
    requires AllNamed(remotes, id, false) && forall r :: r in rest ==> r in remotes
    ensures AllNamed(rest, id, false)
  {
    forall i | 0 <= i < |rest| && rest[i].id == id
      ensures Names(rest[i], id, false)
    {
      assert rest[i] in rest;
    }
  }

  /** Two records that would add an unknown peer differently, with no dead one about. */
  lemma TwoFirsts(self: Id, window: nat, remotes: seq<Peer>, now: nat, p: Peer, q: Peer)
    requires p in remotes && q in remotes && p.id == q.id != self && AllNamed(remotes, p.id, false)
    requires p.address != q.address || (p.state.Other? && q.state != p.state)
    ensures !OrderFree(remotes, self, window, now)
  {
    hide SlotAll, OrderFree;
    var id := p.id;
    assert p.state != Dead && q.state != Dead by { NotDead(remotes, p, id); NotDead(remotes, q, id); }
    var a := First(remotes, p);
    var b := First(remotes, q);
    SlotFirst(window, p, a, now);
    SlotFirst(window, q, b, now);
    var u, v := Some(Update(None, id, p.address, p.state, now)), Some(Update(None, id, q.address, q.state, now));
    if p.address != q.address {
      StaysKnown(u, window, a, now, id);
      StaysKnown(v, window, b, now, id);
    } else {
      RestUndead(remotes, a, id);
      OtherStays(u, window, a, now, id, p.state);
      OtherStays(v, window, b, now, id, p.state);
    }
    Differs(map[], self, window, remotes, [p] + a, [q] + b, now, id);
  }

  lemma SuspectsFirst(window: nat, suspects: seq<Peer>, others: seq<Peer>, now: nat, local: Option<Peer>, p: Peer)
    requires AllOf(suspects, p.id, Suspect) && AllOf(others, p.id, Alive)
    requires local.Some? && local.value.state == Suspect && p in others && p.lastSeen > local.value.lastSeen + window
    ensures var s := SlotAll(local, window, suspects + others, now, p.id); s.Some? && s.value.state == Alive
  {
    hide SlotAll, AllOf;
    SlotConcat(local, window, suspects, others, now, p.id);
    Suspicions(local, window, suspects, now, p.id);
    Refutations(local, window, others, now, p.id);
    var x :| 0 <= x < |others| && others[x] == p;
    assert others[x].lastSeen > local.value.lastSeen + window;
  }

  lemma SuspectsLast(window: nat, suspects: seq<Peer>, others: seq<Peer>, now: nat, local: Option<Peer>, q: Peer)
    requires AllOf(suspects, q.id, Suspect) && AllOf(others, q.id, Alive)
    requires local.Some? && local.value.state == Suspect && q in suspects
    ensures var s := SlotAll(local, window, others + suspects, now, q.id); s.Some? && s.value.state == Suspect
  {
    hide SlotAll, AllOf;
    SlotConcat(local, window, others, suspects, now, q.id);
    Refutations(local, window, others, now, q.id);
    Suspicions(SlotAll(local, window, others, now, q.id), window, suspects, now, q.id);
    var y :| 0 <= y < |suspects| && suspects[y] == q;
    assert suspects[y].id == q.id;
  }

  /** Suspicion and recent enough evidence of life: into a suspect entry, the later of the two wins. */
  lemma AliveAndSuspect(self: Id, window: nat, remotes: seq<Peer>, now: nat, p: Peer, q: Peer)
    requires p in remotes && q in remotes && p.id == q.id != self
    requires p.state == Alive && p.lastSeen > window && q.state == Suspect
    requires forall r :: r in remotes && r.id == p.id ==> r.state == Alive || r.state == Suspect
    ensures !OrderFree(remotes, self, window, now)
  {
    hide SlotAll, OrderFree;
    var id := p.id;
    var f, g := (r: Peer) => r.state == Suspect, (r: Peer) => r.state != Suspect;
    var suspects, others := Keep(remotes, f), Keep(remotes, g);
    KeepCounts(remotes, f, g);
    KeptAll(suspects, id, Suspect);
    KeptAll(others, id, Alive);
    var local := Some(Peer(id, "", Suspect, 0, 0));
    SuspectsFirst(window, suspects, others, now, local, p);
    SuspectsLast(window, suspects, others, now, local, q);
    var t := map[id := local.value];
    assert Find(t, id) == local;
    Differs(t, self, window, remotes, suspects + others, others + suspects, now, id);
  }

  lemma DiscordShows(self: Id, window: nat, remotes: seq<Peer>, now: nat, p: Peer, q: Peer)
    requires p in remotes && q in remotes && p.id == q.id != self && !Compatible(p, q, window)
    ensures !OrderFree(remotes, self, window, now)
  {
    hide OrderFree;
    var id := p.id;
    if d :| d in remotes && d.id == id && d.state == Dead {
      if p.state != Dead {
        DeadAndAlive(self, window, remotes, now, d, p);
      } else {
        DeadAndAlive(self, window, remotes, now, d, q);
      }
    } else if o :| o in remotes && o.id == id && o.state.Other? && (p.state != o.state || q.state != o.state) {
      TwoFirsts(self, window, remotes, now, o, if p.state != o.state then p else q);
    } else if p.address != q.address {
      TwoFirsts(self, window, remotes, now, p, q);
    } else if p.state == Alive {
      AliveAndSuspect(self, window, remotes, now, p, q);
    } else {
      AliveAndSuspect(self, window, remotes, now, q, p);
    }
  }

  /**
   Exactly which lists merge the same in every order into every table: any two records of one
   peer are both dead, or agree on its address and on its state, or are a suspicion and evidence
   of life too old to matter.
   */
  lemma OrderFreeIff(remotes: seq<Peer>, self: Id, window: nat, now: nat)
    ensures OrderFree(remotes, self, window, now) <==> Harmonious(remotes, self, window)
  {
    hide MergeAll, Compatible;
    if Harmonious(remotes, self, window) {
      forall t, b | multiset(b) == multiset(remotes)
        ensures MergeAll(t, self, window, b, now) == MergeAll(t, self, window, remotes, now)
      {
        HarmonyIsOrderFree(t, self, window, remotes, b, now);
      }
    } else {
      var p, q :| p in remotes && q in remotes && p.id == q.id && p.id != self && !Compatible(p, q, window);
      DiscordShows(self, window, remotes, now, p, q);
    }
  }
}
