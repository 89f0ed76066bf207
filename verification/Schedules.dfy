/**
 The calls of the gossip manager as schedules of the gossip machine: a whole merge, check
 or finished ping is a sequence of single steps, so what holds of every run holds of them.
 */
module Schedules {
  import opened Lww
  import opened Membership
  import opened Gossip

  /** The state a run ends in. */
  function After(s: State, es: seq<Event>, window: Id -> nat, delay: Option<nat>): State
  {
    Last(Run(s, es, window, delay))
  }

  lemma AfterSnoc(s: State, es: seq<Event>, e: Event, window: Id -> nat, delay: Option<nat>)
    ensures After(s, es + [e], window, delay) == Step(After(s, es, window, delay), e, window, delay)
  {
    hide Step;
    assert (es + [e])[..|es + [e]| - 1] == es;
  }

  /** `fs` goes on from `es`, and in the end only node `n`'s table has changed, to `t`. */
  ghost predicate Leads(s: State, es: seq<Event>, fs: seq<Event>,
                        window: Id -> nat, delay: Option<nat>, n: Id, t: Table)
  {
    var a, b := After(s, es, window, delay), After(s, fs, window, delay);
    && es <= fs
    && n in a.tables && b.tables == a.tables[n := t]
    && b.clock == a.clock && a.heard <= b.heard && a.copies <= b.copies && a.todo <= b.todo && a.pings <= b.pings
  }

  /** One decision on node `n`, taken and carried out. */
  lemma MergeOneLeads(s: State, es: seq<Event>, window: Id -> nat, delay: Option<nat>, n: Id, remote: Peer)
    returns (fs: seq<Event>)
    requires n in After(s, es, window, delay).tables && remote in After(s, es, window, delay).heard
    ensures var a := After(s, es, window, delay);
            Leads(s, es, fs, window, delay, n, MergeOne(a.tables[n], n, window(n), remote, a.clock))
  {
    hide Run, After, Verdict, Recorded;
    var a := After(s, es, window, delay);
    fs := es + [Merge(n, remote)];
    AfterSnoc(s, es, Merge(n, remote), window, delay);
    if remote.id != n {
      var verdict := Verdict(Find(a.tables[n], remote.id), remote, window(n));
      if verdict.Some? {
        var u := Pending(n, remote.id, remote.address, verdict.value);
        AfterSnoc(s, fs, Carry(u), window, delay);
        fs := fs + [Carry(u)];
      }
    }
  }

  lemma LeadsOn(s: State, es: seq<Event>, fs: seq<Event>, gs: seq<Event>,
                window: Id -> nat, delay: Option<nat>, n: Id, t: Table, u: Table)
    requires Leads(s, es, fs, window, delay, n, t) && Leads(s, fs, gs, window, delay, n, u)
    ensures Leads(s, es, gs, window, delay, n, u)
  {
    hide After;
  }

  lemma StayPut(s: State, es: seq<Event>, window: Id -> nat, delay: Option<nat>, n: Id)
    requires n in After(s, es, window, delay).tables
    ensures Leads(s, es, es, window, delay, n, After(s, es, window, delay).tables[n])
  {
    hide After;
  }

  /** A whole merge. */
  lemma {:induction false} MergeLeads(s: State, es: seq<Event>,
                                      window: Id -> nat, delay: Option<nat>, n: Id, remotes: seq<Peer>)
    returns (fs: seq<Event>)
    requires n in After(s, es, window, delay).tables
    requires forall i :: 0 <= i < |remotes| ==> remotes[i] in After(s, es, window, delay).heard
    ensures var a := After(s, es, window, delay);
            Leads(s, es, fs, window, delay, n, MergeAll(a.tables[n], n, window(n), remotes, a.clock))
  {
    hide After, MergeOne;
    var a := After(s, es, window, delay);
    if remotes == [] {
      fs := es;
      StayPut(s, es, window, delay, n);
    } else {
      var k := |remotes| - 1;
      var gs := MergeLeads(s, es, window, delay, n, remotes[..k]);
      assert remotes[k] in a.heard;
      fs := MergeOneLeads(s, gs, window, delay, n, remotes[k]);
      LeadsOn(s, es, gs, fs, window, delay, n, MergeAll(a.tables[n], n, window(n), remotes[..k], a.clock),
              MergeAll(a.tables[n], n, window(n), remotes, a.clock));
    }
  }

  lemma JudgeOne(s: State, es: seq<Event>, window: Id -> nat, delay: Option<nat>, n: Id, p: Peer)
    requires n in After(s, es, window, delay).tables
    requires Copied(n, p, After(s, es, window, delay).clock) in After(s, es, window, delay).copies
    requires Overdue(p, window(n), After(s, es, window, delay).clock)
    ensures var a := After(s, es, window, delay);
            Leads(s, es, es + [Judge(n, p, a.clock), Carry(Pending(n, p.id, p.address, Dead))], window, delay, n,
                  Recorded(a.tables[n], p.id, p.address, Dead, a.clock))
  {
    hide After, Recorded, Overdue;
    var e, u := Judge(n, p, After(s, es, window, delay).clock), Pending(n, p.id, p.address, Dead);
    AfterSnoc(s, es, e, window, delay);
    AfterSnoc(s, es + [e], Carry(u), window, delay);
    assert es + [e] + [Carry(u)] == es + [e, Carry(u)];
  }

  /** The copies of a suspicion check, judged and acted on one by one. */
  lemma {:induction false} JudgeAll(s: State, es: seq<Event>, window: Id -> nat, delay: Option<nat>, n: Id, t: Table,
                                    list: seq<Peer>)
    returns (fs: seq<Event>)
    requires n in After(s, es, window, delay).tables && After(s, es, window, delay).tables[n] == t
    requires forall i :: 0 <= i < |list| ==>
               Copied(n, list[i], After(s, es, window, delay).clock) in After(s, es, window, delay).copies
    ensures Leads(s, es, fs, window, delay, n, CheckList(t, list, window(n), After(s, es, window, delay).clock))
  {
    hide After, Recorded, Overdue;
    var a := After(s, es, window, delay);
    if list == [] {
      fs := es;
      StayPut(s, es, window, delay, n);
    } else {
      var k := |list| - 1;
      var gs := JudgeAll(s, es, window, delay, n, t, list[..k]);
      fs := gs;
      if Overdue(list[k], window(n), a.clock) {
        assert Copied(n, list[k], a.clock) in a.copies;
        JudgeOne(s, gs, window, delay, n, list[k]);
        fs := gs + [Judge(n, list[k], a.clock), Carry(Pending(n, list[k].id, list[k].address, Dead))];
      }
    }
  }

  /** A whole suspicion check, whatever the order in which the peers are listed. */
  lemma CheckLeads(s: State, es: seq<Event>, window: Id -> nat, delay: Option<nat>, n: Id, list: seq<Peer>)
    returns (fs: seq<Event>)
    requires n in After(s, es, window, delay).tables && WellKeyed(After(s, es, window, delay).tables[n])
    requires NoDuplicates(list)
    requires forall p :: p in list <==>
               p.id in After(s, es, window, delay).tables[n] && After(s, es, window, delay).tables[n][p.id] == p
    ensures var a := After(s, es, window, delay);
            Leads(s, es, fs, window, delay, n, CheckTable(a.tables[n], window(n), a.clock))
  {
    hide After, CheckList, CheckTable, NoDuplicates;
    var a := After(s, es, window, delay);
    var gs := es + [Copy(n)];
    AfterSnoc(s, es, Copy(n), window, delay);
    forall i | 0 <= i < |list|
      ensures Copied(n, list[i], a.clock) in After(s, gs, window, delay).copies
    {
      assert list[i] in list;
      assert Copied(n, a.tables[n][list[i].id], a.clock) in Copies(a, n);
    }
    fs := JudgeAll(s, gs, window, delay, n, a.tables[n], list);
    CheckListIsTable(a.tables[n], list, window(n), a.clock);
    assert Leads(s, es, gs, window, delay, n, a.tables[n]);
    LeadsOn(s, es, gs, fs, window, delay, n, a.tables[n], CheckTable(a.tables[n], window(n), a.clock));
  }

  /** The pinged peer is recorded as alive, under the id that the answer gives a seed. */
  function Reached(t: Table, p: Peer, actual: Option<Id>, now: nat): Table
  {
    Recorded(if actual.Some? then t - {SEED} else t, if actual.Some? then actual.value else p.id, p.address, Alive, now)
  }

  lemma ReachedLeads(s: State, es: seq<Event>,
                     window: Id -> nat, delay: Option<nat>, n: Id, p: Peer, actual: Option<Id>)
    returns (fs: seq<Event>)
    requires n in After(s, es, window, delay).tables && (n, p) in After(s, es, window, delay).pings
    requires actual.Some? ==> p.id == SEED
    ensures var a := After(s, es, window, delay);
            Leads(s, es, fs, window, delay, n, Reached(a.tables[n], p, actual, a.clock))
  {
    hide Run, After, Recorded;
    fs := es;
    if actual.Some? {
      AfterSnoc(s, es, DropSeed(n), window, delay);
      fs := es + [DropSeed(n)];
    }
    var e := PingSucceeds(n, p, if actual.Some? then actual.value else p.id);
    AfterSnoc(s, fs, e, window, delay);
    fs := fs + [e];
  }

  lemma FailedLeads(s: State, es: seq<Event>, window: Id -> nat, delay: Option<nat>, n: Id, p: Peer)
    returns (fs: seq<Event>)
    requires n in After(s, es, window, delay).tables && (n, p) in After(s, es, window, delay).pings
    ensures var a := After(s, es, window, delay);
            Leads(s, es, fs, window, delay, n, AfterPing(a.tables[n], n, window(n), p, None, a.clock))
  {
    hide Run, After, Recorded;
    AfterSnoc(s, es, PingFails(n, p), window, delay);
    fs := es + [PingFails(n, p)];
  }

  /** A whole ping, once its answer is in or has failed to come. */
  lemma PingLeads(s: State, es: seq<Event>,
                  window: Id -> nat, delay: Option<nat>, n: Id, p: Peer, answer: Option<seq<Peer>>)
    returns (fs: seq<Event>)
    requires n in After(s, es, window, delay).tables && (n, p) in After(s, es, window, delay).pings
    requires answer.Some? ==>
             forall i :: 0 <= i < |answer.value| ==> answer.value[i] in After(s, es, window, delay).heard
    ensures var a := After(s, es, window, delay);
            Leads(s, es, fs, window, delay, n, AfterPing(a.tables[n], n, window(n), p, answer, a.clock))
  {
    hide After, Recorded, SeedId, MergeAll;
    var a := After(s, es, window, delay);
    if answer.None? {
      fs := FailedLeads(s, es, window, delay, n, p);
    } else {
      var remotes := answer.value;
      var actual := if p.id == SEED then SeedId(remotes, p.address) else None;
      var t := Reached(a.tables[n], p, actual, a.clock);
      var gs := ReachedLeads(s, es, window, delay, n, p, actual);
      fs := MergeLeads(s, gs, window, delay, n, remotes);
      LeadsOn(s, es, gs, fs, window, delay, n, t, MergeAll(t, n, window(n), remotes, a.clock));
    }
  }

  /** An inbound ping records its sender as alive, whatever was known of it. */
  lemma ArrivalLeads(s: State, es: seq<Event>, window: Id -> nat, delay: Option<nat>,
                     n: Id, sender: Id, address: string)
    requires n in After(s, es, window, delay).tables && sender != "" && address != ""
    ensures var a := After(s, es, window, delay);
            Leads(s, es, es + [PingArrives(n, sender, address)], window, delay, n,
                  Recorded(a.tables[n], sender, address, Alive, a.clock))
  {
    hide Run, After, Recorded;
    AfterSnoc(s, es, PingArrives(n, sender, address), window, delay);
  }

  /** Bootstrapping records the seed as alive, under its placeholder id, and starts a ping of it. */
  lemma BootstrapLeads(s: State, es: seq<Event>, window: Id -> nat, delay: Option<nat>, n: Id, address: string)
    requires n in After(s, es, window, delay).tables
    ensures var a, b := After(s, es, window, delay), After(s, es + [Bootstrap(n, address)], window, delay);
            && Leads(s, es, es + [Bootstrap(n, address)], window, delay, n,
                     Recorded(a.tables[n], "seed", address, Alive, a.clock))
            && (n, Peer("seed", address, Other(""), 0, 0)) in b.pings
  {
    hide Run, After, Recorded;
    AfterSnoc(s, es, Bootstrap(n, address), window, delay);
  }

  /** Its answer is the whole table and the node itself as alive. */
  lemma AnswerHeard(s: State, es: seq<Event>, window: Id -> nat, delay: Option<nat>, n: Id, address: string)
    requires n in After(s, es, window, delay).tables
    ensures var a, b := After(s, es, window, delay), After(s, es + [Answer(n, address)], window, delay);
            && Peer(n, address, Alive, a.clock, 0) in b.heard
            && forall id :: id in a.tables[n] ==> a.tables[n][id] in b.heard
  {
    hide Run, After;
    AfterSnoc(s, es, Answer(n, address), window, delay);
  }
}
