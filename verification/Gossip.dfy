/**
 Gossip among n nodes, one critical section at a time: pings, answers, merges and
 suspicion checks, with every decision possibly acted on later than it was taken.
 */
module Gossip {
  import opened Lww
  import opened Membership

  /** A call of AddOrUpdate that some goroutine of `node` has decided on. */
  datatype Pending = Pending(node: Id, id: Id, address: string, state: Health)

  /** A peer as a suspicion check of `node` copied it at clock `at`. */
  datatype Copied = Copied(node: Id, peer: Peer, at: nat)

  /**
   `pings` are the copies of peers being pinged; `heard` every peer record ever put into
   an answer; `copies` what suspicion checks have copied and not yet looked at; `todo` the
   updates decided on by merges and suspicion checks.
   */
  datatype State = State(
    tables: map<Id, Table>, clock: nat, pings: set<(Id, Peer)>, heard: set<Peer>, copies: set<Copied>,
    todo: set<Pending>)

  datatype Event =
    | Tick(d: nat)
    | Bootstrap(n: Id, address: string)
    | Ping(n: Id, id: Id)
    | PingArrives(n: Id, sender: Id, address: string)
    | Answer(n: Id, address: string)
    | PingFails(n: Id, p: Peer)
    | PingSucceeds(n: Id, p: Peer, actual: Id)
    | DropSeed(n: Id)
    | Touch(n: Id, id: Id)
    | Merge(n: Id, remote: Peer)
    | Copy(n: Id)
    | Judge(n: Id, p: Peer, at: nat)
    | Carry(u: Pending)

  ghost predicate Initial(s: State)
  {
    && (forall n :: n in s.tables ==> s.tables[n] == map[])
    && s.pings == {} && s.heard == {} && s.copies == {} && s.todo == {}
  }

  function Put(s: State, n: Id, id: Id, address: string, state: Health): State
    requires n in s.tables
  {
    s.(tables := s.tables[n := Recorded(s.tables[n], id, address, state, s.clock)])
  }

  /** UpdateRTT: the entry was just seen. */
  function Seen(s: State, n: Id, id: Id): State
    requires n in s.tables && id in s.tables[n]
  {
    s.(tables := s.tables[n := s.tables[n][id := s.tables[n][id].(lastSeen := s.clock)]])
  }

  /** The whole table, and the node itself as alive. */
  function Answered(s: State, n: Id, address: string): set<Peer>
    requires n in s.tables
  {
    (set id | id in s.tables[n] :: s.tables[n][id]) + {Peer(n, address, Alive, s.clock, 0)}
  }

  /** The table as a suspicion check copies it. */
  function Copies(s: State, n: Id): set<Copied>
    requires n in s.tables
  {
    set id | id in s.tables[n] :: Copied(n, s.tables[n][id], s.clock)
  }

  /** The code sets no limit to the time between copy and judgement; a limit says how much it matters. */
  predicate Soon(delay: Option<nat>, at: nat, now: nat)
  {
    delay.Some? ==> now <= at + delay.value
  }

  function Decided(s: State, n: Id, remote: Peer, window: nat): set<Pending>
    requires n in s.tables
  {
    if remote.id == n then {}
    else match Verdict(Find(s.tables[n], remote.id), remote, window)
      case None => {}
      case Some(state) => {Pending(n, remote.id, remote.address, state)}
  }

  /**
   One step. `window` gives each node's suspicion window, and `delay` bounds the time a check may
   take from copying the table to reading the clock; None is the code as it stands.
   */
  function Step(s: State, e: Event, window: Id -> nat, delay: Option<nat>): State
  {
    if e.Tick? then s.(clock := s.clock + e.d)
    else if e.Carry? then
      (if e.u in s.todo && e.u.node in s.tables then Put(s, e.u.node, e.u.id, e.u.address, e.u.state) else s)
    else if e.n !in s.tables then s
    else match e
      case Bootstrap(n, address) =>
        Put(s, n, SEED, address, Alive).(pings := s.pings + {(n, Peer(SEED, address, Other(""), 0, 0))})
      case Ping(n, id) =>
        if id in s.tables[n] && id != n && s.tables[n][id].state != Dead
        then s.(pings := s.pings + {(n, s.tables[n][id])}) else s
      case PingArrives(n, sender, address) =>
        if sender != "" && address != "" then Put(s, n, sender, address, Alive) else s
      case Answer(n, address) => s.(heard := s.heard + Answered(s, n, address))
      case PingFails(n, p) =>
        if (n, p) in s.pings && (p.state == Alive || p.id == SEED) then Put(s, n, p.id, p.address, Suspect) else s
      case PingSucceeds(n, p, actual) =>
        if (n, p) in s.pings && (actual == p.id || p.id == SEED) then Put(s, n, actual, p.address, Alive) else s
      case DropSeed(n) => s.(tables := s.tables[n := s.tables[n] - {SEED}])
      case Touch(n, id) => if id in s.tables[n] then Seen(s, n, id) else s
      case Merge(n, remote) =>
        if remote in s.heard then s.(todo := s.todo + Decided(s, n, remote, window(n))) else s
      case Copy(n) => s.(copies := s.copies + Copies(s, n))
      case Judge(n, p, at) =>
        if Copied(n, p, at) in s.copies && Overdue(p, window(n), s.clock) && Soon(delay, at, s.clock)
        then s.(todo := s.todo + {Pending(n, p.id, p.address, Dead)}) else s
  }

  type History = h: seq<State> | |h| > 0 witness [State(map[], 0, {}, {}, {}, {})]

  function Last(h: History): State
  {
    h[|h| - 1]
  }

  /** All the states of a run, in order. */
  function Run(s: State, es: seq<Event>, window: Id -> nat, delay: Option<nat>): History
  {
    if es == [] then [s]
    else
      var h := Run(s, es[..|es| - 1], window, delay);
      h + [Step(Last(h), es[|es| - 1], window, delay)]
  }

  lemma RunSnoc(s: State, es: seq<Event>, e: Event, window: Id -> nat, delay: Option<nat>)
    ensures var h := Run(s, es, window, delay);
            Run(s, es + [e], window, delay) == h + [Step(Last(h), e, window, delay)]
  {
    hide Step;
    assert (es + [e])[..|es + [e]| - 1] == es;
  }

  // ------------------------------------------------------ provenance of death

  predicate SuspectAt(s: State, n: Id, id: Id)
  {
    n in s.tables && id in s.tables[n] && s.tables[n][id].state == Suspect
  }

  /** From state `i` to state `j` of the run, node `n` held `id` suspect without a break. */
  ghost predicate HeldSuspect(h: History, n: Id, id: Id, i: int, j: int)
  {
    0 <= i <= j < |h| && forall l :: i <= l <= j ==> SuspectAt(h[l], n, id)
  }

  /** At state `l`, not too long after state `j`, the window that began with state `i` has run out. */
  predicate RunsOut(h: History, i: int, j: int, l: int, window: nat, delay: Option<nat>)
  {
    && 0 <= i <= j <= l < |h|
    && h[l].clock >= h[i].clock + window
    && Soon(delay, h[j].clock, h[l].clock)
  }

  /**
   Some node held `id` suspect, without a break, until it copied its table, and found the
   suspicion window to have run out when it then read the clock.
   */
  ghost predicate Convicted(h: History, id: Id, window: Id -> nat, delay: Option<nat>)
  {
    exists n, i, j, l :: HeldSuspect(h, n, id, i, j) && RunsOut(h, i, j, l, window(n), delay)
  }

  ghost predicate SuspectSince(h: History, n: Id, id: Id, t: nat)
  {
    exists i :: HeldSuspect(h, n, id, i, |h| - 1) && h[i].clock <= t
  }

  /** A copied suspect had been suspect, without a break, since the time the copy says. */
  ghost predicate CopyHeld(h: History, c: Copied)
  {
    exists i, j :: HeldSuspect(h, c.node, c.peer.id, i, j) && h[i].clock <= c.peer.suspiciousAt && h[j].clock == c.at
  }

  predicate TableDead(s: State, n: Id, id: Id)
  {
    n in s.tables && id in s.tables[n] && s.tables[n][id].state == Dead
  }

  ghost predicate Inv(h: History, window: Id -> nat, delay: Option<nat>)
  {
    var s := Last(h);
    && (forall n :: n in s.tables ==> WellKeyed(s.tables[n]))
    && (forall n, id :: SuspectAt(s, n, id) ==> SuspectSince(h, n, id, s.tables[n][id].suspiciousAt))
    && (forall c :: c in s.copies && c.peer.state == Suspect ==> CopyHeld(h, c))
    && (forall n, id :: TableDead(s, n, id) ==> Convicted(h, id, window, delay))
    && (forall p :: p in s.heard && p.state == Dead ==> Convicted(h, p.id, window, delay))
    && (forall u :: u in s.todo && u.state == Dead ==> Convicted(h, u.id, window, delay))
  }

  lemma HeldStays(h: History, s: State, n: Id, id: Id, i: int, j: int)
    requires HeldSuspect(h, n, id, i, j)
    ensures HeldSuspect(h + [s], n, id, i, j)
  {
  }

  lemma ConvictedStays(h: History, s: State, id: Id, window: Id -> nat, delay: Option<nat>)
    requires Convicted(h, id, window, delay)
    ensures Convicted(h + [s], id, window, delay)
  {
    var n, i, j, l :| HeldSuspect(h, n, id, i, j) && RunsOut(h, i, j, l, window(n), delay);
    HeldStays(h, s, n, id, i, j);
    assert RunsOut(h + [s], i, j, l, window(n), delay);
  }

  lemma CopyStays(h: History, s: State, c: Copied)
    requires CopyHeld(h, c)
    ensures CopyHeld(h + [s], c)
  {
    var i, j :| HeldSuspect(h, c.node, c.peer.id, i, j) && h[i].clock <= c.peer.suspiciousAt && h[j].clock == c.at;
    HeldStays(h, s, c.node, c.peer.id, i, j);
    var h' := h + [s];
    assert h'[i].clock <= c.peer.suspiciousAt && h'[j].clock == c.at;
  }

  lemma SuspicionGrows(h: History, s: State, n: Id, id: Id, t: nat)
    requires SuspectSince(h, n, id, t) && SuspectAt(s, n, id)
    ensures SuspectSince(h + [s], n, id, t)
  {
    var i :| HeldSuspect(h, n, id, i, |h| - 1) && h[i].clock <= t;
    var h' := h + [s];
    assert HeldSuspect(h', n, id, i, |h'| - 1) && h'[i].clock <= t;
  }

  lemma SuspicionStarts(h: History, s: State, n: Id, id: Id)
    requires SuspectAt(s, n, id)
    ensures SuspectSince(h + [s], n, id, s.clock)
  {
    var h' := h + [s];
    assert HeldSuspect(h', n, id, |h'| - 1, |h'| - 1) && h'[|h'| - 1].clock <= s.clock;
  }

  /** A copied suspect whose window has run out by the time it is judged. */
  lemma JudgementConvicts(h: History, c: Copied, window: Id -> nat, delay: Option<nat>)
    requires CopyHeld(h, c) && Overdue(c.peer, window(c.node), Last(h).clock) && Soon(delay, c.at, Last(h).clock)
    ensures Convicted(h, c.peer.id, window, delay)
  {
    var i, j :| HeldSuspect(h, c.node, c.peer.id, i, j) && h[i].clock <= c.peer.suspiciousAt && h[j].clock == c.at;
    assert RunsOut(h, i, j, |h| - 1, window(c.node), delay);
  }

  /** What one step may do to one entry of a table. */
  ghost predicate EntryStep(s: State, s': State, n: Id, id: Id)
  {
    var before := if n in s.tables then Find(s.tables[n], id) else None;
    var after := if n in s'.tables then Find(s'.tables[n], id) else None;
    || after.None?
    || after == before
    || (before.Some? && after == Some(before.value.(lastSeen := s.clock)))
    || (after.value.state == Suspect && after.value.suspiciousAt == s.clock && s'.clock == s.clock)
    || (after.value.state != Suspect
        && (after.value.state == Dead ==> exists address :: Pending(n, id, address, Dead) in s.todo))
  }

  lemma StepEntries(s: State, e: Event, window: Id -> nat, delay: Option<nat>, n: Id, id: Id)
    ensures EntryStep(s, Step(s, e, window, delay), n, id)
  {
  }

  lemma StepKeyed(s: State, e: Event, window: Id -> nat, delay: Option<nat>, n: Id)
    requires forall m :: m in s.tables ==> WellKeyed(s.tables[m])
    requires n in Step(s, e, window, delay).tables
    ensures WellKeyed(Step(s, e, window, delay).tables[n])
  {
  }

  lemma StepHeard(h: History, e: Event, window: Id -> nat, delay: Option<nat>, p: Peer)
    requires Inv(h, window, delay) && p in Step(Last(h), e, window, delay).heard && p.state == Dead
    ensures Convicted(h, p.id, window, delay)
  {
    var s := Last(h);
    hide Convicted, SuspectSince, CopyHeld, Verdict;
    if p !in s.heard {
      assert e.Answer? && e.n in s.tables && p in Answered(s, e.n, e.address);
      var id :| id in s.tables[e.n] && p == s.tables[e.n][id];
      assert TableDead(s, e.n, id);
    }
  }

  lemma SinceCopied(h: History, c: Copied, id: Id)
    requires SuspectSince(h, c.node, id, c.peer.suspiciousAt) && c.peer.id == id && c.at == Last(h).clock
    ensures CopyHeld(h, c)
  {
    var i :| HeldSuspect(h, c.node, id, i, |h| - 1) && h[i].clock <= c.peer.suspiciousAt;
    assert h[|h| - 1].clock == c.at;
  }

  lemma StepCopies(h: History, e: Event, window: Id -> nat, delay: Option<nat>, c: Copied)
    requires Inv(h, window, delay) && c in Step(Last(h), e, window, delay).copies && c.peer.state == Suspect
    ensures CopyHeld(h, c)
  {
    var s := Last(h);
    hide Convicted, CopyHeld, SuspectSince, Verdict;
    if c !in s.copies {
      assert e.Copy? && e.n in s.tables && c in Copies(s, e.n);
      var id :| id in s.tables[e.n] && c == Copied(e.n, s.tables[e.n][id], s.clock);
      assert SuspectAt(s, e.n, id);
      SinceCopied(h, c, id);
    }
  }

  lemma DeadVerdict(local: Option<Peer>, remote: Peer, window: nat)
    ensures Verdict(local, remote, window) == Some(Dead) ==> remote.state == Dead
  {
  }

  lemma StepTodo(h: History, e: Event, window: Id -> nat, delay: Option<nat>, u: Pending)
    requires Inv(h, window, delay) && u in Step(Last(h), e, window, delay).todo && u.state == Dead
    ensures Convicted(h, u.id, window, delay)
  {
    var s := Last(h);
    hide Convicted, SuspectSince, CopyHeld, Verdict, Soon;
    if u !in s.todo {
      if e.Judge? {
        JudgementConvicts(h, Copied(e.n, e.p, e.at), window, delay);
      } else {
        assert e.Merge? && e.remote in s.heard && u in Decided(s, e.n, e.remote, window(e.n));
        DeadVerdict(Find(s.tables[e.n], e.remote.id), e.remote, window(e.n));
      }
    }
  }

  lemma StepTables(h: History, e: Event, window: Id -> nat, delay: Option<nat>, n: Id, id: Id)
    requires Inv(h, window, delay)
    ensures var s' := Step(Last(h), e, window, delay);
            && (SuspectAt(s', n, id) ==> SuspectSince(h + [s'], n, id, s'.tables[n][id].suspiciousAt))
            && (TableDead(s', n, id) ==> Convicted(h + [s'], id, window, delay))
  {
    var s, s' := Last(h), Step(Last(h), e, window, delay);
    StepEntries(s, e, window, delay, n, id);
    hide Step, Convicted, SuspectSince, CopyHeld;
    if SuspectAt(s', n, id) {
      if s'.tables[n][id].suspiciousAt == s.clock && s'.clock == s.clock {
        SuspicionStarts(h, s', n, id);
      } else {
        SuspicionGrows(h, s', n, id, s'.tables[n][id].suspiciousAt);
      }
    } else if TableDead(s', n, id) {
      if !TableDead(s, n, id) {
        var address :| Pending(n, id, address, Dead) in s.todo;
      }
      ConvictedStays(h, s', id, window, delay);
    }
  }

  lemma StepKeeps(h: History, e: Event, window: Id -> nat, delay: Option<nat>)
    requires Inv(h, window, delay)
    ensures Inv(h + [Step(Last(h), e, window, delay)], window, delay)
  {
    var s' := Step(Last(h), e, window, delay);
    var h' := h + [s'];
    hide Step, Convicted, SuspectSince, CopyHeld, WellKeyed;
    forall n | n in s'.tables
      ensures WellKeyed(s'.tables[n])
    {
      StepKeyed(Last(h), e, window, delay, n);
    }
    forall n, id
      ensures SuspectAt(s', n, id) ==> SuspectSince(h', n, id, s'.tables[n][id].suspiciousAt)
      ensures TableDead(s', n, id) ==> Convicted(h', id, window, delay)
    {
      StepTables(h, e, window, delay, n, id);
    }
    forall c | c in s'.copies && c.peer.state == Suspect
      ensures CopyHeld(h', c)
    {
      StepCopies(h, e, window, delay, c);
      CopyStays(h, s', c);
    }
    forall p | p in s'.heard && p.state == Dead
      ensures Convicted(h', p.id, window, delay)
    {
      StepHeard(h, e, window, delay, p);
      ConvictedStays(h, s', p.id, window, delay);
    }
    forall u | u in s'.todo && u.state == Dead
      ensures Convicted(h', u.id, window, delay)
    {
      StepTodo(h, e, window, delay, u);
      ConvictedStays(h, s', u.id, window, delay);
    }
  }

  lemma {:induction false} RunKeeps(s: State, es: seq<Event>, window: Id -> nat, delay: Option<nat>)
    requires Initial(s)
    ensures Inv(Run(s, es, window, delay), window, delay)
  {
    if es != [] {
      hide Inv, Step;
      RunKeeps(s, es[..|es| - 1], window, delay);
      StepKeeps(Run(s, es[..|es| - 1], window, delay), es[|es| - 1], window, delay);
    }
  }

  /**
   Provenance of death: in every run, if any node holds a peer as dead, then earlier some
   node held that peer suspect, without a break, from the start of its suspicion until it
   copied its table, and its suspicion window had run out when it then read the clock.
   */
  lemma DeathHasProvenance(s: State, es: seq<Event>, window: Id -> nat, delay: Option<nat>, n: Id, id: Id)
    requires Initial(s) && TableDead(Last(Run(s, es, window, delay)), n, id)
    ensures Convicted(Run(s, es, window, delay), id, window, delay)
  {
    RunKeeps(s, es, window, delay);
  }

  // ------------------------------------------------------ how much of the window

  /** Some node held `id` suspect, without a break, for its window less `short`. */
  ghost predicate HeldFor(h: History, id: Id, window: Id -> nat, short: nat)
  {
    exists n, i, j :: HeldSuspect(h, n, id, i, j) && h[j].clock + short >= h[i].clock + window(n)
  }

  /** In every run, every death is preceded by an unbroken suspicion of the window less `short`. */
  ghost predicate DeathsAreEarned(s: State, window: Id -> nat, delay: Option<nat>, short: nat)
  {
    forall es, n, id :: TableDead(Last(Run(s, es, window, delay)), n, id) ==>
      HeldFor(Run(s, es, window, delay), id, window, short)
  }

  lemma StepNodes(s: State, e: Event, window: Id -> nat, delay: Option<nat>)
    ensures Step(s, e, window, delay).tables.Keys == s.tables.Keys
  {
  }

  lemma {:induction false} SameNodes(s: State, es: seq<Event>, window: Id -> nat, delay: Option<nat>, x: nat)
    requires x < |Run(s, es, window, delay)|
    ensures Run(s, es, window, delay)[x].tables.Keys == s.tables.Keys
  {
    if es != [] {
      var h := Run(s, es[..|es| - 1], window, delay);
      SameNodes(s, es[..|es| - 1], window, delay, if x < |h| then x else |h| - 1);
      StepNodes(Last(h), es[|es| - 1], window, delay);
      hide Step;
    }
  }

  lemma ConvictedHeldFor(s: State, es: seq<Event>, id: Id, window: Id -> nat, delay: Option<nat>, short: nat)
    requires Convicted(Run(s, es, window, delay), id, window, delay)
    requires (delay.Some? && delay.value <= short) || forall n :: n in s.tables ==> window(n) <= short
    ensures HeldFor(Run(s, es, window, delay), id, window, short)
  {
    var h := Run(s, es, window, delay);
    var n, i, j, l :| HeldSuspect(h, n, id, i, j) && RunsOut(h, i, j, l, window(n), delay);
    SameNodes(s, es, window, delay, j);
    hide Run;
    assert SuspectAt(h[j], n, id);
    if delay.Some? && delay.value <= short {
      assert h[j].clock + short >= h[i].clock + window(n);
    } else {
      assert HeldSuspect(h, n, id, j, j) && h[j].clock + short >= h[j].clock + window(n);
    }
  }

  // ------------------------------------------------------ a peer refuted between copy and judgement

  /** The one entry of the run below. */
  function Known(id: Id, state: Health, seen: nat, since: nat): Table
  {
    map[id := Peer(id, "a", state, seen, since)]
  }

  function With(s: State, n: Id, t: Table): State
  {
    s.(tables := s.tables[n := t])
  }

  /** A peer is met, pinged, and suspected when the ping fails. */
  function Suspected(s: State, n: Id, id: Id): seq<State>
  {
    var met := With(s, n, Known(id, Alive, s.clock, 0));
    var pinged := met.(pings := {(n, Peer(id, "a", Alive, s.clock, 0))});
    [met, pinged, With(pinged, n, Known(id, Suspect, s.clock, s.clock))]
  }

  /** Later it is copied by a check, and then its own ping arrives. */
  function Refuted(s: State, n: Id, id: Id, since: nat, k: nat): seq<State>
  {
    var later := s.(clock := since + k);
    var copied := later.(copies := {Copied(n, Peer(id, "a", Suspect, since, since), since + k)});
    [later, copied, With(copied, n, Known(id, Alive, since + k, since))]
  }

  /** Later still the check reads the clock and judges the copy. */
  function Condemned(s: State, n: Id, id: Id, since: nat, w: nat): seq<State>
  {
    var later := s.(clock := since + w);
    var judged := later.(todo := {Pending(n, id, "a", Dead)});
    [later, judged, With(judged, n, Known(id, Dead, since + w, since))]
  }

  lemma PutKnown(s: State, n: Id, id: Id, state: Health, seen: nat, since: nat, state': Health)
    requires n in s.tables && s.tables[n] == Known(id, state, seen, since)
    ensures Put(s, n, id, "a", state') ==
            With(s, n, Known(id, state', s.clock, if state' == Suspect then s.clock else since))
  {
    var t := Recorded(s.tables[n], id, "a", state', s.clock);
    assert t == Known(id, state', s.clock, if state' == Suspect then s.clock else since);
  }

  lemma CopiesKnown(s: State, n: Id, id: Id, state: Health, seen: nat, since: nat)
    requires n in s.tables && s.tables[n] == Known(id, state, seen, since)
    ensures Copies(s, n) == {Copied(n, Peer(id, "a", state, seen, since), s.clock)}
  {
    assert id in s.tables[n];
  }

  lemma SuspectedSteps(s: State, n: Id, id: Id, window: Id -> nat, delay: Option<nat>)
    requires Initial(s) && n in s.tables && id != n && id != ""
    ensures var x := Suspected(s, n, id);
            && Step(s, PingArrives(n, id, "a"), window, delay) == x[0]
            && Step(x[0], Ping(n, id), window, delay) == x[1]
            && Step(x[1], PingFails(n, Peer(id, "a", Alive, s.clock, 0)), window, delay) == x[2]
  {
    var x := Suspected(s, n, id);
    assert s.pings + {(n, Peer(id, "a", Alive, s.clock, 0))} == {(n, Peer(id, "a", Alive, s.clock, 0))};
    PutKnown(x[1], n, id, Alive, s.clock, 0, Suspect);
  }

  lemma RefutedSteps(s: State, n: Id, id: Id, k: nat, window: Id -> nat, delay: Option<nat>)
    requires n in s.tables && id != "" && s.copies == {} && s.tables[n] == Known(id, Suspect, s.clock, s.clock)
    ensures var x := Refuted(s, n, id, s.clock, k);
            && Step(s, Tick(k), window, delay) == x[0]
            && Step(x[0], Copy(n), window, delay) == x[1]
            && Step(x[1], PingArrives(n, id, "a"), window, delay) == x[2]
  {
    var x := Refuted(s, n, id, s.clock, k);
    CopiesKnown(x[0], n, id, Suspect, s.clock, s.clock);
    PutKnown(x[1], n, id, Suspect, s.clock, s.clock, Alive);
    hide Put, Copies;
  }

  lemma CondemnedSteps(s: State, n: Id, id: Id, since: nat, d: nat, window: Id -> nat, delay: Option<nat>)
    requires n in s.tables && s.todo == {} && s.clock >= since && s.clock + d == since + window(n)
    requires s.copies == {Copied(n, Peer(id, "a", Suspect, since, since), s.clock)}
    requires s.tables[n] == Known(id, Alive, s.clock, since) && (delay.Some? ==> d <= delay.value)
    ensures var x := Condemned(s, n, id, since, window(n));
            && Step(s, Tick(d), window, delay) == x[0]
            && Step(x[0], Judge(n, Peer(id, "a", Suspect, since, since), s.clock), window, delay) == x[1]
            && Step(x[1], Carry(Pending(n, id, "a", Dead)), window, delay) == x[2]
  {
    var x := Condemned(s, n, id, since, window(n));
    PutKnown(x[1], n, id, Alive, s.clock, since, Dead);
    hide Put;
  }

  lemma RunThree(s: State, es: seq<Event>, e: Event, f: Event, g: Event, x: seq<State>,
                 window: Id -> nat, delay: Option<nat>)
    requires |x| == 3
    requires Step(Last(Run(s, es, window, delay)), e, window, delay) == x[0]
    requires Step(x[0], f, window, delay) == x[1] && Step(x[1], g, window, delay) == x[2]
    ensures Run(s, es + [e, f, g], window, delay) == Run(s, es, window, delay) + x
  {
    hide Step, Run;
    RunSnoc(s, es, e, window, delay);
    RunSnoc(s, es + [e], f, window, delay);
    RunSnoc(s, es + [e] + [f], g, window, delay);
    assert es + [e] + [f] + [g] == es + [e, f, g];
    assert x == [x[0]] + [x[1]] + [x[2]];
  }

  /** The history of such a peer, whose suspicion lasts `k` and whose judgement comes `d` later. */
  lemma HastyRun(s: State, window: Id -> nat, delay: Option<nat>, n: Id, id: Id, k: nat, d: nat)
    returns (es: seq<Event>)
    requires Initial(s) && n in s.tables && id != n && id != ""
    requires k + d == window(n) && (delay.Some? ==> d <= delay.value)
    ensures var a := Suspected(s, n, id);
            var b := Refuted(a[2], n, id, s.clock, k);
            Run(s, es, window, delay) == [s] + a + b + Condemned(b[2], n, id, s.clock, window(n))
  {
    hide Step;
    var a := Suspected(s, n, id);
    var b := Refuted(a[2], n, id, s.clock, k);
    var c := Condemned(b[2], n, id, s.clock, window(n));
    var p, q := Peer(id, "a", Alive, s.clock, 0), Peer(id, "a", Suspect, s.clock, s.clock);
    assert Run(s, [], window, delay) == [s];
    hide Run;
    SuspectedSteps(s, n, id, window, delay);
    RunThree(s, [], PingArrives(n, id, "a"), Ping(n, id), PingFails(n, p), a, window, delay);
    es := [] + [PingArrives(n, id, "a"), Ping(n, id), PingFails(n, p)];
    RefutedSteps(a[2], n, id, k, window, delay);
    RunThree(s, es, Tick(k), Copy(n), PingArrives(n, id, "a"), b, window, delay);
    es := es + [Tick(k), Copy(n), PingArrives(n, id, "a")];
    CondemnedSteps(b[2], n, id, s.clock, d, window, delay);
    RunThree(s, es, Tick(d), Judge(n, q, b[2].clock), Carry(Pending(n, id, "a", Dead)), c, window, delay);
    es := es + [Tick(d), Judge(n, q, b[2].clock), Carry(Pending(n, id, "a", Dead))];
  }

  lemma OnlySuspect(s: State, n: Id, id: Id, k: nat, h: History, m: Id, x: int)
    requires Initial(s) && n in s.tables && 0 <= x < |h| && SuspectAt(h[x], m, id)
    requires exists w: nat ::
               var a := Suspected(s, n, id);
               var b := Refuted(a[2], n, id, s.clock, k);
               h == [s] + a + b + Condemned(b[2], n, id, s.clock, w)
    ensures m == n && s.clock <= h[x].clock <= s.clock + k
  {
  }

  lemma HastyDeath(s: State, window: Id -> nat, delay: Option<nat>, n: Id, short: nat) returns (es: seq<Event>, id: Id)
    requires Initial(s) && n in s.tables && short < window(n) && (delay.Some? ==> short < delay.value)
    ensures TableDead(Last(Run(s, es, window, delay)), n, id)
    ensures !HeldFor(Run(s, es, window, delay), id, window, short)
  {
    hide Run;
    id := n + "b";
    assert |id| == |n| + 1;
    var k := window(n) - short - 1;
    es := HastyRun(s, window, delay, n, id, k, short + 1);
    var h := Run(s, es, window, delay);
    assert |h| == 10;
    forall m, i, j | HeldSuspect(h, m, id, i, j)
      ensures h[j].clock + short < h[i].clock + window(m)
    {
      assert SuspectAt(h[i], m, id) && SuspectAt(h[j], m, id);
      OnlySuspect(s, n, id, k, h, m, i);
      OnlySuspect(s, n, id, k, h, m, j);
    }
  }

  /**
   Exactly how much of the window an unbroken suspicion is sure to have lasted: all but `short`
   if and only if no check takes longer than that from its copy to its clock reading, or no
   window is longer. The code sets no limit, so only windows of length 0 are sure to be served.
   */
  lemma DeathsAreEarnedIff(s: State, window: Id -> nat, delay: Option<nat>, short: nat)
    requires Initial(s)
    ensures DeathsAreEarned(s, window, delay, short) <==>
            (delay.Some? && delay.value <= short) || forall n :: n in s.tables ==> window(n) <= short
  {
    hide Run, Convicted, HeldFor;
    if (delay.Some? && delay.value <= short) || forall n :: n in s.tables ==> window(n) <= short {
      forall es, n, id | TableDead(Last(Run(s, es, window, delay)), n, id)
        ensures HeldFor(Run(s, es, window, delay), id, window, short)
      {
        DeathHasProvenance(s, es, window, delay, n, id);
        ConvictedHeldFor(s, es, id, window, delay, short);
      }
    } else {
      var n :| n in s.tables && window(n) > short;
      var es, id := HastyDeath(s, window, delay, n, short);
    }
  }
}
