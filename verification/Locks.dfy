/**
 The locks of the store: which each operation takes, in which order, and why no
 interleaving of operations can come to a halt.
 */
module Locks {
  import Sharding

  const SHARDS: nat := Sharding.SHARD_COUNT

  /** Ranks: the log's mutex, then the shards by index, then the mutex of the version counter. */
  const WAL: nat := 0
  const VERSION: nat := 33

  function Shard(i: nat): nat
  {
    1 + i
  }

  datatype Mode = Read | Write

  datatype Action = Acquire(lock: nat, mode: Mode) | Release(lock: nat)

  type Program = seq<Action>

  type Held = map<nat, Mode>

  // ------------------------------------------------- what operations acquire

  function Brief(lock: nat, mode: Mode): Program
  {
    [Acquire(lock, mode), Release(lock)]
  }

  /** Set and Delete: mint if asked to, log if a log is linked, then the shard. */
  function Mutation(mint: bool, logged: bool, shard: nat): Program
  {
    (if mint then Brief(VERSION, Write) else []) +
    (if logged then Brief(WAL, Write) else []) +
    Brief(Shard(shard), Write)
  }

  /** Get, with a second look under the write lock when the entry has expired. */
  function Lookup(expired: bool, shard: nat): Program
  {
    Brief(Shard(shard), Read) + if expired then Brief(Shard(shard), Write) else []
  }

  /** Scan and reap: the shards from `i` on, one at a time. */
  function Sweep(mode: Mode, i: nat): Program
    decreases SHARDS - i
  {
    if i >= SHARDS then [] else Brief(Shard(i), mode) + Sweep(mode, i + 1)
  }

  /** The shards from `i` on, all held at once, released in reverse. */
  function Nested(i: nat): Program
    decreases SHARDS - i
  {
    if i >= SHARDS then [] else [Acquire(Shard(i), Write)] + Nested(i + 1) + [Release(Shard(i))]
  }

  function Snapshot(): Program
  {
    [Acquire(WAL, Write)] + Nested(0) + [Release(WAL)]
  }

  /** Replay holds the log's mutex while its callback runs a Set or Delete per record. */
  function Callbacks(shards: seq<nat>, mint: bool, logged: bool): Program
  {
    if shards == [] then [] else Mutation(mint, logged, shards[0]) + Callbacks(shards[1..], mint, logged)
  }

  function Replay(shards: seq<nat>, mint: bool, logged: bool): Program
  {
    [Acquire(WAL, Write)] + Callbacks(shards, mint, logged) + [Release(WAL)]
  }

  ghost predicate IsOperation(p: Program)
  {
    || (exists mint, logged, i :: 0 <= i < SHARDS && p == Mutation(mint, logged, i))
    || (exists expired, i :: 0 <= i < SHARDS && p == Lookup(expired, i))
    || (exists mode :: p == Sweep(mode, 0))
    || p == Snapshot()
  }

  lemma {:induction false} SweepTakes(mode: Mode, i: nat, j: nat)
    requires i <= j < SHARDS
    ensures Acquire(Shard(j), mode) in Sweep(mode, i)
    decreases SHARDS - i
  {
    if i == j {
      assert Brief(Shard(i), mode)[0] == Acquire(Shard(j), mode);
    } else {
      SweepTakes(mode, i + 1, j);
    }
  }

  /** Which locks each operation takes: the shards it reads or writes, and the log when one is linked. */
  lemma LocksTaken(mint: bool, logged: bool, expired: bool, mode: Mode, i: nat)
    requires i < 32
    ensures Acquire(1 + i, Write) in Mutation(mint, logged, i)
    ensures logged <==> Acquire(0, Write) in Mutation(mint, logged, i)
    ensures mint <==> Acquire(33, Write) in Mutation(mint, logged, i)
    ensures Acquire(1 + i, Read) in Lookup(expired, i)
    ensures expired <==> Acquire(1 + i, Write) in Lookup(expired, i)
    ensures Acquire(1 + i, mode) in Sweep(mode, 0)
    ensures IsOperation(Mutation(mint, logged, i)) && IsOperation(Lookup(expired, i))
    ensures IsOperation(Sweep(mode, 0)) && IsOperation(Snapshot())
  {
    assert Brief(Shard(i), Write)[0] == Acquire(1 + i, Write);
    assert Brief(Shard(i), Read)[0] == Acquire(1 + i, Read);
    assert Brief(WAL, Write)[0] == Acquire(0, Write);
    assert Brief(VERSION, Write)[0] == Acquire(33, Write);
    SweepTakes(mode, 0, i);
  }

  // ------------------------------------------------- increasing acquisition

  /** From `held`, every acquisition ranks above all that is held, and nothing is held at the end. */
  predicate Rising(held: Held, p: Program)
    decreases p
  {
    if p == [] then held == map[]
    else match p[0]
      case Acquire(l, m) => (forall h :: h in held ==> h < l) && Rising(held[l := m], p[1..])
      case Release(l) => l in held && Rising(held - {l}, p[1..])
  }

  /** A lock taken and given back around nothing, or around locks of higher rank, changes nothing. */
  lemma BriefRising(held: Held, l: nat, m: Mode, rest: Program)
    requires forall h :: h in held ==> h < l
    requires Rising(held, rest)
    ensures Rising(held, Brief(l, m) + rest)
  {
    var p := Brief(l, m) + rest;
    assert p[1..][0] == Release(l) && p[1..][1..] == rest;
    assert held[l := m] - {l} == held;
  }

  lemma Regroup(a: Program, b: Program, c: Program, d: Program)
    ensures (a + b + c) + d == a + (b + (c + d))
  {
  }

  lemma MutationRising(held: Held, mint: bool, logged: bool, i: nat, rest: Program)
    requires i < SHARDS
    requires held.Keys <= {WAL} && (logged ==> held == map[])
    requires Rising(held, rest)
    ensures Rising(held, Mutation(mint, logged, i) + rest)
  {
    hide Rising, Brief;
    var version := if mint then Brief(VERSION, Write) else [];
    var log := if logged then Brief(WAL, Write) else [];
    var tail := Brief(Shard(i), Write) + rest;
    BriefRising(held, Shard(i), Write, rest);
    assert Rising(held, log + tail) by {
      if logged {
        BriefRising(held, WAL, Write, tail);
      } else {
        assert log + tail == tail;
      }
    }
    assert Rising(held, version + (log + tail)) by {
      if mint {
        BriefRising(held, VERSION, Write, log + tail);
      } else {
        assert version + (log + tail) == log + tail;
      }
    }
    Regroup(version, log, Brief(Shard(i), Write), rest);
  }

  lemma LookupRising(expired: bool, i: nat)
    requires i < SHARDS
    ensures Rising(map[], Lookup(expired, i))
  {
    assert Rising(map[], []);
    hide Rising, Brief;
    var second := if expired then Brief(Shard(i), Write) else [];
    if expired {
      BriefRising(map[], Shard(i), Write, []);
      assert second + [] == second;
    }
    BriefRising(map[], Shard(i), Read, second);
  }

  lemma {:induction false} SweepRising(mode: Mode, i: nat)
    ensures Rising(map[], Sweep(mode, i))
    decreases SHARDS - i
  {
    hide Brief;
    if i < SHARDS {
      SweepRising(mode, i + 1);
      hide Rising;
      BriefRising(map[], Shard(i), mode, Sweep(mode, i + 1));
    }
  }

  lemma ReleaseRising(held: Held, l: nat, rest: Program)
    requires l !in held && Rising(held, rest)
    ensures Rising(held[l := Write], [Release(l)] + rest)
  {
    assert ([Release(l)] + rest)[1..] == rest;
    assert held[l := Write] - {l} == held;
  }

  lemma AcquireRising(held: Held, l: nat, body: Program, rest: Program)
    requires forall h :: h in held ==> h < l
    requires Rising(held[l := Write], body + ([Release(l)] + rest))
    ensures Rising(held, ([Acquire(l, Write)] + body + [Release(l)]) + rest)
  {
    var p := ([Acquire(l, Write)] + body + [Release(l)]) + rest;
    assert p[1..] == body + ([Release(l)] + rest);
  }

  lemma {:induction false} NestedRising(held: Held, i: nat, rest: Program)
    requires forall h :: h in held ==> h < Shard(i)
    requires Rising(held, rest)
    ensures Rising(held, Nested(i) + rest)
    decreases SHARDS - i
  {
    if i >= SHARDS {
      assert Nested(i) + rest == rest;
    } else {
      hide Rising;
      var l := Shard(i);
      var tail := [Release(l)] + rest;
      ReleaseRising(held, l, rest);
      NestedRising(held[l := Write], i + 1, tail);
      AcquireRising(held, l, Nested(i + 1), rest);
    }
  }

  lemma SnapshotRising()
    ensures Rising(map[], Snapshot())
  {
    assert Rising(map[], []);
    hide Rising, Nested;
    ReleaseRising(map[], WAL, []);
    NestedRising(map[][WAL := Write], 0, [Release(WAL)] + []);
    AcquireRising(map[], WAL, Nested(0), []);
    assert Snapshot() + [] == Snapshot();
  }

  /** Every operation of the store acquires its locks in increasing rank. */
  lemma OperationsRising(p: Program)
    requires IsOperation(p)
    ensures Rising(map[], p)
  {
    assert Rising(map[], []);
    hide Rising, Mutation, Lookup, Sweep, Snapshot;
    if mint, logged, i :| 0 <= i < SHARDS && p == Mutation(mint, logged, i) {
      MutationRising(map[], mint, logged, i, []);
      assert p + [] == p;
    } else if expired, i :| 0 <= i < SHARDS && p == Lookup(expired, i) {
      LookupRising(expired, i);
    } else if mode :| p == Sweep(mode, 0) {
      SweepRising(mode, 0);
    } else {
      SnapshotRising();
    }
  }

  lemma {:induction false} CallbacksRising(shards: seq<nat>, mint: bool, rest: Program)
    requires forall i :: 0 <= i < |shards| ==> shards[i] < SHARDS
    requires Rising(map[WAL := Write], rest)
    ensures Rising(map[WAL := Write], Callbacks(shards, mint, false) + rest)
  {
    if shards == [] {
      assert Callbacks(shards, mint, false) + rest == rest;
    } else {
      hide Rising, Mutation;
      CallbacksRising(shards[1..], mint, rest);
      var tail := Callbacks(shards[1..], mint, false) + rest;
      MutationRising(map[WAL := Write], mint, false, shards[0], tail);
      assert Callbacks(shards, mint, false) + rest == Mutation(mint, false, shards[0]) + tail;
    }
  }

  /** Start-up replay rises too, because the store has no log linked yet. */
  lemma ReplayRising(shards: seq<nat>, mint: bool)
    requires forall i :: 0 <= i < |shards| ==> shards[i] < SHARDS
    ensures Rising(map[], Replay(shards, mint, false))
  {
    assert Rising(map[], []);
    hide Rising, Callbacks;
    ReleaseRising(map[], WAL, []);
    assert map[][WAL := Write] == map[WAL := Write];
    CallbacksRising(shards, mint, [Release(WAL)] + []);
    AcquireRising(map[], WAL, Callbacks(shards, mint, false), []);
    var p := Replay(shards, mint, false);
    assert p + [] == p;
  }

  /** The locks held after some actions. */
  function HeldAfter(held: Held, p: Program): Held
    decreases p
  {
    if p == [] then held
    else HeldAfter(match p[0] case Acquire(l, m) => held[l := m] case Release(l) => held - {l}, p[1..])
  }

  /** The locks from `lo` up to `hi` are held for writing. */
  ghost predicate AllHeld(h: Held, lo: nat, hi: nat)
  {
    forall l: nat :: lo <= l < hi ==> l in h && h[l] == Write
  }

  lemma HeldCons(held: Held, l: nat, m: Mode, p: Program)
    ensures HeldAfter(held, [Acquire(l, m)] + p) == HeldAfter(held[l := m], p)
  {
    assert ([Acquire(l, m)] + p)[1..] == p;
  }

  lemma NestedPrefix(i: nat, rest: Program)
    requires i < SHARDS && |Nested(i + 1)| >= SHARDS - i - 1
    ensures |Nested(i)| >= SHARDS - i
    ensures (Nested(i) + rest)[..SHARDS - i] ==
            [Acquire(Shard(i), Write)] + (Nested(i + 1) + ([Release(Shard(i))] + rest))[..SHARDS - i - 1]
  {
    var inner := Nested(i + 1);
    assert Nested(i) == [Acquire(Shard(i), Write)] + inner + [Release(Shard(i))];
    hide Nested;
    assert ([Acquire(Shard(i), Write)] + inner + [Release(Shard(i))]) + rest ==
           [Acquire(Shard(i), Write)] + (inner + ([Release(Shard(i))] + rest));
  }

  lemma {:induction false} NestedTakes(held: Held, i: nat, rest: Program)
    requires i <= SHARDS && AllHeld(held, 0, Shard(i))
    ensures |Nested(i)| >= SHARDS - i
    ensures AllHeld(HeldAfter(held, (Nested(i) + rest)[..SHARDS - i]), 0, Shard(SHARDS))
    decreases SHARDS - i
  {
    if i < SHARDS {
      hide Nested, HeldAfter;
      var l := Shard(i);
      NestedTakes(held[l := Write], i + 1, [Release(l)] + rest);
      NestedPrefix(i, rest);
      HeldCons(held, l, Write, (Nested(i + 1) + ([Release(l)] + rest))[..SHARDS - i - 1]);
    } else {
      assert (Nested(i) + rest)[..0] == [];
    }
  }

  /** A snapshot comes to hold the log and all 32 shards at once, for writing, before it gives back any. */
  lemma SnapshotTakesAll()
    ensures |Snapshot()| >= 33 && AllHeld(HeldAfter(map[], Snapshot()[..33]), 0, 33)
  {
    hide Nested, HeldAfter;
    var held: Held, tail := map[][WAL := Write], [Release(WAL)];
    NestedTakes(held, 0, tail);
    HeldCons(map[], WAL, Write, (Nested(0) + tail)[..32]);
    assert Snapshot()[..33] == [Acquire(WAL, Write)] + (Nested(0) + tail)[..32];
  }

  // ------------------------------------------------- threads and schedules

  datatype Thread = Thread(held: Held, rest: Program)

  type State = map<nat, Thread>

  predicate Finished(th: Thread)
  {
    th.rest == []
  }

  predicate Wants(th: Thread, l: nat, m: Mode)
  {
    th.rest != [] && th.rest[0] == Acquire(l, m)
  }

  /**
   A write lock needs the lock to be free. A read lock needs no writer to hold it and,
   as Go's RWMutex has it, none to be waiting for it.
   */
  ghost predicate CanStep(s: State, t: nat)
  {
    t in s && !Finished(s[t]) &&
    match s[t].rest[0]
    case Release(l) => true
    case Acquire(l, Write) => forall u :: u in s ==> l !in s[u].held
    case Acquire(l, Read) =>
      forall u :: u in s ==> !Wants(s[u], l, Write) && (l in s[u].held ==> s[u].held[l] == Read)
  }

  function Advance(th: Thread): Thread
    requires !Finished(th)
  {
    match th.rest[0]
    case Acquire(l, m) => Thread(th.held[l := m], th.rest[1..])
    case Release(l) => Thread(th.held - {l}, th.rest[1..])
  }

  ghost function Step(s: State, t: nat): State
  {
    if CanStep(s, t) then s[t := Advance(s[t])] else s
  }

  ghost function Run(s: State, schedule: seq<nat>): State
  {
    if schedule == [] then s else Step(Run(s, schedule[..|schedule| - 1]), schedule[|schedule| - 1])
  }

  ghost predicate AllRising(s: State)
  {
    forall t :: t in s ==> Rising(s[t].held, s[t].rest)
  }

  /** A lock held for writing is held by nobody else. */
  ghost predicate Exclusive(s: State)
  {
    forall t, u, l :: t in s && u in s && t != u && l in s[t].held && s[t].held[l] == Write ==> l !in s[u].held
  }

  lemma StepKeeps(s: State, t: nat)
    requires AllRising(s) && Exclusive(s)
    ensures AllRising(Step(s, t)) && Exclusive(Step(s, t))
  {
    assert AllRising(Step(s, t)) by {
      hide Exclusive;
    }
    hide Rising;
    if CanStep(s, t) {
      var s' := Step(s, t);
      forall x, y, l | x in s' && y in s' && x != y && l in s'[x].held && s'[x].held[l] == Write
        ensures l !in s'[y].held
      {
        assert x != t ==> s'[x] == s[x];
        assert y != t ==> s'[y] == s[y];
      }
    }
  }

  lemma {:induction false} RunKeeps(s: State, schedule: seq<nat>)
    requires AllRising(s) && Exclusive(s)
    ensures AllRising(Run(s, schedule)) && Exclusive(Run(s, schedule))
    decreases schedule
  {
    if schedule != [] {
      hide AllRising, Exclusive, Step;
      RunKeeps(s, schedule[..|schedule| - 1]);
      StepKeeps(Run(s, schedule[..|schedule| - 1]), schedule[|schedule| - 1]);
    }
  }

  // ------------------------------------------------- no deadlock

  lemma {:induction false} Highest(ls: set<nat>) returns (m: nat)
    requires ls != {}
    ensures m in ls && forall l :: l in ls ==> l <= m
  {
    var x :| x in ls;
    var rest := ls - {x};
    m := x;
    if rest != {} {
      var y := Highest(rest);
      if y > x {
        m := y;
      }
    }
    forall l | l in ls
      ensures l <= m
    {
      assert l == x || l in rest;
    }
  }

  function HeldLocks(s: State): set<nat>
  {
    set t, l | t in s && l in s[t].held :: l
  }

  /** A free lock that someone wants can be taken, by them or by a writer ahead of them. */
  lemma FreeLockTaken(s: State, t: nat, l: nat, m: Mode) returns (u: nat)
    requires t in s && Wants(s[t], l, m)
    requires forall v :: v in s ==> l !in s[v].held
    ensures CanStep(s, u)
  {
    u := t;
    if w :| w in s && Wants(s[w], l, Write) {
      u := w;
    }
  }

  lemma NotHeld(s: State, l: nat)
    requires l !in HeldLocks(s)
    ensures forall v :: v in s ==> l !in s[v].held
  {
  }

  /** As long as some thread has work left, some thread can step. */
  lemma SomeThreadSteps(s: State, t: nat) returns (u: nat)
    requires AllRising(s) && t in s && !Finished(s[t])
    ensures CanStep(s, u)
  {
    var locks := HeldLocks(s);
    var h := t;
    if locks != {} {
      var top := Highest(locks);
      h :| h in s && top in s[h].held;
    }
    assert Rising(s[h].held, s[h].rest);
    assert !Finished(s[h]);
    match s[h].rest[0]
    case Release(l) =>
      u := h;
    case Acquire(l, m) =>
      NotHeld(s, l);
      u := FreeLockTaken(s, h, l, m);
  }

  /**
   Any number of threads, each in any operation, under any schedule: while one of them
   has work left, one of them can step.
   */
  lemma NoDeadlock(s: State, schedule: seq<nat>, t: nat) returns (u: nat)
    requires forall v :: v in s ==> s[v].held == map[] && IsOperation(s[v].rest)
    requires t in Run(s, schedule) && !Finished(Run(s, schedule)[t])
    ensures CanStep(Run(s, schedule), u)
  {
    hide Run, IsOperation;
    forall v | v in s
      ensures Rising(s[v].held, s[v].rest)
    {
      OperationsRising(s[v].rest);
    }
    RunKeeps(s, schedule);
    u := SomeThreadSteps(Run(s, schedule), t);
  }

  /** While a snapshot holds the log and every shard, no other thread is inside a lock it takes. */
  lemma SnapshotAlone(s: State, schedule: seq<nat>, t: nat, u: nat, l: nat)
    requires AllRising(s) && Exclusive(s)
    requires t in Run(s, schedule) && u in Run(s, schedule) && t != u
    requires forall x :: 0 <= x <= SHARDS ==> x in Run(s, schedule)[t].held && Run(s, schedule)[t].held[x] == Write
    ensures l in Run(s, schedule)[u].held ==> l > SHARDS
  {
    hide Run, AllRising;
    RunKeeps(s, schedule);
  }

  /** Had the log been linked before replay, the first callback would wait for its own caller forever. */
  lemma LinkedReplayDeadlocks(i: nat, rest: seq<nat>)
    ensures var th := Thread(map[], Replay([i] + rest, false, true));
            var s: State := map[0 := Advance(th)];
            !Finished(s[0]) && !CanStep(s, 0)
  {
    var p := Replay([i] + rest, false, true);
    assert p[1..][0] == Acquire(WAL, Write);
  }
}
