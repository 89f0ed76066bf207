/**
 Many threads in Set and Delete at once. Each mints a version, appends to the log
 under the log's lock, and applies to its shard under another lock; compaction takes
 all the locks but can fall between the two. Entries carry no expiry here.
 */
module Concurrent {
  import opened Bytes
  import opened Lww
  import opened Convergence

  datatype Stage = Minted(op: Op) | Appended(op: Op)

  /**
   `snap` and `wal` are on disk; `renamed` says that compaction holds all locks between its
   rename and its truncation. The rest is history: the operations minted, logged and
   acknowledged so far, those that memory reflects, the order memory received them in, and
   the order in which recovery would.
   */
  datatype State = State(
    mem: Entries, snap: Entries, wal: seq<Op>, renamed: bool, threads: map<nat, Stage>,
    issued: set<Op>, logged: set<Op>, applied: set<Op>, acked: set<Op>, order: seq<Op>, trail: seq<Op>)

  datatype Event = Mint(t: nat, op: Op) | Append(t: nat) | ApplyOp(t: nat) | Rename | Truncate | Crash

  const INITIAL := State(map[], map[], [], false, map[], {}, {}, {}, {}, [], [])

  /** The version is new for the key. */
  predicate Fresh(s: State, op: Op)
  {
    forall o :: o in s.issued && o.key == op.key ==> o.version != op.version
  }

  function DoMint(s: State, t: nat, op: Op): State
  {
    if t !in s.threads && Fresh(s, op)
    then s.(threads := s.threads[t := Minted(op)], issued := s.issued + {op})
    else s
  }

  function DoAppend(s: State, t: nat): State
  {
    if t in s.threads && s.threads[t].Minted? && !s.renamed then
      var op := s.threads[t].op;
      s.(wal := s.wal + [op], threads := s.threads[t := Appended(op)],
         logged := s.logged + {op}, trail := s.trail + [op])
    else s
  }

  function DoApply(s: State, t: nat): State
  {
    if t in s.threads && s.threads[t].Appended? && !s.renamed then
      var op := s.threads[t].op;
      s.(mem := Apply(s.mem, op), threads := s.threads - {t},
         applied := s.applied + {op}, acked := s.acked + {op}, order := s.order + [op])
    else s
  }

  /** Compaction takes every lock and commits a snapshot of memory. */
  function DoRename(s: State): State
  {
    if s.renamed then s else s.(snap := s.mem, renamed := true, trail := s.order + s.wal)
  }

  /** It empties the log and lets go of the locks. */
  function DoTruncate(s: State): State
  {
    if s.renamed then s.(wal := [], renamed := false, trail := s.order) else s
  }

  function Recovered(s: State): Entries
  {
    ApplyAll(s.snap, s.wal)
  }

  function DoCrash(s: State): State
  {
    s.(mem := Recovered(s), renamed := false, threads := map[], applied := s.logged, order := s.trail)
  }

  function Step(s: State, e: Event): State
  {
    match e
    case Mint(t, op) => DoMint(s, t, op)
    case Append(t) => DoAppend(s, t)
    case ApplyOp(t) => DoApply(s, t)
    case Rename => DoRename(s)
    case Truncate => DoTruncate(s)
    case Crash => DoCrash(s)
  }

  function Run(es: seq<Event>): State
  {
    if es == [] then INITIAL else Step(Run(es[..|es| - 1]), es[|es| - 1])
  }

  lemma RunSnoc(es: seq<Event>, e: Event)
    ensures Run(es + [e]) == Step(Run(es), e)
  {
    assert (es + [e])[..|es + [e]| - 1] == es;
  }

  // ----------------------------------------------------------- threads

  /** Some thread has logged `op` and not yet applied it. */
  ghost predicate InFlight(threads: map<nat, Stage>, op: Op)
  {
    exists t :: t in threads && threads[t] == Appended(op)
  }

  ghost predicate ThreadsOk(s: State)
  {
    && (forall t :: t in s.threads ==> s.threads[t].op in s.issued)
    && (forall t :: t in s.threads && s.threads[t].Appended? ==> s.threads[t].op in s.logged)
    && (forall op :: op in s.logged && op !in s.applied ==> InFlight(s.threads, op))
  }

  /** No thread is between its append and its apply. */
  ghost predicate Quiescent(s: State)
  {
    forall t :: t in s.threads ==> !s.threads[t].Appended?
  }

  lemma NoneInFlight(s: State, op: Op)
    requires Quiescent(s)
    ensures !InFlight(s.threads, op)
  {
  }

  lemma QuiescentApplied(s: State)
    requires ThreadsOk(s) && Quiescent(s) && s.applied <= s.logged
    ensures s.applied == s.logged
  {
    forall op | op in s.logged
      ensures op in s.applied
    {
      NoneInFlight(s, op);
    }
  }

  lemma MintThreads(s: State, t: nat, op: Op)
    requires ThreadsOk(s)
    ensures ThreadsOk(DoMint(s, t, op))
  {
    if t !in s.threads && Fresh(s, op) {
      var s' := DoMint(s, t, op);
      forall o | InFlight(s.threads, o)
        ensures InFlight(s'.threads, o)
      {
        var u :| u in s.threads && s.threads[u] == Appended(o);
        assert s'.threads[u] == Appended(o);
      }
    }
  }

  lemma AppendThreads(s: State, t: nat)
    requires ThreadsOk(s)
    ensures ThreadsOk(DoAppend(s, t))
  {
    if t in s.threads && s.threads[t].Minted? && !s.renamed {
      var s' := DoAppend(s, t);
      assert s'.threads[t] == Appended(s.threads[t].op);
      assert InFlight(s'.threads, s.threads[t].op);
      forall o | InFlight(s.threads, o)
        ensures InFlight(s'.threads, o)
      {
        var u :| u in s.threads && s.threads[u] == Appended(o);
        assert s'.threads[u] == Appended(o);
      }
    }
  }

  lemma ApplyThreads(s: State, t: nat)
    requires ThreadsOk(s)
    ensures ThreadsOk(DoApply(s, t))
  {
    if t in s.threads && s.threads[t].Appended? && !s.renamed {
      var s' := DoApply(s, t);
      forall o | o in s'.logged && o !in s'.applied
        ensures InFlight(s'.threads, o)
      {
        var u :| u in s.threads && s.threads[u] == Appended(o);
        assert s'.threads[u] == Appended(o);
      }
    }
  }

  // ----------------------------------------------- the latest of a set of Sets

  /** Per key, a version names one operation. */
  ghost predicate Distinct(ops: set<Op>)
  {
    forall x, y :: x in ops && y in ops && x.key == y.key && x.version == y.version ==> x == y
  }

  /** `m` holds under `k` the Set of the highest version that `ops` has for it. */
  ghost predicate LatestAt(m: Entries, ops: set<Op>, k: Key)
  {
    && (k in m ==> SetOf(k, m[k]) in ops)
    && (forall op :: op in ops && op.key == k ==> op.Set? && k in m && op.version <= m[k].version)
  }

  ghost predicate Latest(m: Entries, ops: set<Op>)
  {
    forall k :: LatestAt(m, ops, k)
  }

  lemma LatestUnique(m: Entries, n: Entries, ops: set<Op>)
    requires Distinct(ops) && Latest(m, ops) && Latest(n, ops)
    ensures m == n
  {
    forall k
      ensures Lookup(m, k) == Lookup(n, k)
    {
      assert LatestAt(m, ops, k) && LatestAt(n, ops, k);
      if k in m {
        assert SetOf(k, m[k]).key == k;
        assert SetOf(k, n[k]).key == k;
      }
    }
    SameLookups(m, n);
  }

  lemma ApplyLatest(m: Entries, ops: set<Op>, op: Op)
    requires Latest(m, ops) && op.Set?
    ensures Latest(Apply(m, op), ops + {op})
  {
    forall k
      ensures LatestAt(Apply(m, op), ops + {op}, k)
    {
      assert LatestAt(m, ops, k);
      assert SetOf(op.key, EntryOf(op)) == op;
    }
  }

  /** Replaying Sets that are already reflected keeps the latest. */
  lemma {:induction false} ReplayLatest(m: Entries, ops: set<Op>, wal: seq<Op>)
    requires Latest(m, ops)
    requires forall op :: op in wal ==> op in ops && op.Set?
    ensures Latest(ApplyAll(m, wal), ops)
  {
    if wal != [] {
      hide Latest, Apply;
      var n := |wal| - 1;
      ReplayLatest(m, ops, wal[..n]);
      ApplyLatest(ApplyAll(m, wal[..n]), ops, wal[n]);
      assert wal[n] in ops && ops + {wal[n]} == ops;
    }
  }

  // ----------------------------------------------------- Sets only: the invariant

  ghost predicate Inv(s: State)
  {
    && Distinct(s.issued)
    && (forall op :: op in s.issued ==> op.Set?)
    && s.applied <= s.logged <= s.issued
    && s.acked <= s.logged
    && (forall op :: op in s.wal ==> op in s.logged)
    && ThreadsOk(s)
    && Latest(s.mem, s.applied)
    && Latest(Recovered(s), s.logged)
    && (s.renamed ==> Latest(s.snap, s.logged))
  }

  /** The operation of thread `t` is logged, not yet applied, and would still change memory. */
  ghost predicate Ahead(s: State, t: nat)
  {
    t in s.threads && s.threads[t].Appended? && Apply(s.mem, s.threads[t].op) != s.mem
  }

  ghost predicate SafeToCompact(s: State)
  {
    forall t :: !Ahead(s, t)
  }

  lemma MintKeeps(s: State, t: nat, op: Op)
    requires Inv(s) && op.Set?
    ensures Inv(DoMint(s, t, op))
  {
    hide Latest, ThreadsOk;
    MintThreads(s, t, op);
  }

  lemma AppendKeeps(s: State, t: nat)
    requires Inv(s)
    ensures Inv(DoAppend(s, t))
  {
    hide Latest, Distinct, ApplyAll, Apply;
    assert ThreadsOk(DoAppend(s, t)) by { AppendThreads(s, t); }
    if t in s.threads && s.threads[t].Minted? && !s.renamed {
      var op := s.threads[t].op;
      assert op in s.issued;
      ApplyAllSnoc(s.snap, s.wal, op);
      ApplyLatest(Recovered(s), s.logged, op);
    }
  }

  lemma ApplyKeeps(s: State, t: nat)
    requires Inv(s)
    ensures Inv(DoApply(s, t))
  {
    hide Latest, Distinct, ApplyAll, Apply;
    assert ThreadsOk(DoApply(s, t)) by { ApplyThreads(s, t); }
    if t in s.threads && s.threads[t].Appended? && !s.renamed {
      var op := s.threads[t].op;
      assert op in s.issued;
      ApplyLatest(s.mem, s.applied, op);
    }
  }

  /** Rename and truncation in one go. */
  function Compacted(s: State): State
  {
    DoTruncate(DoRename(s))
  }

  /** A Set that changes nothing has been overtaken, or is there already. */
  lemma Overtaken(m: Entries, op: Op)
    requires op.Set? && Apply(m, op) == m
    ensures op.key in m && op.version <= m[op.key].version
  {
    assert op.key in Apply(m, op);
  }

  lemma SafeAt(s: State, k: Key)
    requires Inv(s) && SafeToCompact(s)
    ensures LatestAt(s.mem, s.logged, k)
  {
    assert LatestAt(s.mem, s.applied, k);
    hide Latest, Apply;
    forall op | op in s.logged && op.key == k
      ensures op.Set? && k in s.mem && op.version <= s.mem[k].version
    {
      if op !in s.applied {
        assert InFlight(s.threads, op);
        var t :| t in s.threads && s.threads[t] == Appended(op);
        assert !Ahead(s, t);
        Overtaken(s.mem, op);
      }
    }
  }

  /** What already holds the latest of some Sets is not changed by any of them. */
  lemma LatestAbsorbs(m: Entries, ops: set<Op>, op: Op)
    requires Distinct(ops) && LatestAt(m, ops, op.key) && op in ops
    ensures Apply(m, op) == m
  {
    var k := op.key;
    assert SetOf(k, m[k]) in ops;
    if op.version == m[k].version {
      assert SetOf(k, m[k]) == op;
      assert m[k := EntryOf(op)] == m;
    }
  }

  /**
   Exactly when compaction keeps what it should: memory is the latest of everything
   logged if and only if no thread's logged and unapplied write would still change it.
   */
  lemma CompactionSafeIff(s: State)
    requires Inv(s) && !s.renamed
    ensures Latest(Recovered(Compacted(s)), s.logged) <==> SafeToCompact(s)
  {
    assert Recovered(Compacted(s)) == s.mem;
    if SafeToCompact(s) {
      forall k
        ensures LatestAt(s.mem, s.logged, k)
      {
        SafeAt(s, k);
      }
    } else {
      var t :| Ahead(s, t);
      var op := s.threads[t].op;
      assert op in s.logged && Distinct(s.logged);
      if LatestAt(s.mem, s.logged, op.key) {
        LatestAbsorbs(s.mem, s.logged, op);
      }
    }
  }

  lemma RenameThreads(s: State)
    requires ThreadsOk(s)
    ensures ThreadsOk(DoRename(s)) && ThreadsOk(DoTruncate(s))
  {
  }

  /** Between rename and truncation the log replays over a snapshot that already has it. */
  lemma RenameKeeps(s: State)
    requires Inv(s) && (s.renamed || SafeToCompact(s))
    ensures Inv(DoRename(s))
  {
    if !s.renamed {
      assert Recovered(Compacted(s)) == s.mem;
      hide Latest, SafeToCompact, Distinct, ApplyAll, ThreadsOk;
      CompactionSafeIff(s);
      ReplayLatest(s.mem, s.logged, s.wal);
      RenameThreads(s);
    }
  }

  lemma TruncateKeeps(s: State)
    requires Inv(s)
    ensures Inv(DoTruncate(s))
  {
    assert ApplyAll(s.snap, []) == s.snap;
    hide Latest, Distinct, ThreadsOk, ApplyAll;
    RenameThreads(s);
  }

  lemma CrashKeeps(s: State)
    requires Inv(s)
    ensures Inv(DoCrash(s))
  {
    hide Latest, Distinct, ApplyAll;
  }

  /** Every compaction starts when nothing in flight would change memory; crashes come at will. */
  ghost predicate CalmRun(es: seq<Event>)
  {
    forall i :: 0 <= i < |es| && es[i].Rename? ==> SafeToCompact(Run(es[..i]))
  }

  /** Every operation of the run is a Set, and every compaction happens when it is safe. */
  ghost predicate SafeRun(es: seq<Event>)
  {
    CalmRun(es) && forall i :: 0 <= i < |es| && es[i].Mint? ==> es[i].op.Set?
  }

  lemma StepKeeps(s: State, e: Event)
    requires Inv(s)
    requires e.Rename? ==> SafeToCompact(s)
    requires e.Mint? ==> e.op.Set?
    ensures Inv(Step(s, e))
  {
    hide Inv, SafeToCompact, DoMint, DoAppend, DoApply, DoRename, DoTruncate, DoCrash;
    match e {
      case Mint(t, op) => MintKeeps(s, t, op);
      case Append(t) => AppendKeeps(s, t);
      case ApplyOp(t) => ApplyKeeps(s, t);
      case Rename => RenameKeeps(s);
      case Truncate => TruncateKeeps(s);
      case Crash => CrashKeeps(s);
    }
  }

  lemma CalmPrefix(es: seq<Event>)
    requires CalmRun(es) && es != []
    ensures CalmRun(es[..|es| - 1])
  {
    hide Run, SafeToCompact;
    var front := es[..|es| - 1];
    forall i | 0 <= i < |front| && front[i].Rename?
      ensures SafeToCompact(Run(front[..i]))
    {
      assert front[..i] == es[..i] && front[i] == es[i];
    }
  }

  lemma {:induction false} RunKeeps(es: seq<Event>)
    requires SafeRun(es)
    ensures Inv(Run(es))
  {
    if es == [] {
      assert forall k :: LatestAt(map[], {}, k);
      assert Recovered(INITIAL) == map[];
    } else {
      var n := |es| - 1;
      assert (es[n].Rename? ==> SafeToCompact(Run(es[..n]))) && (es[n].Mint? ==> es[n].op.Set?);
      CalmPrefix(es);
      hide Inv, CalmRun, SafeToCompact, Step;
      RunKeeps(es[..n]);
      StepKeeps(Run(es[..n]), es[n]);
    }
  }

  // ----------------------------------------------------------- what follows

  /** Recovery never lags memory on any key, and no acknowledged write is lost. */
  lemma NeverLags(es: seq<Event>, k: Key)
    requires SafeRun(es)
    ensures k in Run(es).mem ==>
              k in Recovered(Run(es)) && Recovered(Run(es))[k].version >= Run(es).mem[k].version
    ensures forall op :: op in Run(es).acked && op.key == k ==>
              k in Recovered(Run(es)) && Recovered(Run(es))[k].version >= op.version
  {
    RunKeeps(es);
    hide Run, Recovered;
    var s := Run(es);
    assert LatestAt(s.mem, s.applied, k) && LatestAt(Recovered(s), s.logged, k);
    hide Latest;
    if k in s.mem {
      assert SetOf(k, s.mem[k]).key == k;
    }
  }

  /**
   Whenever no thread is between its append and its apply, memory holds the write of the
   highest version for each key, and equals replaying the log in its own order.
   */
  lemma QuiescentIsLatest(es: seq<Event>)
    requires SafeRun(es) && Quiescent(Run(es))
    ensures Latest(Run(es).mem, Run(es).logged)
    ensures Run(es).mem == Recovered(Run(es))
  {
    RunKeeps(es);
    hide Run, Recovered, Latest;
    var s := Run(es);
    QuiescentApplied(s);
    LatestUnique(s.mem, Recovered(s), s.logged);
  }

  lemma ChangesItsKey(m: Entries, op: Op)
    requires Apply(m, op) != m
    ensures Lookup(Apply(m, op), op.key) != Lookup(m, op.key)
  {
    if Lookup(Apply(m, op), op.key) == Lookup(m, op.key) {
      forall k
        ensures Lookup(Apply(m, op), k) == Lookup(m, k)
      {
        LookupApply(m, op, k);
      }
      SameLookups(Apply(m, op), m);
    }
  }

  /**
   Without the guard, from any state, for Sets and Deletes alike: if the logged operation of a
   thread would still change memory, then compacting, letting it finish and crashing undoes an
   acknowledged operation.
   */
  lemma UnsafeCompactionLoses(s: State, t: nat)
    requires Ahead(s, t) && !s.renamed
    ensures var op, done := s.threads[t].op, DoApply(Compacted(s), t);
            && op in done.acked && done.mem == Apply(s.mem, op)
            && DoCrash(done).mem == s.mem
            && Lookup(DoCrash(done).mem, op.key) != Lookup(done.mem, op.key)
  {
    hide Apply;
    ChangesItsKey(s.mem, s.threads[t].op);
    assert Recovered(DoApply(Compacted(s), t)) == s.mem;
  }

  /** Some threads finish, in the order given. */
  function Finished(s: State, ts: seq<nat>): State
  {
    if ts == [] then s else DoApply(Finished(s, ts[..|ts| - 1]), ts[|ts| - 1])
  }

  /** However the operations in flight finish after a compaction, a crash gives back the memory they leave. */
  ghost predicate LosesNothing(s: State)
  {
    forall ts :: Recovered(Finished(Compacted(s), ts)) == Finished(Compacted(s), ts).mem
  }

  lemma {:induction false} SafeFinish(s: State, ts: seq<nat>)
    requires SafeToCompact(s) && !s.renamed
    ensures var s' := Finished(Compacted(s), ts);
            && s'.mem == s'.snap == s.mem && s'.wal == []
            && forall t :: t in s'.threads ==> t in s.threads && s'.threads[t] == s.threads[t]
  {
    if ts != [] {
      hide Apply;
      var n := |ts| - 1;
      SafeFinish(s, ts[..n]);
      assert !Ahead(s, ts[n]);
    }
  }

  /** With Deletes as well as Sets, from any state, compaction loses nothing under exactly the same guard. */
  lemma LosesNothingIff(s: State)
    requires !s.renamed
    ensures LosesNothing(s) <==> SafeToCompact(s)
  {
    hide Apply;
    if SafeToCompact(s) {
      forall ts
        ensures Recovered(Finished(Compacted(s), ts)) == Finished(Compacted(s), ts).mem
      {
        SafeFinish(s, ts);
      }
    } else {
      var t: nat :| Ahead(s, t);
      UnsafeCompactionLoses(s, t);
      var ts := [t];
      assert ts[..0] == [];
      assert Finished(Compacted(s), ts) == DoApply(Compacted(s), t);
    }
  }

  const K: Key := [107]

  /** A run that reaches such a state: the write of its one thread is acknowledged and lost. */
  lemma AcknowledgedWriteLost() returns (es: seq<Event>)
    ensures exists op :: op in Run(es).acked && op.key !in Run(es).mem
  {
    var op := Set(K, [97], 1, 0);
    es := [];
    assert Run(es) == INITIAL;
    hide Run;
    RunSnoc(es, Mint(0, op));
    es := es + [Mint(0, op)];
    RunSnoc(es, Append(0));
    es := es + [Append(0)];
    var s := Run(es);
    assert Ahead(s, 0) && s.threads[0].op == op && s.mem == map[];
    RunSnoc(es, Rename);
    es := es + [Rename];
    RunSnoc(es, Truncate);
    es := es + [Truncate];
    RunSnoc(es, ApplyOp(0));
    es := es + [ApplyOp(0)];
    RunSnoc(es, Crash);
    es := es + [Crash];
    UnsafeCompactionLoses(s, 0);
  }

  // ------------------------------------------------- Sets and Deletes together

  ghost predicate HasNewer(ops: seq<Op>, op: Op)
  {
    exists o :: o in ops && o.Set? && o.key == op.key && o.version >= op.version
  }

  /** Every Set of `logged` is in `ops` or has been overtaken by one that is. */
  ghost predicate Covers(ops: seq<Op>, logged: set<Op>)
  {
    forall op :: op in logged && op.Set? ==> HasNewer(ops, op)
  }

  /**
   With Deletes, memory is what its order of operations gives and recovery what the trail
   gives. Both have every Set that was not overtaken, once no thread is in between.
   */
  ghost predicate Mixed(s: State)
  {
    && Distinct(s.issued)
    && s.applied <= s.logged <= s.issued
    && (forall op :: op in s.order ==> op in s.applied)
    && (forall op :: op in s.trail ==> op in s.logged)
    && (forall op :: op in s.wal ==> op in s.logged)
    && Covers(s.order, s.applied)
    && Covers(s.trail, s.logged)
    && ThreadsOk(s)
    && s.mem == ApplyAll(map[], s.order)
    && Recovered(s) == ApplyAll(map[], s.trail)
    && (s.renamed ==> s.snap == s.mem && Covers(s.order, s.logged))
  }

  lemma CoversSnoc(ops: seq<Op>, logged: set<Op>, op: Op)
    requires Covers(ops, logged)
    ensures Covers(ops + [op], logged + {op})
  {
    forall x | x in logged + {op} && x.Set?
      ensures HasNewer(ops + [op], x)
    {
      if x in logged {
        var o :| o in ops && o.Set? && o.key == x.key && o.version >= x.version;
        assert o in ops + [op];
      } else {
        assert op in ops + [op];
      }
    }
  }

  lemma CoversLonger(ops: seq<Op>, more: seq<Op>, logged: set<Op>)
    requires Covers(ops, logged)
    ensures Covers(ops + more, logged)
  {
    forall x | x in logged && x.Set?
      ensures HasNewer(ops + more, x)
    {
      var o :| o in ops && o.Set? && o.key == x.key && o.version >= x.version;
      assert o in ops + more;
    }
  }

  lemma {:induction false} StoredWasSet(ops: seq<Op>, k: Key)
    requires k in ApplyAll(map[], ops)
    ensures SetOf(k, ApplyAll(map[], ops)[k]) in ops
  {
    var n := |ops| - 1;
    if k in ApplyAll(map[], ops[..n]) {
      StoredWasSet(ops[..n], k);
    }
  }

  /** A Set that would not change memory is in memory's order, or a newer one is. */
  lemma OvertakenHasNewer(ops: seq<Op>, op: Op)
    requires op.Set? && Apply(ApplyAll(map[], ops), op) == ApplyAll(map[], ops)
    ensures HasNewer(ops, op)
  {
    hide Apply, ApplyAll;
    Overtaken(ApplyAll(map[], ops), op);
    StoredWasSet(ops, op.key);
  }

  /** When nothing in flight would change memory, memory's order has every Set that was logged, or a newer one. */
  lemma SafeCovers(s: State)
    requires ThreadsOk(s) && SafeToCompact(s) && Covers(s.order, s.applied) && s.mem == ApplyAll(map[], s.order)
    ensures Covers(s.order, s.logged)
  {
    hide Apply, ApplyAll, HasNewer;
    forall op | op in s.logged && op.Set?
      ensures HasNewer(s.order, op)
    {
      if op !in s.applied {
        assert InFlight(s.threads, op);
        var t :| t in s.threads && s.threads[t] == Appended(op);
        assert !Ahead(s, t);
        OvertakenHasNewer(s.order, op);
      }
    }
  }

  lemma MixedMint(s: State, t: nat, op: Op)
    requires Mixed(s)
    ensures Mixed(DoMint(s, t, op))
  {
    hide ApplyAll, ThreadsOk, Covers;
    MintThreads(s, t, op);
  }

  lemma MixedAppend(s: State, t: nat)
    requires Mixed(s)
    ensures Mixed(DoAppend(s, t))
  {
    hide ApplyAll, Apply, Distinct, Covers;
    assert ThreadsOk(DoAppend(s, t)) by { AppendThreads(s, t); }
    if t in s.threads && s.threads[t].Minted? && !s.renamed {
      var op := s.threads[t].op;
      ApplyAllSnoc(s.snap, s.wal, op);
      ApplyAllSnoc(map[], s.trail, op);
      CoversSnoc(s.trail, s.logged, op);
    }
  }

  lemma MixedApply(s: State, t: nat)
    requires Mixed(s)
    ensures Mixed(DoApply(s, t))
  {
    hide ApplyAll, Apply, Distinct, Covers;
    assert ThreadsOk(DoApply(s, t)) by { ApplyThreads(s, t); }
    if t in s.threads && s.threads[t].Appended? && !s.renamed {
      var op := s.threads[t].op;
      ApplyAllSnoc(map[], s.order, op);
      CoversSnoc(s.order, s.applied, op);
    }
  }

  lemma MixedRename(s: State)
    requires Mixed(s) && SafeToCompact(s)
    ensures Mixed(DoRename(s))
  {
    hide ApplyAll, Distinct, SafeToCompact, ThreadsOk, Covers;
    SafeCovers(s);
    CoversLonger(s.order, s.wal, s.logged);
    RenameThreads(s);
    ApplyAllConcat(map[], s.order, s.wal);
  }

  lemma MixedTruncate(s: State)
    requires Mixed(s)
    ensures Mixed(DoTruncate(s))
  {
    assert ApplyAll(s.snap, []) == s.snap;
    hide ApplyAll, Distinct, ThreadsOk, Covers;
    RenameThreads(s);
  }

  lemma MixedCrash(s: State)
    requires Mixed(s)
    ensures Mixed(DoCrash(s))
  {
    hide ApplyAll, Distinct, Covers;
  }

  lemma MixedStep(s: State, e: Event)
    requires Mixed(s) && (e.Rename? ==> SafeToCompact(s))
    ensures Mixed(Step(s, e))
  {
    hide Mixed, SafeToCompact, DoMint, DoAppend, DoApply, DoRename, DoTruncate, DoCrash;
    match e {
      case Mint(t, op) => MixedMint(s, t, op);
      case Append(t) => MixedAppend(s, t);
      case ApplyOp(t) => MixedApply(s, t);
      case Rename => MixedRename(s);
      case Truncate => MixedTruncate(s);
      case Crash => MixedCrash(s);
    }
  }

  lemma CalmSnoc(es: seq<Event>, e: Event)
    requires CalmRun(es) && !e.Rename?
    ensures CalmRun(es + [e])
  {
    hide Run, SafeToCompact;
    var fs := es + [e];
    forall i | 0 <= i < |fs| && fs[i].Rename?
      ensures SafeToCompact(Run(fs[..i]))
    {
      assert fs[..i] == es[..i] && fs[i] == es[i];
    }
  }

  lemma {:induction false} CalmKeeps(es: seq<Event>)
    requires CalmRun(es)
    ensures Mixed(Run(es))
  {
    if es == [] {
      assert ApplyAll(map[], []) == map[];
    } else {
      var n := |es| - 1;
      assert es[n].Rename? ==> SafeToCompact(Run(es[..n]));
      CalmPrefix(es);
      hide Mixed, CalmRun, SafeToCompact, Step;
      CalmKeeps(es[..n]);
      MixedStep(Run(es[..n]), es[n]);
    }
  }

  /** `top` is the operation of the highest version that `ops` has for its key. */
  ghost predicate Highest(ops: set<Op>, top: Op)
  {
    top in ops && forall op :: op in ops && op.key == top.key ==> op.version <= top.version
  }

  ghost predicate Sets(ops: set<Op>, k: Key)
  {
    exists op :: op in ops && op.key == k && op.Set?
  }

  ghost predicate SetIsHighest(ops: set<Op>, k: Key)
  {
    exists top :: Highest(ops, top) && top.key == k && top.Set?
  }

  lemma HighestIn(ops: seq<Op>, logged: set<Op>, top: Op)
    requires Distinct(logged) && Covers(ops, logged) && forall op :: op in ops ==> op in logged
    requires Highest(logged, top) && top.Set?
    ensures top in ops
  {
    assert HasNewer(ops, top);
    var o :| o in ops && o.Set? && o.key == top.key && o.version >= top.version;
    assert o in logged;
  }

  lemma TopIs(ops: seq<Op>, logged: set<Op>, top: Op, j: int)
    requires Distinct(logged) && (forall op :: op in ops ==> op in logged)
    requires Highest(logged, top) && top in ops && IsTop(top.key, ops, j)
    ensures ops[j] == top
  {
    assert ops[j] in logged;
  }

  lemma HighestIsTop(ops: seq<Op>, logged: set<Op>, top: Op) returns (j: int)
    requires Distinct(logged) && (forall op :: op in ops ==> op in logged)
    requires Highest(logged, top) && top in ops
    ensures IsTop(top.key, ops, j) && ops[j] == top
  {
    hide IsTop;
    assert Touched(top.key, ops);
    j := FindTop(top.key, ops);
    TopIs(ops, logged, top, j);
  }

  lemma DistinctList(ops: seq<Op>, logged: set<Op>)
    requires Distinct(logged) && (forall op :: op in ops ==> op in logged)
    ensures DistinctVersions(ops)
  {
  }

  /** A list that covers the operations ends with a Set of the highest version. */
  lemma HighestWins(ops: seq<Op>, logged: set<Op>, top: Op)
    requires Distinct(logged) && Covers(ops, logged) && forall op :: op in ops ==> op in logged
    requires Highest(logged, top) && top.Set?
    ensures Lookup(ApplyAll(map[], ops), top.key) == Some(EntryOf(top))
  {
    hide ApplyAll, Covers, Distinct, DistinctVersions, Highest, IsTop;
    HighestIn(ops, logged, top);
    var j := HighestIsTop(ops, logged, top);
    DistinctList(ops, logged);
    SetWins(ops, ops, top.key, j);
  }

  /** A Set of the highest version decides both memory and recovery, whatever the interleaving. */
  lemma MixedQuiescence(es: seq<Event>, top: Op)
    requires CalmRun(es) && Quiescent(Run(es))
    requires Highest(Run(es).logged, top) && top.Set?
    ensures Lookup(Run(es).mem, top.key) == Lookup(Recovered(Run(es)), top.key) == Some(EntryOf(top))
  {
    hide Run, ApplyAll, Recovered, Covers, Highest, CalmRun, Quiescent;
    CalmKeeps(es);
    var s := Run(es);
    QuiescentApplied(s);
    HighestWins(s.trail, s.logged, top);
    HighestWins(s.order, s.logged, top);
  }

  /** A list without a Set of the key leaves it absent. */
  lemma NeverSetAbsent(ops: seq<Op>, logged: set<Op>, k: Key)
    requires (forall op :: op in ops ==> op in logged) && !Sets(logged, k)
    ensures Lookup(ApplyAll(map[], ops), k) == None
  {
    forall i | 0 <= i < |ops| && ops[i].key == k
      ensures ops[i].Delete?
    {
      assert ops[i] in ops;
    }
    NeverSet(ops, ops, k);
  }

  /** Neither memory nor recovery holds a key that nothing set. */
  lemma MixedAbsent(es: seq<Event>, k: Key)
    requires CalmRun(es) && !Sets(Run(es).logged, k)
    ensures Lookup(Run(es).mem, k) == Lookup(Recovered(Run(es)), k) == None
  {
    hide Run, ApplyAll, Recovered, Covers, CalmRun, Sets;
    CalmKeeps(es);
    var s := Run(es);
    NeverSetAbsent(s.trail, s.logged, k);
    NeverSetAbsent(s.order, s.logged, k);
  }

  /**
   Memory and recovery agree on `k` at the end of every run that logs exactly `ops` and comes
   to rest, with crashes anywhere and compactions that are safe.
   */
  ghost predicate AlwaysAgree(ops: set<Op>, k: Key)
  {
    forall es :: CalmRun(es) && Quiescent(Run(es)) && Run(es).logged == ops ==>
      Lookup(Run(es).mem, k) == Lookup(Recovered(Run(es)), k)
  }

  // ------------------------------------------------- how they come to disagree

  ghost predicate AtRest(s: State)
  {
    s.threads == map[] && !s.renamed && s.issued == s.logged
  }

  /** One operation from start to finish, with nobody else about. */
  lemma Perform(es: seq<Event>, op: Op) returns (fs: seq<Event>)
    requires CalmRun(es) && AtRest(Run(es)) && Fresh(Run(es), op)
    ensures CalmRun(fs) && AtRest(Run(fs)) && Run(fs).logged == Run(es).logged + {op}
  {
    hide Run, CalmRun;
    var s := Run(es);
    RunSnoc(es, Mint(0, op));
    CalmSnoc(es, Mint(0, op));
    fs := es + [Mint(0, op)];
    RunSnoc(fs, Append(0));
    CalmSnoc(fs, Append(0));
    fs := fs + [Append(0)];
    RunSnoc(fs, ApplyOp(0));
    CalmSnoc(fs, ApplyOp(0));
    fs := fs + [ApplyOp(0)];
  }

  lemma {:induction false} PerformAll(ops: set<Op>) returns (es: seq<Event>)
    requires Distinct(ops)
    ensures CalmRun(es) && AtRest(Run(es)) && Run(es).logged == ops
  {
    if ops == {} {
      es := [];
    } else {
      var op :| op in ops;
      var fs := PerformAll(ops - {op});
      hide Run, CalmRun;
      assert Fresh(Run(fs), op);
      es := Perform(fs, op);
      assert ops - {op} + {op} == ops;
    }
  }

  function BothMinted(s: State, put: Op, drop: Op): State
  {
    DoMint(DoMint(s, 0, put), 1, drop)
  }

  function BothLogged(s: State, put: Op, drop: Op): State
  {
    DoAppend(DoAppend(BothMinted(s, put, drop), 1), 0)
  }

  /** Two threads that log in one order and apply in the other. */
  function Crossed(s: State, put: Op, drop: Op): State
  {
    DoApply(DoApply(BothLogged(s, put, drop), 0), 1)
  }

  lemma BothMintedState(s: State, put: Op, drop: Op)
    requires AtRest(s) && Fresh(s, put) && Fresh(s, drop) && put.version != drop.version
    ensures BothMinted(s, put, drop) ==
            s.(threads := map[0 := Minted(put), 1 := Minted(drop)], issued := s.issued + {put, drop})
  {
  }

  lemma BothLoggedState(s: State, put: Op, drop: Op)
    requires AtRest(s) && Fresh(s, put) && Fresh(s, drop) && put.version != drop.version
    ensures var s' := BothLogged(s, put, drop);
            && s'.threads == map[0 := Appended(put), 1 := Appended(drop)] && !s'.renamed
            && s'.mem == s.mem && s'.snap == s.snap && s'.wal == s.wal + [drop] + [put]
            && s'.logged == s.logged + {put, drop}
  {
    hide DoMint, Fresh, BothMinted;
    BothMintedState(s, put, drop);
  }

  lemma CrossedState(s: State, put: Op, drop: Op)
    requires AtRest(s) && Fresh(s, put) && Fresh(s, drop) && put.version != drop.version
    ensures var s' := Crossed(s, put, drop);
            && s'.threads == map[] && s'.logged == s.logged + {put, drop}
            && s'.mem == Apply(Apply(s.mem, put), drop)
            && Recovered(s') == Apply(Apply(Recovered(s), drop), put)
  {
    hide Apply, ApplyAll, BothLogged, Fresh;
    BothLoggedState(s, put, drop);
    ApplyAllSnoc(s.snap, s.wal, drop);
    ApplyAllSnoc(s.snap, s.wal + [drop], put);
  }

  lemma CrossedRun(es: seq<Event>, put: Op, drop: Op) returns (fs: seq<Event>)
    requires CalmRun(es)
    ensures CalmRun(fs) && Run(fs) == Crossed(Run(es), put, drop)
  {
    hide Run, CalmRun, DoMint, DoAppend, DoApply;
    RunSnoc(es, Mint(0, put));
    CalmSnoc(es, Mint(0, put));
    fs := es + [Mint(0, put)];
    RunSnoc(fs, Mint(1, drop));
    CalmSnoc(fs, Mint(1, drop));
    fs := fs + [Mint(1, drop)];
    RunSnoc(fs, Append(1));
    CalmSnoc(fs, Append(1));
    fs := fs + [Append(1)];
    RunSnoc(fs, Append(0));
    CalmSnoc(fs, Append(0));
    fs := fs + [Append(0)];
    RunSnoc(fs, ApplyOp(0));
    CalmSnoc(fs, ApplyOp(0));
    fs := fs + [ApplyOp(0)];
    RunSnoc(fs, ApplyOp(1));
    CalmSnoc(fs, ApplyOp(1));
    fs := fs + [ApplyOp(1)];
  }

  lemma {:induction false} FoldsAtMost(ops: seq<Op>, k: Key, v: nat)
    requires AllAtMost(k, ops, v)
    ensures SlotAtMost(Lookup(ApplyAll(map[], ops), k), v)
  {
    hide AllAtMost, ApplyAll;
    LookupApplyAll(map[], ops, k);
    FoldAtMost(None, k, ops, v);
  }

  lemma DropThenPut(m: Entries, n: Entries, put: Op, drop: Op)
    requires put.Set? && drop.Delete? && put.key == drop.key && put.version < drop.version
    requires SlotAtMost(Lookup(m, drop.key), drop.version) && SlotAtMost(Lookup(n, drop.key), drop.version)
    ensures drop.key !in Apply(Apply(m, put), drop)
    ensures drop.key in Apply(Apply(n, drop), put)
  {
  }

  /**
   Whatever else is logged, a Delete of the highest version and a Set below it can be logged in
   one order and applied in the other: the key is gone from memory and back after recovery.
   */
  lemma SetDeleteDisagree(ops: set<Op>, put: Op, drop: Op) returns (es: seq<Event>)
    requires Distinct(ops) && Highest(ops, drop) && drop.Delete?
    requires put in ops && put.Set? && put.key == drop.key
    ensures CalmRun(es) && Quiescent(Run(es)) && Run(es).logged == ops
    ensures drop.key !in Run(es).mem && drop.key in Recovered(Run(es))
  {
    hide Run, CalmRun, ApplyAll, Recovered, Crossed;
    var rest := ops - {put, drop};
    var fs := PerformAll(rest);
    var s := Run(fs);
    CrossedState(s, put, drop);
    es := CrossedRun(fs, put, drop);
    assert rest + {put, drop} == ops;
    CalmKeeps(fs);
    FoldsAtMost(s.order, drop.key, drop.version);
    FoldsAtMost(s.trail, drop.key, drop.version);
    DropThenPut(s.mem, Recovered(s), put, drop);
  }

  lemma {:induction false} HighestExists(ops: set<Op>, k: Key) returns (top: Op)
    requires exists op :: op in ops && op.key == k
    ensures Highest(ops, top) && top.key == k
  {
    var op :| op in ops && op.key == k;
    var rest := ops - {op};
    top := op;
    if exists o :: o in rest && o.key == k {
      var t := HighestExists(rest, k);
      if t.version > op.version {
        top := t;
      }
    }
    forall o | o in ops && o.key == k
      ensures o.version <= top.version
    {
      assert o == op || o in rest;
    }
  }

  /**
   Exactly when memory and the replayed log are bound to agree on a key, over all the runs that
   log the same operations: its highest version is a Set, or nothing sets it.
   */
  lemma AgreeIff(ops: set<Op>, k: Key)
    requires Distinct(ops)
    ensures AlwaysAgree(ops, k) <==> SetIsHighest(ops, k) || !Sets(ops, k)
  {
    hide Run, CalmRun, Quiescent, Recovered;
    if SetIsHighest(ops, k) {
      var top :| Highest(ops, top) && top.key == k && top.Set?;
      forall es | CalmRun(es) && Quiescent(Run(es)) && Run(es).logged == ops
        ensures Lookup(Run(es).mem, k) == Lookup(Recovered(Run(es)), k)
      {
        MixedQuiescence(es, top);
      }
    } else if !Sets(ops, k) {
      forall es | CalmRun(es) && Quiescent(Run(es)) && Run(es).logged == ops
        ensures Lookup(Run(es).mem, k) == Lookup(Recovered(Run(es)), k)
      {
        MixedAbsent(es, k);
      }
    } else {
      var put :| put in ops && put.key == k && put.Set?;
      var drop := HighestExists(ops, k);
      assert drop.Delete?;
      var es := SetDeleteDisagree(ops, put, drop);
    }
  }
}
