/**
 n nodes that take local writes, broadcast them, and apply what is delivered, in
 any order and any number of times: when a key and a version name one mutation
 across the whole cluster. Entries carry no expiry here.
 */
module Cluster {
  import opened Bytes
  import opened Lww

  datatype Node = Node(mem: Entries, lastVersion: nat)

  /** `msgs` are the replicate requests ever sent; `minted` the versions ever minted. */
  datatype State = State(nodes: map<nat, Node>, msgs: set<Op>, minted: set<nat>)

  datatype Event =
    | Put(n: nat, key: Key, value: Value, now: nat)
    | Remove(n: nat, key: Key, now: nat)
    | Refuse(n: nat, now: nat)
    | Deliver(n: nat, op: Op)

  ghost predicate Initial(s: State)
  {
    && s.msgs == {} && s.minted == {}
    && forall n :: n in s.nodes ==> s.nodes[n].mem == map[]
  }

  /** What is broadcast after a local write: the caller's value under the version that was answered. */
  function Broadcast(m: Entries, op: Op): Op
  {
    op.(version := Reply(m, op))
  }

  function Mint(s: State, n: nat, now: nat): nat
    requires n in s.nodes
  {
    NextVersion(s.nodes[n].lastVersion, now)
  }

  /** handlePutKey and handleDeleteKey: `op` already carries the version just minted. */
  function LocalWrite(s: State, n: nat, op: Op): State
    requires n in s.nodes
  {
    var node := s.nodes[n];
    s.(nodes := s.nodes[n := Node(Apply(node.mem, op), op.version)],
       msgs := s.msgs + {Broadcast(node.mem, op)},
       minted := s.minted + {op.version})
  }

  function Delivery(s: State, n: nat, op: Op): State
    requires n in s.nodes
  {
    s.(nodes := s.nodes[n := s.nodes[n].(mem := Apply(s.nodes[n].mem, op))])
  }

  /** A local write that the log refuses: its version is gone, and nothing is stored or sent. */
  function Refused(s: State, n: nat, now: nat): State
    requires n in s.nodes
  {
    s.(nodes := s.nodes[n := s.nodes[n].(lastVersion := Mint(s, n, now))])
  }

  predicate Writes(e: Event)
  {
    e.Put? || e.Remove?
  }

  function Written(s: State, e: Event): Op
    requires Writes(e) && e.n in s.nodes
  {
    match e
    case Put(n, k, v, now) => Set(k, v, Mint(s, n, now), 0)
    case Remove(n, k, now) => Delete(k, Mint(s, n, now))
  }

  function Step(s: State, e: Event): State
  {
    if e.n !in s.nodes then s
    else if e.Deliver? then (if e.op in s.msgs then Delivery(s, e.n, e.op) else s)
    else if e.Refuse? then Refused(s, e.n, e.now)
    else LocalWrite(s, e.n, Written(s, e))
  }

  function Run(s: State, es: seq<Event>): State
  {
    if es == [] then s else Step(Run(s, es[..|es| - 1]), es[|es| - 1])
  }

  // ----------------------------------------------- one mutation per version

  ghost predicate HeldBy(s: State, n: nat, op: Op)
  {
    n in s.nodes && op.key in s.nodes[n].mem && op == SetOf(op.key, s.nodes[n].mem[op.key])
  }

  /** `op` is a message, or the Set behind an entry of some node. */
  ghost predicate Present(s: State, op: Op)
  {
    op in s.msgs || exists n :: HeldBy(s, n, op)
  }

  /** Any two messages or entries with one key and one version are the same mutation. */
  ghost predicate VersionDetermines(s: State)
  {
    forall x, y :: Present(s, x) && Present(s, y) && x.key == y.key && x.version == y.version ==> x == y
  }

  ghost predicate MessagesAgree(msgs: set<Op>)
  {
    forall x, y :: x in msgs && y in msgs && x.key == y.key && x.version == y.version ==> x == y
  }

  ghost predicate Inv(s: State)
  {
    && MessagesAgree(s.msgs)
    && (forall op :: op in s.msgs ==> op.version in s.minted)
    && (forall n, op :: HeldBy(s, n, op) ==> op in s.msgs)
  }

  lemma InvDetermines(s: State)
    requires Inv(s)
    ensures VersionDetermines(s)
  {
  }

  /** The minted version is new to the cluster and above what the node stores for the key. */
  predicate Clean(s: State, e: Event)
  {
    Writes(e) && e.n in s.nodes ==>
      var op, m := Written(s, e), s.nodes[e.n].mem;
      op.version !in s.minted && (op.key in m ==> m[op.key].version < op.version)
  }

  lemma LocalWriteKeeps(s: State, n: nat, op: Op)
    requires Inv(s) && n in s.nodes
    requires op.version !in s.minted
    requires op.key in s.nodes[n].mem ==> s.nodes[n].mem[op.key].version < op.version
    ensures Inv(LocalWrite(s, n, op))
  {
    var s' := LocalWrite(s, n, op);
    assert Broadcast(s.nodes[n].mem, op) == op;
    forall x, o | HeldBy(s', x, o)
      ensures o in s'.msgs
    {
      if x == n && o.key == op.key {
      } else {
        assert HeldBy(s, x, o);
      }
    }
  }

  lemma DeliveryKeeps(s: State, n: nat, op: Op)
    requires Inv(s) && n in s.nodes && op in s.msgs
    ensures Inv(Delivery(s, n, op))
  {
    var s' := Delivery(s, n, op);
    forall x, o | HeldBy(s', x, o)
      ensures o in s'.msgs
    {
      if !HeldBy(s, x, o) {
        assert o == op;
      }
    }
  }

  lemma RefusedKeeps(s: State, n: nat, now: nat)
    requires Inv(s) && n in s.nodes
    ensures Inv(Refused(s, n, now))
  {
    var s' := Refused(s, n, now);
    forall x, o | HeldBy(s', x, o)
      ensures o in s'.msgs
    {
      assert HeldBy(s, x, o);
    }
  }

  ghost predicate CleanRun(s: State, es: seq<Event>)
  {
    forall i :: 0 <= i < |es| ==> Clean(Run(s, es[..i]), es[i])
  }

  lemma RunSplit(s: State, es: seq<Event>)
    requires es != []
    ensures Run(s, es) == Step(Run(s, es[..|es| - 1]), es[|es| - 1])
  {
    hide Step;
  }

  lemma CleanPrefix(s: State, es: seq<Event>)
    requires CleanRun(s, es) && es != []
    ensures CleanRun(s, es[..|es| - 1])
  {
    hide Run, Clean;
    var front := es[..|es| - 1];
    forall i | 0 <= i < |front|
      ensures Clean(Run(s, front[..i]), front[i])
    {
      assert front[..i] == es[..i] && front[i] == es[i];
    }
  }

  lemma {:induction false} RunKeeps(s: State, es: seq<Event>)
    requires Initial(s) && CleanRun(s, es)
    ensures Inv(Run(s, es))
  {
    if es != [] {
      var n := |es| - 1;
      var front, e := es[..n], es[n];
      var t := Run(s, front);
      assert Clean(t, e);
      CleanPrefix(s, es);
      RunKeeps(s, front);
      hide Inv, Run, LocalWrite, Delivery, Refused, CleanRun;
      if e.n in t.nodes {
        if Writes(e) {
          LocalWriteKeeps(t, e.n, Written(t, e));
        } else if e.Refuse? {
          RefusedKeeps(t, e.n, e.now);
        } else if e.op in t.msgs {
          DeliveryKeeps(t, e.n, e.op);
        }
      }
      assert Inv(Step(t, e));
      RunSplit(s, es);
    }
  }

  /**
   In every run in which each locally minted version is new to the cluster and exceeds the
   version stored for its key, a key and a version name one action and one value, in every
   message and on every node.
   */
  lemma VersionDeterminesMutation(s: State, es: seq<Event>)
    requires Initial(s) && CleanRun(s, es)
    ensures VersionDetermines(Run(s, es))
  {
    hide Run, Inv, VersionDetermines;
    RunKeeps(s, es);
    InvDetermines(Run(s, es));
  }

  /** A clock ahead of every version so far keeps a run clean: a write there is new and above what is stored. */
  lemma ClockAheadIsClean(s: State, e: Event)
    requires Writes(e) && e.n in s.nodes && s.nodes[e.n].lastVersion < e.now
    requires forall v :: v in s.minted ==> v < e.now
    requires e.key in s.nodes[e.n].mem ==> s.nodes[e.n].mem[e.key].version < e.now
    ensures Clean(s, e) && Written(s, e).version == e.now
  {
  }

  // ----------------------------------------------- exactly which write breaks it

  /** A local write that the store rejects although its caller is told it succeeded. */
  predicate Rejected(m: Entries, op: Op)
  {
    op.key in m && op.version < m[op.key].version
  }

  lemma RejectedPut(s: State, n: nat, op: Op)
    requires Inv(s) && n in s.nodes && op.Set? && op.expiresAt == 0
    requires Rejected(s.nodes[n].mem, op)
    requires forall x :: x in s.msgs && x.Set? ==> x.expiresAt == 0
    ensures VersionDetermines(LocalWrite(s, n, op)) <==> op.value == s.nodes[n].mem[op.key].value
  {
    var s', m := LocalWrite(s, n, op), s.nodes[n].mem;
    var held, sent := SetOf(op.key, m[op.key]), Broadcast(m, op);
    assert HeldBy(s, n, held) && HeldBy(s', n, held);
    assert held in s.msgs;
    assert s'.nodes[n].mem == m;
    if op.value == m[op.key].value {
      assert sent == held;
      assert s'.msgs == s.msgs;
      forall x | Present(s', x)
        ensures Present(s, x)
      {
        if x !in s.msgs {
          var y :| HeldBy(s', y, x);
          assert HeldBy(s, y, x);
        }
      }
      InvDetermines(s);
    } else {
      assert Present(s', held) && Present(s', sent);
    }
  }

  /**
   With a version new to the cluster, a local PUT keeps the property exactly when the store
   accepts it or already holds the very same value.
   */
  lemma PutKeepsIff(s: State, n: nat, op: Op)
    requires Inv(s) && n in s.nodes && op.Set? && op.expiresAt == 0 && op.version !in s.minted
    requires forall x :: x in s.msgs && x.Set? ==> x.expiresAt == 0
    ensures VersionDetermines(LocalWrite(s, n, op)) <==>
            !Rejected(s.nodes[n].mem, op) || op.value == s.nodes[n].mem[op.key].value
  {
    var m := s.nodes[n].mem;
    if op.key in m {
      assert HeldBy(s, n, SetOf(op.key, m[op.key]));
      assert m[op.key].version in s.minted;
    }
    if !Rejected(m, op) {
      LocalWriteKeeps(s, n, op);
      InvDetermines(LocalWrite(s, n, op));
    } else {
      RejectedPut(s, n, op);
    }
  }

  /** A rejected DELETE always breaks it: it is sent under the version of the Set it lost to. */
  lemma DeleteKeepsIff(s: State, n: nat, op: Op)
    requires Inv(s) && n in s.nodes && op.Delete? && op.version !in s.minted
    ensures VersionDetermines(LocalWrite(s, n, op)) <==> !Rejected(s.nodes[n].mem, op)
  {
    var m := s.nodes[n].mem;
    if op.key in m {
      assert HeldBy(s, n, SetOf(op.key, m[op.key]));
      assert m[op.key].version in s.minted;
    }
    if !Rejected(m, op) {
      LocalWriteKeeps(s, n, op);
      InvDetermines(LocalWrite(s, n, op));
    } else {
      var s', held, sent := LocalWrite(s, n, op), SetOf(op.key, m[op.key]), Broadcast(m, op);
      assert HeldBy(s', n, held);
      assert Present(s', held) && Present(s', sent);
    }
  }

  /**
   What a rejected PUT does next: once it is delivered to another node that is not ahead, the
   two nodes hold one version with two values.
   */
  lemma RejectedPutSplits(s: State, n: nat, m: nat, op: Op)
    requires n in s.nodes && m in s.nodes && n != m
    requires op.Set? && Rejected(s.nodes[n].mem, op) && op.value != s.nodes[n].mem[op.key].value
    requires op.key in s.nodes[m].mem ==> s.nodes[m].mem[op.key].version <= s.nodes[n].mem[op.key].version
    ensures var t := Delivery(LocalWrite(s, n, op), m, Broadcast(s.nodes[n].mem, op));
            var k := op.key;
            && k in t.nodes[n].mem && k in t.nodes[m].mem
            && t.nodes[n].mem[k].version == t.nodes[m].mem[k].version
            && t.nodes[n].mem[k].value != t.nodes[m].mem[k].value
  {
  }

  lemma RunSnoc(s: State, es: seq<Event>, e: Event)
    ensures Run(s, es + [e]) == Step(Run(s, es), e)
  {
    hide Step;
    assert (es + [e])[..|es + [e]| - 1] == es;
  }

  /** A run that gets there: the clock of node 0 is behind that of node 1. */
  lemma ClockSkewSplits() returns (s: State, es: seq<Event>)
    ensures Initial(s)
    ensures var t, k := Run(s, es), [107];
            && 0 in t.nodes && 1 in t.nodes
            && k in t.nodes[0].mem && k in t.nodes[1].mem
            && t.nodes[0].mem[k].version == t.nodes[1].mem[k].version == 100
            && t.nodes[0].mem[k].value != t.nodes[1].mem[k].value
  {
    var k: Key, a: Value, b: Value := [107], [97], [98];
    s := State(map[0 := Node(map[], 0), 1 := Node(map[], 0)], {}, {});
    es := [];
    assert Run(s, es) == s;
    hide Run;
    RunSnoc(s, es, Put(1, k, b, 100));
    es := es + [Put(1, k, b, 100)];
    RunSnoc(s, es, Deliver(0, Set(k, b, 100, 0)));
    es := es + [Deliver(0, Set(k, b, 100, 0))];
    var t := Run(s, es);
    assert t.nodes[0].mem == t.nodes[1].mem == map[k := Entry(b, 100, 0)];
    assert t.nodes[0].lastVersion == 0;
    RunSnoc(s, es, Put(0, k, a, 50));
    es := es + [Put(0, k, a, 50)];
    RunSnoc(s, es, Deliver(1, Set(k, a, 100, 0)));
    es := es + [Deliver(1, Set(k, a, 100, 0))];
  }
}
