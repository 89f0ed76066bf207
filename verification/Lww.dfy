/**
 Versioned last-write-wins entries: what one Set or Delete does to a map of
 entries, what a list of them does, and how the highest version of a key
 decides the outcome.
 */
module Lww {
  import opened Bytes

  type Key = seq<Byte>
  type Value = seq<Byte>

  datatype Option<+T> = None | Some(value: T)

  /** `expiresAt` is in nanoseconds; 0 stands for Go's zero time, an entry without expiry. */
  datatype Entry = Entry(value: Value, version: nat, expiresAt: nat)

  predicate Expired(e: Entry, now: nat)
  {
    e.expiresAt != 0 && now > e.expiresAt
  }

  type Entries = map<Key, Entry>

  /** The entries without expiry, or whose expiry `now` has not passed. */
  function Unexpired(m: Entries, now: nat): (u: Entries)
    ensures forall k :: k in u <==> k in m && (m[k].expiresAt == 0 || now <= m[k].expiresAt)
    ensures forall k :: k in u ==> u[k] == m[k]
  {
    map k | k in m && !Expired(m[k], now) :: m[k]
  }

  ghost predicate NoRepeats(s: seq<Key>)
  {
    forall i, j :: 0 <= i < j < |s| ==> s[i] != s[j]
  }

  /** `order` is one way in which an iteration can visit `keys`. */
  ghost predicate IsListing(order: seq<Key>, keys: set<Key>)
  {
    && NoRepeats(order)
    && (forall k :: k in order <==> k in keys)
  }

  datatype Op =
    | Set(key: Key, value: Value, version: nat, expiresAt: nat)
    | Delete(key: Key, version: nat)

  function EntryOf(op: Op): Entry
    requires op.Set?
  {
    Entry(op.value, op.version, op.expiresAt)
  }

  /** The Set that puts entry `e` under `k`. */
  function SetOf(k: Key, e: Entry): Op
  {
    Set(k, e.value, e.version, e.expiresAt)
  }

  /** The next version of a store whose last one is `last`, at clock `now`. */
  function NextVersion(last: nat, now: nat): (v: nat)
    ensures v > last && v >= now && (v == last + 1 || v == now)
  {
    if now <= last then last + 1 else now
  }

  function Apply(m: Entries, op: Op): Entries
  {
    if op.key in m && op.version < m[op.key].version then m
    else if op.Set? then m[op.key := EntryOf(op)]
    else m - {op.key}
  }

  /** The version a store answers with: the stored one when the mutation is rejected. */
  function Reply(m: Entries, op: Op): nat
  {
    if op.key in m && op.version < m[op.key].version then m[op.key].version else op.version
  }

  function ApplyAll(m: Entries, ops: seq<Op>): Entries
  {
    if ops == [] then m else Apply(ApplyAll(m, ops[..|ops| - 1]), ops[|ops| - 1])
  }

  lemma {:induction false} ApplyAllConcat(m: Entries, a: seq<Op>, b: seq<Op>)
    ensures ApplyAll(m, a + b) == ApplyAll(ApplyAll(m, a), b)
  {
    if b == [] {
      assert a + b == a;
    } else {
      var n := |b| - 1;
      assert (a + b)[..|a + b| - 1] == a + b[..n];
      ApplyAllConcat(m, a, b[..n]);
    }
  }

  lemma ApplyAllSnoc(m: Entries, ops: seq<Op>, op: Op)
    ensures ApplyAll(m, ops + [op]) == Apply(ApplyAll(m, ops), op)
  {
    assert (ops + [op])[..|ops + [op]| - 1] == ops;
  }

  // --------------------------------------------------------- one key alone

  type Slot = Option<Entry>

  function Lookup(m: Entries, k: Key): Slot
  {
    if k in m then Some(m[k]) else None
  }

  function StepAt(s: Slot, k: Key, op: Op): Slot
  {
    if op.key != k || (s.Some? && op.version < s.value.version) then s
    else if op.Set? then Some(EntryOf(op))
    else None
  }

  function FoldAt(s: Slot, k: Key, ops: seq<Op>): Slot
  {
    if ops == [] then s else StepAt(FoldAt(s, k, ops[..|ops| - 1]), k, ops[|ops| - 1])
  }

  lemma FoldAtSnoc(s: Slot, k: Key, ops: seq<Op>, op: Op)
    ensures FoldAt(s, k, ops + [op]) == StepAt(FoldAt(s, k, ops), k, op)
  {
    assert (ops + [op])[..|ops + [op]| - 1] == ops;
  }

  lemma LookupApply(m: Entries, op: Op, k: Key)
    ensures Lookup(Apply(m, op), k) == StepAt(Lookup(m, k), k, op)
  {
  }

  /** Each key of the map evolves on its own. */
  lemma {:induction false} LookupApplyAll(m: Entries, ops: seq<Op>, k: Key)
    ensures Lookup(ApplyAll(m, ops), k) == FoldAt(Lookup(m, k), k, ops)
  {
    if ops != [] {
      LookupApplyAll(m, ops[..|ops| - 1], k);
    }
  }

  lemma {:induction false} FoldAtConcat(s: Slot, k: Key, a: seq<Op>, b: seq<Op>)
    ensures FoldAt(s, k, a + b) == FoldAt(FoldAt(s, k, a), k, b)
  {
    if b == [] {
      assert a + b == a;
    } else {
      var n := |b| - 1;
      assert (a + b)[..|a + b| - 1] == a + b[..n];
      FoldAtConcat(s, k, a, b[..n]);
    }
  }

  lemma SameLookups(m: Entries, n: Entries)
    requires forall k :: Lookup(m, k) == Lookup(n, k)
    ensures m == n
  {
    forall k
      ensures k in m <==> k in n
      ensures k in m && k in n ==> m[k] == n[k]
    {
      assert Lookup(m, k) == Lookup(n, k);
    }
  }

  // ------------------------------------------------- the deciding operation

  ghost predicate AllBelow(k: Key, ops: seq<Op>, v: nat)
  {
    forall i :: 0 <= i < |ops| && ops[i].key == k ==> ops[i].version < v
  }

  ghost predicate AllAtMost(k: Key, ops: seq<Op>, v: nat)
  {
    forall i :: 0 <= i < |ops| && ops[i].key == k ==> ops[i].version <= v
  }

  predicate SlotAtMost(s: Slot, v: nat)
  {
    s.Some? ==> s.value.version <= v
  }

  /** `j` is the last operation of the highest version among those on `k`. */
  ghost predicate IsTop(k: Key, ops: seq<Op>, j: int)
  {
    && 0 <= j < |ops|
    && ops[j].key == k
    && AllAtMost(k, ops, ops[j].version)
    && forall i :: j < i < |ops| && ops[i].key == k ==> ops[i].version < ops[j].version
  }

  ghost predicate Touched(k: Key, ops: seq<Op>)
  {
    exists i :: 0 <= i < |ops| && ops[i].key == k
  }

  lemma {:induction false} FindTop(k: Key, ops: seq<Op>) returns (j: int)
    requires Touched(k, ops)
    ensures IsTop(k, ops, j)
  {
    var n := |ops| - 1;
    var front := ops[..n];
    j := n;
    if Touched(k, front) {
      var p := FindTop(k, front);
      if ops[n].key != k || ops[n].version < ops[p].version {
        j := p;
      }
      forall i | 0 <= i < |ops| && ops[i].key == k
        ensures ops[i].version <= ops[j].version
      {
        if i < n {
          assert front[i] == ops[i];
        }
      }
    } else {
      forall i | 0 <= i < n
        ensures ops[i].key != k
      {
        assert front[i] == ops[i];
      }
    }
  }

  /** Versions below the stored one change nothing. */
  lemma {:induction false} FoldBelow(s: Slot, k: Key, ops: seq<Op>)
    requires s.Some? && AllBelow(k, ops, s.value.version)
    ensures FoldAt(s, k, ops) == s
  {
    if ops != [] {
      var n := |ops| - 1;
      assert AllBelow(k, ops[..n], s.value.version);
      FoldBelow(s, k, ops[..n]);
    }
  }

  lemma {:induction false} FoldAtMost(s: Slot, k: Key, ops: seq<Op>, v: nat)
    requires SlotAtMost(s, v) && AllAtMost(k, ops, v)
    ensures SlotAtMost(FoldAt(s, k, ops), v)
  {
    if ops != [] {
      var n := |ops| - 1;
      assert AllAtMost(k, ops[..n], v);
      FoldAtMost(s, k, ops[..n], v);
    }
  }

  function Outcome(op: Op): Slot
  {
    if op.Set? then Some(EntryOf(op)) else None
  }

  lemma TopSplits(k: Key, ops: seq<Op>, j: int)
    requires IsTop(k, ops, j)
    ensures AllAtMost(k, ops[..j], ops[j].version)
    ensures AllBelow(k, ops[j + 1..], ops[j].version)
    ensures AllAtMost(k, ops[j + 1..], ops[j].version)
  {
    var after := ops[j + 1..];
    forall i | 0 <= i < |after| && after[i].key == k
      ensures after[i].version < ops[j].version
    {
      assert after[i] == ops[j + 1 + i];
    }
  }

  /**
   From any slot that is not ahead of it, the last operation of the highest
   version decides: nothing before it matters, and if it is a Set nothing
   after it matters either.
   */
  lemma TopDecides(s: Slot, k: Key, ops: seq<Op>, j: int)
    requires IsTop(k, ops, j)
    requires SlotAtMost(s, ops[j].version)
    ensures FoldAt(s, k, ops) == FoldAt(Outcome(ops[j]), k, ops[j + 1..])
    ensures ops[j].Set? ==> FoldAt(s, k, ops) == Some(EntryOf(ops[j]))
    ensures SlotAtMost(FoldAt(s, k, ops), ops[j].version)
  {
    var before, op, after := ops[..j], ops[j], ops[j + 1..];
    TopSplits(k, ops, j);
    hide FoldAt, IsTop, AllBelow, AllAtMost;
    FoldAtMost(s, k, before, op.version);
    FoldAtSnoc(s, k, before, op);
    assert ops == (before + [op]) + after;
    FoldAtConcat(s, k, before + [op], after);
    if op.Set? {
      FoldBelow(Outcome(op), k, after);
    }
    FoldAtMost(Outcome(op), k, after, op.version);
  }

  lemma {:induction false} FoldUntouched(s: Slot, k: Key, ops: seq<Op>)
    requires !Touched(k, ops)
    ensures FoldAt(s, k, ops) == s
  {
    if ops != [] {
      var n := |ops| - 1;
      assert ops[n].key != k && !Touched(k, ops[..n]);
      FoldUntouched(s, k, ops[..n]);
    }
  }

  /** A second pass over the same operations finds each key as the first pass left it. */
  lemma {:induction false} FoldTwice(s: Slot, k: Key, ops: seq<Op>)
    ensures FoldAt(FoldAt(s, k, ops), k, ops) == FoldAt(s, k, ops)
  {
    if Touched(k, ops) {
      var j := FindTop(k, ops);
      if SlotAtMost(s, ops[j].version) {
        TopDecides(s, k, ops, j);
        TopDecides(FoldAt(s, k, ops), k, ops, j);
      } else {
        FoldBelow(s, k, ops);
      }
    } else {
      FoldUntouched(s, k, ops);
      FoldUntouched(FoldAt(s, k, ops), k, ops);
    }
  }

  /**
   Replaying a list of operations over its own result changes nothing, whatever
   the starting map and however the versions repeat or run backwards.
   */
  lemma ReplayIdempotent(m: Entries, ops: seq<Op>)
    ensures ApplyAll(ApplyAll(m, ops), ops) == ApplyAll(m, ops)
  {
    var once := ApplyAll(m, ops);
    var twice := ApplyAll(once, ops);
    forall k
      ensures Lookup(twice, k) == Lookup(once, k)
    {
      LookupApplyAll(m, ops, k);
      LookupApplyAll(once, ops, k);
      FoldTwice(Lookup(m, k), k, ops);
    }
    SameLookups(twice, once);
  }
}
