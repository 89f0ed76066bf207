/**
 Replication: nodes that start empty and are delivered the same mutations, in
 any order and any number of times, and when they end with the same entry.
 */
module Convergence {
  import opened Bytes
  import opened Lww

  /** Per key, a version names one mutation. */
  ghost predicate DistinctVersions(ops: seq<Op>)
  {
    forall i, j | 0 <= i < |ops| && 0 <= j < |ops| ::
      ops[i].key == ops[j].key && ops[i].version == ops[j].version ==> ops[i] == ops[j]
  }

  /** `a` delivers exactly the mutations of `ms`, reordered and repeated at will. */
  ghost predicate Delivers(a: seq<Op>, ms: seq<Op>)
  {
    forall op :: op in a <==> op in ms
  }

  /** A node that starts empty and applies what is delivered. */
  function Node(a: seq<Op>): Entries
  {
    ApplyAll(map[], a)
  }

  lemma SameTop(ms: seq<Op>, a: seq<Op>, k: Key, j: int) returns (i: int)
    requires DistinctVersions(ms) && Delivers(a, ms) && IsTop(k, ms, j)
    ensures IsTop(k, a, i) && a[i] == ms[j]
  {
    assert ms[j] in a;
    var x :| 0 <= x < |a| && a[x] == ms[j];
    assert Touched(k, a);
    i := FindTop(k, a);
    assert a[i] in ms;
    var y :| 0 <= y < |ms| && ms[y] == a[i];
    assert a[x].version <= a[i].version;
    assert ms[y].version <= ms[j].version;
  }

  /** Where the highest version is a Set, every node ends with it. */
  lemma SetWins(ms: seq<Op>, a: seq<Op>, k: Key, j: int)
    requires DistinctVersions(ms) && Delivers(a, ms) && IsTop(k, ms, j) && ms[j].Set?
    ensures Lookup(Node(a), k) == Some(EntryOf(ms[j]))
  {
    var i := SameTop(ms, a, k, j);
    hide IsTop, Delivers, DistinctVersions;
    TopDecides(None, k, a, i);
    LookupApplyAll(map[], a, k);
  }

  lemma {:induction false} DeletesOnly(k: Key, ops: seq<Op>)
    requires forall i :: 0 <= i < |ops| && ops[i].key == k ==> ops[i].Delete?
    ensures FoldAt(None, k, ops) == None
  {
    if ops != [] {
      DeletesOnly(k, ops[..|ops| - 1]);
    }
  }

  /**
   Where the highest version is a Delete, a node ends with what arrives after the last
   delivery of it: absent when no Set of the key follows.
   */
  lemma DeleteCuts(a: seq<Op>, k: Key, i: int)
    requires IsTop(k, a, i) && a[i].Delete?
    ensures Lookup(Node(a), k) == FoldAt(None, k, a[i + 1..])
    ensures (forall x :: i < x < |a| && a[x].key == k ==> a[x].Delete?) ==> k !in Node(a)
  {
    TopDecides(None, k, a, i);
    LookupApplyAll(map[], a, k);
    if forall x :: i < x < |a| && a[x].key == k ==> a[x].Delete? {
      DeletesOnly(k, a[i + 1..]);
    }
  }

  /** Any two nodes agree on the key, however the mutations reached them. */
  ghost predicate Agree(ms: seq<Op>, k: Key)
  {
    forall a, b :: Delivers(a, ms) && Delivers(b, ms) ==> Lookup(Node(a), k) == Lookup(Node(b), k)
  }

  ghost predicate HasSet(ms: seq<Op>, k: Key)
  {
    exists i :: 0 <= i < |ms| && ms[i].key == k && ms[i].Set?
  }

  lemma NeverSet(ms: seq<Op>, a: seq<Op>, k: Key)
    requires Delivers(a, ms) && !HasSet(ms, k)
    ensures Lookup(Node(a), k) == None
  {
    forall i | 0 <= i < |a| && a[i].key == k
      ensures a[i].Delete?
    {
      assert a[i] in ms;
    }
    DeletesOnly(k, a);
    LookupApplyAll(map[], a, k);
  }

  lemma Diverges(ms: seq<Op>, k: Key, j: int)
    requires IsTop(k, ms, j) && ms[j].Delete? && HasSet(ms, k)
    ensures !Agree(ms, k)
  {
    var i :| 0 <= i < |ms| && ms[i].key == k && ms[i].Set?;
    var d, s := ms[j], ms[i];
    var a := ms + [d];
    var b := a + [s];
    assert Delivers(a, ms) && Delivers(b, ms);
    LookupApplyAll(map[], a, k);
    LookupApplyAll(map[], b, k);
    FoldAtSnoc(None, k, ms, d);
    FoldAtSnoc(None, k, a, s);
    FoldAtMost(None, k, ms, d.version);
    assert Lookup(Node(a), k) == None;
    assert Lookup(Node(b), k) == Some(EntryOf(s));
  }

  /**
   Exactly when replication converges on a key: its highest version is a Set, or nothing
   ever set it. Otherwise a Set delivered after the last Delete brings the key back.
   */
  lemma ConvergesIff(ms: seq<Op>, k: Key, j: int)
    requires DistinctVersions(ms) && IsTop(k, ms, j)
    ensures Agree(ms, k) <==> ms[j].Set? || !HasSet(ms, k)
  {
    if ms[j].Set? {
      forall a, b | Delivers(a, ms) && Delivers(b, ms)
        ensures Lookup(Node(a), k) == Lookup(Node(b), k)
      {
        SetWins(ms, a, k, j);
        SetWins(ms, b, k, j);
      }
    } else if HasSet(ms, k) {
      Diverges(ms, k, j);
    } else {
      forall a, b | Delivers(a, ms) && Delivers(b, ms)
        ensures Lookup(Node(a), k) == Lookup(Node(b), k)
      {
        NeverSet(ms, a, k);
        NeverSet(ms, b, k);
      }
    }
  }
}
