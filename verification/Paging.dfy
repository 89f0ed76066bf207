/**
 Pages of keys: what one Scan returns, and what a client sees that follows the
 cursor from page to page while the store changes underneath.
 */
module Paging {
  import opened Bytes
  import opened Lww

  ghost predicate Increasing(s: seq<Key>)
  {
    forall i, j :: 0 <= i < j < |s| ==> Less(s[i], s[j])
  }

  /** Live, with the prefix, and above the cursor; the empty cursor starts from the beginning. */
  predicate Matches(k: Key, live: set<Key>, prefix: Key, cursor: Key)
  {
    k in live && prefix <= k && (cursor == [] || Less(cursor, k))
  }

  /** A matching key that the page leaves for later. */
  ghost predicate Remains(k: Key, page: seq<Key>, live: set<Key>, prefix: Key, cursor: Key)
  {
    Matches(k, live, prefix, cursor) && k !in page
  }

  ghost predicate MoreRemain(page: seq<Key>, live: set<Key>, prefix: Key, cursor: Key)
  {
    exists k :: Remains(k, page, live, prefix, cursor)
  }

  /**
   `page` is the first `limit` matching keys in order: it only falls short when nothing is
   left, and everything left lies above it. `next` is its last key when something is left.
   */
  ghost predicate IsPage(page: seq<Key>, next: Key, live: set<Key>, prefix: Key, limit: nat, cursor: Key)
  {
    && Increasing(page)
    && |page| <= limit
    && (forall k :: k in page ==> Matches(k, live, prefix, cursor))
    && (forall k :: Remains(k, page, live, prefix, cursor) ==> |page| == limit)
    && (forall k, p :: Remains(k, page, live, prefix, cursor) && p in page ==> Less(p, k))
    && (if MoreRemain(page, live, prefix, cursor) then page != [] && next == page[|page| - 1] else next == [])
  }

  // ------------------------------------------------------------- one page

  /** The first page of one key, over all keys, when the empty key is among several. */
  ghost predicate Misleading(live: set<Key>, prefix: Key, limit: nat, cursor: Key)
  {
    limit == 1 && cursor == [] && prefix == [] && [] in live && exists k :: k in live && k != []
  }

  lemma EmptyIsFirst(s: seq<Key>)
    requires Increasing(s) && s != [] && s[|s| - 1] == []
    ensures |s| == 1
  {
    var first := s[0];
  }

  /** Only a page that is just the empty key hands out an empty cursor while more remain. */
  lemma CursorNotEmpty(page: seq<Key>, next: Key, live: set<Key>, prefix: Key, limit: nat, cursor: Key, k: Key)
    requires IsPage(page, next, live, prefix, limit, cursor) && !Misleading(live, prefix, limit, cursor)
    requires Remains(k, page, live, prefix, cursor)
    ensures next != []
  {
    var last := page[|page| - 1];
    assert last in page;
    if last == [] {
      EmptyIsFirst(page);
    }
  }

  lemma MisleadingPage(page: seq<Key>, next: Key, live: set<Key>, prefix: Key, limit: nat, cursor: Key) returns (k: Key)
    requires IsPage(page, next, live, prefix, limit, cursor) && Misleading(live, prefix, limit, cursor)
    ensures page == [[]] && next == [] && Remains(k, page, live, prefix, cursor)
  {
    var none: Key := [];
    assert Matches(none, live, prefix, cursor);
    assert Remains(none, page, live, prefix, cursor) <==> none !in page;
    assert page != [] ==> page[0] in page;
    k :| k in live && k != [];
    assert Remains(k, page, live, prefix, cursor);
  }

  /** The cursor is nonempty exactly when more remain, if and only if the page is not that misleading one. */
  lemma CursorTellsMore(page: seq<Key>, next: Key, live: set<Key>, prefix: Key, limit: nat, cursor: Key)
    requires IsPage(page, next, live, prefix, limit, cursor)
    ensures (next != [] <==> MoreRemain(page, live, prefix, cursor)) <==> !Misleading(live, prefix, limit, cursor)
  {
    if Misleading(live, prefix, limit, cursor) {
      var k := MisleadingPage(page, next, live, prefix, limit, cursor);
    } else if k :| Remains(k, page, live, prefix, cursor) {
      CursorNotEmpty(page, next, live, prefix, limit, cursor, k);
    }
  }

  /** A page that stops short of its limit has every match. */
  lemma ShortPage(a: seq<Key>, an: Key, live: set<Key>, prefix: Key, limit: nat, cursor: Key, k: Key)
    requires IsPage(a, an, live, prefix, limit, cursor) && |a| < limit
    requires Matches(k, live, prefix, cursor)
    ensures k in a
  {
    assert !Remains(k, a, live, prefix, cursor);
  }

  /** After equal fronts, the next key of one page is not below that of the other. */
  lemma NotBefore(a: seq<Key>, an: Key, b: seq<Key>, bn: Key, live: set<Key>, prefix: Key,
                  limit: nat, cursor: Key, i: nat)
    requires IsPage(a, an, live, prefix, limit, cursor) && IsPage(b, bn, live, prefix, limit, cursor)
    requires i < |a| && i < |b| && a[..i] == b[..i]
    ensures !Less(a[i], b[i])
  {
    var k := a[i];
    if Less(k, b[i]) {
      assert k in a;
      assert b[i] in b;
      if k in b {
        var j :| 0 <= j < |b| && b[j] == k;
        if j < i {
          assert a[..i][j] == b[..i][j];
        } else if i < j {
          LessTransitive(b[i], b[j], b[i]);
        }
        LessIrreflexive(k);
        LessIrreflexive(b[i]);
      } else {
        assert Remains(k, b, live, prefix, cursor);
        LessTransitive(b[i], k, b[i]);
        LessIrreflexive(b[i]);
      }
    }
  }

  lemma {:induction false} SameFront(a: seq<Key>, an: Key, b: seq<Key>, bn: Key, live: set<Key>, prefix: Key,
                                     limit: nat, cursor: Key, n: nat)
    requires IsPage(a, an, live, prefix, limit, cursor) && IsPage(b, bn, live, prefix, limit, cursor)
    requires n <= |a| <= |b|
    ensures a[..n] == b[..n]
  {
    if n > 0 {
      var i := n - 1;
      SameFront(a, an, b, bn, live, prefix, limit, cursor, i);
      NotBefore(a, an, b, bn, live, prefix, limit, cursor, i);
      NotBefore(b, bn, a, an, live, prefix, limit, cursor, i);
      LessTotal(a[i], b[i]);
      assert a[..n] == a[..i] + [a[i]];
      assert b[..n] == b[..i] + [b[i]];
    }
  }

  lemma SamePage(a: seq<Key>, an: Key, b: seq<Key>, bn: Key, live: set<Key>, prefix: Key, limit: nat, cursor: Key)
    requires IsPage(a, an, live, prefix, limit, cursor) && IsPage(b, bn, live, prefix, limit, cursor)
    requires |a| <= |b|
    ensures a == b && an == bn
  {
    SameFront(a, an, b, bn, live, prefix, limit, cursor, |a|);
    assert a[..|a|] == a;
    if |a| < |b| {
      var k := b[|a|];
      assert k in b;
      ShortPage(a, an, live, prefix, limit, cursor, k);
      var i :| 0 <= i < |a| && a[i] == k;
      assert a[i] == b[..|a|][i];
      LessIrreflexive(k);
      assert false;
    } else {
      assert b == b[..|b|];
    }
  }

  /** The page is determined: two answers for one store, prefix, limit and cursor agree. */
  lemma PageUnique(a: seq<Key>, an: Key, b: seq<Key>, bn: Key, live: set<Key>, prefix: Key, limit: nat, cursor: Key)
    requires IsPage(a, an, live, prefix, limit, cursor) && IsPage(b, bn, live, prefix, limit, cursor)
    ensures a == b && an == bn
  {
    if |a| <= |b| {
      SamePage(a, an, b, bn, live, prefix, limit, cursor);
    } else {
      SamePage(b, bn, a, an, live, prefix, limit, cursor);
    }
  }

  /** A page, told by positions and not by comparison: its keys, their order, and what it leaves for later. */
  lemma PageByPosition(page: seq<Key>, next: Key, live: set<Key>, prefix: Key, limit: nat, cursor: Key)
    requires IsPage(page, next, live, prefix, limit, cursor)
    ensures forall i, j :: 0 <= i < j < |page| ==> Before(page[i], page[j])
    ensures forall k :: k in page ==> k in live && prefix <= k && (cursor == [] || Before(cursor, k))
    ensures forall k :: k in live && prefix <= k && (cursor == [] || Before(cursor, k)) && k !in page ==>
              |page| == limit && forall p :: p in page ==> Before(p, k)
  {
    hide Less, Before;
    forall i, j | 0 <= i < j < |page|
      ensures Before(page[i], page[j])
    {
      LessIff(page[i], page[j]);
    }
    forall k
      ensures Less(cursor, k) <==> Before(cursor, k)
    {
      LessIff(cursor, k);
    }
    forall k | k in live && prefix <= k && (cursor == [] || Before(cursor, k)) && k !in page
      ensures |page| == limit && forall p :: p in page ==> Before(p, k)
    {
      assert Remains(k, page, live, prefix, cursor);
      forall p | p in page
        ensures Before(p, k)
      {
        LessIff(p, k);
      }
    }
  }

  // ------------------------------------------------------------- many pages

  /** One request of a client: the keys live at that moment, the limit asked for, and the answer. */
  datatype Visit = Visit(live: set<Key>, limit: nat, page: seq<Key>, next: Key)

  function CursorAt(vs: seq<Visit>, i: int): Key
    requires 0 <= i <= |vs|
  {
    if i == 0 then [] else vs[i - 1].next
  }

  /** A client that starts with no cursor and goes on with each cursor it is given, until an empty one. */
  ghost predicate Follows(vs: seq<Visit>, prefix: Key)
  {
    && (forall i :: 0 <= i < |vs| ==>
          IsPage(vs[i].page, vs[i].next, vs[i].live, prefix, vs[i].limit, CursorAt(vs, i)) && vs[i].limit >= 1)
    && (forall i :: 0 <= i < |vs| - 1 ==> vs[i].next != [])
  }

  /** All the keys received, in order. */
  function Received(vs: seq<Visit>): seq<Key>
  {
    if vs == [] then [] else Received(vs[..|vs| - 1]) + vs[|vs| - 1].page
  }

  ghost predicate NotAbove(s: seq<Key>, c: Key)
  {
    forall k :: k in s ==> k == c || Less(k, c)
  }

  lemma FollowsPrefix(vs: seq<Visit>, prefix: Key)
    requires Follows(vs, prefix) && vs != []
    ensures Follows(vs[..|vs| - 1], prefix)
  {
    hide IsPage;
    var front := vs[..|vs| - 1];
    forall i | 0 <= i < |front|
      ensures IsPage(front[i].page, front[i].next, front[i].live, prefix, front[i].limit, CursorAt(front, i))
    {
      assert CursorAt(front, i) == CursorAt(vs, i) && front[i] == vs[i];
    }
  }

  /** The last request of a client that follows the cursor. */
  lemma LastVisit(vs: seq<Visit>, prefix: Key)
    requires Follows(vs, prefix) && vs != []
    ensures var n := |vs| - 1;
            && Follows(vs[..n], prefix)
            && IsPage(vs[n].page, vs[n].next, vs[n].live, prefix, vs[n].limit, CursorAt(vs, n))
            && (n > 0 ==> CursorAt(vs, n) == vs[..n][n - 1].next != [])
  {
    hide IsPage;
    FollowsPrefix(vs, prefix);
  }

  lemma IncreasingConcat(a: seq<Key>, b: seq<Key>, c: Key)
    requires Increasing(a) && Increasing(b) && NotAbove(a, c)
    requires forall k :: k in b ==> Less(c, k)
    ensures Increasing(a + b)
  {
    hide Less;
    var s := a + b;
    forall i, j | 0 <= i < j < |s|
      ensures Less(s[i], s[j])
    {
      if i < |a| <= j {
        assert a[i] in a && b[j - |a|] in b;
        if a[i] != c {
          LessTransitive(a[i], c, b[j - |a|]);
        }
      }
    }
  }

  /** The last key of a page bounds the page. */
  lemma PageBelowNext(v: Visit, prefix: Key, cursor: Key)
    requires IsPage(v.page, v.next, v.live, prefix, v.limit, cursor) && v.next != []
    ensures NotAbove(v.page, v.next)
    ensures cursor != [] ==> Less(cursor, v.next)
  {
    hide Less, Remains;
    assert v.page[|v.page| - 1] in v.page;
    forall k | k in v.page
      ensures k == v.next || Less(k, v.next)
    {
      var i :| 0 <= i < |v.page| && v.page[i] == k;
    }
  }

  lemma AppendPage(seen: seq<Key>, v: Visit, prefix: Key, c: Key)
    requires IsPage(v.page, v.next, v.live, prefix, v.limit, c)
    requires Increasing(seen) && (if c == [] then seen == [] else NotAbove(seen, c))
    ensures Increasing(seen + v.page)
    ensures v.next != [] ==> NotAbove(seen + v.page, v.next)
  {
    hide Less;
    if c == [] {
      assert seen + v.page == v.page;
    } else {
      IncreasingConcat(seen, v.page, c);
    }
    if v.next != [] {
      PageBelowNext(v, prefix, c);
      forall k | k in seen + v.page
        ensures k == v.next || Less(k, v.next)
      {
        if k in seen && k != c {
          LessTransitive(k, c, v.next);
        }
      }
    }
  }

  lemma {:induction false} ReceivedIncreasing(vs: seq<Visit>, prefix: Key)
    requires Follows(vs, prefix)
    ensures Increasing(Received(vs))
    ensures vs != [] && vs[|vs| - 1].next != [] ==> NotAbove(Received(vs), vs[|vs| - 1].next)
  {
    if vs != [] {
      hide Follows, IsPage, Less, Increasing, NotAbove;
      var n := |vs| - 1;
      LastVisit(vs, prefix);
      ReceivedIncreasing(vs[..n], prefix);
      AppendPage(Received(vs[..n]), vs[n], prefix, CursorAt(vs, n));
    }
  }

  lemma PageOrAhead(v: Visit, prefix: Key, c: Key, k: Key)
    requires IsPage(v.page, v.next, v.live, prefix, v.limit, c) && !Misleading(v.live, prefix, v.limit, c)
    requires Matches(k, v.live, prefix, c)
    ensures k in v.page || (v.next != [] && Less(v.next, k))
  {
    hide Less;
    if k !in v.page {
      assert Remains(k, v.page, v.live, prefix, c);
      CursorNotEmpty(v.page, v.next, v.live, prefix, v.limit, c, k);
      assert v.page[|v.page| - 1] in v.page;
    }
  }

  /** The first answer is the misleading one. */
  ghost predicate Misled(vs: seq<Visit>, prefix: Key)
  {
    vs != [] && Misleading(vs[0].live, prefix, vs[0].limit, [])
  }

  lemma ReceivedSplit(vs: seq<Visit>)
    requires vs != []
    ensures Received(vs) == Received(vs[..|vs| - 1]) + vs[|vs| - 1].page
  {
  }

  lemma NextMatches(k: Key, live: set<Key>, prefix: Key, cursor: Key)
    requires k in live && prefix <= k && (cursor == [] || Less(cursor, k))
    ensures Matches(k, live, prefix, cursor)
  {
  }

  lemma StillNotMisled(vs: seq<Visit>, prefix: Key)
    requires vs != [] && !Misled(vs, prefix)
    requires |vs| > 1 ==> CursorAt(vs, |vs| - 1) != []
    ensures var n := |vs| - 1;
            !Misled(vs[..n], prefix) && !Misleading(vs[n].live, prefix, vs[n].limit, CursorAt(vs, n))
  {
  }

  /** The key is live in every state of the iteration. */
  ghost predicate AlwaysLive(vs: seq<Visit>, k: Key)
  {
    forall i :: 0 <= i < |vs| ==> k in vs[i].live
  }

  lemma AlwaysLiveBefore(vs: seq<Visit>, k: Key)
    requires AlwaysLive(vs, k) && vs != []
    ensures AlwaysLive(vs[..|vs| - 1], k) && k in vs[|vs| - 1].live
  {
  }

  /** A key is received, or still lies ahead of the cursor. */
  ghost predicate ReceivedOrComing(vs: seq<Visit>, k: Key)
  {
    k in Received(vs) || vs == [] || (vs[|vs| - 1].next != [] && Less(vs[|vs| - 1].next, k))
  }

  lemma OneMorePage(vs: seq<Visit>, prefix: Key, k: Key)
    requires vs != [] && ReceivedOrComing(vs[..|vs| - 1], k) && prefix <= k && k in vs[|vs| - 1].live
    requires var n := |vs| - 1;
             && IsPage(vs[n].page, vs[n].next, vs[n].live, prefix, vs[n].limit, CursorAt(vs, n))
             && !Misleading(vs[n].live, prefix, vs[n].limit, CursorAt(vs, n))
    ensures ReceivedOrComing(vs, k)
  {
    hide IsPage, Less, Misleading, Received;
    var n := |vs| - 1;
    ReceivedSplit(vs);
    if k !in Received(vs[..n]) {
      NextMatches(k, vs[n].live, prefix, CursorAt(vs, n));
      PageOrAhead(vs[n], prefix, CursorAt(vs, n), k);
    }
  }

  /** A key live through the whole iteration is received, or still lies ahead of the cursor. */
  lemma {:induction false} ReceivedOrAhead(vs: seq<Visit>, prefix: Key, k: Key)
    requires Follows(vs, prefix) && !Misled(vs, prefix) && prefix <= k && AlwaysLive(vs, k)
    ensures ReceivedOrComing(vs, k)
  {
    if vs != [] {
      hide Follows, IsPage, Misled, Misleading, AlwaysLive, ReceivedOrComing;
      LastVisit(vs, prefix);
      StillNotMisled(vs, prefix);
      AlwaysLiveBefore(vs, k);
      ReceivedOrAhead(vs[..|vs| - 1], prefix, k);
      OneMorePage(vs, prefix, k);
    }
  }

  /** Every matching key that was live in all the states has been received. */
  ghost predicate MissesNothing(vs: seq<Visit>, prefix: Key)
  {
    forall k :: prefix <= k && AlwaysLive(vs, k) ==> k in Received(vs)
  }

  /** A misled client stops after one page, and misses a key. */
  lemma MisledMisses(vs: seq<Visit>, prefix: Key)
    requires Follows(vs, prefix) && Misled(vs, prefix)
    ensures Received(vs) == [[]] && !MissesNothing(vs, prefix)
  {
    var v := vs[0];
    assert IsPage(v.page, v.next, v.live, prefix, v.limit, CursorAt(vs, 0));
    var k := MisleadingPage(v.page, v.next, v.live, prefix, v.limit, []);
    hide IsPage, Less;
    assert |vs| == 1;
    assert Received(vs[..0]) == [];
    assert k !in Received(vs);
  }

  /**
   Following the cursor over any sequence of store states yields strictly increasing keys, so none
   twice. Once the cursor comes back empty it has included every matching key that was live in
   all of them, if and only if the first answer was not misleading.
   */
  lemma IterationOverChangingStore(vs: seq<Visit>, prefix: Key)
    requires Follows(vs, prefix)
    ensures Increasing(Received(vs))
    ensures vs != [] && vs[|vs| - 1].next == [] ==> (MissesNothing(vs, prefix) <==> !Misled(vs, prefix))
  {
    hide IsPage, Less, Increasing, Misleading;
    ReceivedIncreasing(vs, prefix);
    if Misled(vs, prefix) {
      MisledMisses(vs, prefix);
    } else if vs != [] && vs[|vs| - 1].next == [] {
      forall k | prefix <= k && AlwaysLive(vs, k)
        ensures k in Received(vs)
      {
        ReceivedOrAhead(vs, prefix, k);
      }
    }
  }

  lemma {:induction false} ReceivedMatch(vs: seq<Visit>, prefix: Key, k: Key)
    requires Follows(vs, prefix) && k in Received(vs)
    ensures prefix <= k && exists i :: 0 <= i < |vs| && k in vs[i].live
  {
    var n := |vs| - 1;
    var v := vs[n];
    assert IsPage(v.page, v.next, v.live, prefix, v.limit, CursorAt(vs, n));
    if k in v.page {
      assert k in vs[n].live;
    } else {
      FollowsPrefix(vs, prefix);
      ReceivedMatch(vs[..n], prefix, k);
      var i :| 0 <= i < n && k in vs[..n][i].live;
      assert k in vs[i].live;
    }
  }

  /** Every page that hands out a cursor holds a key. */
  lemma {:induction false} ReceivedGrows(vs: seq<Visit>, prefix: Key)
    requires Follows(vs, prefix)
    ensures |vs| <= |Received(vs)| + 1
    ensures vs != [] && vs[|vs| - 1].next != [] ==> |vs| <= |Received(vs)|
  {
    if vs != [] {
      var n := |vs| - 1;
      FollowsPrefix(vs, prefix);
      ReceivedGrows(vs[..n], prefix);
      assert IsPage(vs[n].page, vs[n].next, vs[n].live, prefix, vs[n].limit, CursorAt(vs, n));
    }
  }

  lemma {:induction false} DistinctFit(s: seq<Key>, m: set<Key>)
    requires Increasing(s) && forall k :: k in s ==> k in m
    ensures |s| <= |m|
  {
    if s != [] {
      var n := |s| - 1;
      var front, last := s[..n], s[n];
      forall k | k in front
        ensures k in m - {last}
      {
        var i :| 0 <= i < n && front[i] == k;
        assert Less(s[i], s[n]);
        LessIrreflexive(last);
      }
      DistinctFit(front, m - {last});
      assert last in m;
    }
  }

  lemma AllOrSome(vs: seq<Visit>, prefix: Key, live: set<Key>)
    requires vs != [] && forall i :: 0 <= i < |vs| ==> vs[i].live == live
    ensures MissesNothing(vs, prefix) <==> forall k :: k in live && prefix <= k ==> k in Received(vs)
  {
    assert vs[0].live == live;
  }

  /**
   Over a store that does not change, the iteration ends within one page more than there are
   matching keys, and what it has received by then is in order and among those keys. It is all of
   them if and only if the first answer was not misleading.
   */
  lemma IterationOverFixedStore(vs: seq<Visit>, prefix: Key, live: set<Key>)
    requires Follows(vs, prefix) && forall i :: 0 <= i < |vs| ==> vs[i].live == live
    ensures var all := set k | k in live && prefix <= k;
            && |vs| <= |all| + 1
            && Increasing(Received(vs)) && (forall k :: k in Received(vs) ==> k in all)
            && (vs != [] && vs[|vs| - 1].next == [] ==>
                  ((forall k :: k in all ==> k in Received(vs)) <==> !Misled(vs, prefix)))
  {
    var all := set k | k in live && prefix <= k;
    hide IsPage, Less, Misleading;
    forall k | k in Received(vs)
      ensures k in all
    {
      ReceivedMatch(vs, prefix, k);
    }
    ReceivedIncreasing(vs, prefix);
    ReceivedGrows(vs, prefix);
    DistinctFit(Received(vs), all);
    if vs != [] && vs[|vs| - 1].next == [] {
      IterationOverChangingStore(vs, prefix);
      AllOrSome(vs, prefix, live);
    }
  }

  lemma EmptyKeyPage(none: Key, k: Key)
    requires none == [] && k != []
    ensures IsPage([none], none, {none, k}, none, 1, none)
  {
    var page, live := [none], {none, k};
    assert Remains(k, page, live, none, none);
    forall x | Remains(x, page, live, none, none)
      ensures x == k
    {
      assert page[0] == none;
    }
    assert Less(none, k);
  }

  /** A store of two keys, one of them empty: a client that asks for one key at a time misses the other. */
  lemma EmptyKeyMisleads(k: Key) returns (vs: seq<Visit>)
    requires k != []
    ensures Follows(vs, []) && vs != [] && vs[|vs| - 1].next == []
    ensures k in vs[0].live && Received(vs) == [[]]
  {
    hide IsPage, Less;
    var none: Key := [];
    EmptyKeyPage(none, k);
    vs := [Visit({none, k}, 1, [none], none)];
    MisledMisses(vs, []);
  }
}
