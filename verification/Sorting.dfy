/**
 The in-place quicksort of Scan: Lomuto partition around the last element.
 */
module Sorting {
  import opened Bytes
  import opened Lww

  predicate AtMost(a: Key, b: Key)
  {
    !Less(b, a)
  }

  lemma AtMostTransitive(a: Key, b: Key, c: Key)
    requires AtMost(a, b) && AtMost(b, c)
    ensures AtMost(a, c)
  {
    if Less(c, a) {
      LessTotal(a, b);
      if a != b {
        LessTransitive(c, a, b);
      }
    }
  }

  lemma LessAtMost(a: Key, b: Key)
    requires Less(a, b)
    ensures AtMost(a, b)
  {
    if Less(b, a) {
      LessTransitive(a, b, a);
      LessIrreflexive(a);
    }
  }

  ghost predicate Sorted(s: seq<Key>)
  {
    forall i, j :: 0 <= i < j < |s| ==> AtMost(s[i], s[j])
  }

  ghost predicate Within(x: Key, lo: Option<Key>, hi: Option<Key>)
  {
    (lo.Some? ==> AtMost(lo.value, x)) && (hi.Some? ==> AtMost(x, hi.value))
  }

  /** All elements from `low` to `high` lie between the bounds. */
  ghost predicate Bounded(a: array<Key>, low: int, high: int, lo: Option<Key>, hi: Option<Key>)
    requires 0 <= low && high < a.Length
    reads a
  {
    forall i :: low <= i <= high ==> Within(a[i], lo, hi)
  }

  /** An element on one side of a pivot within the bounds is within the bounds. */
  lemma Widen(y: Key, x: Key, lo: Option<Key>, hi: Option<Key>)
    requires Within(x, lo, hi)
    requires y == x || Within(y, lo, Some(x)) || Within(y, Some(x), hi)
    ensures Within(y, lo, hi)
  {
    hide AtMost;
    if hi.Some? && AtMost(y, x) {
      AtMostTransitive(y, x, hi.value);
    }
    if lo.Some? && AtMost(x, y) {
      AtMostTransitive(lo.value, x, y);
    }
  }

  lemma NotLessAtMost(a: Key, b: Key)
    requires !Less(a, b)
    ensures AtMost(b, a)
  {
  }

  method Swap(a: array<Key>, i: int, j: int)
    requires 0 <= i <= j < a.Length
    modifies a
    ensures a[i] == old(a[j]) && a[j] == old(a[i])
    ensures forall k :: 0 <= k < a.Length && k != i && k != j ==> a[k] == old(a[k])
    ensures multiset(a[..]) == multiset(old(a[..]))
  {
    a[i], a[j] := a[j], a[i];
  }

  /** The loop of the partition: what is below the pivot moves to the front, up to index `i`. */
  method Sweep(a: array<Key>, low: int, high: int, ghost lo: Option<Key>, ghost hi: Option<Key>) returns (i: int)
    requires 0 <= low < high < a.Length
    requires Bounded(a, low, high, lo, hi)
    modifies a
    ensures low - 1 <= i < high && a[high] == old(a[high])
    ensures Bounded(a, low, high, lo, hi)
    ensures forall k :: low <= k <= i ==> AtMost(a[k], a[high])
    ensures forall k :: i < k < high ==> AtMost(a[high], a[k])
    ensures forall k :: 0 <= k < a.Length && !(low <= k <= high) ==> a[k] == old(a[k])
    ensures multiset(a[..]) == multiset(old(a[..]))
  {
    hide AtMost, Less, Within;
    var pivot := a[high];
    i := low - 1;
    var j := low;
    while j < high
      invariant low - 1 <= i < j <= high
      invariant a[high] == pivot
      invariant Bounded(a, low, high, lo, hi)
      invariant forall k :: low <= k <= i ==> AtMost(a[k], pivot)
      invariant forall k :: i < k < j ==> AtMost(pivot, a[k])
      invariant forall k :: 0 <= k < a.Length && !(low <= k <= high) ==> a[k] == old(a[k])
      invariant multiset(a[..]) == multiset(old(a[..]))
    {
      if Less(a[j], pivot) {
        LessAtMost(a[j], pivot);
        i := i + 1;
        Swap(a, i, j);
      } else {
        NotLessAtMost(a[j], pivot);
      }
      j := j + 1;
    }
  }

  lemma Narrow(y: Key, x: Key, lo: Option<Key>, hi: Option<Key>)
    requires Within(y, lo, hi)
    ensures AtMost(y, x) ==> Within(y, lo, Some(x))
    ensures AtMost(x, y) ==> Within(y, Some(x), hi)
  {
  }

  method Partition(a: array<Key>, low: int, high: int, ghost lo: Option<Key>, ghost hi: Option<Key>) returns (p: int)
    requires 0 <= low < high < a.Length
    requires Bounded(a, low, high, lo, hi)
    modifies a
    ensures low <= p <= high
    ensures Within(a[p], lo, hi)
    ensures Bounded(a, low, p - 1, lo, Some(a[p]))
    ensures Bounded(a, p + 1, high, Some(a[p]), hi)
    ensures forall i :: 0 <= i < a.Length && !(low <= i <= high) ==> a[i] == old(a[i])
    ensures multiset(a[..]) == multiset(old(a[..]))
  {
    hide AtMost, Less, Within;
    var i := Sweep(a, low, high, lo, hi);
    Swap(a, i + 1, high);
    p := i + 1;
    forall k | low <= k < p
      ensures Within(a[k], lo, Some(a[p]))
    {
      Narrow(a[k], a[p], lo, hi);
    }
    forall k | p < k <= high
      ensures Within(a[k], Some(a[p]), hi)
    {
      Narrow(a[k], a[p], lo, hi);
    }
  }

  method QuickSort(a: array<Key>, low: int, high: int, ghost lo: Option<Key>, ghost hi: Option<Key>)
    requires 0 <= low <= high + 1 <= a.Length
    requires Bounded(a, low, high, lo, hi)
    modifies a
    ensures Bounded(a, low, high, lo, hi)
    ensures forall i, j :: low <= i < j <= high ==> AtMost(a[i], a[j])
    ensures forall i :: 0 <= i < a.Length && !(low <= i <= high) ==> a[i] == old(a[i])
    ensures multiset(a[..]) == multiset(old(a[..]))
    decreases high - low + 1
  {
    hide AtMost;
    if low < high {
      var p := Partition(a, low, high, lo, hi);
      ghost var x := a[p];
      QuickSort(a, low, p - 1, lo, Some(x));
      QuickSort(a, p + 1, high, Some(x), hi);
      forall i, j | low <= i < j <= high
        ensures AtMost(a[i], a[j])
      {
        if i < p < j {
          assert Within(a[i], lo, Some(x)) && Within(a[j], Some(x), hi);
          AtMostTransitive(a[i], x, a[j]);
        } else if j == p {
          assert Within(a[i], lo, Some(x));
        } else if i == p {
          assert Within(a[j], Some(x), hi);
        }
      }
      forall i | low <= i <= high
        ensures Within(a[i], lo, hi)
      {
        Widen(a[i], x, lo, hi);
      }
    }
  }

  method SortStrings(a: array<Key>)
    modifies a
    ensures Sorted(a[..])
    ensures forall i, j :: 0 <= i < j < a.Length ==> a[i] == a[j] || Before(a[i], a[j])
    ensures multiset(a[..]) == multiset(old(a[..]))
  {
    if a.Length < 2 {
      return;
    }
    QuickSort(a, 0, a.Length - 1, None, None);
    forall i, j | 0 <= i < j < a.Length
      ensures a[i] == a[j] || Before(a[i], a[j])
    {
      LessTotal(a[i], a[j]);
      LessIff(a[i], a[j]);
    }
  }
}
