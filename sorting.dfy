/**
 * The in-place sorts and the searches of the sorting benchmark, on a range
 * [first, last) of an array of `int`. Iterators into the range are indices.
 */
module Sorting {
  import opened CLib

  /** The elements of `s` in [lo, hi) are in ascending order. */
  ghost predicate SortedRange(s: seq<int>, lo: int, hi: int)
    requires 0 <= lo <= hi <= |s|
  {
    forall i, j :: lo <= i < j < hi ==> s[i] <= s[j]
  }

  /** `s` is `t` with the elements in [lo, hi) rearranged and the rest untouched. */
  ghost predicate Rearranged(s: seq<int>, t: seq<int>, lo: int, hi: int)
    requires 0 <= lo <= hi <= |s| == |t|
  {
    s[..lo] == t[..lo] && s[hi..] == t[hi..] && multiset(s[lo..hi]) == multiset(t[lo..hi])
  }

  /** The elements outside [lo, hi) are as they were, and the multiset of all of them too. */
  ghost predicate Shuffled(s: seq<int>, t: seq<int>, lo: int, hi: int)
    requires 0 <= lo <= hi <= |s| == |t|
  {
    (forall k :: 0 <= k < |s| && !(lo <= k < hi) ==> s[k] == t[k]) && multiset(s) == multiset(t)
  }

  /** Untouched ends and an unchanged multiset of the whole array give an unchanged multiset of the range. */
  lemma ShuffledRearranged(s: seq<int>, t: seq<int>, lo: int, hi: int)
    requires 0 <= lo <= hi <= |s| == |t|
    requires Shuffled(s, t, lo, hi)
    ensures Rearranged(s, t, lo, hi)
  {
    assert s[..lo] == t[..lo];
    assert s[hi..] == t[hi..];
    assert s == s[..lo] + s[lo..hi] + s[hi..];
    assert t == t[..lo] + t[lo..hi] + t[hi..];
    calc {
      multiset(s[lo..hi]);
      multiset(s) - multiset(s[..lo]) - multiset(s[hi..]);
      multiset(t) - multiset(t[..lo]) - multiset(t[hi..]);
      multiset(t[lo..hi]);
    }
  }

  /** Exchanges two elements: the temporary-variable swap the sorts share. */
  method Swap(a: array<int>, i: nat, j: nat)
    requires i < a.Length && j < a.Length
    modifies a
    ensures a[i] == old(a[j]) && a[j] == old(a[i])
    ensures forall k :: 0 <= k < a.Length && k != i && k != j ==> a[k] == old(a[k])
    ensures multiset(a[..]) == multiset(old(a[..]))
  {
    a[i], a[j] := a[j], a[i];
  }

  /**
   * bubble_sort(first, last): pass after pass over a shrinking prefix,
   * swapping neighbours that are out of order; each pass carries the
   * largest remaining element to the end of the prefix.
   */
  method BubbleSort(a: array<int>, first: nat, last: nat)
    requires first <= last <= a.Length
    modifies a
    ensures SortedRange(a[..], first, last) && Rearranged(a[..], old(a[..]), first, last)
  {
    var it := first;
    while it != last
      invariant first <= it <= last
      invariant Shuffled(a[..], old(a[..]), first, last)
      invariant SortedRange(a[..], last - (it - first), last)
      invariant forall x, y :: first <= x < last - (it - first) <= y < last ==> a[x] <= a[y]
    {
      var bound := last - (it - first) - 1;
      ghost var before := a[..];
      BubblePass(a, first, bound, last);
      assert Shuffled(a[..], before, first, last);
      it := it + 1;
    }
    ShuffledRearranged(a[..], old(a[..]), first, last);
  }

  /** One pass of bubble_sort over [first, bound]: afterwards a[bound] is the largest there. */
  method BubblePass(a: array<int>, first: nat, bound: nat, last: nat)
    requires first <= bound < last <= a.Length
    requires forall x, y :: first <= x <= bound < y < last ==> a[x] <= a[y]
    modifies a
    ensures Shuffled(a[..], old(a[..]), first, bound + 1)
    ensures forall x, y :: first <= x <= bound < y < last ==> a[x] <= a[y]
    ensures forall x :: first <= x <= bound ==> a[x] <= a[bound]
  {
    var jt := first;
    while jt != bound
      invariant first <= jt <= bound
      invariant Shuffled(a[..], old(a[..]), first, bound + 1)
      invariant forall x, y :: first <= x <= bound < y < last ==> a[x] <= a[y]
      invariant forall x :: first <= x <= jt ==> a[x] <= a[jt]
    {
      if a[jt] > a[jt + 1] {
        Swap(a, jt, jt + 1);
      }
      jt := jt + 1;
    }
  }

  /**
   * selection_sort(first, last): for each position in turn, the smallest
   * element from there to the end is found and swapped into it.
   */
  method SelectionSort(a: array<int>, first: nat, last: nat)
    requires first <= last <= a.Length
    modifies a
    ensures SortedRange(a[..], first, last) && Rearranged(a[..], old(a[..]), first, last)
  {
    var it := first;
    while it != last
      invariant first <= it <= last
      invariant Shuffled(a[..], old(a[..]), first, last)
      invariant SortedRange(a[..], first, it)
      invariant forall x, y :: first <= x < it <= y < last ==> a[x] <= a[y]
    {
      var smallest := Smallest(a, it, last);
      Swap(a, it, smallest);
      it := it + 1;
    }
    ShuffledRearranged(a[..], old(a[..]), first, last);
  }

  /** The inner loop of selection_sort: the position of the first smallest element of [from, last). */
  method Smallest(a: array<int>, from: nat, last: nat) returns (smallest: nat)
    requires from < last <= a.Length
    ensures from <= smallest < last
    ensures forall k :: from <= k < last ==> a[smallest] <= a[k]
    ensures forall k :: from <= k < smallest ==> a[smallest] < a[k]
  {
    smallest := from;
    var jt := from + 1;
    while jt != last
      invariant from < jt <= last && from <= smallest < jt
      invariant forall k :: from <= k < jt ==> a[smallest] <= a[k]
      invariant forall k :: from <= k < smallest ==> a[smallest] < a[k]
    {
      if a[jt] < a[smallest] {
        smallest := jt;
      }
      jt := jt + 1;
    }
  }

  /**
   * insertion_sort(first, last): each element after the first is taken out
   * and the larger elements before it shift one place right until its
   * place is free. The first step reads position first + 1, so the range
   * must not be empty.
   */
  method InsertionSort(a: array<int>, first: nat, last: nat)
    requires first < last <= a.Length
    modifies a
    ensures SortedRange(a[..], first, last) && Rearranged(a[..], old(a[..]), first, last)
  {
    var it := first + 1;
    while it != last
      invariant first < it <= last
      invariant Shuffled(a[..], old(a[..]), first, last)
      invariant SortedRange(a[..], first, it)
    {
      ghost var before := a[..];
      InsertOne(a, first, it);
      assert Shuffled(a[..], before, first, last);
      it := it + 1;
    }
    ShuffledRearranged(a[..], old(a[..]), first, last);
  }

  /** One step of insertion_sort: a[it] goes into its place in the sorted [first, it). */
  method InsertOne(a: array<int>, first: nat, it: nat)
    requires first < it < a.Length && SortedRange(a[..], first, it)
    modifies a
    ensures Shuffled(a[..], old(a[..]), first, it + 1)
    ensures SortedRange(a[..], first, it + 1)
  {
    ghost var b := a[..];
    var key := a[it];
    var j := ShiftLarger(a, first, it, key);
    a[j + 1] := key;
    InsertStep(b, a[..], first, it, j + 1);
  }

  /**
   * The inner loop of insertion_sort: the elements of [first, it) larger
   * than `key` move one place right; the result is the position just
   * before the place they leave free.
   */
  method ShiftLarger(a: array<int>, first: nat, it: nat, key: int) returns (j: int)
    requires first < it < a.Length && a[it] == key
    modifies a
    ensures first - 1 <= j < it && (j >= first ==> a[j] <= key)
    ensures forall k :: 0 <= k <= j || it < k < a.Length ==> a[k] == old(a[k])
    ensures forall k :: j + 2 <= k <= it ==> a[k] == old(a[k - 1]) && a[k] > key
  {
    j := it - 1;
    while j >= first && a[j] > key
      invariant first - 1 <= j < it
      invariant forall k :: 0 <= k <= j || it < k < a.Length ==> a[k] == old(a[k])
      invariant forall k :: j + 2 <= k <= it ==> a[k] == old(a[k - 1]) && a[k] > key
    {
      a[j + 1] := a[j];
      j := j - 1;
    }
  }

  /**
   * What one insertion_sort step leaves: b[it] at p, the elements of
   * [p, it) one place further right and all else in place, which is a
   * rearrangement of [first, it] and, when b[p - 1] <= b[it] and the moved
   * elements are larger, sorted there.
   */
  lemma InsertStep(b: seq<int>, c: seq<int>, first: int, it: int, p: int)
    requires 0 <= first <= p <= it < |b| == |c| && SortedRange(b, first, it)
    requires forall k :: 0 <= k < p || it < k < |c| ==> c[k] == b[k]
    requires c[p] == b[it] && (p > first ==> b[p - 1] <= b[it])
    requires forall k :: p < k <= it ==> c[k] == b[k - 1] && c[k] > b[it]
    ensures Shuffled(c, b, first, it + 1) && SortedRange(c, first, it + 1)
  {
    InsertMultiset(b, c, p, it);
    InsertSorted(b, c, first, it, p);
  }

  lemma InsertMultiset(b: seq<int>, c: seq<int>, p: int, it: int)
    requires 0 <= p <= it < |b| == |c|
    requires forall k :: 0 <= k < p || it < k < |c| ==> c[k] == b[k]
    requires c[p] == b[it] && forall k :: p < k <= it ==> c[k] == b[k - 1]
    ensures multiset(c) == multiset(b)
  {
    assert c == b[..p] + [b[it]] + b[p..it] + b[it + 1..];
    assert b == b[..p] + b[p..it] + [b[it]] + b[it + 1..];
  }

  lemma InsertSorted(b: seq<int>, c: seq<int>, first: int, it: int, p: int)
    requires 0 <= first <= p <= it < |b| == |c| && SortedRange(b, first, it)
    requires forall k :: first <= k < p ==> c[k] == b[k]
    requires c[p] == b[it] && (p > first ==> b[p - 1] <= b[it])
    requires forall k :: p < k <= it ==> c[k] == b[k - 1] && c[k] > b[it]
    ensures SortedRange(c, first, it + 1)
  {
  }

  /**
   * seq_search(first, last, target): walks from first until the target is
   * found; the first matching position, or last when there is none.
   */
  method SeqSearch(a: array<int>, first: nat, last: nat, target: int) returns (r: nat)
    requires first <= last <= a.Length
    ensures first <= r <= last
    ensures r < last ==> a[r] == target
    ensures forall k :: first <= k < r ==> a[k] != target
  {
    var current := first;
    var found := false;
    while current < last && !found
      invariant first <= current <= last
      decreases last - current, !found
      invariant found ==> current < last && a[current] == target
      invariant forall k :: first <= k < current ==> a[k] != target
    {
      if a[current] == target {
        found := true;
      } else {
        current := current + 1;
      }
    }
    r := if found then current else last;
  }

  /**
   * The positions bin_search probes, as written: the range is half-open,
   * but a probe that is too large sets last to mid - 1, dropping the
   * element just below mid from the search.
   */
  function BinSearchFrom(s: seq<int>, first: int, last: int, target: int): (r: Option<int>)
    requires 0 <= first && last <= |s|
    ensures r.Some? ==> first <= r.value < last && s[r.value] == target
    decreases last - first
  {
    if first >= last then None
    else
      var mid := first + (last - first) / 2;
      if s[mid] == target then Some(mid)
      else if s[mid] > target then BinSearchFrom(s, first, mid - 1, target)
      else BinSearchFrom(s, mid + 1, last, target)
  }

  /**
   * bin_search(first, last, target) as written: the probed position
   * holding the target, or the original last when the probes miss it.
   */
  method BinSearchAsWritten(a: array<int>, first: nat, last: nat, target: int) returns (r: int)
    requires first <= last <= a.Length
    ensures r == (match BinSearchFrom(a[..], first, last, target) case Some(m) => m case None => last)
    ensures r != last ==> first <= r < last && a[r] == target
  {
    var found := false;
    var mid := first;
    var lo: int, hi: int := first, last;
    while lo < hi && !found
      invariant first <= lo && hi <= last
      invariant found ==> lo <= mid < hi && a[mid] == target && BinSearchFrom(a[..], first, last, target) == Some(mid)
      invariant !found ==> BinSearchFrom(a[..], lo, hi, target) == BinSearchFrom(a[..], first, last, target)
      decreases if found then 0 else hi - lo + 1
    {
      mid := lo + (hi - lo) / 2;
      if a[mid] == target {
        found := true;
      } else if a[mid] > target {
        hi := mid - 1;
      } else {
        lo := mid + 1;
      }
    }
    r := if found then mid else last;
  }

  /** On the sorted range [1, 2], bin_search as written misses 1, which is there. */
  lemma BinSearchAsWrittenMisses()
    ensures SortedRange([1, 2], 0, 2)
    ensures [1, 2][0] == 1 && BinSearchFrom([1, 2], 0, 2, 1) == None
  {
    assert BinSearchFrom([1, 2], 0, 0, 1) == None;
  }

  /**
   * bin_search with `last = mid`, which keeps the range half-open: on a
   * sorted range it finds the target exactly when the target is there.
   */
  method BinSearch(a: array<int>, first: nat, last: nat, target: int) returns (r: nat)
    requires first <= last <= a.Length
    ensures r != last ==> first <= r < last && a[r] == target
    ensures SortedRange(a[..], first, last) ==>
      (r == last <==> forall k :: first <= k < last ==> a[k] != target)
  {
    var found := false;
    var mid := first;
    var lo, hi := first, last;
    while lo < hi && !found
      invariant first <= lo <= hi <= last
      invariant found ==> first <= mid < last && a[mid] == target
      invariant SortedRange(a[..], first, last) ==>
        forall k :: first <= k < last && !(lo <= k < hi) ==> a[k] != target
      decreases hi - lo, !found
    {
      mid := lo + (hi - lo) / 2;
      if a[mid] == target {
        found := true;
      } else if a[mid] > target {
        hi := mid;
      } else {
        lo := mid + 1;
      }
    }
    r := if found then mid else last;
  }
}
