/** Ascending order on integer sequences, a functional sort, and list reversal.

    The scheduler sorts each partition of the request list ascending, then
    walks it forwards (C-SCAN, and the upward leg of SCAN) or backwards (the
    downward leg of SCAN). Sorting is specified as "sorted and the same
    multiset"; `SortedUnique` shows that this pins the result down, so the
    particular algorithm used here does not matter.
 */
module Sorting {

  /** Every element is at most every later element. */
  predicate Sorted(s: seq<int>) {
    forall i, j :: 0 <= i < j < |s| ==> s[i] <= s[j]
  }

  /** Every element is at least every later element. */
  predicate Descending(s: seq<int>) {
    forall i, j :: 0 <= i < j < |s| ==> s[i] >= s[j]
  }

  /** A value no larger than anything in a sorted sequence can go in front. */
  lemma SortedCons(x: int, s: seq<int>)
    requires Sorted(s) && forall i :: 0 <= i < |s| ==> x <= s[i]
    ensures Sorted([x] + s)
  {
  }

  /** Inserts `x` before the first element that is not smaller than it. */
  function Insert(x: int, s: seq<int>): (r: seq<int>)
    ensures multiset(r) == multiset(s) + multiset{x}
    ensures |r| == |s| + 1
  {
    if |s| == 0 then [x]
    else if x <= s[0] then [x] + s
    else
      assert s == [s[0]] + s[1..];
      [s[0]] + Insert(x, s[1..])
  }

  /** Insertion keeps a sorted sequence sorted. */
  lemma {:induction false} InsertSorted(x: int, s: seq<int>)
    requires Sorted(s)
    ensures Sorted(Insert(x, s))
    decreases |s|
  {
    if |s| > 0 && x > s[0] {
      var tail := Insert(x, s[1..]);
      InsertSorted(x, s[1..]);
      forall k | 0 <= k < |tail|
        ensures s[0] <= tail[k]
      {
        assert tail[k] in multiset(s[1..]) + multiset{x} by {
          assert tail[k] in multiset(tail);
        }
        if tail[k] != x {
          assert tail[k] in s[1..];
        }
      }
      SortedCons(s[0], tail);
    }
  }

  /** The ascending arrangement of `s` (Python's `sorted`), built by
      insertion. */
  function Sort(s: seq<int>): (r: seq<int>)
    ensures multiset(r) == multiset(s)
    ensures |r| == |s|
  {
    if |s| == 0 then []
    else
      assert s == [s[0]] + s[1..];
      Insert(s[0], Sort(s[1..]))
  }

  /** `Sort` does produce ascending order. */
  lemma {:induction false} SortSorted(s: seq<int>)
    ensures Sorted(Sort(s))
    decreases |s|
  {
    if |s| > 0 {
      SortSorted(s[1..]);
      InsertSorted(s[0], Sort(s[1..]));
    }
  }

  /** Sorting has exactly one outcome: any sorted rearrangement of `s` is
      `Sort(s)`. */
  lemma SortIsUnique(s: seq<int>, t: seq<int>)
    requires Sorted(t) && multiset(t) == multiset(s)
    ensures t == Sort(s)
  {
    SortSorted(s);
    SortedUnique(t, Sort(s));
  }

  /** The first element of a sorted sequence is its least. */
  lemma SortedHeadLeast(a: seq<int>, x: int)
    requires Sorted(a) && x in multiset(a)
    ensures |a| > 0 && a[0] <= x
  {
    assert x in a;
  }

  /** Dropping the first element removes one copy of it. */
  lemma TailElements(a: seq<int>)
    requires |a| > 0
    ensures a == [a[0]] + a[1..]
    ensures multiset(a[1..]) == multiset(a) - multiset{a[0]}
    ensures Sorted(a) ==> Sorted(a[1..])
  {
    assert a == [a[0]] + a[1..];
  }

  /** Two sorted sequences with the same elements are equal: sorting has
      exactly one possible outcome. */
  lemma {:induction false} SortedUnique(a: seq<int>, b: seq<int>)
    requires Sorted(a) && Sorted(b)
    requires multiset(a) == multiset(b)
    ensures a == b
    decreases |a|
  {
    assert |a| == |b| by {
      assert |multiset(a)| == |multiset(b)|;
    }
    if |a| > 0 {
      assert a[0] == b[0] by {
        SortedHeadLeast(a, b[0]);
        SortedHeadLeast(b, a[0]);
      }
      TailElements(a);
      TailElements(b);
      SortedUnique(a[1..], b[1..]);
    }
  }

  /** The elements of `s` last to first (Python's `s[::-1]`). */
  function Reverse(s: seq<int>): (r: seq<int>)
    ensures |r| == |s|
    ensures forall i :: 0 <= i < |s| ==> r[i] == s[|s| - 1 - i]
    ensures multiset(r) == multiset(s)
  {
    if |s| == 0 then []
    else
      assert s == [s[0]] + s[1..];
      Reverse(s[1..]) + [s[0]]
  }

  /** Reversing an ascending sequence gives a descending one. */
  lemma ReverseSortedDescends(s: seq<int>)
    requires Sorted(s)
    ensures Descending(Reverse(s))
  {
    var r := Reverse(s);
    forall i, j | 0 <= i < j < |r|
      ensures r[i] >= r[j]
    {
      assert r[i] == s[|s| - 1 - i] && r[j] == s[|s| - 1 - j];
    }
  }
}
