/** SCAN and C-SCAN.

    Both split the requests around the head: those strictly below it and
    those at or above it, each sorted ascending. Both first climb through
    the upper half and touch the last cylinder `diskSize - 1`, whether or
    not anybody requested it. SCAN then walks the lower half downwards;
    C-SCAN jumps to cylinder 0 (also unconditionally) and climbs through
    the lower half again.
 */
module Sweep {
  import opened Sorting
  import opened Seek
  import opened Schedules

  /** Every element of `s` is below `bound`. */
  predicate AllBelow(s: seq<int>, bound: int) {
    forall i :: 0 <= i < |s| ==> s[i] < bound
  }

  /** Every element of `s` is at least `bound`. */
  predicate AllAtLeast(s: seq<int>, bound: int) {
    forall i :: 0 <= i < |s| ==> s[i] >= bound
  }

  /** Bounds on the elements survive rearrangement. */
  lemma SameElementsSameBounds(s: seq<int>, t: seq<int>, bound: int)
    requires multiset(s) == multiset(t)
    ensures AllBelow(s, bound) ==> AllBelow(t, bound)
    ensures AllAtLeast(s, bound) ==> AllAtLeast(t, bound)
  {
    forall i | 0 <= i < |t|
      ensures exists j :: 0 <= j < |s| && s[j] == t[i]
    {
      assert t[i] in multiset(s);
    }
  }

  /** The requests strictly below the head, in input order. */
  function Below(requests: seq<int>, head: int): (r: seq<int>)
    ensures AllBelow(r, head)
    ensures |r| <= |requests|
  {
    if |requests| == 0 then []
    else (if requests[0] < head then [requests[0]] else []) + Below(requests[1..], head)
  }

  /** The requests at or above the head, in input order. */
  function AtOrAbove(requests: seq<int>, head: int): (r: seq<int>)
    ensures AllAtLeast(r, head)
    ensures |r| <= |requests|
  {
    if |requests| == 0 then []
    else (if requests[0] >= head then [requests[0]] else []) + AtOrAbove(requests[1..], head)
  }

  /** The lower comprehension keeps exactly the requests below the head. */
  lemma {:induction false} BelowMembers(requests: seq<int>, head: int, x: int)
    ensures x in Below(requests, head) <==> x in requests && x < head
  {
    if |requests| > 0 {
      BelowMembers(requests[1..], head, x);
      assert x in requests <==> x == requests[0] || x in requests[1..] by {
        assert requests == [requests[0]] + requests[1..];
      }
    }
  }

  /** The upper comprehension keeps exactly the requests at or above the
      head. */
  lemma {:induction false} AtOrAboveMembers(requests: seq<int>, head: int, x: int)
    ensures x in AtOrAbove(requests, head) <==> x in requests && x >= head
  {
    if |requests| > 0 {
      AtOrAboveMembers(requests[1..], head, x);
      assert x in requests <==> x == requests[0] || x in requests[1..] by {
        assert requests == [requests[0]] + requests[1..];
      }
    }
  }

  /** The two comprehensions split the requests: each request lands in
      exactly one of them. */
  lemma {:induction false} PartitionKeepsRequests(requests: seq<int>, head: int)
    ensures multiset(Below(requests, head)) + multiset(AtOrAbove(requests, head)) == multiset(requests)
  {
    if |requests| > 0 {
      assert requests == [requests[0]] + requests[1..];
      PartitionKeepsRequests(requests[1..], head);
    }
  }

  /** `L` and `R` are the requests below and at-or-above the head, each in
      ascending order. */
  ghost predicate SweepSplit(requests: seq<int>, head: int, L: seq<int>, R: seq<int>) {
    && Sorted(L) && Sorted(R)
    && AllBelow(L, head) && AllAtLeast(R, head)
    && multiset(L) + multiset(R) == multiset(requests)
  }

  /** The requests below the head, ascending: one entry per below-head
      request, so never more than there are requests. That it is sorted and
      holds exactly those requests is `SweepSplitExists`. */
  function LowSweep(requests: seq<int>, head: int): (L: seq<int>)
    ensures |L| == |Below(requests, head)|
    ensures |L| <= |requests|
  {
    Sort(Below(requests, head))
  }

  /** The requests at or above the head, ascending: one entry per
      at-or-above request, so never more than there are requests. */
  function HighSweep(requests: seq<int>, head: int): (R: seq<int>)
    ensures |R| == |AtOrAbove(requests, head)|
    ensures |R| <= |requests|
  {
    Sort(AtOrAbove(requests, head))
  }

  /** Between them the two sweeps service every request exactly once. */
  lemma SweepsKeepRequests(requests: seq<int>, head: int)
    ensures multiset(LowSweep(requests, head)) + multiset(HighSweep(requests, head)) == multiset(requests)
    ensures |LowSweep(requests, head)| + |HighSweep(requests, head)| == |requests|
  {
    PartitionKeepsRequests(requests, head);
    var L, R := LowSweep(requests, head), HighSweep(requests, head);
    assert |multiset(L) + multiset(R)| == |multiset(requests)|;
  }

  /** The sorted partitions form a split of the requests. */
  lemma SweepSplitExists(requests: seq<int>, head: int)
    ensures SweepSplit(requests, head, LowSweep(requests, head), HighSweep(requests, head))
    ensures |LowSweep(requests, head)| + |HighSweep(requests, head)| == |requests|
  {
    var B, A := Below(requests, head), AtOrAbove(requests, head);
    var L, R := LowSweep(requests, head), HighSweep(requests, head);
    SweepsKeepRequests(requests, head);
    SortSorted(B);
    SortSorted(A);
    SameElementsSameBounds(B, L, head);
    SameElementsSameBounds(A, R, head);
  }

  /** How often each cylinder occurs in the two halves of a split. */
  lemma SplitCounts(requests: seq<int>, head: int, L: seq<int>, R: seq<int>, x: int)
    requires SweepSplit(requests, head, L, R)
    ensures multiset(L)[x] == if x < head then multiset(requests)[x] else 0
    ensures multiset(R)[x] == if x < head then 0 else multiset(requests)[x]
  {
    assert (multiset(L) + multiset(R))[x] == multiset(L)[x] + multiset(R)[x];
    if x < head {
      assert forall i :: 0 <= i < |R| ==> R[i] != x;
      assert x !in R;
    } else {
      assert forall i :: 0 <= i < |L| ==> L[i] != x;
      assert x !in L;
    }
  }

  /** The split of a request list around the head is unique. */
  lemma SweepSplitUnique(requests: seq<int>, head: int, L: seq<int>, R: seq<int>)
    requires SweepSplit(requests, head, L, R)
    ensures L == LowSweep(requests, head) && R == HighSweep(requests, head)
  {
    var L', R' := LowSweep(requests, head), HighSweep(requests, head);
    SweepSplitExists(requests, head);
    SplitsAgree(requests, head, L, R, L', R');
    SortedUnique(L, L');
    SortedUnique(R, R');
  }

  /** Two splits of the same requests around the same head hold the same
      lower halves and the same upper halves, up to order. */
  lemma SplitsAgree(requests: seq<int>, head: int, L: seq<int>, R: seq<int>, L': seq<int>, R': seq<int>)
    requires SweepSplit(requests, head, L, R) && SweepSplit(requests, head, L', R')
    ensures multiset(L) == multiset(L') && multiset(R) == multiset(R')
  {
    forall x
      ensures multiset(L)[x] == multiset(L')[x] && multiset(R)[x] == multiset(R')[x]
    {
      SplitCounts(requests, head, L, R, x);
      SplitCounts(requests, head, L', R', x);
    }
  }

  /** A sweep order holds the head, every request once, and the boundary
      cylinders it inserts. */
  lemma SweepLayoutKeepsRequests(requests: seq<int>, head: int, boundary: seq<int>, down: seq<int>)
    requires multiset(down) == multiset(LowSweep(requests, head))
    ensures var order := [head] + HighSweep(requests, head) + boundary + down;
      multiset(order) == multiset(requests) + multiset{head} + multiset(boundary)
  {
    SweepsKeepRequests(requests, head);
  }

  /** Regrouping the contents of a sweep order. */
  lemma BoundaryContents(head: int, requests: seq<int>, boundary: seq<int>)
    ensures multiset(requests) + multiset{head} + multiset(boundary) == multiset([head] + requests + boundary)
  {
    assert multiset([head] + requests + boundary) == multiset([head]) + multiset(requests) + multiset(boundary);
  }

  /** SCAN visits the head, every request exactly once, and the last
      cylinder. */
  lemma ScanVisitsEveryRequest(requests: seq<int>, head: int, diskSize: int)
    ensures multiset(Scan(requests, head, diskSize).order) == multiset([head] + requests + [diskSize - 1])
  {
    SweepLayoutKeepsRequests(requests, head, [diskSize - 1], Reverse(LowSweep(requests, head)));
    BoundaryContents(head, requests, [diskSize - 1]);
  }

  /** C-SCAN visits the head, every request exactly once, the last
      cylinder and cylinder 0. */
  lemma CScanVisitsEveryRequest(requests: seq<int>, head: int, diskSize: int)
    ensures multiset(CScan(requests, head, diskSize).order) == multiset([head] + requests + [diskSize - 1, 0])
  {
    SweepLayoutKeepsRequests(requests, head, [diskSize - 1, 0], LowSweep(requests, head));
    BoundaryContents(head, requests, [diskSize - 1, 0]);
  }

  /** Where the head and the boundary sit in a SCAN-shaped order. */
  lemma ScanShape(head: int, up: seq<int>, top: int, down: seq<int>)
    ensures var order := [head] + up + [top] + down;
      |order| == |up| + |down| + 2 && order[0] == head && order[|up| + 1] == top
  {
  }

  /** Where the head and the boundaries sit in a C-SCAN-shaped order. */
  lemma CScanShape(head: int, up: seq<int>, top: int, again: seq<int>)
    ensures var order := [head] + up + [top, 0] + again;
      && |order| == |up| + |again| + 3 && order[0] == head
      && order[|up| + 1] == top && order[|up| + 2] == 0 && order[|up| + 3..] == again
  {
    var order := [head] + up + [top, 0] + again;
    assert order[|up| + 3..] == again;
  }

  /** SCAN: sweep up through the requests at or above the head, touch the
      last cylinder, then sweep down through the rest. */
  function Scan(requests: seq<int>, head: int, diskSize: int): (s: Schedule)
    ensures |s.order| == |requests| + 2
    ensures s.order[0] == head
    ensures s.order[|HighSweep(requests, head)| + 1] == diskSize - 1
    ensures s.total == SeekCost(s.order)
  {
    var L, R := LowSweep(requests, head), HighSweep(requests, head);
    SweepsKeepRequests(requests, head);
    ScanShape(head, R, diskSize - 1, Reverse(L));
    var order := [head] + R + [diskSize - 1] + Reverse(L);
    Schedule(order, SeekCost(order))
  }

  /** C-SCAN: sweep up, touch the last cylinder, jump to cylinder 0, then
      sweep up through the requests below the head. */
  function CScan(requests: seq<int>, head: int, diskSize: int): (s: Schedule)
    ensures |s.order| == |requests| + 3
    ensures s.order[0] == head
    ensures var z := |HighSweep(requests, head)| + 2;
      s.order[z - 1] == diskSize - 1 && s.order[z] == 0 && s.order[z + 1..] == LowSweep(requests, head)
    ensures s.total == SeekCost(s.order)
  {
    var L, R := LowSweep(requests, head), HighSweep(requests, head);
    SweepsKeepRequests(requests, head);
    CScanShape(head, R, diskSize - 1, L);
    var order := [head] + R + [diskSize - 1, 0] + L;
    Schedule(order, SeekCost(order))
  }

  /** SCAN's order in terms of any sorted split of the requests. */
  lemma ScanOrder(requests: seq<int>, head: int, diskSize: int, L: seq<int>, R: seq<int>)
    requires SweepSplit(requests, head, L, R)
    ensures Scan(requests, head, diskSize).order == [head] + R + [diskSize - 1] + Reverse(L)
  {
    SweepSplitUnique(requests, head, L, R);
  }

  /** C-SCAN's order in terms of any sorted split of the requests. */
  lemma CScanOrder(requests: seq<int>, head: int, diskSize: int, L: seq<int>, R: seq<int>)
    requires SweepSplit(requests, head, L, R)
    ensures CScan(requests, head, diskSize).order == [head] + R + [diskSize - 1, 0] + L
  {
    SweepSplitUnique(requests, head, L, R);
  }

  /** SCAN's two sweeps run in opposite directions: ascending from the head
      through requests at or above it, then, after the last cylinder,
      descending through requests below it. */
  lemma ScanDirections(requests: seq<int>, head: int, diskSize: int)
    ensures var order, k := Scan(requests, head, diskSize).order, |HighSweep(requests, head)|;
      && Sorted(order[1..k + 1]) && AllAtLeast(order[1..k + 1], head)
      && Descending(order[k + 2..]) && AllBelow(order[k + 2..], head)
  {
    var L, R := LowSweep(requests, head), HighSweep(requests, head);
    SweepSplitExists(requests, head);
    ReverseSortedDescends(L);
    ReverseKeepsBound(L, head);
    SweepSlices(Scan(requests, head, diskSize).order, head, R, [diskSize - 1], Reverse(L));
  }

  /** After jumping to cylinder 0, C-SCAN climbs again, through requests
      below the head only. */
  lemma CScanDirections(requests: seq<int>, head: int, diskSize: int)
    ensures var order, k := CScan(requests, head, diskSize).order, |HighSweep(requests, head)|;
      && Sorted(order[1..k + 1]) && AllAtLeast(order[1..k + 1], head)
      && Sorted(order[k + 3..]) && AllBelow(order[k + 3..], head)
  {
    var L, R := LowSweep(requests, head), HighSweep(requests, head);
    SweepSplitExists(requests, head);
    SweepSlices(CScan(requests, head, diskSize).order, head, R, [diskSize - 1, 0], L);
  }

  /** The pieces of an order laid out as head, upward sweep, boundary
      cylinders and a final sweep. */
  lemma SweepSlices(order: seq<int>, head: int, up: seq<int>, boundary: seq<int>, rest: seq<int>)
    requires order == [head] + up + boundary + rest
    ensures order[1..|up| + 1] == up && order[|up| + 1 + |boundary|..] == rest
  {
  }

  /** A bound on every element survives reversal. */
  lemma ReverseKeepsBound(s: seq<int>, bound: int)
    requires AllBelow(s, bound)
    ensures AllBelow(Reverse(s), bound)
  {
  }

  /** Every request lies on the disk. */
  predicate OnDisk(requests: seq<int>, diskSize: int) {
    forall i :: 0 <= i < |requests| ==> 0 <= requests[i] < diskSize
  }

  /** On a disk holding every request, the sweeps stay on the disk. */
  lemma SweepsOnDisk(requests: seq<int>, head: int, diskSize: int)
    requires OnDisk(requests, diskSize)
    ensures AllAtLeast(LowSweep(requests, head), 0) && AllBelow(HighSweep(requests, head), diskSize)
  {
    var L, R := LowSweep(requests, head), HighSweep(requests, head);
    SweepSplitExists(requests, head);
    forall i | 0 <= i < |L|
      ensures 0 <= L[i]
    {
      SplitCounts(requests, head, L, R, L[i]);
      assert L[i] in multiset(L);
      assert L[i] in multiset(requests);
    }
    forall i | 0 <= i < |R|
      ensures R[i] < diskSize
    {
      SplitCounts(requests, head, L, R, R[i]);
      assert R[i] in multiset(R);
      assert R[i] in multiset(requests);
    }
  }

  /** The low sweep holds exactly the requests below the head. */
  lemma InLowSweep(requests: seq<int>, head: int, x: int)
    ensures x in LowSweep(requests, head) <==> x in requests && x < head
  {
    SweepSplitExists(requests, head);
    SplitCounts(requests, head, LowSweep(requests, head), HighSweep(requests, head), x);
    assert x in LowSweep(requests, head) <==> x in multiset(LowSweep(requests, head));
    assert x in requests <==> x in multiset(requests);
  }

  /** The low sweep starts at the lowest request below the head and ends at
      the highest one. */
  lemma LowSweepEnds(requests: seq<int>, head: int, m: int)
    requires m in requests && m < head
    ensures |LowSweep(requests, head)| > 0
    ensures (forall x :: x in requests ==> m <= x) ==> LowSweep(requests, head)[0] == m
    ensures (forall x :: x in requests && x < head ==> x <= m) ==>
      LowSweep(requests, head)[|LowSweep(requests, head)| - 1] == m
  {
    var L := LowSweep(requests, head);
    InLowSweep(requests, head, m);
    var j :| 0 <= j < |L| && L[j] == m;
    var first, last := L[0], L[|L| - 1];
    InLowSweep(requests, head, first);
    InLowSweep(requests, head, last);
    SortSorted(Below(requests, head));
    assert first <= m <= last;
  }

  /** A sorted run between a lower and an upper bound stays sorted with
      the bounds at its ends. */
  lemma Bracketed(low: int, s: seq<int>, high: int)
    requires Sorted(s) && AllAtLeast(s, low) && AllBelow(s, high + 1) && low <= high
    ensures Sorted([low] + s + [high])
  {
  }

  /** The climb `[head] + R + [diskSize - 1]` shared by both policies
      costs the distance from the head to the last cylinder. */
  lemma ClimbCost(requests: seq<int>, head: int, diskSize: int)
    requires 0 <= head < diskSize && OnDisk(requests, diskSize)
    ensures SeekCost([head] + HighSweep(requests, head) + [diskSize - 1]) == diskSize - 1 - head
  {
    var up := [head] + HighSweep(requests, head) + [diskSize - 1];
    assert Sorted(up) by {
      SweepSplitExists(requests, head);
      SweepsOnDisk(requests, head, diskSize);
      Bracketed(head, HighSweep(requests, head), diskSize - 1);
    }
    SeekCostAscending(up);
  }

  /** SCAN's descent through the low sweep costs its span. */
  lemma DescentCost(requests: seq<int>, head: int)
    requires |LowSweep(requests, head)| > 0
    ensures var L := LowSweep(requests, head);
      SeekCost(Reverse(L)) == L[|L| - 1] - L[0]
  {
    var L := LowSweep(requests, head);
    assert Descending(Reverse(L)) by {
      SortSorted(Below(requests, head));
      ReverseSortedDescends(L);
    }
    SeekCostDescending(Reverse(L));
  }

  /** C-SCAN's second climb, from cylinder 0 through the low sweep, ends at
      the highest request below the head. */
  lemma SecondClimbCost(requests: seq<int>, head: int, diskSize: int)
    requires OnDisk(requests, diskSize)
    ensures var L := LowSweep(requests, head);
      SeekCost([0] + L) == if |L| == 0 then 0 else L[|L| - 1]
  {
    var L := LowSweep(requests, head);
    assert Sorted([0] + L) by {
      SweepsOnDisk(requests, head, diskSize);
      SortSorted(Below(requests, head));
      SortedCons(0, L);
    }
    SeekCostAscending([0] + L);
  }

  /** No request below the head means an empty low sweep. */
  lemma NoneBelow(requests: seq<int>, head: int)
    requires forall x :: x in requests ==> x >= head
    ensures LowSweep(requests, head) == []
  {
    var L := LowSweep(requests, head);
    if |L| > 0 {
      InLowSweep(requests, head, L[0]);
    }
  }

  /** SCAN's total when no request lies below the head: the climb from the
      head to the last cylinder. */
  lemma ScanTotalNoneBelow(requests: seq<int>, head: int, diskSize: int)
    requires 0 <= head < diskSize && OnDisk(requests, diskSize)
    requires forall x :: x in requests ==> x >= head
    ensures Scan(requests, head, diskSize).total == diskSize - 1 - head
  {
    var up := [head] + HighSweep(requests, head) + [diskSize - 1];
    NoneBelow(requests, head);
    assert up + Reverse(LowSweep(requests, head)) == up;
    ClimbCost(requests, head, diskSize);
  }

  /** SCAN's total when some request lies below the head: the climb to the
      last cylinder plus the descent from there to the lowest request. */
  lemma ScanTotalSomeBelow(requests: seq<int>, head: int, diskSize: int, lowest: int)
    requires 0 <= head < diskSize && OnDisk(requests, diskSize)
    requires lowest in requests && lowest < head && forall x :: x in requests ==> lowest <= x
    ensures Scan(requests, head, diskSize).total == 2 * (diskSize - 1) - head - lowest
  {
    var L := LowSweep(requests, head);
    var up := [head] + HighSweep(requests, head) + [diskSize - 1];
    LowSweepEnds(requests, head, lowest);
    assert L[|L| - 1] < head by {
      SweepSplitExists(requests, head);
    }
    ClimbCost(requests, head, diskSize);
    DescentCost(requests, head);
    SeekCostAppend(up, Reverse(L));
  }

  /** C-SCAN's order costs its climb, the jump from the top back to
      cylinder 0, and its second climb. */
  lemma JumpBack(head: int, up: seq<int>, top: int, again: seq<int>)
    ensures SeekCost([head] + up + [top, 0] + again) ==
      SeekCost([head] + up + [top]) + Abs(0 - top) + SeekCost([0] + again)
  {
    assert [head] + up + [top, 0] + again == ([head] + up + [top]) + ([0] + again);
    SeekCostAppend([head] + up + [top], [0] + again);
  }

  /** C-SCAN's total when no request lies below the head: the climb to the
      last cylinder and the jump back to cylinder 0. */
  lemma CScanTotalNoneBelow(requests: seq<int>, head: int, diskSize: int)
    requires 0 <= head < diskSize && OnDisk(requests, diskSize)
    requires forall x :: x in requests ==> x >= head
    ensures CScan(requests, head, diskSize).total == 2 * (diskSize - 1) - head
  {
    JumpBack(head, HighSweep(requests, head), diskSize - 1, LowSweep(requests, head));
    ClimbCost(requests, head, diskSize);
    NoneBelow(requests, head);
    SecondClimbCost(requests, head, diskSize);
  }

  /** C-SCAN's total when some request lies below the head: the climb to the
      last cylinder, the jump back to 0, and the climb to the highest request
      below the head. */
  lemma CScanTotalSomeBelow(requests: seq<int>, head: int, diskSize: int, highest: int)
    requires 0 <= head < diskSize && OnDisk(requests, diskSize)
    requires highest in requests && highest < head
    requires forall x :: x in requests && x < head ==> x <= highest
    ensures CScan(requests, head, diskSize).total == 2 * (diskSize - 1) - head + highest
  {
    JumpBack(head, HighSweep(requests, head), diskSize - 1, LowSweep(requests, head));
    ClimbCost(requests, head, diskSize);
    LowSweepEnds(requests, head, highest);
    SecondClimbCost(requests, head, diskSize);
  }
}
