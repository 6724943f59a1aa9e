/** Shortest-seek-time-first.

    From the current position SSTF repeatedly services the pending request
    of least distance. Ties go to the earliest such request in the pending
    list, because the choice is a left-to-right scan that only replaces the
    best-so-far on a strictly smaller distance; the serviced value is then
    removed at its first occurrence, which is that same entry. SSTF works on
    its own copy of the list.
 */
module ShortestSeekFirst {
  import opened Seek
  import opened Schedules

  function Dist(x: int, current: int): nat {
    Abs(x - current)
  }

  /** True when `reqs[i]` is at least as close to `current` as every
      request, and strictly closer than every request before it. */
  ghost predicate FirstNearestAt(reqs: seq<int>, current: int, i: int) {
    && 0 <= i < |reqs|
    && (forall j :: 0 <= j < |reqs| ==> Dist(reqs[i], current) <= Dist(reqs[j], current))
    && (forall j :: 0 <= j < i ==> Dist(reqs[i], current) < Dist(reqs[j], current))
  }

  /** The minimum-by-key scan: walk left to right from index `k`,
      replacing the best-so-far only on a strictly smaller distance. */
  function ScanForNearest(reqs: seq<int>, current: int, best: nat, k: nat): (i: nat)
    requires best < k <= |reqs|
    ensures best <= i < |reqs|
    ensures Dist(reqs[i], current) <= Dist(reqs[best], current)
    decreases |reqs| - k
  {
    if k == |reqs| then best
    else if Dist(reqs[k], current) < Dist(reqs[best], current) then ScanForNearest(reqs, current, k, k + 1)
    else ScanForNearest(reqs, current, best, k + 1)
  }

  /** If `best` is the first nearest among the first `k` requests, the scan
      ends on the first nearest of them all. */
  lemma {:induction false} ScanFindsFirstNearest(reqs: seq<int>, current: int, best: nat, k: nat)
    requires best < k <= |reqs|
    requires forall j :: 0 <= j < k ==> Dist(reqs[best], current) <= Dist(reqs[j], current)
    requires forall j :: 0 <= j < best ==> Dist(reqs[best], current) < Dist(reqs[j], current)
    ensures FirstNearestAt(reqs, current, ScanForNearest(reqs, current, best, k))
    decreases |reqs| - k
  {
    if k < |reqs| {
      if Dist(reqs[k], current) < Dist(reqs[best], current) {
        ScanFindsFirstNearest(reqs, current, k, k + 1);
      } else {
        ScanFindsFirstNearest(reqs, current, best, k + 1);
      }
    }
  }

  /** Index of the request SSTF services next from `current`. */
  function NearestIndex(reqs: seq<int>, current: int): (i: nat)
    requires |reqs| > 0
    ensures i < |reqs|
  {
    ScanForNearest(reqs, current, 0, 1)
  }

  /** The chosen index holds the earliest request of least distance. */
  lemma NearestIndexIsFirstNearest(reqs: seq<int>, current: int)
    requires |reqs| > 0
    ensures FirstNearestAt(reqs, current, NearestIndex(reqs, current))
  {
    ScanFindsFirstNearest(reqs, current, 0, 1);
  }

  /** Only one index can be the earliest of least distance. */
  lemma FirstNearestUnique(reqs: seq<int>, current: int, i: int, j: int)
    requires FirstNearestAt(reqs, current, i) && FirstNearestAt(reqs, current, j)
    ensures i == j
  {
    assert Dist(reqs[i], current) == Dist(reqs[j], current);
  }

  /** The first position holding `x`. */
  function IndexOf(s: seq<int>, x: int): (i: nat)
    requires x in s
    ensures i < |s| && s[i] == x
    ensures forall j :: 0 <= j < i ==> s[j] != x
  {
    if s[0] == x then 0 else 1 + IndexOf(s[1..], x)
  }

  /** Deletes the first occurrence of `x`. */
  function RemoveFirst(s: seq<int>, x: int): (r: seq<int>)
    requires x in s
    ensures |r| == |s| - 1
    ensures forall j :: 0 <= j < IndexOf(s, x) ==> r[j] == s[j]
    ensures forall j :: IndexOf(s, x) <= j < |r| ==> r[j] == s[j + 1]
  {
    var i := IndexOf(s, x);
    s[..i] + s[i + 1..]
  }

  /** Removing a value takes away exactly one copy of it. */
  lemma RemoveFirstTakesOne(s: seq<int>, x: int)
    requires x in s
    ensures multiset(RemoveFirst(s, x)) + multiset{x} == multiset(s)
  {
    var i := IndexOf(s, x);
    assert s == s[..i] + [x] + s[i + 1..];
  }

  /** Removing the value at an index where it first occurs removes exactly
      that index. */
  lemma RemoveFirstAt(s: seq<int>, i: int)
    requires 0 <= i < |s|
    requires forall j :: 0 <= j < i ==> s[j] != s[i]
    ensures RemoveFirst(s, s[i]) == s[..i] + s[i + 1..]
  {
    var k := IndexOf(s, s[i]);
    assert k == i;
  }

  /** The request SSTF services next from `current`. */
  function SstfNext(reqs: seq<int>, current: int): (x: int)
    requires |reqs| > 0
    ensures x in reqs
  {
    reqs[NearestIndex(reqs, current)]
  }

  /** No pending request is closer than the one SSTF services next. */
  lemma SstfNextIsNearest(reqs: seq<int>, current: int)
    requires |reqs| > 0
    ensures forall y :: y in reqs ==> Dist(SstfNext(reqs, current), current) <= Dist(y, current)
  {
    NearestIndexIsFirstNearest(reqs, current);
  }

  /** The requests in the order SSTF services them, starting from `current`. */
  function SstfPath(reqs: seq<int>, current: int): (path: seq<int>)
    ensures |path| == |reqs|
    decreases |reqs|
  {
    if |reqs| == 0 then []
    else
      var nearest := SstfNext(reqs, current);
      [nearest] + SstfPath(RemoveFirst(reqs, nearest), nearest)
  }

  /** SSTF services every request exactly once. */
  lemma {:induction false} SstfPathPermutes(reqs: seq<int>, current: int)
    ensures multiset(SstfPath(reqs, current)) == multiset(reqs)
    decreases |reqs|
  {
    if |reqs| > 0 {
      var nearest := SstfNext(reqs, current);
      var rest := RemoveFirst(reqs, nearest);
      SstfPathPermutes(rest, nearest);
      RemoveFirstTakesOne(reqs, nearest);
      assert SstfPath(reqs, current) == [nearest] + SstfPath(rest, nearest);
    }
  }

  /** Shortest-seek-time-first: the head, then the requests in the order
      `SstfPath` services them. */
  function Sstf(requests: seq<int>, head: int): (s: Schedule)
    ensures |s.order| == |requests| + 1
    ensures s.order[0] == head && s.order[1..] == SstfPath(requests, head)
    ensures s.total == SeekCost(s.order)
  {
    var order := [head] + SstfPath(requests, head);
    assert order[1..] == SstfPath(requests, head);
    Schedule(order, SeekCost(order))
  }

  /** SSTF visits the head and every request exactly once. */
  lemma SstfVisitsEveryRequest(requests: seq<int>, head: int)
    ensures multiset(Sstf(requests, head).order) == multiset([head] + requests)
  {
    var path := SstfPath(requests, head);
    SstfPathPermutes(requests, head);
    assert Sstf(requests, head).order == [head] + path;
    assert multiset([head] + path) == multiset([head]) + multiset(path);
    assert multiset([head] + requests) == multiset([head]) + multiset(requests);
  }

  /** One greedy step: SSTF first services the earliest request of least
      distance, removes exactly that entry, and continues from there. */
  lemma SstfStep(reqs: seq<int>, current: int, i: int)
    requires FirstNearestAt(reqs, current, i)
    ensures SstfPath(reqs, current) == [reqs[i]] + SstfPath(reqs[..i] + reqs[i + 1..], reqs[i])
  {
    NearestIndexIsFirstNearest(reqs, current);
    FirstNearestUnique(reqs, current, NearestIndex(reqs, current), i);
    forall j | 0 <= j < i
      ensures reqs[j] != reqs[i]
    {
      assert Dist(reqs[i], current) < Dist(reqs[j], current);
    }
    RemoveFirstAt(reqs, i);
  }

  /** At step `k` of `path`, the request serviced is one of those still
      pending, and no pending request is closer to the previous position. */
  ghost predicate GreedyAt(reqs: seq<int>, head: int, path: seq<int>, k: int)
    requires 0 <= k < |path|
  {
    var prev := if k == 0 then head else path[k - 1];
    var pending := multiset(reqs) - multiset(path[..k]);
    && path[k] in pending
    && forall y :: y in pending ==> Dist(path[k], prev) <= Dist(y, prev)
  }

  /** Serving `x` first and then `served` leaves what serving `served` from
      the rest leaves. */
  lemma CancelServed(rest: multiset<int>, served: multiset<int>, x: int)
    ensures (rest + multiset{x}) - (multiset{x} + served) == rest - served
  {
    forall y
      ensures ((rest + multiset{x}) - (multiset{x} + served))[y] == (rest - served)[y]
    {
    }
  }

  /** The first `k` entries of `[x] + t` are `x` and the first `k - 1` of `t`. */
  lemma ServedPrefix(x: int, t: seq<int>, k: int)
    requires 0 < k <= |t| + 1
    ensures multiset(([x] + t)[..k]) == multiset{x} + multiset(t[..k - 1])
  {
    assert ([x] + t)[..k] == [x] + t[..k - 1];
  }

  /** Servicing `start` first and then following `tail` over the rest: a
      greedy step of `tail` over the rest is a greedy step of the whole. */
  lemma GreedyAtCons(reqs: seq<int>, head: int, rest: seq<int>, start: int, tail: seq<int>, k: int)
    requires 0 < k <= |tail|
    requires multiset(reqs) == multiset(rest) + multiset{start}
    requires GreedyAt(rest, start, tail, k - 1)
    ensures GreedyAt(reqs, head, [start] + tail, k)
  {
    var path := [start] + tail;
    assert path[k] == tail[k - 1];
    assert path[k - 1] == (if k == 1 then start else tail[k - 2]);
    assert multiset(reqs) - multiset(path[..k]) == multiset(rest) - multiset(tail[..k - 1]) by {
      ServedPrefix(start, tail, k);
      CancelServed(multiset(rest), multiset(tail[..k - 1]), start);
    }
  }

  /** The first step of SSTF is a nearest-pending choice. */
  lemma SstfGreedyFirst(reqs: seq<int>, head: int)
    requires |reqs| > 0
    ensures GreedyAt(reqs, head, SstfPath(reqs, head), 0)
  {
    var path := SstfPath(reqs, head);
    SstfNextIsNearest(reqs, head);
    assert path[..0] == [];
    assert multiset(reqs) - multiset(path[..0]) == multiset(reqs);
  }

  /** Every step of the SSTF order is a nearest-pending choice. */
  lemma {:induction false} SstfGreedy(reqs: seq<int>, head: int)
    ensures forall k :: 0 <= k < |reqs| ==> GreedyAt(reqs, head, SstfPath(reqs, head), k)
    decreases |reqs|
  {
    if |reqs| > 0 {
      var nearest := SstfNext(reqs, head);
      var rest := RemoveFirst(reqs, nearest);
      var tail := SstfPath(rest, nearest);
      SstfGreedy(rest, nearest);
      assert SstfPath(reqs, head) == [nearest] + tail;
      RemoveFirstTakesOne(reqs, nearest);
      forall k | 0 <= k < |reqs|
        ensures GreedyAt(reqs, head, SstfPath(reqs, head), k)
      {
        if k == 0 {
          SstfGreedyFirst(reqs, head);
        } else {
          GreedyAtCons(reqs, head, rest, nearest, tail, k);
        }
      }
    }
  }
}
