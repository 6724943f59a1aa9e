/** Seek cost: the total head movement along a visit order.

    Every policy reports the sum of `|order[i] - order[i-1]|` over the
    consecutive pairs of its visit order. `SeekCost` is that sum, taken over
    the order from front to back. `AccumulateSeek` models C-SCAN's
    explicit running-total loop and is proved to compute the
    same number.
 */
module Seek {
  import opened Sorting

  function Abs(x: int): nat {
    if x < 0 then -x else x
  }

  /** Sum of the distances between consecutive entries of `order`: an
      order with at most one entry costs nothing. */
  function SeekCost(order: seq<int>): (cost: nat)
    ensures |order| <= 1 ==> cost == 0
  {
    if |order| <= 1 then 0
    else Abs(order[1] - order[0]) + SeekCost(order[1..])
  }

  /** The running-total loop: add one hop per index 1 .. |order|-1. */
  method AccumulateSeek(order: seq<int>) returns (total: int)
    ensures total == SeekCost(order)
  {
    total := 0;
    if |order| == 0 {
      return;
    }
    var i := 1;
    while i < |order|
      invariant 1 <= i <= |order|
      invariant total == SeekCost(order[..i])
    {
      assert order[..i + 1] == order[..i] + [order[i]];
      SeekCostAppend(order[..i], [order[i]]);
      total := total + Abs(order[i] - order[i - 1]);
      i := i + 1;
    }
    assert order[..i] == order;
  }

  /** The cost of a concatenated path is the cost of each part plus the
      hop that joins them. */
  lemma {:induction false} SeekCostAppend(a: seq<int>, b: seq<int>)
    requires |a| > 0 && |b| > 0
    ensures SeekCost(a + b) == SeekCost(a) + Abs(b[0] - a[|a| - 1]) + SeekCost(b)
    decreases |a|
  {
    if |a| > 1 {
      assert (a + b)[1..] == a[1..] + b;
      SeekCostAppend(a[1..], b);
    }
  }

  /** Following an order never costs less than travelling directly from
      its first entry to its last. */
  lemma {:induction false} SeekCostAtLeastSpan(order: seq<int>)
    requires |order| > 0
    ensures SeekCost(order) >= Abs(order[|order| - 1] - order[0])
    decreases |order|
  {
    if |order| > 1 {
      SeekCostAtLeastSpan(order[1..]);
    }
  }

  /** A sweep that never moves down costs exactly its span. */
  lemma {:induction false} SeekCostAscending(s: seq<int>)
    requires |s| > 0 && Sorted(s)
    ensures SeekCost(s) == s[|s| - 1] - s[0]
    decreases |s|
  {
    if |s| > 1 {
      assert Sorted(s[1..]);
      SeekCostAscending(s[1..]);
      assert s[0] <= s[1];
    }
  }

  /** A sweep that never moves up costs exactly its span. */
  lemma {:induction false} SeekCostDescending(s: seq<int>)
    requires |s| > 0 && Descending(s)
    ensures SeekCost(s) == s[0] - s[|s| - 1]
    decreases |s|
  {
    if |s| > 1 {
      assert Descending(s[1..]);
      SeekCostDescending(s[1..]);
      assert s[0] >= s[1];
    }
  }
}
