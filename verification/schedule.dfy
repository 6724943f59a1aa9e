/** What every policy returns, and the simplest policy.

    Each policy maps a request list and a starting head position (and, for
    SCAN and C-SCAN, the disk size) to a `Schedule`: the visit order, which
    begins at the head, and its total seek distance. Request lists are
    values, so no policy can change its caller's list.
 */
module Schedules {
  import opened Seek

  /** A visit order and the head movement needed to follow it. */
  datatype Schedule = Schedule(order: seq<int>, total: int)

  /** First-come-first-served: the requests in the order they arrived. */
  function Fcfs(requests: seq<int>, head: int): (s: Schedule)
    ensures |s.order| == |requests| + 1
    ensures s.order[0] == head && s.order[1..] == requests
    ensures s.total == SeekCost(s.order)
  {
    var order := [head] + requests;
    Schedule(order, SeekCost(order))
  }

  /** FCFS moves from the head to the first request, then between
      consecutive requests; with no requests the head stays put. */
  lemma FcfsTotal(requests: seq<int>, head: int)
    ensures |requests| == 0 ==> Fcfs(requests, head).total == 0
    ensures |requests| > 0 ==>
      Fcfs(requests, head).total == Abs(requests[0] - head) + SeekCost(requests)
  {
    var order := Fcfs(requests, head).order;
    if |requests| > 0 {
      assert order[1] == requests[0] && order[1..] == requests;
      assert SeekCost(order) == Abs(order[1] - order[0]) + SeekCost(order[1..]);
    }
  }
}
