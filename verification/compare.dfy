/** Dispatch by policy, the single-run report, and the side-by-side
    comparison of all four policies over one request list.

    The policies form a closed enumeration; `Run` selects the matching
    scheduler. SCAN and C-SCAN receive the disk size, FCFS and SSTF ignore
    it. A report pairs a schedule with its average seek distance and
    throughput; the comparison is one report per policy, in the fixed order
    FCFS, SSTF, SCAN, C-SCAN.
 */
module Compare {
  import opened Seek
  import opened Schedules
  import opened ShortestSeekFirst
  import opened Sweep
  import opened Metrics

  datatype Policy = FCFS | SSTF | SCAN | CSCAN

  /** The label under which each policy is listed. */
  function Name(p: Policy): string {
    match p
    case FCFS => "FCFS"
    case SSTF => "SSTF"
    case SCAN => "SCAN"
    case CSCAN => "C-SCAN"
  }

  /** The policies in the order the comparison lists them. */
  const AllPolicies: seq<Policy> := [FCFS, SSTF, SCAN, CSCAN]

  /** Cylinders a policy visits although nobody requested them. */
  function Boundaries(p: Policy, diskSize: int): seq<int> {
    match p
    case FCFS => []
    case SSTF => []
    case SCAN => [diskSize - 1]
    case CSCAN => [diskSize - 1, 0]
  }

  /** The schedule of one policy: it starts at the head, visits every
      request and its boundary cylinders once each, and its total is the
      seek cost of that order. */
  function Run(p: Policy, requests: seq<int>, head: int, diskSize: int): (s: Schedule)
    ensures |s.order| == 1 + |requests| + |Boundaries(p, diskSize)|
    ensures s.order[0] == head
    ensures s.total == SeekCost(s.order)
  {
    match p
    case FCFS => Fcfs(requests, head)
    case SSTF => Sstf(requests, head)
    case SCAN => Scan(requests, head, diskSize)
    case CSCAN => CScan(requests, head, diskSize)
  }

  /** Whatever the policy, its order holds the head, every request and the
      policy's boundary cylinders, each exactly as often as given. */
  lemma RunVisitsEveryRequest(p: Policy, requests: seq<int>, head: int, diskSize: int)
    ensures multiset(Run(p, requests, head, diskSize).order) == multiset([head] + requests + Boundaries(p, diskSize))
  {
    match p
    case FCFS =>
      assert Fcfs(requests, head).order == [head] + requests + [];
    case SSTF =>
      SstfVisitsEveryRequest(requests, head);
      assert [head] + requests + [] == [head] + requests;
    case SCAN =>
      ScanVisitsEveryRequest(requests, head, diskSize);
    case CSCAN =>
      CScanVisitsEveryRequest(requests, head, diskSize);
  }

  /** With no requests, FCFS and SSTF leave the head where it is. */
  lemma RunNoRequests(p: Policy, head: int, diskSize: int)
    requires p == FCFS || p == SSTF
    ensures Run(p, [], head, diskSize).order == [head]
    ensures Run(p, [], head, diskSize).total == 0
  {
  }

  /** What a single simulation run reports. */
  datatype Report = Report(policy: Policy, order: seq<int>, total: int, average: real, throughput: real)

  /** Runs one policy and derives its figures from the request count. The
      average is computed first and divides by the count without a guard,
      so with no requests the run fails there and reports nothing, not even
      the throughput. */
  function Simulate(p: Policy, requests: seq<int>, head: int, diskSize: int): (r: Result<Report>)
    ensures r.Failure? <==> |requests| == 0
    ensures r.Success? ==>
      && r.value.policy == p
      && r.value.order == Run(p, requests, head, diskSize).order
      && r.value.total == SeekCost(r.value.order)
      && Success(r.value.average) == AverageSeek(r.value.total, |requests|)
      && r.value.throughput == Throughput(r.value.total, |requests|)
      && (r.value.throughput == 0.0 <==> r.value.total == 0)
  {
    var s := Run(p, requests, head, diskSize);
    var average := AverageSeek(s.total, |requests|);
    if average.Failure? then Failure(average.error)
    else Success(Report(p, s.order, s.total, average.value, Throughput(s.total, |requests|)))
  }

  /** Every policy over the same requests, head and disk size, listed in
      the order of `AllPolicies`. Building the table divides by the request
      count for every policy, so with no requests the whole comparison
      fails. */
  function CompareAll(requests: seq<int>, head: int, diskSize: int): (r: Result<seq<Report>>)
    ensures r.Failure? <==> |requests| == 0
    ensures r.Success? ==> |r.value| == |AllPolicies|
    ensures r.Success? ==> forall i :: 0 <= i < |r.value| ==> r.value[i].policy == AllPolicies[i]
    ensures r.Success? ==> forall i :: 0 <= i < |r.value| ==>
      Simulate(r.value[i].policy, requests, head, diskSize) == Success(r.value[i])
  {
    if |requests| == 0 then Failure(EmptyInput)
    else
      Success(seq(|AllPolicies|, i requires 0 <= i < |AllPolicies| =>
        Simulate(AllPolicies[i], requests, head, diskSize).value))
  }

  /** The comparison lists every policy exactly once. */
  lemma AllPoliciesOnce(p: Policy)
    ensures p in AllPolicies
    ensures forall i, j :: 0 <= i < j < |AllPolicies| ==> AllPolicies[i] != AllPolicies[j]
  {
  }

  /** Each policy's entry in the comparison is that policy's own
      single-run report. */
  lemma CompareAllCovers(requests: seq<int>, head: int, diskSize: int, p: Policy)
    ensures |requests| > 0 ==>
      exists i :: 0 <= i < |AllPolicies| &&
        Success(CompareAll(requests, head, diskSize).value[i]) == Simulate(p, requests, head, diskSize)
  {
    if |requests| > 0 {
      var i := match p case FCFS => 0 case SSTF => 1 case SCAN => 2 case CSCAN => 3;
      assert AllPolicies[i] == p;
      EntryIsRun(CompareAll(requests, head, diskSize).value, requests, head, diskSize, i);
    }
  }

  /** The entry at `i` of a successful comparison is the single run of the
      `i`-th policy. */
  lemma EntryIsRun(rs: seq<Report>, requests: seq<int>, head: int, diskSize: int, i: int)
    requires CompareAll(requests, head, diskSize) == Success(rs) && 0 <= i < |AllPolicies|
    ensures Success(rs[i]) == Simulate(AllPolicies[i], requests, head, diskSize)
  {
  }

  /** The names under which the four policies are listed are distinct. */
  lemma NamesDistinct(p: Policy, q: Policy)
    ensures Name(p) == Name(q) <==> p == q
  {
  }
}
