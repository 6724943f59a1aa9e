/** The per-run figures reported next to a schedule: average seek distance
    per request and throughput (requests per unit of head movement).

    Both are exact rationals here. The average divides by the request count
    with no guard, so an empty request list makes it fail; throughput has an
    explicit guard and is 0 whenever the total is 0.
 */
module Metrics {

  datatype MetricError = EmptyInput

  datatype Result<T> = Success(value: T) | Failure(error: MetricError)

  /** `total / count`; fails when there are no requests to divide by. */
  function AverageSeek(total: int, count: nat): (r: Result<real>)
    ensures r.Failure? <==> count == 0
    ensures r.Success? && total >= 0 ==> r.value >= 0.0
    ensures r.Success? && total == 0 ==> r.value == 0.0
  {
    if count == 0 then Failure(EmptyInput)
    else Success((total as real) / (count as real))
  }

  /** `count / total`, or 0 when the head did not move at all. */
  function Throughput(total: int, count: nat): (r: real)
    ensures r == 0.0 <==> total == 0 || count == 0
    ensures total > 0 ==> r >= 0.0
  {
    if total != 0 then (count as real) / (total as real) else 0.0
  }

  /** The average spread over every request gives back the total. */
  lemma AverageTimesCount(total: int, count: nat)
    requires count > 0
    ensures AverageSeek(total, count).value * (count as real) == total as real
  {
  }

  /** Throughput over the total distance gives back the request count. */
  lemma ThroughputTimesTotal(total: int, count: nat)
    ensures total != 0 ==> Throughput(total, count) * (total as real) == count as real
  {
  }

  /** Throughput and average are reciprocal whenever both are defined and
      non-zero. */
  lemma AverageThroughputReciprocal(total: int, count: nat)
    requires total != 0 && count > 0
    ensures AverageSeek(total, count).value * Throughput(total, count) == 1.0
  {
    var a := AverageSeek(total, count).value;
    var t := Throughput(total, count);
    AverageTimesCount(total, count);
    ThroughputTimesTotal(total, count);
    assert (a * t) * (total as real) == a * (count as real);
  }
}
