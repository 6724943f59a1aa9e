# Disk-head scheduling, modelled in Dafny

The simulator compares four disk-arm scheduling policies over one list of
cylinder requests and a starting head position:

- **FCFS** serves the requests in arrival order.
- **SSTF** repeatedly serves the pending request nearest to the head.
- **SCAN** climbs through the requests at or above the head, touches the last cylinder, then walks down through the rest.
- **C-SCAN** climbs the same way, touches the last cylinder, jumps to cylinder 0, then climbs through the rest.

Each policy returns a visit order, which starts at the head, and the total
seek distance. The total is the sum of the absolute differences between
consecutive entries. The run view adds the average seek distance (`total / n`)
and the throughput (`n / total`, or 0 when the head never moved). The
comparison view runs every policy on the same input.

The model is written as pure functions over immutable `seq<int>` values:

- `Sorting`: `Sorted`, a functional insertion `Sort` proved to be the only sorted arrangement, and `Reverse`.
- `Seek`: `SeekCost`, plus `AccumulateSeek`, which models C-SCAN's explicit running-total loop (app.py:43-45) and is proved equal to `SeekCost`.
- `Schedules`: the `Schedule` record (order, total) and FCFS.
- `ShortestSeekFirst`: SSTF as the minimum-by-key scan, first-occurrence removal and the greedy path.
- `Sweep`: the partition around the head, SCAN and C-SCAN.
- `Metrics`: average (a `Result`, since dividing by an empty count fails) and throughput, as exact rationals.
- `Compare`: the policy enumeration, single-run reports and the all-policies comparison.
- `DefaultScenario`: the simulator's default input worked through every policy.

A few behaviours of the code are worth stating plainly:

- The code inserts the boundary cylinders unconditionally, so SCAN's order always has `n + 2` entries and C-SCAN's `n + 3`.
- If a request equals the last cylinder, that cylinder appears twice.
- Throughput is 0 whenever the total is 0.
- The average divides by `len(requests)` without a guard. With no requests a single run therefore fails before it reports anything, and the comparison fails as a whole because its table computes the average for every policy. The model returns `Failure(EmptyInput)` for the whole report in both cases. In the program the conversion `int('')` (app.py:100, 118) already fails on an empty input text, so an empty list never reaches the policies there.
- Request lists are values, so no policy can change its caller's list. SSTF's private copy needs no separate modelling.

## Model

| member | source | states |
|---|---|---|
| `Schedules.Fcfs` | app.py:9-12 | FCFS's order is the head followed by the requests unchanged (length n + 1), and its total is the seek cost of that order |
| `Schedules.FcfsTotal` | app.py:9-12 | with no requests FCFS does not move; otherwise it costs the hop from the head to the first request plus the hops between consecutive requests |
| `Seek.SeekCost` | app.py:11 | an order of at most one entry costs nothing; its total over longer orders is characterised by `SeekCostAppend`, `SeekCostAtLeastSpan` and the monotone-walk lemmas |
| `Seek.SeekCostAtLeastSpan` | app.py:11 | following an order never costs less than travelling straight from its first entry to its last |
| `Seek.AccumulateSeek` | app.py:43-46 | C-SCAN's running-total loop returns exactly `SeekCost`, the sum of consecutive absolute differences |
| `Seek.SeekCostAppend` | app.py:11 | the seek cost of two concatenated orders is the cost of each plus the hop joining them |
| `Seek.SeekCostAscending` | app.py:42-45 | a non-decreasing order costs exactly the distance from its first to its last entry |
| `Seek.SeekCostDescending` | app.py:33-34 | a non-increasing order costs exactly the distance from its first to its last entry |
| `ShortestSeekFirst.ScanForNearest` | app.py:20 | the minimum-by-key scan returns an index at or after its starting candidate whose request is no farther from the current position than that candidate |
| `ShortestSeekFirst.NearestIndex` | app.py:20 | the index of the request `min(key=)` selects lies within the pending list; that it is the earliest of least distance is `NearestIndexIsFirstNearest` |
| `ShortestSeekFirst.SstfNext` | app.py:20 | the request served next is one of the pending requests; that none is nearer is `SstfNextIsNearest` |
| `ShortestSeekFirst.ScanFindsFirstNearest` | app.py:20 | the left-to-right minimum-by-distance scan ends on a request of least distance that is strictly nearer than every earlier request, so ties go to the earliest |
| `ShortestSeekFirst.NearestIndexIsFirstNearest` | app.py:20 | the index SSTF picks holds the earliest request of least distance from the current position |
| `ShortestSeekFirst.FirstNearestUnique` | app.py:20 | at most one index can be the earliest of least distance, so the tie rule picks a unique request |
| `ShortestSeekFirst.IndexOf` | app.py:22 | the index `list.remove` deletes holds the value, and no earlier index does |
| `ShortestSeekFirst.RemoveFirst` | app.py:22 | removing a value leaves one entry fewer: everything before its first occurrence is kept in place and everything after it moves down one position |
| `ShortestSeekFirst.RemoveFirstTakesOne` | app.py:22 | removing a served value deletes exactly one copy of it from the pending requests |
| `ShortestSeekFirst.RemoveFirstAt` | app.py:22 | when the served value first occurs at index i, removal deletes exactly index i and keeps the rest in order |
| `ShortestSeekFirst.SstfNextIsNearest` | app.py:20 | no pending request is nearer to the current position than the one served next |
| `ShortestSeekFirst.SstfPath` | app.py:19-23 | the loop serves one request per iteration, so the path has exactly as many entries as there were requests |
| `ShortestSeekFirst.SstfPathPermutes` | app.py:19-23 | the SSTF path serves every request exactly as often as it was given |
| `ShortestSeekFirst.Sstf` | app.py:14-26 | SSTF's order starts at the head and has n + 1 entries, and its total is the seek cost of that order |
| `ShortestSeekFirst.SstfVisitsEveryRequest` | app.py:15-23 | SSTF's order is a rearrangement of the head followed by the requests |
| `ShortestSeekFirst.SstfStep` | app.py:19-23 | one loop iteration: serve the earliest nearest request at i, drop exactly that entry, and continue from it |
| `ShortestSeekFirst.GreedyAtCons` | app.py:19-23 | a greedy choice among the remaining requests stays greedy once the earlier choice is served before it |
| `ShortestSeekFirst.SstfGreedy` | app.py:19-23 | every step of the SSTF order serves a still-pending request, and no pending request is nearer to the previous position |
| `Sweep.Below` | app.py:29 | the below-head comprehension keeps only requests strictly below the head, and no more entries than there were requests |
| `Sweep.AtOrAbove` | app.py:30 | the at-or-above comprehension keeps only requests at or above the head, and no more entries than there were requests |
| `Sweep.BelowMembers` | app.py:29 | a cylinder is kept by the below-head comprehension exactly when it is a request below the head |
| `Sweep.AtOrAboveMembers` | app.py:30 | a cylinder is kept by the at-or-above comprehension exactly when it is a request at or above the head |
| `Sweep.LowSweep` | app.py:29 | the sorted lower half has one entry per request below the head, so never more than the requests; that it is ascending and holds exactly those requests is `SweepSplitExists` |
| `Sweep.HighSweep` | app.py:30 | the sorted upper half has one entry per request at or above the head; that it is ascending and holds exactly those requests is `SweepSplitExists` |
| `Sweep.PartitionKeepsRequests` | app.py:29-30 | the below-head and at-or-above-head comprehensions together hold every request exactly once |
| `Sweep.SweepsKeepRequests` | app.py:29-30 | the two sorted halves hold every request exactly once, and their lengths add up to n |
| `Sweep.SweepSplitExists` | app.py:29-30 | the sorted halves are ascending, below and at-or-above the head respectively, and hold exactly the requests |
| `Sweep.SplitCounts` | app.py:29-30 | in any such split, a cylinder below the head occurs in the lower half as often as in the requests and never in the upper half, and the reverse above |
| `Sweep.SplitsAgree` | app.py:29-30 | two splits of the same requests around the same head have the same halves up to order |
| `Sweep.SweepSplitUnique` | app.py:29-30 | any ascending split into below-head and at-or-above-head parts is exactly the pair of sorted halves |
| `Sorting.Sort` | app.py:29-30 | `sorted` returns a rearrangement of its argument: the same elements, each as often, and the same length |
| `Sorting.Reverse` | app.py:33 | the `[::-1]` slice has the same length and holds entry `n - 1 - i` at position i, so it keeps the same elements |
| `Sorting.SortSorted` | app.py:29-30 | the sort returns ascending order |
| `Sorting.SortIsUnique` | app.py:29-30 | any ascending rearrangement of a list equals its sort, so the particular sorting algorithm does not matter |
| `Sorting.SortedUnique` | app.py:29-30 | two ascending sequences with the same elements are equal |
| `Sorting.InsertSorted` | app.py:29-30 | insertion keeps an ascending sequence ascending |
| `Sorting.ReverseSortedDescends` | app.py:33 | reversing the ascending lower half gives a non-increasing walk |
| `Sweep.Scan` | app.py:28-35 | SCAN's order has n + 2 entries, starts at the head, holds the last cylinder right after the upper half, and its total is its seek cost |
| `Sweep.ScanOrder` | app.py:29-33 | for any ascending split L/R of the requests around the head, SCAN's order is head, R, the last cylinder, then L reversed |
| `Sweep.ScanVisitsEveryRequest` | app.py:33 | SCAN's order is a rearrangement of the head, every request and the last cylinder; the boundary is counted even when it was also requested |
| `Sweep.ScanDirections` | app.py:32-33 | SCAN climbs through requests at or above the head in ascending order, then descends through requests below the head |
| `Sweep.CScan` | app.py:37-46 | C-SCAN's order has n + 3 entries, starts at the head, holds the last cylinder then 0 right after the upper half, and ends with the ascending lower half |
| `Sweep.CScanOrder` | app.py:38-42 | for any ascending split L/R of the requests around the head, C-SCAN's order is head, R, the last cylinder, 0, then L |
| `Sweep.CScanVisitsEveryRequest` | app.py:42 | C-SCAN's order is a rearrangement of the head, every request, the last cylinder and cylinder 0 |
| `Sweep.CScanDirections` | app.py:41-42 | after the jump to 0, C-SCAN climbs again, in ascending order, through requests strictly below the head only |
| `Sweep.SweepsOnDisk` | app.py:29-30 | when every request lies on the disk, so do both sorted halves |
| `Sweep.InLowSweep` | app.py:29 | a cylinder is in the lower half exactly when it is a request below the head |
| `Sweep.LowSweepEnds` | app.py:29 | the lower half starts at the lowest request and ends at the highest request below the head |
| `Sweep.ClimbCost` | app.py:33 | climbing from the head through the upper half to the last cylinder costs `diskSize - 1 - head` |
| `Sweep.DescentCost` | app.py:33 | SCAN's descent through the reversed lower half costs its span |
| `Sweep.SecondClimbCost` | app.py:42 | C-SCAN's climb from 0 through the lower half costs the highest request below the head, or nothing if there is none |
| `Sweep.NoneBelow` | app.py:29 | with no request below the head the lower half is empty |
| `Sweep.ScanTotalNoneBelow` | app.py:28-35 | with no request below the head, SCAN's total is the climb `diskSize - 1 - head` |
| `Sweep.ScanTotalSomeBelow` | app.py:28-35 | otherwise SCAN's total is `2(diskSize - 1) - head - lowest request` |
| `Sweep.JumpBack` | app.py:42-45 | C-SCAN's cost splits into the climb to the top, the jump to 0 and the second climb |
| `Sweep.CScanTotalNoneBelow` | app.py:37-46 | with no request below the head, C-SCAN's total is the climb plus the jump back: `2(diskSize - 1) - head` |
| `Sweep.CScanTotalSomeBelow` | app.py:37-46 | otherwise C-SCAN's total is `2(diskSize - 1) - head + the highest request below the head` |
| `Metrics.AverageSeek` | app.py:105 | the average fails exactly when there are no requests; otherwise it is non-negative for a non-negative total, and 0 when the total is 0 |
| `Metrics.Throughput` | app.py:106 | throughput is 0 exactly when the total or the request count is 0, and non-negative for a positive total |
| `Metrics.AverageTimesCount` | app.py:105 | for a non-empty list, the average multiplied by the request count gives back the total |
| `Metrics.ThroughputTimesTotal` | app.py:106 | when the head moved, throughput multiplied by the total gives back the request count |
| `Metrics.AverageThroughputReciprocal` | app.py:105-106 | when both are defined and non-zero, average and throughput multiply to 1 |
| `Compare.Name` | app.py:89-94 | the four labels the comparison lists; that they are distinct is `NamesDistinct` |
| `Compare.Run` | app.py:89-94 | every policy's order starts at the head and has one entry per request plus the policy's boundary cylinders, and its total is its seek cost |
| `Compare.RunVisitsEveryRequest` | app.py:89-94 | whatever the policy, its order is a rearrangement of the head, the requests and the policy's boundary cylinders |
| `Compare.RunNoRequests` | app.py:9-26 | with no requests FCFS and SSTF leave the head where it is: the order is the head alone and the total is 0 |
| `Compare.Simulate` | app.py:102-106 | a single run fails as a whole exactly when there are no requests; otherwise it reports the policy's order, that order's seek cost as total, the average and the throughput of that total, and the throughput is 0 exactly when the head did not move |
| `Compare.CompareAll` | app.py:123-136 | the comparison fails as a whole exactly when there are no requests; otherwise it has one entry per policy, in the order FCFS, SSTF, SCAN, C-SCAN, and each entry equals that policy's single run on the same input |
| `Compare.EntryIsRun` | app.py:123-136 | the comparison's entry at position i is the single run of the i-th policy |
| `Compare.CompareAllCovers` | app.py:123-136 | for a non-empty list, every policy's single-run report appears in the comparison |
| `Compare.AllPoliciesOnce` | app.py:89-94 | the comparison lists every policy, and none twice |
| `Compare.NamesDistinct` | app.py:89-94 | the four policy labels are distinct, so the comparison's name-keyed table loses no policy |
| `DefaultScenario.FcfsExample` | app.py:70-72 | on the default input (requests 82, 170, 43, 140, 24, 16, 190, head 50) FCFS visits them as given and travels 642 cylinders |
| `DefaultScenario.SstfExample` | app.py:70-72 | on the default input SSTF visits 50, 43, 24, 16, 82, 140, 170, 190 and travels 208 cylinders |
| `DefaultScenario.SstfFrom50` | app.py:19-23 | from 50, SSTF serves the default requests in the order 43, 24, 16, 82, 140, 170, 190 |
| `DefaultScenario.DefaultSplit` | app.py:29-30 | on the default input the lower half is 16, 24, 43 and the upper half 82, 140, 170, 190 |
| `DefaultScenario.ScanExample` | app.py:70-72 | on the default input with 200 cylinders, SCAN visits 50, 82, 140, 170, 190, 199, 43, 24, 16 and travels 332 cylinders |
| `DefaultScenario.CScanExample` | app.py:70-72 | on the default input with 200 cylinders, C-SCAN visits 50, 82, 140, 170, 190, 199, 0, 16, 24, 43 and travels 391 cylinders |

## Left out

- The Streamlit user interface: widgets, buttons, selection, reset and session behaviour (app.py:68-99, 171-172). It is presentation and I/O.
- `animate`, the Plotly traces and the `time.sleep` pacing (app.py:50-64). They are rendering and timing.
- The bar and line charts and the pandas CSV export and download (app.py:139-168). They are foreign libraries and file output.
- Parsing of the request text (`parse_requests` and the inline `int` conversions, app.py:75-81, 100, 118). The model starts from a list of integers; parse errors belong to Python's `int`.
- The random request generator (app.py:84-87). It is nondeterministic; any list it produces is just another input to the model.
- The display formatting of average and throughput to 2 and 4 decimals (app.py:111-112). The model keeps the exact rationals.
- The number-input bounds of app.py:71-72: head 0 to 500, disk size 100 to 1000. The policies accept any integers, and so does the model. Only the closed-form totals assume bounds: `OnDisk` (every request lies between 0 and the last cylinder) and `0 <= head < diskSize`.
- Sweep.ClimbCost, and the closed-form totals `ScanTotalNoneBelow`, `ScanTotalSomeBelow`, `CScanTotalNoneBelow` and `CScanTotalSomeBelow`, require `0 <= head < diskSize`. The input widgets allow a head up to 500 on a disk of only 100 cylinders (app.py:71-72), so a head beyond the last cylinder is reachable; `Scan` and `CScan` still model that case, but no closed form is given for it.
- The `disk_size=200` default argument of `scan` and `c_scan` (app.py:28, 37). The model always takes the disk size explicitly, as the policy table always passes it (app.py:92-93).
- Python floating-point division. `Metrics.AverageSeek` and `Metrics.Throughput` use exact `real` arithmetic, so rounding is not modelled.
- The comparison's dictionaries keyed by policy name (app.py:120-126). They are modelled as a sequence in the dictionary's insertion order; `Compare.NamesDistinct` shows that no key collides.
