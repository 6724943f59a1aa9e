/** The simulator's default input, worked through every policy: requests
    82, 170, 43, 140, 24, 16, 190, head at cylinder 50, a 200-cylinder
    disk.

    The lemmas take the request list as a parameter pinned down entry by
    entry (`IsDefault`) rather than as a literal list: applied to literal
    arguments, the schedulers would be unfolded wholesale by the verifier,
    which is far more expensive than the step-by-step proofs below.

    The SSTF example is walked one greedy step at a time, and every step
    has the same three parts:
    - `NearestC` (only where it is not immediate) shows which index holds
      the first nearest request from cylinder C;
    - `StepC` applies `SstfStep` there and names what is left, listed
      entry by entry;
    - `SstfFromC` chains that step to the path from the served cylinder
      (`SstfFrom...` of the remaining list) through `Glue`.
    Keeping the facts about the list's entries (in `StepC`) apart from the
    final chaining (in `SstfFromC`) keeps every proof small.
 */
module DefaultScenario {
  import opened Sorting
  import opened Seek
  import opened Schedules
  import opened ShortestSeekFirst
  import opened Sweep

  /** `r` is the default request list 82, 170, 43, 140, 24, 16, 190. */
  predicate IsDefault(r: seq<int>) {
    && |r| == 7
    && r[0] == 82 && r[1] == 170 && r[2] == 43 && r[3] == 140
    && r[4] == 24 && r[5] == 16 && r[6] == 190
  }

  /** FCFS travels 642 cylinders. */
  lemma FcfsExample(r: seq<int>)
    requires IsDefault(r)
    ensures Fcfs(r, 50).order == [50, 82, 170, 43, 140, 24, 16, 190]
    ensures Fcfs(r, 50).total == 642
  {
    var order := Fcfs(r, 50).order;
    assert order == [50, r[0], r[1], r[2], r[3], r[4], r[5], r[6]];
    FcfsCost();
  }

  /** The hops 32, 88, 127, 97, 116, 8 and 174 add up to 642. */
  lemma FcfsCost()
    ensures SeekCost([50, 82, 170, 43, 140, 24, 16, 190]) == 642
  {
  }

  /** One SSTF step from `current`: servicing the first nearest request at
      index `i` leaves `s`, the other requests in their original order. */
  lemma StepTo(r: seq<int>, current: int, i: int, s: seq<int>)
    requires FirstNearestAt(r, current, i) && |s| == |r| - 1
    requires forall j :: 0 <= j < i ==> s[j] == r[j]
    requires forall j :: i <= j < |s| ==> s[j] == r[j + 1]
    ensures SstfPath(r, current) == [r[i]] + SstfPath(s, r[i])
  {
    SstfStep(r, current, i);
    DropAt(r, i, s);
  }

  /** `s` is `r` without its entry at `i`. */
  lemma DropAt(r: seq<int>, i: int, s: seq<int>)
    requires 0 <= i < |r| && |s| == |r| - 1
    requires forall j :: 0 <= j < i ==> s[j] == r[j]
    requires forall j :: i <= j < |s| ==> s[j] == r[j + 1]
    ensures s == r[..i] + r[i + 1..]
  {
  }

  /** Chains one SSTF step to the path that follows it. */
  lemma Glue(r: seq<int>, current: int, s: seq<int>, x: int, t: seq<int>)
    requires SstfPath(r, current) == [x] + SstfPath(s, x) && SstfPath(s, x) == t
    ensures SstfPath(r, current) == [x] + t
  {
  }

  /** From 170 only 190 is left. */
  lemma SstfFrom170(r: seq<int>)
    requires |r| == 1 && r[0] == 190
    ensures SstfPath(r, 170) == [190]
  {
    StepTo(r, 170, 0, []);
  }

  /** From 140 SSTF serves 170 first, leaving 190. */
  lemma Step140(r: seq<int>, s: seq<int>)
    requires |r| == 2 && r[0] == 170 && r[1] == 190 && s == [r[1]]
    ensures SstfPath(r, 140) == [170] + SstfPath(s, 170)
    ensures |s| == 1 && s[0] == 190
  {
    StepTo(r, 140, 0, s);
  }

  /** From 140, 170 (30 away) beats 190 (50 away). */
  lemma SstfFrom140(r: seq<int>)
    requires |r| == 2 && r[0] == 170 && r[1] == 190
    ensures SstfPath(r, 140) == [170, 190]
  {
    var s := [r[1]];
    Step140(r, s);
    SstfFrom170(s);
    Glue(r, 140, s, 170, [190]);
  }

  /** From 82 SSTF serves 140 first, leaving 170 and 190. */
  lemma Step82(r: seq<int>, s: seq<int>)
    requires |r| == 3 && r[0] == 170 && r[1] == 140 && r[2] == 190 && s == [r[0], r[2]]
    ensures SstfPath(r, 82) == [140] + SstfPath(s, 140)
    ensures |s| == 2 && s[0] == 170 && s[1] == 190
  {
    StepTo(r, 82, 1, s);
  }

  /** From 82, 140 (58 away) beats 170 (88 away). */
  lemma SstfFrom82(r: seq<int>)
    requires |r| == 3 && r[0] == 170 && r[1] == 140 && r[2] == 190
    ensures SstfPath(r, 82) == [140, 170, 190]
  {
    var s := [r[0], r[2]];
    Step82(r, s);
    SstfFrom140(s);
    Glue(r, 82, s, 140, [170, 190]);
  }

  /** From 16 SSTF serves 82 first, leaving 170, 140 and 190. */
  lemma Step16(r: seq<int>, s: seq<int>)
    requires |r| == 4 && r[0] == 82 && r[1] == 170 && r[2] == 140 && r[3] == 190
    requires s == [r[1], r[2], r[3]]
    ensures SstfPath(r, 16) == [82] + SstfPath(s, 82)
    ensures |s| == 3 && s[0] == 170 && s[1] == 140 && s[2] == 190
  {
    StepTo(r, 16, 0, s);
  }

  /** From 16 everything left lies above, and 82 is the closest. */
  lemma SstfFrom16(r: seq<int>)
    requires |r| == 4 && r[0] == 82 && r[1] == 170 && r[2] == 140 && r[3] == 190
    ensures SstfPath(r, 16) == [82, 140, 170, 190]
  {
    var s := [r[1], r[2], r[3]];
    Step16(r, s);
    SstfFrom82(s);
    Glue(r, 16, s, 82, [140, 170, 190]);
  }

  /** From 24 SSTF serves 16 first, leaving 82, 170, 140 and 190. */
  lemma Step24(r: seq<int>, s: seq<int>)
    requires |r| == 5 && r[0] == 82 && r[1] == 170 && r[2] == 140 && r[3] == 16 && r[4] == 190
    requires s == [r[0], r[1], r[2], r[4]]
    ensures SstfPath(r, 24) == [16] + SstfPath(s, 16)
    ensures |s| == 4 && s[0] == 82 && s[1] == 170 && s[2] == 140 && s[3] == 190
  {
    Nearest24(r);
    StepTo(r, 24, 3, s);
  }

  /** From 24 the first nearest request is 16, at index 3. */
  lemma Nearest24(r: seq<int>)
    requires |r| == 5 && r[0] == 82 && r[1] == 170 && r[2] == 140 && r[3] == 16 && r[4] == 190
    ensures FirstNearestAt(r, 24, 3)
  {
  }

  /** From 24, 16 (8 away) beats 82 (58 away). */
  lemma SstfFrom24(r: seq<int>)
    requires |r| == 5 && r[0] == 82 && r[1] == 170 && r[2] == 140 && r[3] == 16 && r[4] == 190
    ensures SstfPath(r, 24) == [16, 82, 140, 170, 190]
  {
    var s := [r[0], r[1], r[2], r[4]];
    Step24(r, s);
    SstfFrom16(s);
    Glue(r, 24, s, 16, [82, 140, 170, 190]);
  }

  /** From 43 SSTF serves 24 first, leaving 82, 170, 140, 16 and 190. */
  lemma Step43(r: seq<int>, s: seq<int>)
    requires |r| == 6 && r[0] == 82 && r[1] == 170 && r[2] == 140 && r[3] == 24 && r[4] == 16 && r[5] == 190
    requires s == [r[0], r[1], r[2], r[4], r[5]]
    ensures SstfPath(r, 43) == [24] + SstfPath(s, 24)
    ensures |s| == 5 && s[0] == 82 && s[1] == 170 && s[2] == 140 && s[3] == 16 && s[4] == 190
  {
    Nearest43(r);
    StepTo(r, 43, 3, s);
  }

  /** From 43 the first nearest request is 24, at index 3. */
  lemma Nearest43(r: seq<int>)
    requires |r| == 6 && r[0] == 82 && r[1] == 170 && r[2] == 140 && r[3] == 24 && r[4] == 16 && r[5] == 190
    ensures FirstNearestAt(r, 43, 3)
  {
  }

  /** From 43, 24 (19 away) beats 82 (39 away). */
  lemma SstfFrom43(r: seq<int>)
    requires |r| == 6 && r[0] == 82 && r[1] == 170 && r[2] == 140 && r[3] == 24 && r[4] == 16 && r[5] == 190
    ensures SstfPath(r, 43) == [24, 16, 82, 140, 170, 190]
  {
    var s := [r[0], r[1], r[2], r[4], r[5]];
    Step43(r, s);
    SstfFrom24(s);
    Glue(r, 43, s, 24, [16, 82, 140, 170, 190]);
  }

  /** From 50 SSTF serves 43 first, leaving 82, 170, 140, 24, 16 and 190. */
  lemma Step50(r: seq<int>, s: seq<int>)
    requires IsDefault(r) && s == [r[0], r[1], r[3], r[4], r[5], r[6]]
    ensures SstfPath(r, 50) == [43] + SstfPath(s, 43)
    ensures |s| == 6 && s[0] == 82 && s[1] == 170 && s[2] == 140 && s[3] == 24 && s[4] == 16 && s[5] == 190
  {
    Nearest50(r);
    StepTo(r, 50, 2, s);
  }

  /** From 50 the first nearest request is 43, at index 2. */
  lemma Nearest50(r: seq<int>)
    requires IsDefault(r)
    ensures FirstNearestAt(r, 50, 2)
  {
  }

  /** From the head at 50, 43 (7 away) beats 82 (32 away), so SSTF heads
      down first. */
  lemma SstfFrom50(r: seq<int>)
    requires IsDefault(r)
    ensures SstfPath(r, 50) == [43, 24, 16, 82, 140, 170, 190]
  {
    var s := [r[0], r[1], r[3], r[4], r[5], r[6]];
    Step50(r, s);
    SstfFrom43(s);
    Glue(r, 50, s, 43, [24, 16, 82, 140, 170, 190]);
  }

  /** SSTF sweeps down to 16, then climbs through the rest: 208
      cylinders. */
  lemma SstfExample(r: seq<int>)
    requires IsDefault(r)
    ensures Sstf(r, 50).order == [50, 43, 24, 16, 82, 140, 170, 190]
    ensures Sstf(r, 50).total == 208
  {
    SstfFrom50(r);
    SstfFollows(r);
    SstfTotal(Sstf(r, 50));
  }

  /** The SSTF schedule of the default input travels 208 cylinders. */
  lemma SstfTotal(s: Schedule)
    requires s.order == [50, 43, 24, 16, 82, 140, 170, 190] && s.total == SeekCost(s.order)
    ensures s.total == 208
  {
    SstfCost();
  }

  /** Once the path is known, so are the order and its cost. */
  lemma SstfFollows(r: seq<int>)
    requires SstfPath(r, 50) == [43, 24, 16, 82, 140, 170, 190]
    ensures Sstf(r, 50).order == [50, 43, 24, 16, 82, 140, 170, 190]
  {
    HeadThen(Sstf(r, 50).order, 50, [43, 24, 16, 82, 140, 170, 190]);
  }

  /** An order is its head followed by the rest. */
  lemma HeadThen(o: seq<int>, h: int, t: seq<int>)
    requires |o| == |t| + 1 && o[0] == h && o[1..] == t
    ensures o == [h] + t
  {
  }

  /** Following that order costs 7 + 19 + 8 + 66 + 58 + 30 + 20 cylinders. */
  lemma SstfCost()
    ensures SeekCost([50, 43, 24, 16, 82, 140, 170, 190]) == 208
  {
  }

  /** The default requests hold these cylinders. */
  lemma DefaultContents(r: seq<int>)
    requires IsDefault(r)
    ensures multiset(r) == multiset{82, 170, 43, 140, 24, 16, 190}
  {
    assert r == [r[0], r[1], r[2], r[3], r[4], r[5], r[6]];
  }

  /** The two literal halves hold exactly the default cylinders. */
  lemma HalvesContents()
    ensures multiset([16, 24, 43]) + multiset([82, 140, 170, 190]) == multiset{82, 170, 43, 140, 24, 16, 190}
  {
  }

  /** Both literal halves are ascending, and lie below and at or above 50 respectively. */
  lemma HalvesSorted()
    ensures Sorted([16, 24, 43]) && AllBelow([16, 24, 43], 50)
    ensures Sorted([82, 140, 170, 190]) && AllAtLeast([82, 140, 170, 190], 50)
  {
  }

  /** Around the head, the default requests split into 16, 24, 43 below
      and 82, 140, 170, 190 above. */
  lemma DefaultSplit(r: seq<int>)
    requires IsDefault(r)
    ensures SweepSplit(r, 50, [16, 24, 43], [82, 140, 170, 190])
  {
    DefaultContents(r);
    HalvesContents();
    HalvesSorted();
  }

  /** Reversing three entries swaps the first and the last. */
  lemma ReverseThree(s: seq<int>)
    requires |s| == 3
    ensures Reverse(s) == [s[2], s[1], s[0]]
  {
    var r := Reverse(s);
    assert r[0] == s[2] && r[1] == s[1] && r[2] == s[0];
  }

  /** SCAN's layout around a four-entry upper and three-entry lower half, entry by entry. */
  lemma ScanLayout(h: int, up: seq<int>, t: int, down: seq<int>)
    requires |up| == 4 && |down| == 3
    ensures [h] + up + [t] + down == [h, up[0], up[1], up[2], up[3], t, down[0], down[1], down[2]]
  {
  }

  /** C-SCAN's layout around a four-entry upper and three-entry lower half, entry by entry. */
  lemma CScanLayout(h: int, up: seq<int>, t: int, again: seq<int>)
    requires |up| == 4 && |again| == 3
    ensures [h] + up + [t, 0] + again == [h, up[0], up[1], up[2], up[3], t, 0, again[0], again[1], again[2]]
  {
  }

  /** Every default request lies on the 200-cylinder disk; 16 is the
      lowest and 43 the highest below the head. */
  lemma DefaultBounds(r: seq<int>)
    requires IsDefault(r)
    ensures OnDisk(r, 200)
    ensures 16 in r && 43 in r
    ensures forall x :: x in r ==> 16 <= x
    ensures forall x :: x in r && x < 50 ==> x <= 43
  {
    assert r[5] == 16 && r[2] == 43;
  }

  /** SCAN climbs to 190, touches 199, and comes down to 16: 332
      cylinders. */
  lemma ScanExample(r: seq<int>)
    requires IsDefault(r)
    ensures Scan(r, 50, 200).order == [50, 82, 140, 170, 190, 199, 43, 24, 16]
    ensures Scan(r, 50, 200).total == 332
  {
    DefaultSplit(r);
    ScanOrder(r, 50, 200, [16, 24, 43], [82, 140, 170, 190]);
    ReverseThree([16, 24, 43]);
    ScanLayout(50, [82, 140, 170, 190], 199, [43, 24, 16]);
    DefaultBounds(r);
    ScanTotalSomeBelow(r, 50, 200, 16);
  }

  /** C-SCAN climbs to 199, jumps to 0, and climbs to 43: 391 cylinders. */
  lemma CScanExample(r: seq<int>)
    requires IsDefault(r)
    ensures CScan(r, 50, 200).order == [50, 82, 140, 170, 190, 199, 0, 16, 24, 43]
    ensures CScan(r, 50, 200).total == 391
  {
    DefaultSplit(r);
    CScanOrder(r, 50, 200, [16, 24, 43], [82, 140, 170, 190]);
    CScanLayout(50, [82, 140, 170, 190], 199, [16, 24, 43]);
    DefaultBounds(r);
    CScanTotalSomeBelow(r, 50, 200, 43);
  }
}
