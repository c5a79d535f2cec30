/** Turning the devices checked in one round into contiguous ranges, and
    choosing the one range that is deleted. */
module DeviceRanges {
  import opened Hex
  import opened Sorting

  datatype SymDeviceID = SymDeviceID(deviceID: string, intVal: int)

  datatype DeviceRange = DeviceRange(start: SymDeviceID, end: SymDeviceID) {
    /** What the array is asked to delete. */
    function Text(): string {
      if start.intVal == end.intVal then start.deviceID else start.deviceID + "-" + end.deviceID
    }

    predicate Contains(device: SymDeviceID) {
      if device.intVal == start.intVal then true
      else device.intVal > start.intVal && device.intVal <= end.intVal
    }

    ghost predicate Covers(v: int) {
      start.intVal <= v <= end.intVal
    }

    /** The device identifiers the range stands for. */
    function Members(): (ids: seq<string>)
      ensures |ids| == if end.intVal < start.intVal then 0 else end.intVal - start.intVal + 1
      ensures forall i :: 0 <= i < |ids| ==> ids[i] == DeviceIDOf(start.intVal + i)
    {
      seq(if end.intVal < start.intVal then 0 else end.intVal - start.intVal + 1, i => DeviceIDOf(start.intVal + i))
    }

    method GetDeviceIDs() returns (ids: seq<string>)
      ensures ids == Members()
    {
      ids := [];
      var i := start.intVal;
      while i <= end.intVal
        invariant start.intVal <= i
        invariant i == start.intVal || i <= end.intVal + 1
        invariant ids == seq(i - start.intVal, j => DeviceIDOf(start.intVal + j))
      {
        ids := ids + [DeviceIDOf(i)];
        i := i + 1;
      }
    }
  }

  lemma PrintedDiffer(s: string, t: string, m: int, n: int)
    requires m != n && s == DeviceIDOf(m) && t == DeviceIDOf(n)
    ensures s != t
  {
    PrintsDiffer(m, n);
  }

  lemma MembersDistinct(range: DeviceRange)
    ensures forall k, l :: 0 <= k < l < |range.Members()| ==> range.Members()[k] != range.Members()[l]
  {
    var ids, from := range.Members(), range.start.intVal;
    forall k, l | 0 <= k < l < |ids| ensures ids[k] != ids[l] {
      PrintedDiffer(ids[k], ids[l], from + k, from + l);
    }
  }

  /** ranges cuts devices into the maximal stretches in which each identifier is
      one more than the one before; cuts holds where each stretch begins. */
  ghost predicate MaximalRuns(devices: seq<SymDeviceID>, ranges: seq<DeviceRange>, cuts: seq<nat>) {
    && |cuts| == |ranges| + 1
    && cuts[0] == 0 && cuts[|ranges|] == |devices|
    && (forall k :: 0 <= k < |ranges| ==> RunAt(devices, ranges[k], cuts[k], cuts[k + 1]))
    && (forall k :: 0 < k < |ranges| ==> BreakAt(devices, cuts[k]))
  }

  ghost predicate BreakAt(devices: seq<SymDeviceID>, i: nat) {
    0 < i < |devices| && devices[i].intVal != devices[i - 1].intVal + 1
  }

  ghost predicate RunAt(devices: seq<SymDeviceID>, range: DeviceRange, from: nat, to: nat) {
    && from < to <= |devices|
    && range == DeviceRange(devices[from], devices[to - 1])
    && forall i :: from <= i < to ==> devices[i].intVal == devices[from].intVal + (i - from)
  }

  method GetDeviceRanges(devices: seq<SymDeviceID>) returns (ranges: seq<DeviceRange>, ghost cuts: seq<nat>)
    ensures MaximalRuns(devices, ranges, cuts)
  {
    ranges, cuts := [], [0];
    var start, end := 0, 0;
    for i := 0 to |devices|
      invariant |cuts| == |ranges| + 1 && cuts[0] == 0 && cuts[|ranges|] == start
      invariant i == 0 ==> start == 0 && end == 0 && ranges == []
      invariant i > 0 ==> start <= end == i - 1
      invariant forall k :: 0 <= k < |ranges| ==> RunAt(devices, ranges[k], cuts[k], cuts[k + 1])
      invariant forall k :: 0 < k <= |ranges| ==> BreakAt(devices, cuts[k])
      invariant forall j :: start <= j < i ==> devices[j].intVal == devices[start].intVal + (j - start)
    {
      if i == 0 {
        end := i;
        continue;
      }
      if devices[i].intVal - devices[end].intVal == 1 {
        end := i;
        continue;
      }
      if start != end {
        ranges := ranges + [DeviceRange(devices[start], devices[end])];
      } else {
        ranges := ranges + [DeviceRange(devices[start], devices[start])];
      }
      assert RunAt(devices, ranges[|ranges| - 1], start, i) && BreakAt(devices, i);
      cuts := cuts + [i];
      start, end := i, i;
    }
    if start <= |devices| - 1 {
      ranges := ranges + [DeviceRange(devices[start], devices[|devices| - 1])];
      cuts := cuts + [|devices|];
    }
  }

  // ---- What maximal runs cover ----

  /** A range covers exactly the identifiers of its own stretch of devices. */
  lemma RunCoversItsDevices(devices: seq<SymDeviceID>, range: DeviceRange, from: nat, to: nat, v: int)
    requires RunAt(devices, range, from, to)
    ensures range.Covers(v) <==> exists i :: from <= i < to && devices[i].intVal == v
  {
    if range.Covers(v) {
      assert devices[from + (v - range.start.intVal)].intVal == v;
    }
  }

  lemma {:induction false} CutOf(cuts: seq<nat>, n: nat, i: nat) returns (k: nat)
    requires |cuts| == n + 1 && cuts[0] == 0 && i < cuts[n]
    ensures k < n && cuts[k] <= i < cuts[k + 1]
  {
    if i < cuts[n - 1] {
      k := CutOf(cuts[..n], n - 1, i);
    } else {
      k := n - 1;
    }
  }

  /** Together the ranges cover exactly the devices given. */
  lemma RangesCoverExactly(devices: seq<SymDeviceID>, ranges: seq<DeviceRange>, cuts: seq<nat>, v: int)
    requires MaximalRuns(devices, ranges, cuts)
    ensures (exists k :: 0 <= k < |ranges| && ranges[k].Covers(v)) <==>
        exists i :: 0 <= i < |devices| && devices[i].intVal == v
  {
    if k :| 0 <= k < |ranges| && ranges[k].Covers(v) {
      RunCoversItsDevices(devices, ranges[k], cuts[k], cuts[k + 1], v);
    }
    if i :| 0 <= i < |devices| && devices[i].intVal == v {
      var k := CutOf(cuts, |ranges|, i);
      RunCoversItsDevices(devices, ranges[k], cuts[k], cuts[k + 1], v);
    }
  }

  ghost predicate StrictlySorted(devices: seq<SymDeviceID>) {
    forall i, j :: 0 <= i < j < |devices| ==> devices[i].intVal < devices[j].intVal
  }

  lemma {:induction false} CutsIncrease(devices: seq<SymDeviceID>, ranges: seq<DeviceRange>, cuts: seq<nat>, k: nat,
                                        l: nat)
    requires MaximalRuns(devices, ranges, cuts) && k <= l <= |ranges|
    ensures cuts[k] <= cuts[l]
  {
    if k < l {
      CutsIncrease(devices, ranges, cuts, k, l - 1);
      assert RunAt(devices, ranges[l - 1], cuts[l - 1], cuts[l]);
    }
  }

  /** On distinct sorted devices the ranges are disjoint, in order and with a
      gap between any two, so none of them could be longer. */
  lemma RangesAreApart(devices: seq<SymDeviceID>, ranges: seq<DeviceRange>, cuts: seq<nat>, k: nat, l: nat)
    requires MaximalRuns(devices, ranges, cuts) && StrictlySorted(devices) && k < l < |ranges|
    ensures ranges[k].end.intVal + 1 < ranges[l].start.intVal
  {
    CutsIncrease(devices, ranges, cuts, k + 1, l);
    var c := cuts[k + 1];
    assert BreakAt(devices, c);
    assert RunAt(devices, ranges[k], cuts[k], c) && RunAt(devices, ranges[l], cuts[l], cuts[l + 1]);
    assert devices[c - 1].intVal < devices[c].intVal <= devices[cuts[l]].intVal;
  }

  // ---- Sorting by integer value ----

  predicate Smaller(d: SymDeviceID, e: SymDeviceID) { d.intVal < e.intVal }

  predicate Differ(d: SymDeviceID, e: SymDeviceID) { d.intVal != e.intVal }

  function SortByValue(devices: seq<SymDeviceID>): seq<SymDeviceID> {
    Sort(devices, Smaller)
  }

  ghost predicate DistinctValues(devices: seq<SymDeviceID>) {
    forall i, j :: 0 <= i < j < |devices| ==> devices[i].intVal != devices[j].intVal
  }

  lemma SortDistinct(devices: seq<SymDeviceID>)
    requires DistinctValues(devices)
    ensures StrictlySorted(SortByValue(devices))
  {
    assert WeakOrder(Smaller);
    SortSorts(devices, Smaller);
    assert Apart(devices, Differ);
    SortApart(devices, Smaller, Differ);
    var sorted := SortByValue(devices);
    forall i, j | 0 <= i < j < |sorted| ensures sorted[i].intVal < sorted[j].intVal {
      assert !Smaller(sorted[j], sorted[i]) && Differ(sorted[i], sorted[j]);
    }
  }

  lemma SortKeepsMembers(devices: seq<SymDeviceID>, d: SymDeviceID)
    ensures d in SortByValue(devices) <==> d in devices
  {
    SortMembers(devices, Smaller, d);
  }

  // ---- Choosing the range ----

  /** The block of eligible devices around the last of them, in queue order. */
  ghost predicate Chosen(eligible: seq<SymDeviceID>, range: DeviceRange)
    requires eligible != []
  {
    && range.Covers(eligible[|eligible| - 1].intVal)
    && range.start in eligible && range.end in eligible && range.start.intVal <= range.end.intVal
    && (forall v :: range.Covers(v) ==> exists d :: d in eligible && d.intVal == v)
    && (DistinctValues(eligible) ==>
          forall d :: d in eligible ==> d.intVal != range.start.intVal - 1 && d.intVal != range.end.intVal + 1)
  }

  /** Nothing else is left open by that description. */
  lemma ChosenIsUnique(eligible: seq<SymDeviceID>, r1: DeviceRange, r2: DeviceRange)
    requires eligible != [] && DistinctValues(eligible) && Chosen(eligible, r1) && Chosen(eligible, r2)
    ensures r1 == r2
  {
    assert !r2.Covers(r1.start.intVal - 1) && !r2.Covers(r1.end.intVal + 1);
    assert !r1.Covers(r2.start.intVal - 1) && !r1.Covers(r2.end.intVal + 1);
    assert r1.start.intVal == r2.start.intVal && r1.end.intVal == r2.end.intVal;
    var i, j :| 0 <= i < |eligible| && 0 <= j < |eligible| && eligible[i] == r1.start && eligible[j] == r2.start;
    assert i == j;
    var k, l :| 0 <= k < |eligible| && 0 <= l < |eligible| && eligible[k] == r1.end && eligible[l] == r2.end;
    assert k == l;
  }

  /** The loop over the ranges stops at the first hit, the loop over the
      devices does not stop, so the last device decides. */
  method ChooseRange(eligible: seq<SymDeviceID>) returns (range: DeviceRange)
    requires eligible != []
    ensures Chosen(eligible, range)
  {
    var sorted := SortByValue(eligible);
    var ranges, cuts := GetDeviceRanges(sorted);
    range := DeviceRange(SymDeviceID("", 0), SymDeviceID("", 0));
    ghost var at := -1;
    for i := 0 to |eligible|
      invariant i > 0 ==> 0 <= at < |ranges| && range == ranges[at] && range.Contains(eligible[i - 1])
    {
      ghost var hit := EligibleIsInSomeRange(eligible, ranges, cuts, i);
      for k := 0 to |ranges|
        invariant k <= hit
        invariant forall l :: 0 <= l < k ==> !ranges[l].Contains(eligible[i])
        invariant i > 0 ==> 0 <= at < |ranges| && range == ranges[at]
      {
        if ranges[k].Contains(eligible[i]) {
          range, at := ranges[k], k;
          break;
        }
      }
    }
    ChosenCovers(eligible, ranges, cuts, at);
    if DistinctValues(eligible) { ChosenIsMaximal(eligible, ranges, cuts, at); }
  }

  lemma EligibleIsInSomeRange(eligible: seq<SymDeviceID>, ranges: seq<DeviceRange>, cuts: seq<nat>, i: nat)
    returns (k: nat)
    requires MaximalRuns(SortByValue(eligible), ranges, cuts) && i < |eligible|
    ensures k < |ranges| && ranges[k].Contains(eligible[i])
  {
    var sorted := SortByValue(eligible);
    SortKeepsMembers(eligible, eligible[i]);
    var j :| 0 <= j < |sorted| && sorted[j] == eligible[i];
    k := CutOf(cuts, |ranges|, j);
    RunCoversItsDevices(sorted, ranges[k], cuts[k], cuts[k + 1], eligible[i].intVal);
  }

  lemma ChosenCovers(eligible: seq<SymDeviceID>, ranges: seq<DeviceRange>, cuts: seq<nat>, at: nat)
    requires MaximalRuns(SortByValue(eligible), ranges, cuts) && at < |ranges|
    ensures ranges[at].start in eligible && ranges[at].end in eligible &&
        ranges[at].start.intVal <= ranges[at].end.intVal
    ensures forall v :: ranges[at].Covers(v) ==> exists d :: d in eligible && d.intVal == v
  {
    var sorted, range := SortByValue(eligible), ranges[at];
    assert RunAt(sorted, range, cuts[at], cuts[at + 1]);
    assert sorted[cuts[at]] in sorted && sorted[cuts[at + 1] - 1] in sorted;
    SortKeepsMembers(eligible, range.start);
    SortKeepsMembers(eligible, range.end);
    forall v | range.Covers(v) ensures exists d :: d in eligible && d.intVal == v {
      RunCoversItsDevices(sorted, range, cuts[at], cuts[at + 1], v);
      var i :| cuts[at] <= i < cuts[at + 1] && sorted[i].intVal == v;
      SortKeepsMembers(eligible, sorted[i]);
    }
  }

  lemma ChosenIsMaximal(eligible: seq<SymDeviceID>, ranges: seq<DeviceRange>, cuts: seq<nat>, at: nat)
    requires MaximalRuns(SortByValue(eligible), ranges, cuts) && at < |ranges| && DistinctValues(eligible)
    ensures forall d :: d in eligible ==>
        d.intVal != ranges[at].start.intVal - 1 && d.intVal != ranges[at].end.intVal + 1
  {
    var sorted := SortByValue(eligible);
    SortDistinct(eligible);
    assert RunAt(sorted, ranges[at], cuts[at], cuts[at + 1]);
    forall d | d in eligible ensures d.intVal != ranges[at].start.intVal - 1 && d.intVal != ranges[at].end.intVal + 1 {
      SortKeepsMembers(eligible, d);
      var j :| 0 <= j < |sorted| && sorted[j] == d;
      var k := CutOf(cuts, |ranges|, j);
      RunCoversItsDevices(sorted, ranges[k], cuts[k], cuts[k + 1], d.intVal);
      assert ranges[k].Covers(d.intVal);
      if k < at { RangesAreApart(sorted, ranges, cuts, k, at); }
      if at < k { RangesAreApart(sorted, ranges, cuts, at, k); }
    }
  }
}
