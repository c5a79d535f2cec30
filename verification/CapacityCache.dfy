/**
The capacity cache: one entry per array, refreshed by the poller, invalidated by
failed provisioning, with a counter of provisioning requests in flight.
CapacitySpec says what each operation does to the cache as a value; the history
lemmas say what the fields mean in terms of everything that happened.
*/
module CapacitySpec {
  import opened Options

  /** lastPoll is the time of the last successful poll. */
  datatype Entry = Entry(utilization: real, lastPoll: Option<int>, available: bool, inFlight: int, warned: bool)

  type Cache = map<string, Entry>

  const Fresh := Entry(0.0, None, true, 0, false)

  const WarningOffset := 10.0

  /** Arrays without an entry count as fresh ones. */
  function Get(c: Cache, id: string): Entry {
    if id in c then c[id] else Fresh
  }

  predicate Available(c: Cache, id: string) { Get(c, id).available }

  /** Everything that changes the cache. Touch creates the entry and nothing else. */
  datatype Event =
    | Touch(id: string)
    | Succeeded(id: string, utilization: real, now: int)
    | Failed(id: string, interval: int, now: int)
    | Invalidated(id: string)
    | Added(id: string, delta: int)
    | Compared(id: string, utilization: real, threshold: real)

  function Changed(e: Entry, event: Event): Entry {
    match event
    case Touch(_) => e
    case Succeeded(_, u, now) => e.(utilization := u, lastPoll := Some(now), available := true)
    case Failed(_, interval, now) =>
      if e.lastPoll.None? || now - e.lastPoll.value > interval then e.(available := false) else e
    case Invalidated(_) => e.(available := false)
    case Added(_, delta) => e.(inFlight := e.inFlight + delta)
    case Compared(_, u, threshold) => e.(warned := u >= threshold)
  }

  function Apply(c: Cache, event: Event): Cache {
    c[event.id := Changed(Get(c, event.id), event)]
  }

  /** A comparison that finds the array newly above the threshold raises a warning. */
  predicate Warns(c: Cache, event: Event) {
    event.Compared? && event.utilization >= event.threshold && !Get(c, event.id).warned
  }

  function After(history: seq<Event>): Cache {
    if history == [] then map[] else Apply(After(history[..|history| - 1]), history[|history| - 1])
  }

  // ---- What availability means ----

  /** The time of the last successful poll of id in the history. */
  function LastSuccess(history: seq<Event>, id: string): Option<int> {
    if history == [] then None else
      var last := history[|history| - 1];
      if last.Succeeded? && last.id == id then Some(last.now) else LastSuccess(history[..|history| - 1], id)
  }

  /** Event k speaks against id: an invalidation, or a failed poll with no
      success within the poll interval. */
  predicate Disqualifies(history: seq<Event>, k: nat, id: string)
    requires k < |history|
  {
    var e := history[k];
    && e.id == id
    && (e.Invalidated? ||
        (e.Failed? && match LastSuccess(history[..k], id) case None => true case Some(t) => e.now - t > e.interval))
  }

  ghost predicate Redeemed(history: seq<Event>, k: nat, id: string)
    requires k < |history|
  {
    exists l :: k < l < |history| && history[l].Succeeded? && history[l].id == id
  }

  lemma {:induction false} LastPollIsLastSuccess(history: seq<Event>, id: string)
    ensures Get(After(history), id).lastPoll == LastSuccess(history, id)
  {
    if history == [] {
    } else {
      LastPollIsLastSuccess(history[..|history| - 1], id);
    }
  }

  lemma EarlierEvent(history: seq<Event>, n: nat, k: nat, id: string)
    requires k < n <= |history|
    ensures Disqualifies(history[..n], k, id) == Disqualifies(history, k, id)
    ensures Redeemed(history[..n], k, id) ==> Redeemed(history, k, id)
  {
    assert history[..n][..k] == history[..k];
    if Redeemed(history[..n], k, id) {
      var l :| k < l < n && history[..n][l].Succeeded? && history[..n][l].id == id;
      assert history[l].Succeeded?;
    }
  }

  /** An array is available exactly when everything that spoke against it was
      followed by a successful poll. */
  lemma {:induction false} AvailableExactly(history: seq<Event>, id: string)
    ensures Available(After(history), id) <==>
      forall k :: 0 <= k < |history| && Disqualifies(history, k, id) ==> Redeemed(history, k, id)
  {
    if history == [] {
    } else {
      var n := |history| - 1;
      var last, earlier := history[n], history[..n];
      AvailableExactly(earlier, id);
      LastPollIsLastSuccess(earlier, id);
      if last.id == id && last.Succeeded? {
        forall k | 0 <= k < |history| && Disqualifies(history, k, id) ensures Redeemed(history, k, id) {
          assert k < n && history[n].Succeeded?;
        }
      } else {
        assert !Redeemed(history, n, id);
        forall k | 0 <= k < n
          ensures Disqualifies(earlier, k, id) == Disqualifies(history, k, id) &&
              Redeemed(earlier, k, id) == Redeemed(history, k, id)
        {
          EarlierEvent(history, n, k, id);
          NotRedeemedByLast(history, n, k, id);
        }
        assert Disqualifies(history, n, id) ==> !Available(After(history), id);
      }
    }
  }

  lemma NotRedeemedByLast(history: seq<Event>, n: nat, k: nat, id: string)
    requires |history| == n + 1 && k < n && !(history[n].Succeeded? && history[n].id == id)
    ensures Redeemed(history, k, id) ==> Redeemed(history[..n], k, id)
  {
    if Redeemed(history, k, id) {
      var l :| k < l < |history| && history[l].Succeeded? && history[l].id == id;
      assert history[..n][l].Succeeded?;
    }
  }

  // ---- What a warning means ----

  /** The utilisations of id that were compared with the threshold. */
  function ComparedValues(history: seq<Event>, id: string): seq<real> {
    if history == [] then [] else
      var last := history[|history| - 1];
      ComparedValues(history[..|history| - 1], id) + if last.Compared? && last.id == id then [last.utilization] else []
  }

  function Warnings(history: seq<Event>, id: string): nat {
    if history == [] then 0 else
      var last, earlier := history[|history| - 1], history[..|history| - 1];
      Warnings(earlier, id) + if last.id == id && Warns(After(earlier), last) then 1 else 0
  }

  /** A streak begins at i: at or above the threshold, but not just before. */
  predicate StreakStarts(values: seq<real>, threshold: real, i: nat)
    requires i < |values|
  {
    values[i] >= threshold && (i == 0 || values[i - 1] < threshold)
  }

  function StreakStartsIn(values: seq<real>, threshold: real): set<nat> {
    set i: nat | i < |values| && StreakStarts(values, threshold, i)
  }

  function Streaks(values: seq<real>, threshold: real): nat {
    |StreakStartsIn(values, threshold)|
  }

  lemma StreaksSnoc(values: seq<real>, u: real, threshold: real)
    ensures Streaks(values + [u], threshold) ==
      Streaks(values, threshold) + if u >= threshold && (values == [] || values[|values| - 1] < threshold) then 1 else 0
  {
    var more := values + [u];
    var before, after := StreakStartsIn(values, threshold), StreakStartsIn(more, threshold);
    var n := |values|;
    forall i: nat ensures i in after <==> i in before || (i == n && StreakStarts(more, threshold, n)) {
      assert i < n ==> more[i] == values[i];
    }
    assert after == if StreakStarts(more, threshold, n) then before + {n} else before;
  }

  ghost predicate OneThreshold(history: seq<Event>, id: string, threshold: real) {
    forall k :: 0 <= k < |history| && history[k].Compared? && history[k].id == id ==> history[k].threshold == threshold
  }

  /** Exactly one warning per maximal streak of polls at or above the threshold. */
  lemma {:induction false} OneWarningPerStreak(history: seq<Event>, id: string, threshold: real)
    requires OneThreshold(history, id, threshold)
    ensures Warnings(history, id) == Streaks(ComparedValues(history, id), threshold)
    ensures var values := ComparedValues(history, id);
      Get(After(history), id).warned == (values != [] && values[|values| - 1] >= threshold)
  {
    if history == [] {
      assert StreakStartsIn([], threshold) == {};
    } else {
      var n := |history| - 1;
      var last, earlier := history[n], history[..n];
      OneWarningPerStreak(earlier, id, threshold);
      if last.Compared? && last.id == id {
        StreaksSnoc(ComparedValues(earlier, id), last.utilization, threshold);
      } else {
        assert ComparedValues(history, id) == ComparedValues(earlier, id);
      }
    }
  }

  // ---- One poller among everything else ----

  /** The utilisations reported by the successful polls of id. */
  function PolledValues(history: seq<Event>, id: string): seq<real> {
    if history == [] then [] else
      var last := history[|history| - 1];
      PolledValues(history[..|history| - 1], id) + if last.Succeeded? && last.id == id then [last.utilization] else []
  }

  /** The utilisation last reported, zero before the first successful poll. */
  function LastPolled(history: seq<Event>, id: string): real {
    var values := PolledValues(history, id);
    if values == [] then 0.0 else values[|values| - 1]
  }

  /** The cached utilisation is the one last reported, whatever else happened. */
  lemma {:induction false} UtilizationIsLastPolled(history: seq<Event>, id: string)
    ensures Get(After(history), id).utilization == LastPolled(history, id)
  {
    if history == [] {
    } else {
      UtilizationIsLastPolled(history[..|history| - 1], id);
    }
  }

  /** The successful poll that was recorded and not yet compared. */
  function Pending(history: seq<Event>): (p: Option<Event>)
    ensures p.Some? ==> p.value.Succeeded?
  {
    if history == [] then None else
      var last := history[|history| - 1];
      if last.Succeeded? then Some(last)
      else if last.Compared? then None
      else Pending(history[..|history| - 1])
  }

  /** A poller compares each value it records before it goes on to the next array.
      All other events may come at any moment, also between the two. */
  predicate MayFollow(history: seq<Event>, e: Event, threshold: real) {
    match e
    case Succeeded(_, _, _) => Pending(history).None?
    case Failed(_, _, _) => Pending(history).None?
    case Compared(id, u, t) =>
      var poll := Pending(history);
      poll.Some? && poll.value.id == id && poll.value.utilization == u && t == threshold
    case _ => true
  }

  /** A history with one poller and anything else. */
  predicate OnePoller(history: seq<Event>, threshold: real) {
    history == [] ||
    var last, earlier := history[|history| - 1], history[..|history| - 1];
    OnePoller(earlier, threshold) && MayFollow(earlier, last, threshold)
  }

  function PendingValue(history: seq<Event>, id: string): seq<real> {
    match Pending(history)
    case Some(Succeeded(polled, u, _)) => if polled == id then [u] else []
    case _ => []
  }

  lemma {:induction false} PolledIsComparedOrPending(history: seq<Event>, id: string, threshold: real)
    requires OnePoller(history, threshold)
    ensures PolledValues(history, id) == ComparedValues(history, id) + PendingValue(history, id)
    ensures OneThreshold(history, id, threshold)
  {
    if history == [] {
    } else {
      var n := |history| - 1;
      assert history == history[..n] + [history[n]];
      PolledIsComparedOrPending(history[..n], id, threshold);
    }
  }

  /** In every such history an array has been warned about exactly once per maximal
      streak of successful polls at or above the threshold, not counting a poll
      whose comparison is still to come. */
  lemma WarningsArePolledStreaks(history: seq<Event>, id: string, threshold: real)
    requires OnePoller(history, threshold)
    ensures var values := PolledValues(history, id);
      var pending := Pending(history).Some? && Pending(history).value.id == id;
      && (pending ==> values != [])
      && Warnings(history, id) == Streaks(if pending then values[..|values| - 1] else values, threshold)
  {
    PolledIsComparedOrPending(history, id, threshold);
    OneWarningPerStreak(history, id, threshold);
    var values := PolledValues(history, id);
    if Pending(history).Some? && Pending(history).value.id == id {
      assert values[..|values| - 1] == ComparedValues(history, id);
    } else {
      assert values == ComparedValues(history, id);
    }
  }
}

/** The cache as a shared object, and one cycle of the poller. */
module CapacityCache {
  import opened Options
  import opened CapacitySpec

  class ArrayCapacityEntry {
    var utilization: real
    var lastPoll: Option<int>
    var available: bool
    var inFlight: int
    var warned: bool

    constructor ()
      ensures View() == Fresh
    {
      utilization, lastPoll, available, inFlight, warned := 0.0, None, true, 0, false;
    }

    function View(): Entry reads this {
      Entry(utilization, lastPoll, available, inFlight, warned)
    }

    method Succeed(utilization: real, now: int)
      modifies this
      ensures View() == old(View()).(utilization := utilization, lastPoll := Some(now), available := true)
    {
      this.utilization := utilization;
      lastPoll := Some(now);
      available := true;
    }

    method Fail(pollInterval: int, now: int)
      modifies this
      ensures View() ==
              if old(lastPoll).None? || now - old(lastPoll).value > pollInterval then old(View()).(available := false)
              else old(View())
    {
      if lastPoll.None? || now - lastPoll.value > pollInterval {
        available := false;
      }
    }

    method Compare(utilization: real, threshold: real) returns (crossed: bool)
      modifies this
      ensures crossed == (utilization >= threshold && !old(warned))
      ensures View() == old(View()).(warned := utilization >= threshold)
    {
      var above := utilization >= threshold;
      crossed := above && !warned;
      warned := above;
    }
  }

  /** What one snapshot of an array reports. */
  datatype Snapshot = Snapshot(utilization: real, available: bool, inFlight: int, known: bool)

  function SnapshotOf(c: Cache, id: string): Snapshot {
    Snapshot(Get(c, id).utilization, Get(c, id).available, Get(c, id).inFlight, id in c)
  }

  class CapacityCache {
    var arrays: map<string, ArrayCapacityEntry>

    constructor ()
      ensures Valid() && View() == map[] && arrays.Values == {}
    {
      arrays := map[];
    }

    /** No two arrays share an entry object. */
    ghost predicate Valid() reads this {
      forall a, b :: a in arrays && b in arrays && a != b ==> arrays[a] != arrays[b]
    }

    ghost function View(): Cache reads this, arrays.Values {
      map id | id in arrays :: arrays[id].View()
    }

    method GetOrCreate(id: string) returns (e: ArrayCapacityEntry)
      requires Valid()
      modifies this
      ensures Valid() && id in arrays && arrays[id] == e
      ensures e.View() == Get(old(View()), id) && View() == old(View())[id := e.View()]
      ensures fresh(arrays.Values - old(arrays.Values))
    {
      if id in arrays {
        e := arrays[id];
      } else {
        e := new ArrayCapacityEntry();
        arrays := arrays[id := e];
      }
    }

    method GetSnapshot(id: string) returns (s: Snapshot)
      ensures s == SnapshotOf(View(), id)
    {
      if id !in arrays {
        return Snapshot(0.0, true, 0, false);
      }
      var e := arrays[id];
      return Snapshot(e.utilization, e.available, e.inFlight, true);
    }

    method RecordPollSuccess(id: string, utilization: real, now: int)
      requires Valid()
      modifies this, arrays.Values
      ensures Valid() && View() == Apply(old(View()), Succeeded(id, utilization, now))
      ensures fresh(arrays.Values - old(arrays.Values))
    {
      var e := GetOrCreate(id);
      e.Succeed(utilization, now);
      assert View() == old(View())[id := e.View()];
    }

    method RecordPollFailure(id: string, pollInterval: int, now: int)
      requires Valid()
      modifies this, arrays.Values
      ensures Valid() && View() == Apply(old(View()), Failed(id, pollInterval, now))
      ensures fresh(arrays.Values - old(arrays.Values))
    {
      var e := GetOrCreate(id);
      e.Fail(pollInterval, now);
      assert View() == old(View())[id := e.View()];
    }

    method Invalidate(id: string)
      requires Valid()
      modifies this, arrays.Values
      ensures Valid() && View() == Apply(old(View()), Invalidated(id))
      ensures fresh(arrays.Values - old(arrays.Values))
    {
      var e := GetOrCreate(id);
      e.available := false;
      assert View() == old(View())[id := e.View()];
    }

    method AddInFlight(id: string, delta: int)
      requires Valid()
      modifies this, arrays.Values
      ensures Valid() && View() == Apply(old(View()), Added(id, delta))
      ensures fresh(arrays.Values - old(arrays.Values))
    {
      var e := GetOrCreate(id);
      e.inFlight := e.inFlight + delta;
      assert View() == old(View())[id := e.View()];
    }

    method CrossedCapacityWarningThreshold(id: string, utilization: real, threshold: real) returns (crossed: bool)
      requires Valid()
      modifies this, arrays.Values
      ensures Valid() && View() == Apply(old(View()), Compared(id, utilization, threshold))
      ensures crossed == Warns(old(View()), Compared(id, utilization, threshold))
      ensures fresh(arrays.Values - old(arrays.Values))
    {
      var e := GetOrCreate(id);
      assert e.warned == Get(old(View()), id).warned;
      crossed := e.Compare(utilization, threshold);
      assert View() == old(View())[id := e.View()];
    }

    /** The body of the loop in RunPollCycle. */
    method PollOne(id: string, answer: Option<real>, cycle: Cycle) returns (warned: seq<string>)
      requires Valid()
      modifies this, arrays.Values
      ensures Valid() && View() == Polled(old(View()), id, answer, cycle)
      ensures warned == WarnedOn(old(View()), id, answer, cycle)
      ensures fresh(arrays.Values - old(arrays.Values))
    {
      if answer.None? {
        RecordPollFailure(id, cycle.interval, cycle.now);
        return [];
      }
      RecordPollSuccess(id, answer.value, cycle.now);
      var crossed := CrossedCapacityWarningThreshold(id, answer.value, cycle.full - WarningOffset);
      return if crossed then [id] else [];
    }

    /** One poll of all arrays; the arrays warned about are returned. */
    method RunPollCycle(ids: seq<string>, cycle: Cycle) returns (warned: seq<string>)
      requires Valid()
      modifies this, arrays.Values
      ensures Valid() && View() == PolledFrom(old(View()), ids, 0, cycle)
      ensures warned == WarnedFrom(old(View()), ids, 0, cycle)
      ensures fresh(arrays.Values - old(arrays.Values))
    {
      warned := [];
      ghost var c, w := PolledFrom(View(), ids, 0, cycle), WarnedFrom(View(), ids, 0, cycle);
      for k := 0 to |ids|
        invariant Valid() && fresh(arrays.Values - old(arrays.Values))
        invariant PolledFrom(View(), ids, k, cycle) == c && warned + WarnedFrom(View(), ids, k, cycle) == w
      {
        ghost var before := View();
        var more := PollOne(ids[k], cycle.poll(k), cycle);
        assert PolledFrom(before, ids, k, cycle) == PolledFrom(View(), ids, k + 1, cycle);
        ghost var rest := WarnedFrom(View(), ids, k + 1, cycle);
        assert WarnedFrom(before, ids, k, cycle) == more + rest;
        assert warned + (more + rest) == warned + more + rest;
        warned := warned + more;
      }
    }
  }

  /** The inputs of a cycle; poll(k) is what the k-th array answers. */
  datatype Cycle = Cycle(poll: nat -> Option<real>, interval: int, full: real, now: int)

  function Polled(c: Cache, id: string, answer: Option<real>, cycle: Cycle): Cache {
    match answer
    case None => Apply(c, Failed(id, cycle.interval, cycle.now))
    case Some(u) => Apply(Apply(c, Succeeded(id, u, cycle.now)), Compared(id, u, cycle.full - WarningOffset))
  }

  function WarnedOn(c: Cache, id: string, answer: Option<real>, cycle: Cycle): seq<string> {
    match answer
    case None => []
    case Some(u) =>
      if Warns(Apply(c, Succeeded(id, u, cycle.now)), Compared(id, u, cycle.full - WarningOffset)) then [id] else []
  }

  /** The cache after polling array number k and those after it. */
  function PolledFrom(c: Cache, ids: seq<string>, k: nat, cycle: Cycle): Cache
    requires k <= |ids|
    decreases |ids| - k
  {
    if k == |ids| then c else PolledFrom(Polled(c, ids[k], cycle.poll(k), cycle), ids, k + 1, cycle)
  }

  function WarnedFrom(c: Cache, ids: seq<string>, k: nat, cycle: Cycle): seq<string>
    requires k <= |ids|
    decreases |ids| - k
  {
    if k == |ids| then [] else
      WarnedOn(c, ids[k], cycle.poll(k), cycle) + WarnedFrom(Polled(c, ids[k], cycle.poll(k), cycle), ids, k + 1, cycle)
  }

  // ---- What a cycle leaves in the cache ----

  lemma {:induction false} CycleSkips(c: Cache, ids: seq<string>, k: nat, cycle: Cycle, id: string)
    requires k <= |ids| && id !in ids[k..]
    ensures Get(PolledFrom(c, ids, k, cycle), id) == Get(c, id)
    ensures id in PolledFrom(c, ids, k, cycle) <==> id in c
    decreases |ids| - k
  {
    if k == |ids| {
    } else {
      assert ids[k..][0] == ids[k] && ids[k + 1..] == ids[k..][1..];
      CycleSkips(Polled(c, ids[k], cycle.poll(k), cycle), ids, k + 1, cycle, id);
    }
  }

  /** The entry of an array after its poll: the answer is recorded with its time, and
      without one the array is unavailable unless polled within the interval. */
  predicate Recorded(before: Entry, after: Entry, answer: Option<real>, cycle: Cycle) {
    && after.inFlight == before.inFlight
    && match answer
       case Some(u) =>
         && after.utilization == u && after.lastPoll == Some(cycle.now) && after.available
         && (after.warned <==> u >= cycle.full - 10.0)
       case None =>
         && after.utilization == before.utilization && after.lastPoll == before.lastPoll
         && after.warned == before.warned
         && (after.available <==>
               before.available && before.lastPoll.Some? && cycle.now - before.lastPoll.value <= cycle.interval)
  }

  lemma {:induction false} CycleRecordsFrom(c: Cache, ids: seq<string>, k: nat, cycle: Cycle, i: nat)
    requires k <= i < |ids| && forall j :: k <= j < |ids| && j != i ==> ids[j] != ids[i]
    ensures ids[i] in PolledFrom(c, ids, k, cycle)
    ensures Recorded(Get(c, ids[i]), Get(PolledFrom(c, ids, k, cycle), ids[i]), cycle.poll(i), cycle)
    decreases i - k
  {
    var c' := Polled(c, ids[k], cycle.poll(k), cycle);
    if k == i {
      assert ids[i] !in ids[k + 1..];
      CycleSkips(c', ids, k + 1, cycle, ids[i]);
    } else {
      CycleRecordsFrom(c', ids, k + 1, cycle, i);
    }
  }

  /** A cycle over distinct arrays records the answer of each of them, and touches no
      other array. */
  lemma CycleRecordsEveryArray(c: Cache, ids: seq<string>, cycle: Cycle, id: string)
    requires forall i, j :: 0 <= i < j < |ids| ==> ids[i] != ids[j]
    ensures forall i :: 0 <= i < |ids| && ids[i] == id ==>
      Recorded(Get(c, id), Get(PolledFrom(c, ids, 0, cycle), id), cycle.poll(i), cycle)
    ensures id !in ids ==> Get(PolledFrom(c, ids, 0, cycle), id) == Get(c, id)
    ensures id in PolledFrom(c, ids, 0, cycle) <==> id in c || id in ids
  {
    if id in ids {
      var i :| 0 <= i < |ids| && ids[i] == id;
      CycleRecordsFrom(c, ids, 0, cycle, i);
    } else {
      assert ids[0..] == ids;
      CycleSkips(c, ids, 0, cycle, id);
    }
  }

  // ---- The poll cycle in the history of the cache ----

  function PollEvents(id: string, answer: Option<real>, cycle: Cycle): seq<Event> {
    match answer
    case None => [Failed(id, cycle.interval, cycle.now)]
    case Some(u) => [Succeeded(id, u, cycle.now), Compared(id, u, cycle.full - WarningOffset)]
  }

  /** A history continued by polling array number k and those after it. */
  function Continued(history: seq<Event>, ids: seq<string>, k: nat, cycle: Cycle): seq<Event>
    requires k <= |ids|
    decreases |ids| - k
  {
    if k == |ids| then history else Continued(history + PollEvents(ids[k], cycle.poll(k), cycle), ids, k + 1, cycle)
  }

  lemma AfterSnoc(history: seq<Event>, e: Event)
    ensures After(history + [e]) == Apply(After(history), e)
  {
    assert (history + [e])[..|history + [e]| - 1] == history;
  }

  lemma WarningsSnoc(history: seq<Event>, e: Event, id: string)
    ensures Warnings(history + [e], id) == Warnings(history, id) +
        if e.id == id && Warns(After(history), e) then 1 else 0
  {
    assert (history + [e])[..|history + [e]| - 1] == history;
  }

  lemma PollReaches(history: seq<Event>, id: string, answer: Option<real>, cycle: Cycle)
    ensures After(history + PollEvents(id, answer, cycle)) == Polled(After(history), id, answer, cycle)
  {
    match answer
    case None => AfterSnoc(history, Failed(id, cycle.interval, cycle.now));
    case Some(u) =>
      var s, c := Succeeded(id, u, cycle.now), Compared(id, u, cycle.full - WarningOffset);
      AfterSnoc(history, s);
      AfterSnoc(history + [s], c);
      assert history + [s, c] == history + [s] + [c];
  }

  lemma PollWarns(history: seq<Event>, id: string, answer: Option<real>, cycle: Cycle, other: string)
    ensures Warnings(history + PollEvents(id, answer, cycle), other) ==
      Warnings(history, other) + multiset(WarnedOn(After(history), id, answer, cycle))[other]
  {
    match answer
    case None => WarningsSnoc(history, Failed(id, cycle.interval, cycle.now), other);
    case Some(u) =>
      var s, c := Succeeded(id, u, cycle.now), Compared(id, u, cycle.full - WarningOffset);
      AfterSnoc(history, s);
      WarningsSnoc(history, s, other);
      WarningsSnoc(history + [s], c, other);
      assert history + [s, c] == history + [s] + [c];
  }

  /** A cycle run on the cache of a history leads to the cache of the continued
      history, and raises exactly the warnings the continuation counts. */
  lemma {:induction false} CycleInHistory(history: seq<Event>, ids: seq<string>, k: nat, cycle: Cycle, id: string)
    requires k <= |ids|
    ensures After(Continued(history, ids, k, cycle)) == PolledFrom(After(history), ids, k, cycle)
    ensures Warnings(Continued(history, ids, k, cycle), id) ==
      Warnings(history, id) + multiset(WarnedFrom(After(history), ids, k, cycle))[id]
    decreases |ids| - k
  {
    if k == |ids| {
    } else {
      PollReaches(history, ids[k], cycle.poll(k), cycle);
      PollWarns(history, ids[k], cycle.poll(k), cycle, id);
      CycleInHistory(history + PollEvents(ids[k], cycle.poll(k), cycle), ids, k + 1, cycle, id);
    }
  }

  lemma OnePollerSnoc(history: seq<Event>, e: Event, threshold: real)
    requires OnePoller(history, threshold) && MayFollow(history, e, threshold)
    ensures OnePoller(history + [e], threshold)
    ensures Pending(history + [e]) ==
            if e.Succeeded? then Some(e) else if e.Compared? then None else Pending(history)
  {
    assert (history + [e])[..|history + [e]| - 1] == history;
  }

  lemma PollIsOnePoller(history: seq<Event>, id: string, answer: Option<real>, cycle: Cycle)
    requires OnePoller(history, cycle.full - WarningOffset) && Pending(history).None?
    ensures OnePoller(history + PollEvents(id, answer, cycle), cycle.full - WarningOffset)
    ensures Pending(history + PollEvents(id, answer, cycle)).None?
  {
    match answer
    case None => OnePollerSnoc(history, Failed(id, cycle.interval, cycle.now), cycle.full - WarningOffset);
    case Some(u) =>
      var s, c := Succeeded(id, u, cycle.now), Compared(id, u, cycle.full - WarningOffset);
      OnePollerSnoc(history, s, cycle.full - WarningOffset);
      OnePollerSnoc(history + [s], c, cycle.full - WarningOffset);
      assert history + [s, c] == history + [s] + [c];
  }

  /** A cycle continues a history of one poller by another one, with no comparison
      left open at its end. */
  lemma {:induction false} CycleIsOnePoller(history: seq<Event>, ids: seq<string>, k: nat, cycle: Cycle)
    requires k <= |ids| && OnePoller(history, cycle.full - WarningOffset) && Pending(history).None?
    ensures OnePoller(Continued(history, ids, k, cycle), cycle.full - WarningOffset)
    ensures Pending(Continued(history, ids, k, cycle)).None?
    decreases |ids| - k
  {
    if k == |ids| {
    } else {
      PollIsOnePoller(history, ids[k], cycle.poll(k), cycle);
      CycleIsOnePoller(history + PollEvents(ids[k], cycle.poll(k), cycle), ids, k + 1, cycle);
    }
  }
}
