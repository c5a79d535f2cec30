/**
Choosing an array for a new volume by capacity, and moving on to another array
when the chosen one cannot be reached.
*/
module SelectionSpec {
  import opened Options
  import opened CapacitySpec
  import opened Sorting

  /** Byte-wise order of strings. */
  predicate Less(a: string, b: string) {
    b != "" && (a == "" || a[0] < b[0] || (a[0] == b[0] && Less(a[1..], b[1..])))
  }

  lemma {:induction false} LessTotal(a: string, b: string)
    ensures Less(a, b) || Less(b, a) || a == b
    ensures !(Less(a, b) && Less(b, a))
  {
    if a != "" && b != "" && a[0] == b[0] {
      LessTotal(a[1..], b[1..]);
      assert a == [a[0]] + a[1..] && b == [b[0]] + b[1..];
    }
  }

  lemma {:induction false} LessTransitive(a: string, b: string, c: string)
    requires Less(a, b) && Less(b, c)
    ensures Less(a, c)
  {
    if a != "" && a[0] == b[0] && b[0] == c[0] { LessTransitive(a[1..], b[1..], c[1..]); }
  }

  /** At the first difference a has ended or has the smaller character. */
  ghost predicate FirstDifference(a: string, b: string, k: nat) {
    k <= |a| && k < |b| && a[..k] == b[..k] && (k == |a| || a[k] < b[k])
  }

  lemma SameStart(a: string, b: string, k: nat)
    requires FirstDifference(a, b, k) && k > 0
    ensures a != "" && b != "" && a[0] == b[0]
  {
    assert a[..k][0] == a[0] && b[..k][0] == b[0];
  }

  lemma {:induction false} LessMeans(a: string, b: string)
    ensures Less(a, b) <==> exists k: nat :: FirstDifference(a, b, k)
  {
    if a != "" && b != "" && a[0] == b[0] {
      LessMeans(a[1..], b[1..]);
      if k: nat :| FirstDifference(a[1..], b[1..], k) {
        assert a[..k + 1] == [a[0]] + a[1..][..k] && b[..k + 1] == [b[0]] + b[1..][..k];
        assert FirstDifference(a, b, k + 1);
      }
      if k: nat :| FirstDifference(a, b, k) {
        assert k > 0;
        assert a[1..][..k - 1] == a[..k][1..] && b[1..][..k - 1] == b[..k][1..];
        assert FirstDifference(a[1..], b[1..], k - 1);
      }
    } else if Less(a, b) {
      assert FirstDifference(a, b, 0);
    } else if k: nat :| FirstDifference(a, b, k) {
      if k > 0 { SameStart(a, b, k); }
    }
  }

  datatype Candidate = Candidate(id: string, utilization: real, inFlight: int)

  /** Less used comes first, then less busy, then the smaller identifier. */
  predicate Before(x: Candidate, y: Candidate) {
    if x.utilization != y.utilization then x.utilization < y.utilization
    else if x.inFlight != y.inFlight then x.inFlight < y.inFlight
    else Less(x.id, y.id)
  }

  lemma BeforeTotal(x: Candidate, y: Candidate)
    ensures Before(x, y) || Before(y, x) || x == y
    ensures !(Before(x, y) && Before(y, x))
  {
    LessTotal(x.id, y.id);
  }

  lemma BeforeTransitive(x: Candidate, y: Candidate, z: Candidate)
    requires Before(x, y) && Before(y, z)
    ensures Before(x, z)
  {
    if Less(x.id, y.id) && Less(y.id, z.id) { LessTransitive(x.id, y.id, z.id); }
  }

  function CandidateOf(c: Cache, id: string): Candidate {
    Candidate(id, Get(c, id).utilization, Get(c, id).inFlight)
  }

  /** full is the capacity threshold; zero or less switches it off. */
  predicate IsArrayUnavailable(c: Cache, full: real, id: string) {
    id in c && (!c[id].available || (full > 0.0 && c[id].utilization >= full))
  }

  /** The best array of a set, or none if every one of them is unavailable. */
  ghost predicate IsChoice(c: Cache, full: real, ids: set<string>, r: Option<string>) {
    match r
    case None => forall id :: id in ids ==> IsArrayUnavailable(c, full, id)
    case Some(a) =>
      && a in ids && !IsArrayUnavailable(c, full, a)
      && forall id :: id in ids && id != a && !IsArrayUnavailable(c, full, id) ==>
            Before(CandidateOf(c, a), CandidateOf(c, id))
  }

  /** For a given cache the choice is a function of the set of candidates. */
  lemma ChoiceIsUnique(c: Cache, full: real, ids: set<string>, r1: Option<string>, r2: Option<string>)
    requires IsChoice(c, full, ids, r1) && IsChoice(c, full, ids, r2)
    ensures r1 == r2
  {
    if r1.Some? && r2.Some? && r1 != r2 {
      BeforeTotal(CandidateOf(c, r1.value), CandidateOf(c, r2.value));
    }
  }

  /** An array is passed over exactly when something that spoke against it was not
      followed by a successful poll, or when it was last polled at or above the
      capacity threshold. */
  lemma UnavailableExactly(history: seq<Event>, full: real, id: string)
    ensures IsArrayUnavailable(After(history), full, id) <==>
      || (exists k :: 0 <= k < |history| && Disqualifies(history, k, id) && !Redeemed(history, k, id))
      || (full > 0.0 && LastPolled(history, id) >= full)
  {
    AvailableExactly(history, id);
    UtilizationIsLastPolled(history, id);
  }

  /** Over every history the array chosen is one that is not passed over, and any other
      such array was last polled at a higher utilisation, or at the same and is
      busier, or is as busy and has the greater identifier. */
  lemma ChoiceIsLeastUsed(history: seq<Event>, full: real, ids: set<string>, a: string, b: string)
    requires IsChoice(After(history), full, ids, Some(a)) && b in ids && b != a
    requires !IsArrayUnavailable(After(history), full, b)
    ensures a in ids && !IsArrayUnavailable(After(history), full, a)
    ensures var c := After(history);
      || LastPolled(history, a) < LastPolled(history, b)
      || (LastPolled(history, a) == LastPolled(history, b) && Get(c, a).inFlight < Get(c, b).inFlight)
      || (LastPolled(history, a) == LastPolled(history, b) && Get(c, a).inFlight == Get(c, b).inFlight &&
          exists k: nat :: FirstDifference(a, b, k))
  {
    UtilizationIsLastPolled(history, a);
    UtilizationIsLastPolled(history, b);
    LessMeans(a, b);
  }

  // ---- Sorting candidates ----

  lemma BeforeIsWeakOrder()
    ensures WeakOrder(Before)
  {
    forall x, y | Before(x, y) ensures !Before(y, x) { BeforeTotal(x, y); }
    forall x, y, z | Before(x, z) ensures Before(x, y) || Before(y, z) {
      BeforeTotal(x, y);
      if Before(y, x) { BeforeTransitive(y, x, z); }
    }
  }

  function Ranked(s: seq<Candidate>): seq<Candidate> {
    Sort(s, Before)
  }

  /** The head of a sorted list comes before everything that differs from it. */
  lemma SortedHead(s: seq<Candidate>)
    requires s != []
    ensures Ranked(s) != [] && Ranked(s)[0] in s
    ensures forall y :: y in s && y != Ranked(s)[0] ==> Before(Ranked(s)[0], y)
  {
    BeforeIsWeakOrder();
    SortSorts(s, Before);
    var t := Ranked(s);
    SortMembers(s, Before, t[0]);
    forall y | y in s && y != t[0] ensures Before(t[0], y) {
      SortMembers(s, Before, y);
      var j :| 0 <= j < |t| && t[j] == y;
      BeforeTotal(t[0], y);
      assert !Before(t[j], t[0]);
    }
  }
}

/** Selection, failover and the retry loop of CreateVolume on the shared cache. */
module CreateVolume {
  import opened Options
  import opened CapacitySpec
  import opened CapacityCache
  import opened SelectionSpec

  const MaxFailoverRetries := 3

  datatype Selection = Selected(id: string) | AllUnavailable(attempted: nat)

  datatype Failover = Next(id: string) | LimitReached | NoneLeft(attempted: nat)

  /** How one provisioning attempt ends. */
  datatype Attempt = Provisioned | Unreachable | Refused

  datatype Result =
    | Created(on: string)
    | TargetUnavailable
    | NoSuitableArray
    | AllArraysUnavailable(attempted: nat)
    | RetryLimit
    | ProvisioningFailed

  function IdSet(ids: seq<string>): set<string> {
    set id | id in ids
  }

  function Unordered(s: Selection): Option<string> {
    match s
    case Selected(id) => Some(id)
    case AllUnavailable(_) => None
  }

  /** Candidates found eligible, in list order. */
  function Found(c: Cache, full: real, ids: seq<string>): seq<Candidate> {
    if ids == [] then [] else
      var last := ids[|ids| - 1];
      Found(c, full, ids[..|ids| - 1]) + if IsArrayUnavailable(c, full, last) then [] else [CandidateOf(c, last)]
  }

  lemma {:induction false} FoundAre(c: Cache, full: real, ids: seq<string>)
    ensures forall x :: x in Found(c, full, ids) <==>
        x.id in ids && !IsArrayUnavailable(c, full, x.id) && x == CandidateOf(c, x.id)
  {
    if ids == [] {
    } else {
      FoundAre(c, full, ids[..|ids| - 1]);
      assert ids == ids[..|ids| - 1] + [ids[|ids| - 1]];
    }
  }

  lemma BestIsChoice(c: Cache, full: real, ids: seq<string>)
    ensures var found := Found(c, full, ids);
      IsChoice(c, full, IdSet(ids), if found == [] then None else Some(Ranked(found)[0].id))
  {
    var found := Found(c, full, ids);
    FoundAre(c, full, ids);
    if found == [] {
      forall id | id in ids ensures IsArrayUnavailable(c, full, id) {
        assert CandidateOf(c, id) !in found;
      }
    } else {
      SortedHead(found);
      var best := Ranked(found)[0];
      forall id | id in IdSet(ids) && id != best.id && !IsArrayUnavailable(c, full, id)
        ensures Before(CandidateOf(c, best.id), CandidateOf(c, id))
      {
        assert CandidateOf(c, id) in found;
      }
    }
  }

  function Bare(ids: seq<string>): seq<Candidate> {
    seq(|ids|, i requires 0 <= i < |ids| => Candidate(ids[i], 0.0, 0))
  }

  lemma SmallestId(ids: seq<string>)
    requires ids != []
    ensures Ranked(Bare(ids)) != [] && Ranked(Bare(ids))[0].id in ids
    ensures forall id :: id in ids && id != Ranked(Bare(ids))[0].id ==> Less(Ranked(Bare(ids))[0].id, id)
  {
    SortedHead(Bare(ids));
    var best := Ranked(Bare(ids))[0];
    forall id | id in ids && id != best.id ensures Less(best.id, id) {
      var i :| 0 <= i < |ids| && ids[i] == id;
      assert Bare(ids)[i] in Bare(ids);
      assert Before(best, Bare(ids)[i]);
    }
  }

  // ---- What a choice is, with and without a cache ----

  ghost predicate Smallest(ids: seq<string>, a: string) {
    a in ids && forall id :: id in ids && id != a ==> Less(a, id)
  }

  /** cache is None when the driver has none. */
  ghost predicate Picks(cache: Option<Cache>, full: real, ids: seq<string>, r: Option<string>) {
    match cache
    case None => r.Some? && Smallest(ids, r.value)
    case Some(c) => IsChoice(c, full, IdSet(ids), r)
  }

  /** The choice that is left when the given arrays have failed. */
  ghost predicate PicksWithout(cache: Option<Cache>, full: real, ids: seq<string>, failed: set<string>,
                               r: Option<string>)
  {
    match cache
    case None => r.Some? && Smallest(ids, r.value)
    case Some(c) =>
      match r
      case None => forall id :: id in ids ==> id in failed || IsArrayUnavailable(c, full, id)
      case Some(a) =>
        && a in ids && a !in failed && !IsArrayUnavailable(c, full, a)
        && forall id :: id in ids && id != a && id !in failed && !IsArrayUnavailable(c, full, id) ==>
             Before(CandidateOf(c, a), CandidateOf(c, id))
  }

  /** Exactly the given arrays became unavailable; nothing else has changed. */
  ghost predicate Effect(before: Cache, after: Cache, failed: set<string>) {
    forall id :: Get(after, id) == Get(before, id).(available := Get(before, id).available && id !in failed)
  }

  ghost predicate Affected(before: Option<Cache>, after: Option<Cache>, failed: set<string>) {
    && before.None? == after.None?
    && (before.Some? ==> Effect(before.value, after.value, failed))
  }

  lemma AffectedTwice(a: Option<Cache>, b: Option<Cache>, c: Option<Cache>, f: set<string>, g: set<string>)
    requires Affected(a, b, f) && Affected(b, c, g)
    ensures Affected(a, c, f + g)
  {}

  lemma CountedOut(c: Cache, id: string)
    ensures Effect(c, Apply(Apply(c, Added(id, 1)), Added(id, -1)), {})
  {}

  lemma InvalidationAffects(c: Cache, id: string)
    ensures Effect(c, Apply(c, Invalidated(id)), {id})
  {}

  /** A choice made later, seen from the cache at the beginning. */
  lemma PickedLater(first: Option<Cache>, now: Option<Cache>, full: real, ids: seq<string>, failed: set<string>,
                    r: Option<string>)
    requires Affected(first, now, failed) && Picks(now, full, ids, r)
    ensures PicksWithout(first, full, ids, failed, r)
  {
    if first.Some? {
      forall id
        ensures IsArrayUnavailable(now.value, full, id) <==> id in failed || IsArrayUnavailable(first.value, full, id)
      {
        assert Get(now.value, id).available == (Get(first.value, id).available && id !in failed);
      }
      forall id ensures CandidateOf(now.value, id) == CandidateOf(first.value, id) {
        assert Get(now.value, id).(available := true) == Get(first.value, id).(available := true);
      }
      assert forall id :: id in ids <==> id in IdSet(ids);
    }
  }

  // ---- The driver ----

  class Service {
    const cache: CapacityCache?
    const full: real

    constructor (cache: CapacityCache?, full: real)
      ensures this.cache == cache && this.full == full
    {
      this.cache, this.full := cache, full;
    }

    ghost predicate Valid() reads cache {
      cache != null ==> cache.Valid()
    }

    ghost function Seen(): Option<Cache>
      reads cache, if cache == null then {} else cache.arrays.Values
    {
      if cache == null then None else Some(cache.View())
    }

    method SelectArray(candidates: seq<string>) returns (r: Selection)
      requires Valid()
      ensures candidates == [] ==> r == AllUnavailable(0)
      ensures candidates != [] ==> Picks(Seen(), full, candidates, Unordered(r))
      ensures r.AllUnavailable? ==> r.attempted == |candidates|
    {
      if |candidates| == 0 {
        return AllUnavailable(0);
      }
      if cache == null {
        SmallestId(candidates);
        return Selected(Ranked(Bare(candidates))[0].id);
      }
      var available := [];
      for i := 0 to |candidates|
        invariant available == Found(cache.View(), full, candidates[..i])
      {
        var id := candidates[i];
        var s := cache.GetSnapshot(id);
        assert candidates[..i + 1][..i] == candidates[..i];
        if !s.available {
          continue;
        }
        if full > 0.0 && s.utilization >= full {
          continue;
        }
        available := available + [Candidate(id, s.utilization, s.inFlight)];
      }
      assert candidates[..|candidates|] == candidates;
      BestIsChoice(cache.View(), full, candidates);
      if |available| == 0 {
        return AllUnavailable(|candidates|);
      }
      SortedHead(available);
      return Selected(Ranked(available)[0].id);
    }

    method HandleConnectivityFailover(failed: string, candidates: seq<string>, attemptCount: nat) returns (r: Failover)
      requires Valid()
      modifies cache, if cache == null then {} else cache.arrays.Values
      ensures Valid() && Affected(old(Seen()), Seen(), {failed})
      ensures cache != null ==> fresh(cache.arrays.Values - old(cache.arrays.Values))
      ensures r.LimitReached? <==> attemptCount >= MaxFailoverRetries
      ensures r.Next? ==> candidates != [] && Picks(Seen(), full, candidates, Some(r.id))
      ensures r.NoneLeft? ==> r.attempted == |candidates| && (candidates == [] || Picks(Seen(), full, candidates, None))
    {
      if cache != null {
        InvalidationAffects(cache.View(), failed);
        cache.Invalidate(failed);
      }
      if attemptCount >= MaxFailoverRetries {
        return LimitReached;
      }
      var s := SelectArray(candidates);
      if s.AllUnavailable? {
        return NoneLeft(s.attempted);
      }
      return Next(s.id);
    }

    /** The array of the first attempt. target is the one named by the storage
        class, empty for a choice by topology among the candidates; a single
        candidate is taken as it is. */
    method FirstArray(target: string, candidates: seq<string>) returns (r: First)
      requires Valid()
      ensures FirstOK(Seen(), full, target, candidates, r)
    {
      if target == "" {
        if candidates == [] {
          return Stop(NoSuitableArray);
        }
        if |candidates| == 1 {
          return Array(candidates[0]);
        }
        var s := SelectArray(candidates);
        if s.AllUnavailable? {
          return Stop(AllArraysUnavailable(s.attempted));
        }
        return Array(s.id);
      }
      if cache != null {
        var s := cache.GetSnapshot(target);
        if s.known && (!s.available || (full > 0.0 && s.utilization >= full)) {
          return Stop(TargetUnavailable);
        }
      }
      return Array(target);
    }

    /** One attempt, counted as in flight while it lasts. */
    method Provision(arrayID: string, ending: Attempt) returns (r: Attempt)
      requires Valid()
      modifies cache, if cache == null then {} else cache.arrays.Values
      ensures Valid() && r == ending && Affected(old(Seen()), Seen(), {})
      ensures cache != null ==> fresh(cache.arrays.Values - old(cache.arrays.Values))
    {
      if cache != null {
        CountedOut(cache.View(), arrayID);
        cache.AddInFlight(arrayID, 1);
      }
      r := ending;
      if cache != null {
        cache.AddInFlight(arrayID, -1);
      }
    }

    /** The body of the retry loop: attempt number count, on arrayID. */
    method TryOnce(arrayID: string, count: nat, target: string, candidates: seq<string>, ending: Attempt)
      returns (r: Iteration)
      requires Valid() && (target == "" ==> candidates != [])
      modifies cache, if cache == null then {} else cache.arrays.Values
      ensures Valid() && IterationOK(old(Seen()), Seen(), full, arrayID, count, target, candidates, ending, r)
      ensures cache != null ==> fresh(cache.arrays.Values - old(cache.arrays.Values))
    {
      ghost var v0 := Seen();
      var outcome := Provision(arrayID, ending);
      ghost var v1 := Seen();
      if outcome == Provisioned {
        return Over(Created(arrayID));
      }
      if target != "" || outcome != Unreachable {
        return Over(ProvisioningFailed);
      }
      var next := HandleConnectivityFailover(arrayID, candidates, count);
      AffectedTwice(v0, v1, Seen(), {}, {arrayID});
      match next {
        case LimitReached => return Over(RetryLimit);
        case NoneLeft(n) => return Over(AllArraysUnavailable(n));
        case Next(id) => return Again(id);
      }
    }

    /** The retry loop, from the first array on. */
    method Retry(first: string, target: string, candidates: seq<string>, attempts: nat -> Attempt)
      returns (result: Result, tried: seq<string>)
      requires Valid() && FirstOK(Seen(), full, target, candidates, Array(first))
      modifies cache, if cache == null then {} else cache.arrays.Values
      ensures Valid() && Ends(target, candidates, tried, attempts, result)
      ensures Story(old(Seen()), Seen(), full, target, candidates, tried, attempts, result)
    {
      tried := [];
      var current := first;
      ghost var v0 := Seen();
      StoryBegins(v0, full, target, candidates, attempts, first);
      while true
        invariant Valid() && UnderWay(target, candidates, attempts, tried, current)
        invariant cache != null ==> fresh(cache.arrays.Values - old(cache.arrays.Values))
        invariant SoFar(v0, Seen(), full, target, candidates, tried, current)
        decreases MaxFailoverRetries - |tried|
      {
        ghost var v1 := Seen();
        var step := TryOnce(current, |tried| + 1, target, candidates, attempts(|tried|));
        Iterated(v1, Seen(), full, target, candidates, attempts, tried, current, step);
        StoryGoesOn(v0, v1, Seen(), full, target, candidates, attempts, tried, current, step);
        tried := tried + [current];
        if step.Over? {
          return step.result, tried;
        }
        current := step.next;
      }
    }

    /** attempts(k) is how attempt k ends; tried are the arrays attempted. */
    method Create(target: string, candidates: seq<string>, attempts: nat -> Attempt)
      returns (result: Result, tried: seq<string>)
      requires Valid()
      modifies cache, if cache == null then {} else cache.arrays.Values
      ensures Valid() && Ends(target, candidates, tried, attempts, result)
      ensures Story(old(Seen()), Seen(), full, target, candidates, tried, attempts, result)
    {
      var first := FirstArray(target, candidates);
      if first.Stop? {
        NothingHappened(Seen(), full, target, candidates, attempts, first.result);
        return first.result, [];
      }
      result, tried := Retry(first.id, target, candidates, attempts);
    }
  }

  datatype First = Array(id: string) | Stop(result: Result)

  datatype Iteration = Over(result: Result) | Again(next: string)

  function Pool(target: string, candidates: seq<string>): seq<string> {
    if target == "" then candidates else [target]
  }

  ghost predicate FirstOK(v: Option<Cache>, full: real, target: string, candidates: seq<string>, r: First) {
    match r
    case Array(id) =>
      if target != "" then id == target && (v.Some? ==> !IsArrayUnavailable(v.value, full, target))
      else if |candidates| == 1 then id == candidates[0]
      else candidates != [] && Picks(v, full, candidates, Some(id))
    case Stop(result) =>
      if target != "" then result == TargetUnavailable && v.Some? && IsArrayUnavailable(v.value, full, target)
      else if candidates == [] then result == NoSuitableArray
      else result == AllArraysUnavailable(|candidates|) && |candidates| > 1 && Picks(v, full, candidates, None)
  }

  ghost predicate NoRepeats(ids: seq<string>) {
    forall k, l :: 0 <= k < l < |ids| ==> ids[k] != ids[l]
  }

  /** The loop is about to make attempt number |tried| + 1, on current. */
  ghost predicate UnderWay(target: string, candidates: seq<string>, attempts: nat -> Attempt, tried: seq<string>,
                           current: string)
  {
    && |tried| < MaxFailoverRetries && (target != "" ==> tried == [])
    && current in Pool(target, candidates) && (target == "" ==> candidates != [])
    && forall k :: 0 <= k < |tried| ==> tried[k] in Pool(target, candidates) && attempts(k) == Unreachable
  }

  /** How one iteration ends and what it does to the cache. */
  ghost predicate IterationOK(v: Option<Cache>, v': Option<Cache>, full: real, arrayID: string, count: nat,
                              target: string, candidates: seq<string>, ending: Attempt, r: Iteration)
  {
    var failsOver := target == "" && ending == Unreachable;
    && Affected(v, v', if failsOver then {arrayID} else {})
    && match r
       case Again(next) => failsOver && count < MaxFailoverRetries && Picks(v', full, candidates, Some(next))
       case Over(Created(on)) => ending == Provisioned && on == arrayID
       case Over(ProvisioningFailed) => ending == Refused || (ending == Unreachable && target != "")
       case Over(RetryLimit) => failsOver && count >= MaxFailoverRetries
       case Over(AllArraysUnavailable(n)) =>
         failsOver && count < MaxFailoverRetries && n == |candidates| && Picks(v', full, candidates, None)
       case Over(_) => false
  }

  lemma Iterated(v: Option<Cache>, v': Option<Cache>, full: real, target: string, candidates: seq<string>,
                 attempts: nat -> Attempt, tried: seq<string>, current: string, r: Iteration)
    requires UnderWay(target, candidates, attempts, tried, current)
    requires IterationOK(v, v', full, current, |tried| + 1, target, candidates, attempts(|tried|), r)
    ensures r.Over? ==> Ends(target, candidates, tried + [current], attempts, r.result)
    ensures r.Again? ==> UnderWay(target, candidates, attempts, tried + [current], r.next)
  {
    if r.Again? { PickedIsCandidate(v', full, candidates, r.next); }
  }

  lemma PickedIsCandidate(v: Option<Cache>, full: real, candidates: seq<string>, id: string)
    requires Picks(v, full, candidates, Some(id))
    ensures id in candidates
  {}

  /** Every array tried was the best choice then left, seen from the cache at the
      beginning; a single candidate is no choice. */
  ghost predicate BestChoices(v: Option<Cache>, full: real, candidates: seq<string>, tried: seq<string>) {
    forall k :: 0 <= k < |tried| && (k > 0 || |candidates| > 1) ==>
      PicksWithout(v, full, candidates, IdSet(tried[..k]), Some(tried[k]))
  }

  /** Before an attempt. */
  ghost predicate SoFar(v0: Option<Cache>, now: Option<Cache>, full: real, target: string, candidates: seq<string>,
                        tried: seq<string>, current: string)
  {
    && Affected(v0, now, IdSet(tried))
    && (v0.Some? ==> NoRepeats(tried + [current]))
    && (target == "" ==> BestChoices(v0, full, candidates, tried + [current]))
  }

  /** After the last attempt: exactly the arrays moved away from have become
      unavailable; with a cache no array was tried twice; every array tried was
      the best choice left; and if there was none left, every candidate had
      failed or been unavailable from the beginning. */
  ghost predicate Story(v0: Option<Cache>, now: Option<Cache>, full: real, target: string, candidates: seq<string>,
                        tried: seq<string>, attempts: nat -> Attempt, result: Result)
  {
    && Affected(v0, now, FailedOver(target, tried, attempts))
    && (v0.Some? ==> NoRepeats(tried))
    && (target == "" ==> BestChoices(v0, full, candidates, tried))
    && (result.AllArraysUnavailable? ==> PicksWithout(v0, full, candidates, IdSet(tried), None))
    && (result.TargetUnavailable? ==> v0.Some? && IsArrayUnavailable(v0.value, full, target))
  }

  lemma StoryBegins(v: Option<Cache>, full: real, target: string, candidates: seq<string>, attempts: nat -> Attempt,
                    first: string)
    requires FirstOK(v, full, target, candidates, Array(first))
    ensures UnderWay(target, candidates, attempts, [], first) && SoFar(v, v, full, target, candidates, [], first)
  {
    assert IdSet([]) == {};
    assert Affected(v, v, {});
    if target == "" && |candidates| > 1 {
      PickedLater(v, v, full, candidates, {}, Some(first));
      PickedIsCandidate(v, full, candidates, first);
      assert ([] + [first])[..0] == [];
    }
  }

  lemma NothingHappened(v: Option<Cache>, full: real, target: string, candidates: seq<string>,
                        attempts: nat -> Attempt, result: Result)
    requires FirstOK(v, full, target, candidates, Stop(result))
    ensures Story(v, v, full, target, candidates, [], attempts, result)
    ensures Ends(target, candidates, [], attempts, result)
  {
    assert IdSet([]) == {} && FailedOver(target, [], attempts) == {};
    assert Affected(v, v, {});
    if result.AllArraysUnavailable? { PickedLater(v, v, full, candidates, {}, None); }
  }

  lemma BestChoicesSnoc(v: Option<Cache>, full: real, candidates: seq<string>, tried: seq<string>, next: string)
    requires BestChoices(v, full, candidates, tried) && PicksWithout(v, full, candidates, IdSet(tried), Some(next))
    ensures BestChoices(v, full, candidates, tried + [next])
  {
    var more := tried + [next];
    forall k | 0 <= k < |more| && (k > 0 || |candidates| > 1)
      ensures PicksWithout(v, full, candidates, IdSet(more[..k]), Some(more[k]))
    {
      if k < |tried| { assert more[..k] == tried[..k]; } else { assert more[..k] == tried; }
    }
  }

  lemma StoryGoesOn(v0: Option<Cache>, v1: Option<Cache>, v2: Option<Cache>, full: real, target: string,
                    candidates: seq<string>, attempts: nat -> Attempt, tried: seq<string>, current: string,
                    r: Iteration)
    requires UnderWay(target, candidates, attempts, tried, current)
    requires SoFar(v0, v1, full, target, candidates, tried, current)
    requires IterationOK(v1, v2, full, current, |tried| + 1, target, candidates, attempts(|tried|), r)
    ensures r.Over? ==> Story(v0, v2, full, target, candidates, tried + [current], attempts, r.result)
    ensures r.Again? ==> SoFar(v0, v2, full, target, candidates, tried + [current], r.next)
  {
    var more := tried + [current];
    FailedOverSnoc(target, tried, current, attempts);
    AffectedTwice(v0, v1, v2, IdSet(tried), if target == "" && attempts(|tried|) == Unreachable then {current} else {});
    match r
    case Again(next) =>
      PickedLater(v0, v2, full, candidates, IdSet(more), Some(next));
      BestChoicesSnoc(v0, full, candidates, more, next);
      if v0.Some? { NoRepeatsSnoc(more, next); }
    case Over(result) =>
      if result.AllArraysUnavailable? { PickedLater(v0, v2, full, candidates, IdSet(more), None); }
  }

  lemma NoRepeatsSnoc(ids: seq<string>, next: string)
    requires NoRepeats(ids) && next !in IdSet(ids)
    ensures NoRepeats(ids + [next])
  {
    assert next !in ids;
  }

  /** The arrays the request moved away from. */
  function FailedOver(target: string, tried: seq<string>, attempts: nat -> Attempt): set<string> {
    set k | 0 <= k < |tried| && target == "" && attempts(k) == Unreachable :: tried[k]
  }

  lemma FailedOverSnoc(target: string, tried: seq<string>, last: string, attempts: nat -> Attempt)
    requires forall k :: 0 <= k < |tried| ==> attempts(k) == Unreachable
    requires target != "" ==> tried == []
    ensures FailedOver(target, tried + [last], attempts) ==
      if target == "" && attempts(|tried|) == Unreachable then IdSet(tried) + {last} else IdSet(tried)
    ensures IdSet(tried + [last]) == IdSet(tried) + {last}
  {
    var more := tried + [last];
    forall id | id in IdSet(tried) && target == "" ensures id in FailedOver(target, more, attempts) {
      var k :| 0 <= k < |tried| && tried[k] == id;
      assert more[k] == id;
    }
    if target == "" && attempts(|tried|) == Unreachable {
      assert more[|tried|] == last;
      assert last in FailedOver(target, more, attempts);
    }
  }

  /** Only arrays of the pool were tried; every attempt but the last was
      unreachable, and the last decides. */
  ghost predicate Ends(target: string, candidates: seq<string>, tried: seq<string>, attempts: nat -> Attempt,
                       result: Result)
  {
    var n := |tried|;
    && n <= (if target == "" then MaxFailoverRetries else 1)
    && (forall k :: 0 <= k < n ==> tried[k] in Pool(target, candidates))
    && (forall k :: 0 <= k < n - 1 ==> attempts(k) == Unreachable)
    && match result
       case Created(on) => n > 0 && attempts(n - 1) == Provisioned && on == tried[n - 1]
       case ProvisioningFailed =>
         n > 0 && (attempts(n - 1) == Refused || (target != "" && attempts(n - 1) == Unreachable))
       case RetryLimit => n == MaxFailoverRetries && attempts(n - 1) == Unreachable
       case AllArraysUnavailable(m) =>
         && target == "" && candidates != [] && m == |candidates|
         && n < MaxFailoverRetries && (n > 0 ==> attempts(n - 1) == Unreachable)
       case TargetUnavailable => n == 0 && target != ""
       case NoSuitableArray => n == 0 && target == "" && candidates == []
  }
}
