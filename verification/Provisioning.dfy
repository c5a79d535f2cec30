/**
Concurrent CreateVolume requests, the poller and invalidations from elsewhere,
interleaved in any order on one capacity cache. A request reads its candidates
one by one, so the cache may change while it is choosing.
*/
module Provisioning {
  import opened Options
  import opened CapacitySpec
  import opened SelectionSpec
  import opened CreateVolume

  datatype Pc =
    | Scanning(pos: nat, found: seq<Candidate>)
    | Chosen(id: string)
    | InFlight(id: string)
    | Failing(id: string)
    | Done(gaveUp: bool)

  /** endings holds how the attempts on the arrays tried ended. recovered holds the
      arrays polled successfully since the request came in or, once it has given up
      on them, since it last did so. */
  datatype Request = Request(
    candidates: seq<string>, byTopology: bool, tried: seq<string>, endings: seq<Attempt>, pc: Pc,
    recovered: set<string>)

  datatype State = State(cache: Cache, full: real, requests: map<nat, Request>)

  datatype Step =
    | Arrive(r: nat, candidates: seq<string>)
    | ArriveAt(r: nat, target: string)
    | Scan(r: nat)
    | Pick(r: nat)
    | Begin(r: nat)
    | Finish(r: nat, ending: Attempt)
    | GiveUpOn(r: nat)
    | Elsewhere(event: Event)

  predicate Enabled(s: State, step: Step) {
    match step
    case Arrive(r, candidates) => r !in s.requests && candidates != []
    case ArriveAt(r, target) => r !in s.requests && !IsArrayUnavailable(s.cache, s.full, target)
    case Scan(r) =>
      r in s.requests && s.requests[r].pc.Scanning? && s.requests[r].pc.pos < |s.requests[r].candidates|
    case Pick(r) =>
      r in s.requests && s.requests[r].pc.Scanning? && s.requests[r].pc.pos == |s.requests[r].candidates|
    case Begin(r) => r in s.requests && s.requests[r].pc.Chosen?
    case Finish(r, _) => r in s.requests && s.requests[r].pc.InFlight?
    case GiveUpOn(r) => r in s.requests && s.requests[r].pc.Failing?
    case Elsewhere(event) => !event.Added?
  }

  /** The program counter after scanning one more candidate. */
  function Scanned(s: State, q: Request): Pc
    requires q.pc.Scanning? && q.pc.pos < |q.candidates|
  {
    var id := q.candidates[q.pc.pos];
    Scanning(q.pc.pos + 1,
             if IsArrayUnavailable(s.cache, s.full, id) then q.pc.found else q.pc.found + [CandidateOf(s.cache, id)])
  }

  function Picked(q: Request): Pc
    requires q.pc.Scanning?
  {
    if q.pc.found == [] || Ranked(q.pc.found) == [] then Done(true) else Chosen(Ranked(q.pc.found)[0].id)
  }

  function Set(s: State, r: nat, q: Request): State {
    s.(requests := s.requests[r := q])
  }

  function Next(s: State, step: Step): State
    requires Enabled(s, step)
  {
    match step
    case Arrive(r, candidates) =>
      var pc := if |candidates| == 1 then Chosen(candidates[0]) else Scanning(0, []);
      Set(s, r, Request(candidates, true, [], [], pc, {}))
    case ArriveAt(r, target) => Set(s, r, Request([target], false, [], [], Chosen(target), {}))
    case Scan(r) => Set(s, r, s.requests[r].(pc := Scanned(s, s.requests[r])))
    case Pick(r) => Set(s, r, s.requests[r].(pc := Picked(s.requests[r])))
    case Begin(r) =>
      var q := s.requests[r];
      Set(s, r, q.(pc := InFlight(q.pc.id), tried := q.tried + [q.pc.id])).(cache := Apply(s.cache, Added(q.pc.id, 1)))
    case Finish(r, ending) =>
      var q := s.requests[r];
      Set(s, r, Finished(q, ending)).(cache := Apply(s.cache, Added(q.pc.id, -1)))
    case GiveUpOn(r) =>
      var q := s.requests[r];
      Set(s, r, GivenUp(q)).(cache := Apply(s.cache, Invalidated(q.pc.id)))
    case Elsewhere(event) =>
      State(Apply(s.cache, event), s.full, map r | r in s.requests :: Noting(s.requests[r], event))
  }

  function Finished(q: Request, ending: Attempt): Request
    requires q.pc.InFlight?
  {
    q.(pc := if ending == Unreachable && q.byTopology then Failing(q.pc.id) else Done(false),
       endings := q.endings + [ending])
  }

  function GivenUp(q: Request): Request
    requires q.pc.Failing?
  {
    q.(pc := if |q.tried| >= MaxFailoverRetries then Done(true) else Scanning(0, []),
       recovered := q.recovered - {q.pc.id})
  }

  function Noting(q: Request, event: Event): Request {
    if event.Succeeded? then q.(recovered := q.recovered + {event.id}) else q
  }

  ghost predicate Run(s: State, steps: seq<Step>)
    decreases |steps|
  {
    steps == [] || (Enabled(s, steps[0]) && Run(Next(s, steps[0]), steps[1..]))
  }

  ghost function Final(s: State, steps: seq<Step>): State
    requires Run(s, steps)
    decreases |steps|
  {
    if steps == [] then s else Final(Next(s, steps[0]), steps[1..])
  }

  function Initial(full: real): State {
    State(map[], full, map[])
  }

  // ---- Requests in flight ----

  function InFlightOn(s: State, id: string): set<nat> {
    set r | r in s.requests && s.requests[r].pc == InFlight(id)
  }

  ghost predicate CountsOK(s: State) {
    forall id :: Get(s.cache, id).inFlight == |InFlightOn(s, id)|
  }

  lemma SetCounts(s: State, s': State, r: nat, q: Request, id: string)
    requires s'.requests == s.requests[r := q]
    ensures InFlightOn(s', id) == if q.pc == InFlight(id) then InFlightOn(s, id) + {r} else InFlightOn(s, id) - {r}
  {}

  /** By how much a step changes the counter of id. */
  function Delta(s: State, step: Step, id: string): int
    requires Enabled(s, step)
  {
    if step.Begin? && s.requests[step.r].pc.id == id then 1
    else if step.Finish? && s.requests[step.r].pc.id == id then -1
    else 0
  }

  lemma CounterChange(s: State, step: Step, id: string)
    requires Enabled(s, step)
    ensures Get(Next(s, step).cache, id).inFlight == Get(s.cache, id).inFlight + Delta(s, step, id)
  {}

  lemma InFlightChange(s: State, step: Step, id: string)
    requires Enabled(s, step)
    ensures |InFlightOn(Next(s, step), id)| == |InFlightOn(s, id)| + Delta(s, step, id)
  {
    var s' := Next(s, step);
    if step.Elsewhere? {
      assert InFlightOn(s', id) == InFlightOn(s, id);
    } else {
      SetCounts(s, s', step.r, s'.requests[step.r], id);
      DeltaIs(s, step, id);
    }
  }

  lemma DeltaIs(s: State, step: Step, id: string)
    requires Enabled(s, step) && !step.Elsewhere?
    ensures step.r in Next(s, step).requests
    ensures Delta(s, step, id) ==
      (if Next(s, step).requests[step.r].pc == InFlight(id) then 1 else 0) -
      (if step.r in InFlightOn(s, id) then 1 else 0)
  {}

  lemma StepKeepsCounts(s: State, step: Step)
    requires CountsOK(s) && Enabled(s, step)
    ensures CountsOK(Next(s, step))
  {
    forall id ensures Get(Next(s, step).cache, id).inFlight == |InFlightOn(Next(s, step), id)| {
      assert Get(s.cache, id).inFlight == |InFlightOn(s, id)|;
      CounterChange(s, step, id);
      InFlightChange(s, step, id);
    }
  }

  lemma {:induction false} RunKeepsCounts(s: State, steps: seq<Step>)
    requires CountsOK(s) && Run(s, steps)
    ensures CountsOK(Final(s, steps))
    decreases |steps|
  {
    if steps == [] {
    } else {
      StepKeepsCounts(s, steps[0]);
      RunKeepsCounts(Next(s, steps[0]), steps[1..]);
    }
  }

  /** In every interleaving the counter of each array is the number of requests
      provisioning on it; it is never negative, and zero when nobody is. */
  lemma InFlightIsExact(full: real, steps: seq<Step>, id: string)
    requires Run(Initial(full), steps)
    ensures var s := Final(Initial(full), steps);
      Get(s.cache, id).inFlight == |InFlightOn(s, id)|
  {
    var s := Initial(full);
    assert forall id :: InFlightOn(s, id) == {};
    RunKeepsCounts(s, steps);
    assert CountsOK(Final(s, steps));
  }

  // ---- Failover ----

  /** How many of the arrays tried are known to have failed. */
  function FailedCount(q: Request): nat {
    if q.pc.Scanning? || q.pc.Chosen? || q.pc == Done(true) || q.tried == [] then |q.tried| else |q.tried| - 1
  }

  predicate MayTry(q: Request, id: string) {
    id in q.candidates && (id in q.tried ==> id in q.recovered)
  }

  /** What holds of a request at any moment: its candidates, its limit, where it
      stands, and that an array is tried again only after it recovered. */
  ghost predicate RequestOK(c: Cache, q: Request) {
    && |q.tried| <= MaxFailoverRetries
    && (q.pc.Scanning? || q.pc.Chosen? ==> |q.tried| < MaxFailoverRetries)
    && (!q.byTopology ==> |q.tried| <= 1 && !q.pc.Scanning? && !q.pc.Failing? && (q.pc.Chosen? ==> q.tried == []))
    && (q.pc.InFlight? || q.pc.Failing? ==> q.tried != [] && q.tried[|q.tried| - 1] == q.pc.id)
    && (q.pc.Scanning? ==> forall x :: x in q.pc.found ==> MayTry(q, x.id))
    && (q.pc.Chosen? ==> MayTry(q, q.pc.id))
    && (forall k :: 0 <= k < |q.tried| ==> q.tried[k] in q.candidates)
    && FailedOK(c, q)
  }

  ghost predicate FailedOK(c: Cache, q: Request) {
    forall k :: 0 <= k < FailedCount(q) ==> !Available(c, q.tried[k]) || q.tried[k] in q.recovered
  }

  /** Only a successful poll makes an array available again. */
  lemma EventKeepsRequest(c: Cache, q: Request, event: Event)
    requires RequestOK(c, q)
    ensures RequestOK(Apply(c, event), Noting(q, event))
  {
    var q' := Noting(q, event);
    forall k | 0 <= k < FailedCount(q) ensures !Available(Apply(c, event), q.tried[k]) || q.tried[k] in q'.recovered {
      assert !Available(c, q.tried[k]) || q.tried[k] in q.recovered;
    }
  }

  lemma ScanKeepsRequest(s: State, q: Request)
    requires RequestOK(s.cache, q) && q.pc.Scanning? && q.pc.pos < |q.candidates|
    ensures RequestOK(s.cache, q.(pc := Scanned(s, q)))
  {
    var id := q.candidates[q.pc.pos];
    var q' := q.(pc := Scanned(s, q));
    if !IsArrayUnavailable(s.cache, s.full, id) {
      if k :| 0 <= k < |q.tried| && q.tried[k] == id {
        assert !Available(s.cache, q.tried[k]) || q.tried[k] in q.recovered;
      }
      assert MayTry(q', id);
    }
    forall x | x in q'.pc.found ensures MayTry(q', x.id) {
      assert x in q.pc.found || x.id == id;
    }
  }

  lemma PickKeepsRequest(c: Cache, q: Request)
    requires RequestOK(c, q) && q.pc.Scanning?
    ensures RequestOK(c, q.(pc := Picked(q)))
  {
    if q.pc.found != [] { SortedHead(q.pc.found); }
  }

  lemma BeginKeepsRequest(c: Cache, q: Request)
    requires RequestOK(c, q) && q.pc.Chosen?
    ensures RequestOK(Apply(c, Added(q.pc.id, 1)), q.(pc := InFlight(q.pc.id), tried := q.tried + [q.pc.id]))
  {
    EventKeepsRequest(c, q, Added(q.pc.id, 1));
  }

  lemma FinishKeepsRequest(c: Cache, q: Request, ending: Attempt)
    requires RequestOK(c, q) && q.pc.InFlight?
    ensures RequestOK(Apply(c, Added(q.pc.id, -1)), Finished(q, ending))
  {
    EventKeepsRequest(c, q, Added(q.pc.id, -1));
  }

  lemma GiveUpKeepsRequest(c: Cache, q: Request)
    requires RequestOK(c, q) && q.pc.Failing?
    ensures RequestOK(Apply(c, Invalidated(q.pc.id)), GivenUp(q))
  {
    EventKeepsRequest(c, q, Invalidated(q.pc.id));
  }

  ghost predicate RequestsOK(s: State) {
    forall r :: r in s.requests ==> RequestOK(s.cache, s.requests[r])
  }

  /** The cache event of a step. */
  function EventOf(s: State, step: Step): Option<Event>
    requires Enabled(s, step)
  {
    match step
    case Begin(r) => Some(Added(s.requests[r].pc.id, 1))
    case Finish(r, _) => Some(Added(s.requests[r].pc.id, -1))
    case GiveUpOn(r) => Some(Invalidated(s.requests[r].pc.id))
    case Elsewhere(event) => Some(event)
    case _ => None
  }

  lemma OthersKept(s: State, step: Step, r: nat)
    requires RequestsOK(s) && Enabled(s, step) && r in s.requests && (step.Elsewhere? || step.r != r)
    ensures r in Next(s, step).requests && RequestOK(Next(s, step).cache, Next(s, step).requests[r])
  {
    var e := EventOf(s, step);
    if e.Some? { EventKeepsRequest(s.cache, s.requests[r], e.value); }
  }

  lemma StepKeepsRequests(s: State, step: Step)
    requires RequestsOK(s) && Enabled(s, step)
    ensures RequestsOK(Next(s, step))
  {
    var s' := Next(s, step);
    forall r | r in s'.requests ensures RequestOK(s'.cache, s'.requests[r]) {
      if r in s.requests && (step.Elsewhere? || step.r != r) {
        OthersKept(s, step, r);
      } else if step.Scan? {
        ScanKeepsRequest(s, s.requests[r]);
      } else if step.Pick? {
        PickKeepsRequest(s.cache, s.requests[r]);
      } else if step.Begin? {
        BeginKeepsRequest(s.cache, s.requests[r]);
      } else if step.Finish? {
        FinishKeepsRequest(s.cache, s.requests[r], step.ending);
      } else if step.GiveUpOn? {
        GiveUpKeepsRequest(s.cache, s.requests[r]);
      }
    }
  }

  lemma {:induction false} RunKeepsRequests(s: State, steps: seq<Step>)
    requires RequestsOK(s) && Run(s, steps)
    ensures RequestsOK(Final(s, steps))
    decreases |steps|
  {
    if steps == [] {
    } else {
      StepKeepsRequests(s, steps[0]);
      RunKeepsRequests(Next(s, steps[0]), steps[1..]);
    }
  }

  /** In every interleaving a request makes at most three attempts, all on its
      candidates, and only one if its array was prescribed. Whenever it has chosen
      an array it tried before, that array was polled successfully since the
      request last gave up on it. Every array it has given up on is unavailable,
      unless it was polled successfully since. */
  lemma FailoverIsBounded(full: real, steps: seq<Step>, r: nat)
    requires Run(Initial(full), steps) && r in Final(Initial(full), steps).requests
    ensures var s := Final(Initial(full), steps);
      var q := s.requests[r];
      && |q.tried| <= (if q.byTopology then MaxFailoverRetries else 1)
      && (forall k :: 0 <= k < |q.tried| ==> q.tried[k] in q.candidates)
      && (q.pc.Chosen? && q.pc.id in q.tried ==> q.pc.id in q.recovered)
      && (forall k :: 0 <= k < FailedCount(q) ==> !Available(s.cache, q.tried[k]) || q.tried[k] in q.recovered)
  {
    var s := Final(Initial(full), steps);
    RunKeepsRequests(Initial(full), steps);
    assert RequestOK(s.cache, s.requests[r]);
  }

  // ---- The same, said of the steps of a run ----

  predicate IsPollOf(step: Step, id: string) {
    step.Elsewhere? && step.event.Succeeded? && step.event.id == id
  }

  ghost predicate PolledIn(steps: seq<Step>, id: string) {
    exists m :: 0 <= m < |steps| && IsPollOf(steps[m], id)
  }

  lemma NotPolledLater(steps: seq<Step>, id: string)
    requires steps != [] && !PolledIn(steps, id)
    ensures !IsPollOf(steps[0], id) && !PolledIn(steps[1..], id)
  {
    forall m | 0 <= m < |steps[1..]| ensures !IsPollOf(steps[1..][m], id) {
      assert steps[1..][m] == steps[m + 1];
    }
  }

  /** A request changes the availability of no array but the one it gives up on. */
  lemma OnlyFailuresAreInvalidated(s: State, step: Step, id: string)
    requires Enabled(s, step) && !step.Elsewhere?
    ensures Available(Next(s, step).cache, id) ==
      (Available(s.cache, id) && !(step.GiveUpOn? && s.requests[step.r].pc.id == id))
  {}

  lemma {:induction false} StaysUnavailable(s: State, steps: seq<Step>, id: string)
    requires Run(s, steps) && !Available(s.cache, id) && !PolledIn(steps, id)
    ensures !Available(Final(s, steps).cache, id)
    decreases |steps|
  {
    if steps == [] {
    } else {
      NotPolledLater(steps, id);
      if !steps[0].Elsewhere? { OnlyFailuresAreInvalidated(s, steps[0], id); }
      StaysUnavailable(Next(s, steps[0]), steps[1..], id);
    }
  }

  /** An array a request gave up on is unavailable, to everyone, until the next
      successful poll of it. */
  lemma UnavailableUntilPolled(s: State, r: nat, steps: seq<Step>)
    requires Enabled(s, GiveUpOn(r)) && Run(Next(s, GiveUpOn(r)), steps)
    ensures !Available(Final(Next(s, GiveUpOn(r)), steps).cache, s.requests[r].pc.id) ||
            PolledIn(steps, s.requests[r].pc.id)
  {
    var id := s.requests[r].pc.id;
    if !PolledIn(steps, id) { StaysUnavailable(Next(s, GiveUpOn(r)), steps, id); }
  }

  lemma {:induction false} NotRecovered(s: State, steps: seq<Step>, r: nat, id: string)
    requires Run(s, steps) && r in s.requests && !PolledIn(steps, id)
    requires id in s.requests[r].tried && id !in s.requests[r].recovered
    ensures r in Final(s, steps).requests
    ensures id in Final(s, steps).requests[r].tried && id !in Final(s, steps).requests[r].recovered
    decreases |steps|
  {
    if steps == [] {
    } else {
      NotPolledLater(steps, id);
      NotRecovered(Next(s, steps[0]), steps[1..], r, id);
    }
  }

  /** Between giving up on an array and trying it again, a request saw a successful
      poll of it: before is any run up to the failure, between the steps from there
      to the next attempt on the same array. */
  lemma RetriedOnlyAfterPoll(full: real, before: seq<Step>, r: nat, between: seq<Step>)
    requires Run(Initial(full), before) && Enabled(Final(Initial(full), before), GiveUpOn(r))
    requires var s := Final(Initial(full), before);
      && Run(Next(s, GiveUpOn(r)), between)
      && Enabled(Final(Next(s, GiveUpOn(r)), between), Begin(r))
      && Final(Next(s, GiveUpOn(r)), between).requests[r].pc.id == s.requests[r].pc.id
    ensures PolledIn(between, Final(Initial(full), before).requests[r].pc.id)
  {
    var s := Final(Initial(full), before);
    var id, s1 := s.requests[r].pc.id, Next(s, GiveUpOn(r));
    RunKeepsRequests(Initial(full), before);
    assert RequestOK(s.cache, s.requests[r]);
    StepKeepsRequests(s, GiveUpOn(r));
    RunKeepsRequests(s1, between);
    assert RequestOK(Final(s1, between).cache, Final(s1, between).requests[r]);
    if !PolledIn(between, id) { NotRecovered(s1, between, r, id); }
  }

  // ---- How a request ends ----

  /** Every attempt but the last failed to reach its array; the request goes on only
      after such a failure, and is done with the first attempt that ended otherwise,
      after three attempts, or when no candidate is left. */
  ghost predicate EndingsOK(q: Request) {
    var n := |q.endings|;
    && n == |q.tried| - (if q.pc.InFlight? then 1 else 0)
    && (forall k :: 0 <= k < n - 1 ==> q.endings[k] == Unreachable)
    && (q.pc.Scanning? || q.pc.Chosen? || q.pc.InFlight? ==> n < 3 && (n > 0 ==> q.endings[n - 1] == Unreachable))
    && (q.pc.Scanning? && n == 0 ==> |q.candidates| != 1)
    && (q.pc.Failing? ==> q.byTopology && n > 0 && q.endings[n - 1] == Unreachable)
    && (q.pc == Done(false) ==> n > 0 && (q.endings[n - 1] != Unreachable || !q.byTopology))
    && (q.pc == Done(true) ==> n > 0 ==> q.endings[n - 1] == Unreachable)
    && (!q.byTopology ==> n <= 1 && q.pc != Done(true) && !q.pc.Scanning? && (n == 1 ==> q.pc == Done(false)))
  }

  lemma StepKeepsEndings(s: State, step: Step)
    requires Enabled(s, step) && forall r :: r in s.requests ==> EndingsOK(s.requests[r])
    ensures forall r :: r in Next(s, step).requests ==> EndingsOK(Next(s, step).requests[r])
  {
    var s' := Next(s, step);
    forall r | r in s'.requests ensures EndingsOK(s'.requests[r]) {
      if r in s.requests { assert EndingsOK(s.requests[r]); }
    }
  }

  lemma {:induction false} RunKeepsEndings(s: State, steps: seq<Step>, r: nat)
    requires Run(s, steps) && (forall r :: r in s.requests ==> EndingsOK(s.requests[r]))
    requires r in Final(s, steps).requests
    ensures EndingsOK(Final(s, steps).requests[r])
    decreases |steps|
  {
    if steps == [] {
    } else {
      StepKeepsEndings(s, steps[0]);
      RunKeepsEndings(Next(s, steps[0]), steps[1..], r);
    }
  }

  /** In every interleaving. */
  lemma RequestsEnd(full: real, steps: seq<Step>, r: nat)
    requires Run(Initial(full), steps) && r in Final(Initial(full), steps).requests
    ensures EndingsOK(Final(Initial(full), steps).requests[r])
  {
    RunKeepsEndings(Initial(full), steps, r);
  }

  // ---- Choosing undisturbed ----

  /** Reading n more candidates and choosing, with nothing in between. */
  function ChooseSteps(r: nat, n: nat): seq<Step> {
    if n == 0 then [Pick(r)] else [Scan(r)] + ChooseSteps(r, n - 1)
  }

  function ChoiceOf(pc: Pc): Option<string> {
    if pc.Chosen? then Some(pc.id) else None
  }

  /** The steps lead to the choice of the best candidate by the cache as it is. */
  ghost predicate Chooses(s: State, r: nat, steps: seq<Step>)
    requires r in s.requests
  {
    && Run(s, steps)
    && var s' := Final(s, steps);
       && s'.cache == s.cache && r in s'.requests
       && (s'.requests[r].pc.Chosen? || s'.requests[r].pc == Done(true))
       && IsChoice(s.cache, s.full, IdSet(s.requests[r].candidates), ChoiceOf(s'.requests[r].pc))
  }

  lemma PickChooses(s: State, r: nat)
    requires r in s.requests
    requires var q := s.requests[r]; q.pc == Scanning(|q.candidates|, Found(s.cache, s.full, q.candidates))
    ensures Chooses(s, r, [Pick(r)])
  {
    var q := s.requests[r];
    BestIsChoice(s.cache, s.full, q.candidates);
    if q.pc.found != [] { SortedHead(q.pc.found); }
    assert Final(s, [Pick(r)]) == Next(s, Pick(r));
  }

  lemma ScanFinds(s: State, r: nat)
    requires r in s.requests && s.requests[r].pc.Scanning? && s.requests[r].pc.pos < |s.requests[r].candidates|
    requires var q := s.requests[r]; q.pc.found == Found(s.cache, s.full, q.candidates[..q.pc.pos])
    ensures var s', q := Next(s, Scan(r)), s.requests[r];
      && s' == Set(s, r, s'.requests[r]) && s'.requests[r].candidates == q.candidates
      && s'.requests[r].pc == Scanning(q.pc.pos + 1, Found(s.cache, s.full, q.candidates[..q.pc.pos + 1]))
  {
    var q := s.requests[r];
    assert q.candidates[..q.pc.pos + 1][..q.pc.pos] == q.candidates[..q.pc.pos];
  }

  lemma {:induction false} ChoosesFound(s: State, r: nat, n: nat)
    requires r in s.requests && n <= |s.requests[r].candidates|
    requires var q := s.requests[r];
      var k := |q.candidates| - n;
      q.pc == Scanning(k, Found(s.cache, s.full, q.candidates[..k]))
    ensures Chooses(s, r, ChooseSteps(r, n))
    decreases n
  {
    var q := s.requests[r];
    if n == 0 {
      assert q.candidates[..|q.candidates|] == q.candidates;
      PickChooses(s, r);
    } else {
      ScanFinds(s, r);
      ChoosesFound(Next(s, Scan(r)), r, n - 1);
      ChoosesAfter(s, r, ChooseSteps(r, n - 1));
    }
  }

  lemma ChoosesAfter(s: State, r: nat, steps: seq<Step>)
    requires r in s.requests && Enabled(s, Scan(r)) && Chooses(Next(s, Scan(r)), r, steps)
    ensures Chooses(s, r, [Scan(r)] + steps)
  {
    assert ([Scan(r)] + steps)[1..] == steps;
  }

  /** A request that gave up on an array after fewer than three attempts goes on to the
      best candidate by the cache in which that array is unavailable. */
  lemma FailoverGoesOn(s: State, r: nat)
    requires Enabled(s, GiveUpOn(r)) && |s.requests[r].tried| < 3
    ensures var s' := Next(s, GiveUpOn(r));
      && !Available(s'.cache, s.requests[r].pc.id)
      && r in s'.requests && s'.requests[r].candidates == s.requests[r].candidates
      && Chooses(s', r, ChooseSteps(r, |s.requests[r].candidates|))
  {
    UndisturbedChoice(Next(s, GiveUpOn(r)), r);
  }

  /** A request that is not interrupted while it reads its candidates makes the choice
      that SelectArray makes at one stroke. */
  lemma UndisturbedChoice(s: State, r: nat)
    requires r in s.requests && s.requests[r].pc == Scanning(0, [])
    ensures Chooses(s, r, ChooseSteps(r, |s.requests[r].candidates|))
  {
    assert s.requests[r].candidates[..0] == [];
    ChoosesFound(s, r, |s.requests[r].candidates|);
  }
}
