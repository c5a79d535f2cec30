/** What every run of the lock manager guarantees, and when it stops serving. */
module LockTheorems {
  import opened LockSpec
  import opened LockProtocol

  ghost predicate Reachable(s: State) {
    exists steps :: Run(Initial, steps) && s == Final(Initial, steps)
  }

  lemma InitialInv()
    ensures Inv(Initial) && OrderOK(Initial)
  {
    forall r ensures OrderOf([], [], Fifo(map[], r), r) {}
  }

  lemma ReachableInv(s: State)
    requires Reachable(s)
    ensures Inv(s) && OrderOK(s)
  {
    InitialInv();
    var steps :| Run(Initial, steps) && s == Final(Initial, steps);
    RunKeepsInv(Initial, steps);
  }

  lemma {:induction false} RunThen(s: State, steps: seq<Step>, step: Step)
    requires Run(s, steps) && Enabled(Final(s, steps), step)
    ensures Run(s, steps + [step])
    ensures Final(s, steps + [step]) == Next(Final(s, steps), step)
    decreases |steps|
  {
    if steps == [] {
      assert steps + [step] == [step];
    } else {
      RunThen(Next(s, steps[0]), steps[1..], step);
      assert (steps + [step])[1..] == steps[1..] + [step];
    }
  }

  lemma ReachableNext(s: State, step: Step)
    requires Reachable(s) && Enabled(s, step)
    ensures Reachable(Next(s, step))
  {
    var steps :| Run(Initial, steps) && s == Final(Initial, steps);
    RunThen(Initial, steps, step);
  }

  /** At most one client per resource is between RequestLock and ReleaseLock. */
  lemma MutualExclusion(s: State, c1: Channel, c2: Channel)
    requires Reachable(s)
    requires c1 in s.calls && c2 in s.calls && s.calls[c1].resource == s.calls[c2].resource
    requires s.calls[c1].phase == Holding && s.calls[c2].phase == Holding
    ensures c1 == c2
  {
    ReachableInv(s);
    assert CallOK(s, c1) && CallOK(s, c2);
  }

  /** Each call's channel gets at most one token, so the one-slot buffer never
      makes the handler wait; it is closed at most once, never before its token,
      and only after its client released. */
  lemma ChannelDiscipline(s: State, i: nat, j: nat)
    requires Reachable(s) && i < j < |s.log|
    ensures s.log[i] != s.log[j]
    ensures s.log[i].channel == s.log[j].channel ==> s.log[i].Grant? && s.log[j].Close?
    ensures s.log[j].Close? ==>
      s.log[j].channel in s.calls && s.calls[s.log[j].channel].phase == Released &&
          Grant(s.log[j].resource, s.log[j].channel) in s.log
  {
    ReachableInv(s);
    if s.log[j].Close? {
      var c := s.log[j].channel;
      assert CallOK(s, c);
      ClosedWasReleased(s, c);
    }
  }

  lemma HeadIsOpen(s: State, c: Channel)
    requires Inv(s) && c in s.calls && IsHead(s, c)
    ensures Close(s.calls[c].resource, c) !in s.log
  {
    assert TicketOK(s, s.calls[c].resource, 0);
  }

  lemma ClosedWasReleased(s: State, c: Channel)
    requires Inv(s) && c in s.calls && Close(s.calls[c].resource, c) in s.log
    ensures s.calls[c].phase == Released
  {
    assert CallOK(s, c);
    if s.calls[c].phase == Waiting { WaitingWithTokenIsHead(s, c); }
    if s.calls[c].phase != Released { HeadIsOpen(s, c); }
  }

  /** First come, first served: the calls granted so far are the first arrivals,
      in order, and the rest of the arrivals are the waiters, in order. */
  lemma GrantsFollowArrivals(s: State, r: string)
    requires Reachable(s)
    ensures Arrivals(s.handled, r) == Grants(s.log, r) + Channels(Tail(Fifo(s.locks, r)))
  {
    ReachableInv(s);
    assert OrderOf(s.handled, s.log, Fifo(s.locks, r), r);
  }

  /** Nobody is lost, whatever cleanup deleted: a client still blocked in
      RequestLock has its request in the queue or in the line of its resource,
      and the one at the head of the line already has its token. An idle entry
      has no waiters. */
  lemma NobodyIsLost(s: State)
    requires Reachable(s)
    ensures forall c :: c in s.calls && s.calls[c].phase == Waiting ==> Queued(s, c) || InFifo(s, c)
    ensures forall c :: c in s.calls && IsHead(s, c) ==> Grant(s.calls[c].resource, c) in s.log
    ensures forall r :: r in s.locks && s.locks[r].current == NotHeld ==> s.locks[r].waiting == []
  {
    ReachableInv(s);
    forall c | c in s.calls && s.calls[c].phase == Waiting ensures Queued(s, c) || InFifo(s, c) {
      assert CallOK(s, c);
    }
    forall c | c in s.calls && IsHead(s, c) ensures Grant(s.calls[c].resource, c) in s.log {
      assert TicketOK(s, s.calls[c].resource, 0);
    }
  }

  // ---- When a waiter is granted ----

  /** The handler takes an unlock that matches the holder of r. */
  ghost predicate Pops(s: State, step: Step, r: string) {
    && step.Handle? && s.queue != [] && s.queue[0].Unlock? && s.queue[0].resource == r
    && Fifo(s.locks, r) != [] && Fifo(s.locks, r)[0].number == s.queue[0].number
  }

  ghost function MatchingUnlocks(s: State, steps: seq<Step>, r: string): nat
    requires Run(s, steps)
    decreases |steps|
  {
    if steps == [] then 0 else
      (if Pops(s, steps[0], r) then 1 else 0) + MatchingUnlocks(Next(s, steps[0]), steps[1..], r)
  }

  lemma HandlerMovesLine(s: State, r: string)
    requires Reachable(s) && Enabled(s, Handle)
    ensures !Pops(s, Handle, r) ==> Fifo(s.locks, r) <= Fifo(Next(s, Handle).locks, r)
    ensures Pops(s, Handle, r) ==> Fifo(Next(s, Handle).locks, r) == Fifo(s.locks, r)[1..]
  {
    var s' := Next(s, Handle);
    ReachableInv(s);
    if s.queue[0].Lock? {
      TakesLockAppends(s, s');
    } else {
      TakesUnlockPops(s, s');
    }
    assert r != s.queue[0].resource ==> Fifo(s'.locks, r) == Fifo(s.locks, r);
  }

  lemma StepMovesLine(s: State, step: Step, r: string)
    requires Reachable(s) && Enabled(s, step)
    ensures !Pops(s, step, r) ==> Fifo(s.locks, r) <= Fifo(Next(s, step).locks, r)
    ensures Pops(s, step, r) ==> Fifo(Next(s, step).locks, r) == Fifo(s.locks, r)[1..]
  {
    match step
    case Handle => HandlerMovesLine(s, r);
    case Cleanup(idle) =>
      ReachableInv(s);
      CleanupIsInvisible(s.locks, idle);
    case _ =>
  }

  lemma {:induction false} GrantsAreKept(s: State, steps: seq<Step>, e: Effect)
    requires Run(s, steps) && e in s.log
    ensures e in Final(s, steps).log
    decreases |steps|
  {
    if steps == [] {
    } else {
      GrantsAreKept(Next(s, steps[0]), steps[1..], e);
    }
  }

  /** In s', m matching unlocks after call ch stood k places behind the holder. */
  ghost predicate Stands(s': State, r: string, ch: Channel, k: nat, m: nat) {
    && (Grant(r, ch) in s'.log <==> m >= k)
    && (m <= k ==> k - m < |Fifo(s'.locks, r)| && Fifo(s'.locks, r)[k - m].channel == ch)
  }

  /** One matching unlock later one is one place further ahead. */
  lemma StandsBefore(s': State, r: string, ch: Channel, k: nat, m: nat)
    requires Stands(s', r, ch, k, m)
    ensures Stands(s', r, ch, k + 1, m + 1)
  {}

  lemma StandsNow(s: State, r: string, k: nat)
    requires Reachable(s) && k < |Fifo(s.locks, r)|
    ensures Stands(s, r, Fifo(s.locks, r)[k].channel, k, 0)
  {
    ReachableInv(s);
    assert TicketOK(s, r, k);
  }

  /** The k-th waiter has its token exactly from the k-th matching unlock on,
      and until then stands k minus that many places behind the holder. */
  lemma {:induction false} GrantedAtKthUnlock(s: State, steps: seq<Step>, r: string, k: nat)
    requires Reachable(s) && Run(s, steps) && k < |Fifo(s.locks, r)|
    ensures Stands(Final(s, steps), r, Fifo(s.locks, r)[k].channel, k, MatchingUnlocks(s, steps, r))
    decreases |steps|
  {
    StandsNow(s, r, k);
    if steps == [] {
    } else {
      ReachableNext(s, steps[0]);
      StepMovesLine(s, steps[0], r);
      var s1 := Next(s, steps[0]);
      if !Pops(s, steps[0], r) {
        GrantedAtKthUnlock(s1, steps[1..], r, k);
      } else if k > 0 {
        GrantedAtKthUnlock(s1, steps[1..], r, k - 1);
        var m := MatchingUnlocks(s1, steps[1..], r);
        StandsBefore(Final(s1, steps[1..]), r, Fifo(s1.locks, r)[k - 1].channel, k - 1, m);
      } else {
        GrantsAreKept(s, steps, Grant(r, Fifo(s.locks, r)[k].channel));
      }
    }
  }

  // ---- When the handler stops ----

  predicate HandlerBlocked(s: State) {
    s.queue != [] && Serve(s.locks, s.queue[0]).Blocked?
  }

  /** The handler stops exactly when the next request is a lock request for a
      resource that already has a holder and a full channel of waiters. */
  lemma BlockedExactlyWhenFull(s: State)
    requires Reachable(s)
    ensures HandlerBlocked(s) <==>
      s.queue != [] && s.queue[0].Lock? && |Fifo(s.locks, s.queue[0].resource)| == MaxWaiting + 1
  {
    ReachableInv(s);
    if s.queue != [] {
      var q := s.queue[0];
      assert QueuedOK(s, 0);
      if q.Lock? {
        assert CallOK(s, q.channel);
        if Fifo(s.locks, q.resource) != [] {
          assert TicketOK(s, q.resource, 0);
          assert InFifo(s, Fifo(s.locks, q.resource)[0].channel);
          assert Rivals(s, Fifo(s.locks, q.resource)[0].channel, q.channel);
        }
        LockAppends(s.locks, q);
      } else {
        assert TicketOK(s, q.resource, 0) && CallOK(s, Fifo(s.locks, q.resource)[0].channel);
        UnlockPops(s.locks, q);
      }
    }
  }

  /** The client waits, and nothing the handler has done lets it go on. */
  predicate Stuck(s: State, c: Channel)
    requires c in s.calls
  {
    && s.calls[c].phase == Waiting
    && Grant(s.calls[c].resource, c) !in s.log && Close(s.calls[c].resource, c) !in s.log
  }

  lemma BlockedStep(s: State, step: Step)
    requires Reachable(s) && HandlerBlocked(s) && Enabled(s, step)
    ensures HandlerBlocked(Next(s, step))
    ensures Next(s, step).log == s.log && Next(s, step).handled == s.handled
    ensures forall c :: c in s.calls && Stuck(s, c) ==>
      c in Next(s, step).calls && Next(s, step).calls[c] == s.calls[c]
  {
    ReachableInv(s);
    assert Next(s, step).queue[0] == s.queue[0];
  }

  /** Once it stops it never serves anyone again, on any resource: no token is
      ever sent, and whoever waits without one waits forever. */
  lemma {:induction false} BlockedForever(s: State, steps: seq<Step>)
    requires Reachable(s) && HandlerBlocked(s) && Run(s, steps)
    ensures HandlerBlocked(Final(s, steps))
    ensures Final(s, steps).log == s.log && Final(s, steps).handled == s.handled
    ensures forall c :: c in s.calls && Stuck(s, c) ==>
      c in Final(s, steps).calls && Final(s, steps).calls[c] == s.calls[c]
    decreases |steps|
  {
    if steps == [] {
    } else {
      BlockedStep(s, steps[0]);
      ReachableNext(s, steps[0]);
      BlockedForever(Next(s, steps[0]), steps[1..]);
    }
  }

  function LiveOn(s: State, r: string): set<Channel> {
    set c | c in s.calls && s.calls[c].resource == r && Live(s, c)
  }

  lemma {:induction false} DistinctCount(tickets: seq<Ticket>, within: set<Channel>)
    requires forall k :: 0 <= k < |tickets| ==> tickets[k].channel in within
    requires forall j, k :: 0 <= j < k < |tickets| ==> tickets[j].channel != tickets[k].channel
    ensures |tickets| <= |within|
  {
    if tickets == [] {
    } else {
      DistinctCount(tickets[1..], within - {tickets[0].channel});
    }
  }

  /** With at most MaxWaiting + 1 calls outstanding on each resource it never stops. */
  lemma BlockedTakesManyCalls(s: State)
    requires Reachable(s) && HandlerBlocked(s)
    ensures |LiveOn(s, s.queue[0].resource)| >= MaxWaiting + 2
  {
    ReachableInv(s);
    BlockedExactlyWhenFull(s);
    var q := s.queue[0];
    assert QueuedOK(s, 0);
    var fifo := Fifo(s.locks, q.resource);
    var others := LiveOn(s, q.resource) - {q.channel};
    forall k | 0 <= k < |fifo| ensures fifo[k].channel in others {
      assert TicketOK(s, q.resource, k);
      assert InFifo(s, fifo[k].channel);
    }
    DistinctCount(fifo, others);
    assert LiveOn(s, q.resource) == others + {q.channel};
  }

  function Line(k: nat): seq<Ticket> {
    if k == 0 then [] else Line(k - 1) + [Ticket(k, k)]
  }

  /** k calls for one resource, all taken by the handler, the first one granted. */
  ghost predicate Pile(s: State, r: string, k: nat) {
    && s.queue == []
    && |s.calls| == k
    && (forall c: nat :: c in s.calls <==> c < k)
    && (forall c :: c in s.calls ==> s.calls[c] == Call(r, c, Waiting))
    && s.locks == (if k == 0 then map[] else map[r := Entry(0, 0, Line(k - 1))])
  }

  lemma {:induction false} LineLength(k: nat)
    ensures |Line(k)| == k
  {
    if k == 0 {
    } else {
      LineLength(k - 1);
    }
  }

  /** One more call, and the handler takes it. */
  lemma PileGrows(s: State, r: string, k: nat)
    requires Pile(s, r, k) && k <= MaxWaiting
    ensures Enabled(s, Request(r, k, k))
    ensures Enabled(Next(s, Request(r, k, k)), Handle)
    ensures Pile(Next(Next(s, Request(r, k, k)), Handle), r, k + 1)
  {
    var s1 := Next(s, Request(r, k, k));
    if k > 0 { LineLength(k - 1); }
    assert s1.queue == [Lock(r, k, k)] && s1.locks == s.locks;
    assert s1.calls == s.calls[k := Call(r, k, Waiting)];
  }

  lemma RunThenTwo(s: State, steps: seq<Step>, a: Step, b: Step)
    requires Run(s, steps) && Enabled(Final(s, steps), a) && Enabled(Next(Final(s, steps), a), b)
    ensures Run(s, steps + [a] + [b])
    ensures Final(s, steps + [a] + [b]) == Next(Next(Final(s, steps), a), b)
  {
    RunThen(s, steps, a);
    RunThen(s, steps + [a], b);
  }

  function PileSteps(r: string, k: nat): seq<Step> {
    if k == 0 then [] else PileSteps(r, k - 1) + [Request(r, k - 1, k - 1)] + [Handle]
  }

  ghost predicate PiledBy(s: State, steps: seq<Step>, r: string, k: nat) {
    Run(s, steps) && Pile(Final(s, steps), r, k)
  }

  lemma PileRun(s: State, steps: seq<Step>, r: string, k: nat)
    requires PiledBy(s, steps, r, k) && k <= MaxWaiting
    ensures PiledBy(s, steps + [Request(r, k, k)] + [Handle], r, k + 1)
  {
    PileGrows(Final(s, steps), r, k);
    RunThenTwo(s, steps, Request(r, k, k), Handle);
  }

  lemma {:induction false} PileIsReachable(s: State, r: string, k: nat)
    requires Pile(s, r, 0) && k <= MaxWaiting + 1
    ensures PiledBy(s, PileSteps(r, k), r, k)
  {
    if k == 0 {
      assert Final(s, []) == s;
    } else {
      PileIsReachable(s, r, k - 1);
      PileRun(s, PileSteps(r, k - 1), r, k - 1);
    }
  }

  /** And it does stop, on exactly that many calls. */
  lemma BlockedIsReachable(r: string)
    ensures exists s :: Reachable(s) && HandlerBlocked(s) && |s.calls| == MaxWaiting + 2
  {
    var k := MaxWaiting + 1;
    PileIsReachable(Initial, r, k);
    var steps := PileSteps(r, k);
    var request := Request(r, k, k);
    RunThen(Initial, steps, request);
    LineLength(k - 1);
    var s := Final(Initial, steps + [request]);
    assert Reachable(s) && HandlerBlocked(s);
  }
}
