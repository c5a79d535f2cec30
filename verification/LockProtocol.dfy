/**
Clients, handler and cleanup worker of the lock manager as one state machine.
A state holds the request queue, the lock table, every RequestLock call made so
far with what its client knows, and two histories: the channel operations the
handler performed and the requests it has taken.

Every interleaving is a sequence of steps. The handler iteration is one step:
it runs under the mutex that also excludes the cleanup worker, and clients only
append to the queue and receive from their own channel.
*/
module LockProtocol {
  import opened Sequences
  import opened LockSpec

  const QueueCapacity := 1000

  /** Waiting: blocked in RequestLock. Holding: returned from it. Released:
      ReleaseLock was called. */
  datatype Phase = Waiting | Holding | Released

  datatype Call = Call(resource: string, number: int, phase: Phase)

  datatype State = State(
    queue: seq<LockRequest>,
    locks: map<string, Entry>,
    calls: map<Channel, Call>,
    log: seq<Effect>,
    handled: seq<LockRequest>)

  datatype Step =
    | Request(resource: string, number: int, channel: Channel)
    | Acquire(channel: Channel)
    | Release(channel: Channel)
    | Handle
    | Cleanup(idle: set<string>)

  const Initial := State([], map[], map[], [], [])

  predicate InFifo(s: State, ch: Channel)
    requires ch in s.calls
  {
    exists k :: 0 <= k < |Fifo(s.locks, s.calls[ch].resource)| && Fifo(s.locks, s.calls[ch].resource)[k].channel == ch
  }

  predicate IsHead(s: State, ch: Channel)
    requires ch in s.calls
  {
    var q := Fifo(s.locks, s.calls[ch].resource);
    q != [] && q[0].channel == ch
  }

  /** From the call until the handler has processed its release. */
  predicate Live(s: State, ch: Channel)
    requires ch in s.calls
  {
    s.calls[ch].phase != Released || InFifo(s, ch)
  }

  /** Lock numbers come from a random draw of non-negative integers; the only
      thing needed of them is that calls live on one resource differ. A client
      blocked on its channel continues when it holds a token or is closed. */
  ghost predicate Enabled(s: State, step: Step) {
    match step
    case Request(r, n, ch) =>
      && |s.queue| < QueueCapacity
      && ch !in s.calls
      && n >= 0
      && forall c :: c in s.calls && s.calls[c].resource == r && Live(s, c) ==> s.calls[c].number != n
    case Acquire(ch) =>
      && ch in s.calls && s.calls[ch].phase == Waiting
      && (Grant(s.calls[ch].resource, ch) in s.log || Close(s.calls[ch].resource, ch) in s.log)
    case Release(ch) =>
      && |s.queue| < QueueCapacity
      && ch in s.calls && s.calls[ch].phase == Holding
    case Handle =>
      s.queue != [] && Serve(s.locks, s.queue[0]).Served?
    case Cleanup(idle) =>
      forall r :: r in idle ==> r in s.locks && s.locks[r].current == NotHeld
  }

  ghost function Next(s: State, step: Step): State
    requires Enabled(s, step)
  {
    match step
    case Request(r, n, ch) =>
      s.(queue := s.queue + [Lock(r, n, ch)], calls := s.calls[ch := Call(r, n, Waiting)])
    case Acquire(ch) =>
      s.(calls := s.calls[ch := s.calls[ch].(phase := Holding)])
    case Release(ch) =>
      s.(queue := s.queue + [Unlock(s.calls[ch].resource, s.calls[ch].number)],
         calls := s.calls[ch := s.calls[ch].(phase := Released)])
    case Handle =>
      var outcome := Serve(s.locks, s.queue[0]);
      s.(queue := s.queue[1..], locks := outcome.locks, log := s.log + outcome.effects,
         handled := s.handled + [s.queue[0]])
    case Cleanup(idle) =>
      s.(locks := s.locks - idle)
  }

  ghost predicate Run(s: State, steps: seq<Step>)
    decreases |steps|
  {
    steps == [] || (Enabled(s, steps[0]) && Run(Next(s, steps[0]), steps[1..]))
  }

  ghost function Final(s: State, steps: seq<Step>): State
    requires Run(s, steps)
    decreases |steps|
  {
    if steps == [] then s else Final(Next(s, steps[0]), steps[1..])
  }

  // ---- The invariant ----

  ghost predicate QueuedOK(s: State, i: nat)
    requires i < |s.queue|
  {
    match s.queue[i]
    case Lock(r, n, ch) =>
      && ch in s.calls
      && s.calls[ch] == Call(r, n, Waiting)
      && !InFifo(s, ch)
      && Grant(r, ch) !in s.log
      && Close(r, ch) !in s.log
    case Unlock(r, n) =>
      var fifo := Fifo(s.locks, r);
      && fifo != []
      && fifo[0].number == n
      && fifo[0].channel in s.calls
      && s.calls[fifo[0].channel].phase == Released
  }

  /** Two requests of the queue never stem from the same call. */
  predicate Apart(a: LockRequest, b: LockRequest) {
    && (a.Lock? && b.Lock? ==> a.channel != b.channel)
    && (a.Unlock? && b.Unlock? ==> a.resource != b.resource)
  }

  ghost predicate QueueOK(s: State) {
    && (forall i :: 0 <= i < |s.queue| ==> QueuedOK(s, i))
    && (forall i, j :: 0 <= i < j < |s.queue| ==> Apart(s.queue[i], s.queue[j]))
  }

  ghost predicate TicketOK(s: State, r: string, k: nat)
    requires k < |Fifo(s.locks, r)|
  {
    var t := Fifo(s.locks, r)[k];
    && t.channel in s.calls
    && s.calls[t.channel].resource == r
    && s.calls[t.channel].number == t.number
    && Close(r, t.channel) !in s.log
    && (k == 0 <==> Grant(r, t.channel) in s.log)
    && (k > 0 ==> s.calls[t.channel].phase == Waiting)
  }

  ghost predicate FifoOK(s: State) {
    && (forall r, k :: 0 <= k < |Fifo(s.locks, r)| ==> TicketOK(s, r, k))
    && (forall r, j, k :: 0 <= j < k < |Fifo(s.locks, r)| ==>
          Fifo(s.locks, r)[j].channel != Fifo(s.locks, r)[k].channel)
  }

  predicate Queued(s: State, ch: Channel)
    requires ch in s.calls
  {
    Lock(s.calls[ch].resource, s.calls[ch].number, ch) in s.queue
  }

  ghost predicate CallOK(s: State, ch: Channel)
    requires ch in s.calls
  {
    var c := s.calls[ch];
    && c.number >= 0
    && match c.phase
       case Waiting => Queued(s, ch) || InFifo(s, ch)
       case Holding =>
         && IsHead(s, ch)
         && forall i :: 0 <= i < |s.queue| && s.queue[i].Unlock? ==> s.queue[i].resource != c.resource
       case Released =>
         && Grant(c.resource, ch) in s.log
         && if InFifo(s, ch) then IsHead(s, ch) && Unlock(c.resource, c.number) in s.queue
            else Close(c.resource, ch) in s.log
  }

  predicate Rivals(s: State, c1: Channel, c2: Channel)
    requires c1 in s.calls && c2 in s.calls
  {
    s.calls[c1].resource == s.calls[c2].resource && Live(s, c1) && Live(s, c2)
  }

  ghost predicate NumbersOK(s: State) {
    forall c1, c2 :: c1 in s.calls && c2 in s.calls && c1 != c2 && Rivals(s, c1, c2) ==>
        s.calls[c1].number != s.calls[c2].number
  }

  /** One token and one close per channel at most, and no token after the close. */
  ghost predicate LogOK(s: State) {
    && (forall i, j :: 0 <= i < j < |s.log| ==> s.log[i] != s.log[j])
    && (forall i, j :: 0 <= i < j < |s.log| && s.log[i].Close? ==>
          s.log[j] != Grant(s.log[i].resource, s.log[i].channel))
    && (forall i :: 0 <= i < |s.log| ==>
          s.log[i].channel in s.calls && s.calls[s.log[i].channel].resource == s.log[i].resource)
  }

  /** Calls on r in the order the handler took their lock requests. */
  function Arrivals(handled: seq<LockRequest>, r: string): seq<Channel> {
    if handled == [] then [] else
      var last := handled[|handled| - 1];
      Arrivals(handled[..|handled| - 1], r) + if last.Lock? && last.resource == r then [last.channel] else []
  }

  /** Calls on r in the order they were granted. */
  function Grants(log: seq<Effect>, r: string): seq<Channel> {
    if log == [] then [] else
      var last := log[|log| - 1];
      Grants(log[..|log| - 1], r) + if last.Grant? && last.resource == r then [last.channel] else []
  }

  function Channels(tickets: seq<Ticket>): seq<Channel> {
    seq(|tickets|, i requires 0 <= i < |tickets| => tickets[i].channel)
  }

  function Tail(fifo: seq<Ticket>): seq<Ticket> {
    if fifo == [] then [] else fifo[1..]
  }

  ghost predicate OrderOf(handled: seq<LockRequest>, log: seq<Effect>, fifo: seq<Ticket>, r: string) {
    Arrivals(handled, r) == Grants(log, r) + Channels(Tail(fifo))
  }

  ghost predicate OrderOK(s: State) {
    forall r :: OrderOf(s.handled, s.log, Fifo(s.locks, r), r)
  }

  ghost predicate Inv(s: State) {
    && TableOK(s.locks)
    && QueueOK(s)
    && FifoOK(s)
    && (forall ch :: ch in s.calls ==> CallOK(s, ch))
    && NumbersOK(s)
    && LogOK(s)
  }

  // ---- Every step keeps it ----

  /** Nothing a client does moves anyone in a queue. */
  lemma ClientFrame(s: State, s': State)
    requires s'.locks == s.locks && s'.log == s.log
    requires forall c :: c in s.calls ==>
        c in s'.calls && s'.calls[c].(phase := Waiting) == s.calls[c].(phase := Waiting)
    ensures forall c :: c in s.calls ==> InFifo(s', c) == InFifo(s, c) && IsHead(s', c) == IsHead(s, c)
  {}

  /** What a client step changes is one call, new or at the head of its queue. */
  ghost predicate ClientChanges(s: State, s': State, ch: Channel) {
    && s'.locks == s.locks && s'.log == s.log && s'.handled == s.handled
    && s'.calls.Keys == s.calls.Keys + {ch}
    && (forall c :: c in s.calls && c != ch ==> s'.calls[c] == s.calls[c])
    && (ch in s.calls ==> s'.calls[ch].(phase := Waiting) == s.calls[ch].(phase := Waiting) && IsHead(s, ch))
  }

  lemma ClientKeepsFifo(s: State, s': State, ch: Channel)
    requires FifoOK(s) && ClientChanges(s, s', ch)
    ensures FifoOK(s')
  {
    forall r, k | 0 <= k < |Fifo(s'.locks, r)| ensures TicketOK(s', r, k) { assert TicketOK(s, r, k); }
  }

  lemma ClientKeepsLog(s: State, s': State, ch: Channel)
    requires LogOK(s) && ClientChanges(s, s', ch)
    ensures LogOK(s')
  {}

  lemma ClientKeepsNumbers(s: State, s': State, ch: Channel)
    requires NumbersOK(s) && ClientChanges(s, s', ch)
    requires ch in s.calls ==> Live(s, ch)
    requires ch !in s.calls ==>
      forall c :: c in s.calls && s.calls[c].resource == s'.calls[ch].resource && Live(s, c) ==>
          s.calls[c].number != s'.calls[ch].number
    ensures NumbersOK(s')
  {
    ClientFrame(s, s');
    forall c1, c2 | c1 in s'.calls && c2 in s'.calls && c1 != c2 && Rivals(s', c1, c2)
      ensures s'.calls[c1].number != s'.calls[c2].number
    {
      if c1 in s.calls && c2 in s.calls { assert Rivals(s, c1, c2); }
    }
  }

  lemma NewCallNotInFifo(s: State, step: Step)
    requires Inv(s) && step.Request? && Enabled(s, step)
    ensures !InFifo(Next(s, step), step.channel)
    ensures forall r :: Grant(r, step.channel) !in s.log && Close(r, step.channel) !in s.log
  {
    forall r, k | 0 <= k < |Fifo(s.locks, r)| ensures Fifo(s.locks, r)[k].channel != step.channel {
      assert TicketOK(s, r, k);
    }
  }

  lemma RequestKeepsQueue(s: State, step: Step)
    requires Inv(s) && step.Request? && Enabled(s, step)
    ensures QueueOK(Next(s, step))
  {
    var s' := Next(s, step);
    ClientFrame(s, s');
    NewCallNotInFifo(s, step);
    forall i | 0 <= i < |s'.queue| ensures QueuedOK(s', i) {
      if i < |s.queue| { assert QueuedOK(s, i); }
    }
    forall i, j | 0 <= i < j < |s'.queue| ensures Apart(s'.queue[i], s'.queue[j]) {
      assert QueuedOK(s, i);
      if j < |s.queue| { assert Apart(s.queue[i], s.queue[j]); }
    }
  }

  lemma RequestKeepsCalls(s: State, step: Step, c: Channel)
    requires Inv(s) && step.Request? && Enabled(s, step) && c in Next(s, step).calls
    ensures CallOK(Next(s, step), c)
  {
    var s' := Next(s, step);
    ClientFrame(s, s');
    if c != step.channel {
      assert CallOK(s, c);
    } else {
      assert s'.queue[|s.queue|] == Lock(step.resource, step.number, c);
    }
  }

  lemma RequestKeepsInv(s: State, step: Step)
    requires Inv(s) && step.Request? && Enabled(s, step)
    ensures Inv(Next(s, step))
  {
    var s' := Next(s, step);
    ClientKeepsFifo(s, s', step.channel);
    ClientKeepsLog(s, s', step.channel);
    ClientKeepsNumbers(s, s', step.channel);
    RequestKeepsQueue(s, step);
    forall c | c in s'.calls ensures CallOK(s', c) { RequestKeepsCalls(s, step, c); }
  }

  /** A token or a close reaches a waiting client only once it is at the head. */
  lemma WaitingWithTokenIsHead(s: State, ch: Channel)
    requires Inv(s) && ch in s.calls && s.calls[ch].phase == Waiting
    requires Grant(s.calls[ch].resource, ch) in s.log || Close(s.calls[ch].resource, ch) in s.log
    ensures IsHead(s, ch)
    ensures !Queued(s, ch)
  {
    var r := s.calls[ch].resource;
    assert CallOK(s, ch);
    assert !Queued(s, ch) by {
      forall i | 0 <= i < |s.queue| ensures s.queue[i] != Lock(r, s.calls[ch].number, ch) { assert QueuedOK(s, i); }
    }
    var k :| 0 <= k < |Fifo(s.locks, r)| && Fifo(s.locks, r)[k].channel == ch;
    assert TicketOK(s, r, k);
  }

  lemma AcquireKeepsCalls(s: State, step: Step, c: Channel)
    requires Inv(s) && step.Acquire? && Enabled(s, step) && c in s.calls
    ensures CallOK(Next(s, step), c)
  {
    ClientFrame(s, Next(s, step));
    WaitingWithTokenIsHead(s, step.channel);
    assert CallOK(s, c);
    if c == step.channel { HeadWithoutUnlock(s, c); }
  }

  lemma AcquireKeepsQueue(s: State, step: Step)
    requires Inv(s) && step.Acquire? && Enabled(s, step)
    ensures QueueOK(Next(s, step))
  {
    var s' := Next(s, step);
    ClientFrame(s, s');
    WaitingWithTokenIsHead(s, step.channel);
    forall i | 0 <= i < |s'.queue| ensures QueuedOK(s', i) { assert QueuedOK(s, i); }
  }

  lemma AcquireKeepsInv(s: State, step: Step)
    requires Inv(s) && step.Acquire? && Enabled(s, step)
    ensures Inv(Next(s, step))
  {
    var s' := Next(s, step);
    WaitingWithTokenIsHead(s, step.channel);
    ClientKeepsFifo(s, s', step.channel);
    ClientKeepsLog(s, s', step.channel);
    ClientKeepsNumbers(s, s', step.channel);
    AcquireKeepsQueue(s, step);
    forall c | c in s'.calls ensures CallOK(s', c) { AcquireKeepsCalls(s, step, c); }
  }

  /** While the head has not released, no unlock for its resource is on its way. */
  lemma HeadWithoutUnlock(s: State, ch: Channel)
    requires QueueOK(s) && ch in s.calls && IsHead(s, ch) && s.calls[ch].phase != Released
    ensures forall i :: 0 <= i < |s.queue| && s.queue[i].Unlock? ==> s.queue[i].resource != s.calls[ch].resource
  {
    forall i | 0 <= i < |s.queue| && s.queue[i].Unlock? ensures s.queue[i].resource != s.calls[ch].resource {
      assert QueuedOK(s, i);
    }
  }

  lemma ReleaseKeepsQueue(s: State, step: Step)
    requires Inv(s) && step.Release? && Enabled(s, step)
    ensures QueueOK(Next(s, step))
  {
    var s', ch := Next(s, step), step.channel;
    ClientFrame(s, s');
    assert CallOK(s, ch);
    assert TicketOK(s, s.calls[ch].resource, 0);
    forall i | 0 <= i < |s'.queue| ensures QueuedOK(s', i) {
      if i < |s.queue| { assert QueuedOK(s, i); }
    }
    forall i, j | 0 <= i < j < |s'.queue| ensures Apart(s'.queue[i], s'.queue[j]) {
      if j < |s.queue| { assert Apart(s.queue[i], s.queue[j]); }
    }
  }

  lemma ReleaseKeepsCalls(s: State, step: Step, c: Channel)
    requires Inv(s) && step.Release? && Enabled(s, step) && c in s.calls
    ensures CallOK(Next(s, step), c)
  {
    var s', ch := Next(s, step), step.channel;
    ClientFrame(s, s');
    assert CallOK(s, ch) && CallOK(s, c);
    assert TicketOK(s, s.calls[ch].resource, 0);
    assert s'.queue[|s.queue|] == Unlock(s.calls[ch].resource, s.calls[ch].number);
  }

  lemma ReleaseKeepsInv(s: State, step: Step)
    requires Inv(s) && step.Release? && Enabled(s, step)
    ensures Inv(Next(s, step))
  {
    var s' := Next(s, step);
    assert CallOK(s, step.channel);
    ClientKeepsFifo(s, s', step.channel);
    ClientKeepsLog(s, s', step.channel);
    ClientKeepsNumbers(s, s', step.channel);
    ReleaseKeepsQueue(s, step);
    forall c | c in s'.calls ensures CallOK(s', c) { ReleaseKeepsCalls(s, step, c); }
  }

  lemma CleanupKeepsInv(s: State, step: Step)
    requires Inv(s) && step.Cleanup? && Enabled(s, step)
    ensures Inv(Next(s, step))
  {
    var s' := Next(s, step);
    CleanupIsInvisible(s.locks, step.idle);
    forall c | c in s'.calls
      ensures CallOK(s', c) && InFifo(s', c) == InFifo(s, c)
    {
      assert CallOK(s, c);
      assert Fifo(s'.locks, s.calls[c].resource) == Fifo(s.locks, s.calls[c].resource);
    }
    forall i | 0 <= i < |s'.queue| ensures QueuedOK(s', i) { assert QueuedOK(s, i); }
    forall r, k | 0 <= k < |Fifo(s'.locks, r)| ensures TicketOK(s', r, k) { assert TicketOK(s, r, k); }
    LivenessKeepsNumbers(s, s');
  }

  lemma LivenessKeepsNumbers(s: State, s': State)
    requires NumbersOK(s) && s'.calls == s.calls
    requires forall c :: c in s.calls && Live(s', c) ==> Live(s, c)
    ensures NumbersOK(s')
  {
    forall c1, c2 | c1 in s'.calls && c2 in s'.calls && c1 != c2 && Rivals(s', c1, c2)
      ensures s'.calls[c1].number != s'.calls[c2].number
    {
      assert Rivals(s, c1, c2);
    }
  }

  // The handler takes a lock request.

  ghost predicate TakesLock(s: State, s': State) {
    && s.queue != [] && s.queue[0].Lock?
    && Enabled(s, Handle) && s' == Next(s, Handle)
  }

  lemma TakesLockAppends(s: State, s': State)
    requires Inv(s) && TakesLock(s, s')
    ensures
      var q := s.queue[0];
      && TableOK(s'.locks)
      && SameFifoExcept(s.locks, s'.locks, q.resource)
      && Fifo(s'.locks, q.resource) == Fifo(s.locks, q.resource) + [Ticket(q.number, q.channel)]
      && s'.log == if Fifo(s.locks, q.resource) == [] then s.log + [Grant(q.resource, q.channel)] else s.log
  {
    var q := s.queue[0];
    assert QueuedOK(s, 0);
    assert CallOK(s, q.channel);
    if Fifo(s.locks, q.resource) != [] {
      assert TicketOK(s, q.resource, 0);
      var head := Fifo(s.locks, q.resource)[0].channel;
      assert InFifo(s, head);
      assert Rivals(s, head, q.channel);
    }
    LockAppends(s.locks, q);
  }

  lemma HandleKeepsLog(s: State)
    requires Enabled(s, Handle)
    ensures forall e :: e in s.log ==> e in Next(s, Handle).log
  {}

  lemma AppendedInFifo(s: State, s': State, c: Channel)
    requires s.queue != [] && s.queue[0].Lock? && s'.calls == s.calls && c in s.calls
    requires s.queue[0].channel in s.calls && s.calls[s.queue[0].channel].resource == s.queue[0].resource
    requires var q := s.queue[0];
      && SameFifoExcept(s.locks, s'.locks, q.resource)
      && Fifo(s'.locks, q.resource) == Fifo(s.locks, q.resource) + [Ticket(q.number, q.channel)]
    ensures InFifo(s', c) == (InFifo(s, c) || c == s.queue[0].channel)
    ensures IsHead(s', c) == (IsHead(s, c) || (c == s.queue[0].channel && Fifo(s.locks, s.queue[0].resource) == []))
  {
    var f, f' := Fifo(s.locks, s.calls[c].resource), Fifo(s'.locks, s.calls[c].resource);
    if InFifo(s, c) {
      var k :| 0 <= k < |f| && f[k].channel == c;
      assert f'[k].channel == c;
    } else if c == s.queue[0].channel {
      assert f'[|f|].channel == c;
    }
  }

  lemma TakesLockFrame(s: State, s': State)
    requires Inv(s) && TakesLock(s, s')
    ensures forall c :: c in s.calls ==> InFifo(s', c) == (InFifo(s, c) || c == s.queue[0].channel)
    ensures forall c :: c in s.calls ==>
        IsHead(s', c) == (IsHead(s, c) || (c == s.queue[0].channel && Fifo(s.locks, s.queue[0].resource) == []))
  {
    TakesLockAppends(s, s');
    assert QueuedOK(s, 0);
    forall c | c in s.calls
      ensures InFifo(s', c) == (InFifo(s, c) || c == s.queue[0].channel)
      ensures IsHead(s', c) == (IsHead(s, c) || (c == s.queue[0].channel && Fifo(s.locks, s.queue[0].resource) == []))
    {
      AppendedInFifo(s, s', c);
    }
  }

  lemma TakesLockKeepsQueue(s: State, s': State)
    requires Inv(s) && TakesLock(s, s')
    ensures QueueOK(s')
  {
    TakesLockAppends(s, s');
    TakesLockFrame(s, s');
    forall i | 0 <= i < |s'.queue| ensures QueuedOK(s', i) {
      assert QueuedOK(s, i + 1) && Apart(s.queue[0], s.queue[i + 1]);
    }
    assert forall i :: 0 <= i < |s'.queue| ==> s'.queue[i] == s.queue[i + 1];
  }

  lemma AppendedTicketOK(s: State, s': State, r: string, k: nat)
    requires FifoOK(s) && s'.calls == s.calls && s.queue != [] && s.queue[0].Lock? && QueuedOK(s, 0)
    requires var q, fifo := s.queue[0], Fifo(s.locks, s.queue[0].resource);
      && SameFifoExcept(s.locks, s'.locks, q.resource)
      && Fifo(s'.locks, q.resource) == fifo + [Ticket(q.number, q.channel)]
      && s'.log == if fifo == [] then s.log + [Grant(q.resource, q.channel)] else s.log
    requires k < |Fifo(s'.locks, r)|
    ensures TicketOK(s', r, k)
    ensures r == s.queue[0].resource && k < |Fifo(s.locks, r)| ==> Fifo(s.locks, r)[k].channel != s.queue[0].channel
  {
    if r != s.queue[0].resource || k < |Fifo(s.locks, r)| { assert TicketOK(s, r, k); }
  }

  lemma TakesLockKeepsFifo(s: State, s': State)
    requires Inv(s) && TakesLock(s, s')
    ensures FifoOK(s')
  {
    TakesLockAppends(s, s');
    assert QueuedOK(s, 0);
    forall r, k | 0 <= k < |Fifo(s'.locks, r)| ensures TicketOK(s', r, k) {
      AppendedTicketOK(s, s', r, k);
    }
    forall r, j, k | 0 <= j < k < |Fifo(s'.locks, r)|
      ensures Fifo(s'.locks, r)[j].channel != Fifo(s'.locks, r)[k].channel
    {
      AppendedTicketOK(s, s', r, j);
    }
  }

  lemma AppendedCallOK(s: State, s': State, c: Channel)
    requires s.queue != [] && s.queue[0].Lock? && QueuedOK(s, 0)
    requires c in s.calls && CallOK(s, c) && s'.calls == s.calls && s'.queue == s.queue[1..]
    requires forall e :: e in s.log ==> e in s'.log
    requires InFifo(s', c) == (InFifo(s, c) || c == s.queue[0].channel)
    requires IsHead(s, c) ==> IsHead(s', c)
    ensures CallOK(s', c)
  {
    assert s.queue == [s.queue[0]] + s'.queue;
    if c == s.queue[0].channel {
      assert s.calls[c].phase == Waiting;
    }
  }

  lemma TakesLockKeepsCall(s: State, s': State, c: Channel)
    requires Inv(s) && TakesLock(s, s') && c in s.calls
    ensures CallOK(s', c)
  {
    TakesLockAppends(s, s');
    TakesLockFrame(s, s');
    HandleKeepsLog(s);
    assert CallOK(s, c) && QueuedOK(s, 0);
    AppendedCallOK(s, s', c);
  }

  lemma ArrivalsExtend(handled: seq<LockRequest>, q: LockRequest, r: string)
    ensures Arrivals(handled + [q], r) == Arrivals(handled, r) + if q.Lock? && q.resource == r then [q.channel] else []
  {
    assert (handled + [q])[..|handled + [q]| - 1] == handled;
  }

  lemma GrantsExtend(log: seq<Effect>, e: Effect, r: string)
    ensures Grants(log + [e], r) == Grants(log, r) + if e.Grant? && e.resource == r then [e.channel] else []
  {
    assert (log + [e])[..|log + [e]| - 1] == log;
  }

  lemma LockKeepsOrderOf(handled: seq<LockRequest>, log: seq<Effect>, fifo: seq<Ticket>, q: LockRequest)
    requires q.Lock? && OrderOf(handled, log, fifo, q.resource)
    ensures OrderOf(handled + [q], if fifo == [] then log + [Grant(q.resource, q.channel)] else log,
                    fifo + [Ticket(q.number, q.channel)], q.resource)
  {
    ArrivalsExtend(handled, q, q.resource);
    if fifo == [] {
      GrantsExtend(log, Grant(q.resource, q.channel), q.resource);
    } else {
      assert Tail(fifo + [Ticket(q.number, q.channel)]) == Tail(fifo) + [Ticket(q.number, q.channel)];
      assert Channels(Tail(fifo + [Ticket(q.number, q.channel)])) == Channels(Tail(fifo)) + [q.channel];
    }
  }

  lemma TakesLockKeepsOrder(s: State, s': State, r: string)
    requires s.queue != [] && s.queue[0].Lock? && OrderOf(s.handled, s.log, Fifo(s.locks, r), r)
    requires s'.handled == s.handled + [s.queue[0]]
    requires var q, fifo := s.queue[0], Fifo(s.locks, s.queue[0].resource);
      && SameFifoExcept(s.locks, s'.locks, q.resource)
      && Fifo(s'.locks, q.resource) == fifo + [Ticket(q.number, q.channel)]
      && s'.log == if fifo == [] then s.log + [Grant(q.resource, q.channel)] else s.log
    ensures OrderOf(s'.handled, s'.log, Fifo(s'.locks, r), r)
  {
    var q, fifo := s.queue[0], Fifo(s.locks, s.queue[0].resource);
    if r == q.resource {
      LockKeepsOrderOf(s.handled, s.log, fifo, q);
    } else if fifo == [] {
      OthersKeepOrderOf(s.handled, s.log, Fifo(s.locks, r), q, [Grant(q.resource, q.channel)], r);
    } else {
      ArrivalsExtend(s.handled, q, r);
    }
  }

  lemma LogExtends(s: State, s': State, e: Effect)
    requires LogOK(s) && s'.calls == s.calls && s'.log == s.log + [e]
    requires e !in s.log && e.channel in s.calls && s.calls[e.channel].resource == e.resource
    requires e.Grant? ==> Close(e.resource, e.channel) !in s.log
    ensures LogOK(s')
  {}

  lemma TakesLockKeepsLog(s: State, s': State)
    requires Inv(s) && TakesLock(s, s')
    ensures LogOK(s')
  {
    TakesLockAppends(s, s');
    var q := s.queue[0];
    assert QueuedOK(s, 0);
    if Fifo(s.locks, q.resource) == [] { LogExtends(s, s', Grant(q.resource, q.channel)); }
  }

  // The handler takes an unlock request.

  ghost predicate TakesUnlock(s: State, s': State) {
    && s.queue != [] && s.queue[0].Unlock?
    && Enabled(s, Handle) && s' == Next(s, Handle)
  }

  lemma TakesUnlockPops(s: State, s': State)
    requires Inv(s) && TakesUnlock(s, s')
    ensures
      var r, fifo := s.queue[0].resource, Fifo(s.locks, s.queue[0].resource);
      && TableOK(s'.locks)
      && SameFifoExcept(s.locks, s'.locks, r)
      && fifo != [] && fifo[0].number == s.queue[0].number
      && Fifo(s'.locks, r) == fifo[1..]
      && s'.log == s.log + [Close(r, fifo[0].channel)] + if |fifo| == 1 then [] else [Grant(r, fifo[1].channel)]
  {
    var r := s.queue[0].resource;
    assert QueuedOK(s, 0);
    assert TicketOK(s, r, 0);
    assert CallOK(s, Fifo(s.locks, r)[0].channel);
    UnlockPops(s.locks, s.queue[0]);
  }

  lemma PoppedInFifo(s: State, s': State, c: Channel)
    requires s.queue != [] && s.queue[0].Unlock? && s'.calls == s.calls && c in s.calls && FifoOK(s)
    requires var fifo := Fifo(s.locks, s.queue[0].resource);
      && fifo != []
      && SameFifoExcept(s.locks, s'.locks, s.queue[0].resource)
      && Fifo(s'.locks, s.queue[0].resource) == fifo[1..]
    ensures InFifo(s', c) == (InFifo(s, c) && c != Fifo(s.locks, s.queue[0].resource)[0].channel)
    ensures s.calls[c].resource != s.queue[0].resource ==> IsHead(s', c) == IsHead(s, c)
  {
    var head := Fifo(s.locks, s.queue[0].resource)[0].channel;
    var f, f' := Fifo(s.locks, s.calls[c].resource), Fifo(s'.locks, s.calls[c].resource);
    assert TicketOK(s, s.queue[0].resource, 0);
    if s.calls[c].resource == s.queue[0].resource {
      assert forall k :: 0 <= k < |f'| ==> f'[k] == f[k + 1];
      if InFifo(s, c) && c != head {
        var k :| 0 <= k < |f| && f[k].channel == c;
        assert f'[k - 1].channel == c;
      }
    }
  }

  lemma TakesUnlockFrame(s: State, s': State)
    requires Inv(s) && TakesUnlock(s, s')
    ensures
      var r, fifo := s.queue[0].resource, Fifo(s.locks, s.queue[0].resource);
      && fifo != []
      && (forall c :: c in s.calls ==> InFifo(s', c) == (InFifo(s, c) && c != fifo[0].channel))
      && (forall c :: c in s.calls && s.calls[c].resource != r ==> IsHead(s', c) == IsHead(s, c))
  {
    TakesUnlockPops(s, s');
    forall c | c in s.calls
      ensures InFifo(s', c) == (InFifo(s, c) && c != Fifo(s.locks, s.queue[0].resource)[0].channel)
      ensures s.calls[c].resource != s.queue[0].resource ==> IsHead(s', c) == IsHead(s, c)
    {
      PoppedInFifo(s, s', c);
    }
  }

  lemma TakesUnlockKeepsQueue(s: State, s': State)
    requires Inv(s) && TakesUnlock(s, s')
    ensures QueueOK(s')
  {
    TakesUnlockPops(s, s');
    TakesUnlockFrame(s, s');
    var fifo := Fifo(s.locks, s.queue[0].resource);
    if |fifo| > 1 {
      assert TicketOK(s, s.queue[0].resource, 1);
      assert InFifo(s, fifo[1].channel);
    }
    assert TicketOK(s, s.queue[0].resource, 0) && InFifo(s, fifo[0].channel);
    forall i | 0 <= i < |s'.queue| ensures QueuedOK(s', i) {
      assert QueuedOK(s, i + 1) && Apart(s.queue[0], s.queue[i + 1]);
    }
    assert forall i :: 0 <= i < |s'.queue| ==> s'.queue[i] == s.queue[i + 1];
  }

  lemma PoppedTicketOK(s: State, s': State, r: string, k: nat)
    requires FifoOK(s) && s'.calls == s.calls && s.queue != [] && s.queue[0].Unlock?
    requires var q, fifo := s.queue[0], Fifo(s.locks, s.queue[0].resource);
      && fifo != []
      && SameFifoExcept(s.locks, s'.locks, q.resource)
      && Fifo(s'.locks, q.resource) == fifo[1..]
      && (forall e :: e in s'.log <==>
            e in s.log || e == Close(q.resource, fifo[0].channel) ||
                (|fifo| > 1 && e == Grant(q.resource, fifo[1].channel)))
    requires k < |Fifo(s'.locks, r)|
    ensures TicketOK(s', r, k)
  {
    var fifo := Fifo(s.locks, r);
    if r == s.queue[0].resource {
      assert TicketOK(s, r, k + 1) && fifo[k + 1].channel != fifo[0].channel;
      assert k > 0 ==> fifo[k + 1].channel != fifo[1].channel;
    } else {
      assert TicketOK(s, r, k);
    }
  }

  lemma PoppedLog(log: seq<Effect>, close: Effect, grants: seq<Effect>)
    ensures forall e :: e in log + [close] + grants <==> e in log || e == close || e in grants
  {}

  lemma PoppedFifoOK(s: State, s': State)
    requires FifoOK(s) && s'.calls == s.calls && s.queue != [] && s.queue[0].Unlock?
    requires var q, fifo := s.queue[0], Fifo(s.locks, s.queue[0].resource);
      && fifo != []
      && SameFifoExcept(s.locks, s'.locks, q.resource)
      && Fifo(s'.locks, q.resource) == fifo[1..]
      && s'.log == s.log + [Close(q.resource, fifo[0].channel)] +
          if |fifo| == 1 then [] else [Grant(q.resource, fifo[1].channel)]
    ensures FifoOK(s')
  {
    var q, fifo := s.queue[0], Fifo(s.locks, s.queue[0].resource);
    PoppedLog(s.log, Close(q.resource, fifo[0].channel),
        if |fifo| == 1 then [] else [Grant(q.resource, fifo[1].channel)]);
    forall r, k | 0 <= k < |Fifo(s'.locks, r)| ensures TicketOK(s', r, k) {
      PoppedTicketOK(s, s', r, k);
    }
  }

  lemma TakesUnlockKeepsFifo(s: State, s': State)
    requires Inv(s) && TakesUnlock(s, s')
    ensures FifoOK(s')
  {
    TakesUnlockPops(s, s');
    PoppedFifoOK(s, s');
  }

  lemma PoppedCallOK(s: State, s': State, c: Channel)
    requires s.queue != [] && s.queue[0].Unlock? && s'.calls == s.calls && s'.queue == s.queue[1..]
    requires c in s.calls && CallOK(s, c) && forall e :: e in s.log ==> e in s'.log
    requires var fifo := Fifo(s.locks, s.queue[0].resource);
      && fifo != [] && fifo[0].channel in s.calls
      && s.calls[fifo[0].channel].resource == s.queue[0].resource && s.calls[fifo[0].channel].phase == Released
      && InFifo(s', c) == (InFifo(s, c) && c != fifo[0].channel)
      && (s.calls[c].resource != s.queue[0].resource ==> IsHead(s', c) == IsHead(s, c))
      && Close(s.queue[0].resource, fifo[0].channel) in s'.log
    ensures CallOK(s', c)
  {
    var fifo := Fifo(s.locks, s.queue[0].resource);
    assert s.queue == [s.queue[0]] + s'.queue;
    if c != fifo[0].channel && s.calls[c].resource == s.queue[0].resource {
      assert !IsHead(s, c);
    }
  }

  lemma TakesUnlockKeepsCall(s: State, s': State, c: Channel)
    requires Inv(s) && TakesUnlock(s, s') && c in s.calls
    ensures CallOK(s', c)
  {
    TakesUnlockPops(s, s');
    TakesUnlockFrame(s, s');
    HandleKeepsLog(s);
    assert CallOK(s, c) && QueuedOK(s, 0) && TicketOK(s, s.queue[0].resource, 0);
    PoppedCallOK(s, s', c);
  }

  lemma TakesUnlockKeepsLog(s: State, s': State)
    requires Inv(s) && TakesUnlock(s, s')
    ensures LogOK(s')
  {
    TakesUnlockPops(s, s');
    var r, fifo := s.queue[0].resource, Fifo(s.locks, s.queue[0].resource);
    assert TicketOK(s, r, 0);
    var closed := s.(log := s.log + [Close(r, fifo[0].channel)]);
    LogExtends(s, closed, Close(r, fifo[0].channel));
    if |fifo| == 1 {
      assert s'.log == closed.log;
    } else {
      assert TicketOK(s, r, 1);
      LogExtends(closed, s', Grant(r, fifo[1].channel));
    }
  }

  lemma UnlockKeepsOrderOf(handled: seq<LockRequest>, log: seq<Effect>, fifo: seq<Ticket>, q: LockRequest)
    requires q.Unlock? && fifo != [] && OrderOf(handled, log, fifo, q.resource)
    ensures OrderOf(handled + [q],
                    log + [Close(q.resource, fifo[0].channel)] +
                        if |fifo| == 1 then [] else [Grant(q.resource, fifo[1].channel)],
                    fifo[1..], q.resource)
  {
    ArrivalsExtend(handled, q, q.resource);
    var log' := log + [Close(q.resource, fifo[0].channel)];
    GrantsExtend(log, Close(q.resource, fifo[0].channel), q.resource);
    if |fifo| == 1 {
      assert log' + [] == log';
    } else {
      GrantsExtend(log', Grant(q.resource, fifo[1].channel), q.resource);
      assert Channels(fifo[1..]) == [fifo[1].channel] + Channels(Tail(fifo[1..]));
    }
  }

  lemma {:induction false} GrantsOfOthers(log: seq<Effect>, effects: seq<Effect>, r: string)
    requires forall i :: 0 <= i < |effects| ==> effects[i].resource != r
    ensures Grants(log + effects, r) == Grants(log, r)
  {
    if effects == [] {
      assert log + effects == log;
    } else {
      var init, last := effects[..|effects| - 1], effects[|effects| - 1];
      GrantsOfOthers(log, init, r);
      GrantsExtend(log + init, last, r);
      assert log + effects == log + init + [last];
    }
  }

  lemma OthersKeepOrderOf(handled: seq<LockRequest>, log: seq<Effect>, fifo: seq<Ticket>, q: LockRequest,
                          effects: seq<Effect>, r: string)
    requires r != q.resource && OrderOf(handled, log, fifo, r)
    requires forall i :: 0 <= i < |effects| ==> effects[i].resource == q.resource
    ensures OrderOf(handled + [q], log + effects, fifo, r)
  {
    ArrivalsExtend(handled, q, r);
    GrantsOfOthers(log, effects, r);
  }

  lemma TakesUnlockKeepsOrder(s: State, s': State, r: string)
    requires s.queue != [] && s.queue[0].Unlock? && OrderOf(s.handled, s.log, Fifo(s.locks, r), r)
    requires s'.handled == s.handled + [s.queue[0]]
    requires var q, fifo := s.queue[0], Fifo(s.locks, s.queue[0].resource);
      && fifo != []
      && SameFifoExcept(s.locks, s'.locks, q.resource)
      && Fifo(s'.locks, q.resource) == fifo[1..]
      && s'.log == s.log + [Close(q.resource, fifo[0].channel)] +
          if |fifo| == 1 then [] else [Grant(q.resource, fifo[1].channel)]
    ensures OrderOf(s'.handled, s'.log, Fifo(s'.locks, r), r)
  {
    var q, fifo := s.queue[0], Fifo(s.locks, s.queue[0].resource);
    if r == q.resource {
      UnlockKeepsOrderOf(s.handled, s.log, fifo, q);
    } else {
      var closed := [Close(q.resource, fifo[0].channel)];
      var granted := if |fifo| == 1 then [] else [Grant(q.resource, fifo[1].channel)];
      OthersKeepOrderOf(s.handled, s.log, Fifo(s.locks, r), q, closed + granted, r);
      Regroup(s.log, closed, granted);
    }
  }

  lemma HandleKeepsInv(s: State)
    requires Inv(s) && Enabled(s, Handle)
    ensures Inv(Next(s, Handle))
  {
    var s' := Next(s, Handle);
    if s.queue[0].Lock? {
      TakesLockAppends(s, s');
      TakesLockKeepsQueue(s, s');
      TakesLockKeepsFifo(s, s');
      forall c | c in s'.calls ensures CallOK(s', c) { TakesLockKeepsCall(s, s', c); }
      TakesLockFrame(s, s');
      assert QueuedOK(s, 0);
      LivenessKeepsNumbers(s, s');
      TakesLockKeepsLog(s, s');
    } else {
      TakesUnlockPops(s, s');
      TakesUnlockKeepsQueue(s, s');
      TakesUnlockKeepsFifo(s, s');
      forall c | c in s'.calls ensures CallOK(s', c) { TakesUnlockKeepsCall(s, s', c); }
      TakesUnlockFrame(s, s');
      LivenessKeepsNumbers(s, s');
      TakesUnlockKeepsLog(s, s');
    }
  }

  lemma StepKeepsInv(s: State, step: Step)
    requires Inv(s) && Enabled(s, step)
    ensures Inv(Next(s, step))
  {
    match step
    case Request(_, _, _) => RequestKeepsInv(s, step);
    case Acquire(_) => AcquireKeepsInv(s, step);
    case Release(_) => ReleaseKeepsInv(s, step);
    case Handle => HandleKeepsInv(s);
    case Cleanup(_) => CleanupKeepsInv(s, step);
  }

  lemma StepKeepsOrder(s: State, step: Step)
    requires Inv(s) && OrderOK(s) && Enabled(s, step)
    ensures OrderOK(Next(s, step))
  {
    var s' := Next(s, step);
    if step.Cleanup? {
      CleanupIsInvisible(s.locks, step.idle);
    } else if step.Handle? && s.queue[0].Lock? {
      TakesLockAppends(s, s');
    } else if step.Handle? {
      TakesUnlockPops(s, s');
    }
    forall r ensures OrderOf(s'.handled, s'.log, Fifo(s'.locks, r), r) {
      assert OrderOf(s.handled, s.log, Fifo(s.locks, r), r);
      if step.Handle? && s.queue[0].Lock? {
        TakesLockKeepsOrder(s, s', r);
      } else if step.Handle? {
        TakesUnlockKeepsOrder(s, s', r);
      }
    }
  }

  lemma {:induction false} RunKeepsInv(s: State, steps: seq<Step>)
    requires Inv(s) && OrderOK(s) && Run(s, steps)
    ensures Inv(Final(s, steps)) && OrderOK(Final(s, steps))
    decreases |steps|
  {
    if steps == [] {
    } else {
      StepKeepsInv(s, steps[0]);
      StepKeepsOrder(s, steps[0]);
      RunKeepsInv(Next(s, steps[0]), steps[1..]);
    }
  }
}
