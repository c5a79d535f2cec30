/**
The request handler and the cleanup worker of the FIFO lock manager: one table
entry per resource, holding the current lock number and a bounded channel of
waiting requests. Serve is the effect of one handler iteration as a function;
LockTable carries it out on shared, mutable entries.

The simple form it implements is one queue per resource whose head holds the
lock. The lemmas at the end of LockSpec say so.
*/
module LockSpec {

  const NotHeld := -1
  const MaxWaiting := 100

  /** One RequestLock call is identified by the channel it waits on. */
  type Channel = nat

  datatype LockRequest =
    | Lock(resource: string, number: int, channel: Channel)
    | Unlock(resource: string, number: int)

  datatype Ticket = Ticket(number: int, channel: Channel)

  datatype Entry = Entry(current: int, channel: Channel, waiting: seq<Ticket>)

  /** What the handler does to wait channels: put the token in, or close. */
  datatype Effect =
    | Grant(resource: string, channel: Channel)
    | Close(resource: string, channel: Channel)

  /** Blocked: the send into the full waiting channel never returns. */
  datatype Outcome = Blocked | Served(locks: map<string, Entry>, effects: seq<Effect>)

  function Serve(locks: map<string, Entry>, request: LockRequest): Outcome {
    var r := request.resource;
    match request
    case Lock(_, n, ch) =>
      if r !in locks then
        Served(locks[r := Entry(n, ch, [])], [Grant(r, ch)])
      else if locks[r].current == n then
        Served(locks, [])
      else if locks[r].waiting == [] && locks[r].current == NotHeld then
        Served(locks[r := Entry(n, ch, [])], [Grant(r, ch)])
      else if |locks[r].waiting| >= MaxWaiting then
        Blocked
      else
        Served(locks[r := locks[r].(waiting := locks[r].waiting + [Ticket(n, ch)])], [])
    case Unlock(_, n) =>
      if r !in locks || locks[r].current != n then
        Served(locks, [])
      else if locks[r].waiting == [] then
        Served(locks[r := locks[r].(current := NotHeld)], [Close(r, locks[r].channel)])
      else
        var next := locks[r].waiting[0];
        Served(locks[r := Entry(next.number, next.channel, locks[r].waiting[1..])],
               [Close(r, locks[r].channel), Grant(r, next.channel)])
  }

  /** The simple form: the holder followed by the waiters, oldest first. */
  function Fifo(locks: map<string, Entry>, r: string): seq<Ticket> {
    if r in locks && locks[r].current != NotHeld
    then [Ticket(locks[r].current, locks[r].channel)] + locks[r].waiting
    else []
  }

  /** What the handler and the cleanup worker keep true of the table. */
  ghost predicate TableOK(locks: map<string, Entry>) {
    forall r :: r in locks ==>
      && locks[r].current >= NotHeld
      && |locks[r].waiting| <= MaxWaiting
      && (locks[r].current == NotHeld ==> locks[r].waiting == [])
      && forall k :: 0 <= k < |locks[r].waiting| ==> locks[r].waiting[k].number >= 0
  }

  ghost predicate SameFifoExcept(before: map<string, Entry>, after: map<string, Entry>, r: string) {
    forall other :: other != r ==> Fifo(after, other) == Fifo(before, other)
  }

  /** A lock request joins the end of its queue, and is granted exactly when it
      finds that queue empty; it blocks the handler exactly when a holder and
      a hundred waiters are already there. */
  lemma LockAppends(locks: map<string, Entry>, request: LockRequest)
    requires TableOK(locks) && request.Lock? && request.number >= 0
    requires Fifo(locks, request.resource) != [] ==> Fifo(locks, request.resource)[0].number != request.number
    ensures Serve(locks, request).Blocked? <==> |Fifo(locks, request.resource)| == 101
    ensures Serve(locks, request).Served? ==>
      var after := Serve(locks, request).locks;
      && TableOK(after)
      && SameFifoExcept(locks, after, request.resource)
      && Fifo(after, request.resource) == Fifo(locks, request.resource) + [Ticket(request.number, request.channel)]
      && Serve(locks, request).effects ==
         if Fifo(locks, request.resource) == [] then [Grant(request.resource, request.channel)] else []
  {
    if Serve(locks, request).Served? {
      var r := request.resource;
      var after := Serve(locks, request).locks;
      assert Fifo(after, r) == Fifo(locks, r) + [Ticket(request.number, request.channel)];
      assert SameFifoExcept(locks, after, r);
    }
  }

  /** A request under the number of the holder is ignored. */
  lemma HolderIsNotGrantedAgain(locks: map<string, Entry>, request: LockRequest)
    requires TableOK(locks) && request.Lock? && Fifo(locks, request.resource) != []
    requires Fifo(locks, request.resource)[0].number == request.number
    ensures Serve(locks, request) == Served(locks, [])
  {}

  /** An unlock by the head pops it, closes its channel and grants the new head
      if there is one; any other unlock changes nothing. */
  lemma UnlockPops(locks: map<string, Entry>, request: LockRequest)
    requires TableOK(locks) && request.Unlock? && request.number >= 0
    ensures Serve(locks, request).Served?
    ensures
      var r, before, after, effects := request.resource, Fifo(locks, request.resource), Serve(locks, request).locks,
          Serve(locks, request).effects;
      && TableOK(after)
      && SameFifoExcept(locks, after, r)
      && if before != [] && before[0].number == request.number then
           && Fifo(after, r) == before[1..]
           && effects == [Close(r, before[0].channel)] + if |before| == 1 then [] else [Grant(r, before[1].channel)]
         else
           after == locks && effects == []
  {
    var r, before, after := request.resource, Fifo(locks, request.resource), Serve(locks, request).locks;
    assert SameFifoExcept(locks, after, r);
    if before != [] && before[0].number == request.number {
      assert before[1..] == locks[r].waiting;
      if locks[r].waiting != [] {
        assert Fifo(after, r) == [locks[r].waiting[0]] + locks[r].waiting[1..];
      }
    }
  }

  /** Deleting idle entries is invisible in the simple form. */
  lemma CleanupIsInvisible(locks: map<string, Entry>, idle: set<string>)
    requires TableOK(locks)
    requires forall r :: r in idle ==> r in locks && locks[r].current == NotHeld
    ensures TableOK(locks - idle)
    ensures forall r :: Fifo(locks - idle, r) == Fifo(locks, r)
  {}
}

/** The handler and cleanup loops' bodies, on the shared table of entry objects. */
module LockHandler {
  import opened LockSpec

  class LockInfo {
    var waiting: seq<Ticket>
    var current: int
    var channel: Channel

    constructor (current: int, channel: Channel)
      ensures this.current == current && this.channel == channel && waiting == []
    {
      this.current, this.channel, waiting := current, channel, [];
    }

    function View(): Entry reads this {
      Entry(current, channel, waiting)
    }
  }

  class LockTable {
    var fifolocks: map<string, LockInfo>

    constructor ()
      ensures Valid() && View() == map[]
    {
      fifolocks := map[];
    }

    /** No two resources share an entry object. */
    ghost predicate Valid() reads this {
      forall r1, r2 :: r1 in fifolocks && r2 in fifolocks && r1 != r2 ==> fifolocks[r1] != fifolocks[r2]
    }

    ghost function View(): map<string, Entry> reads this, fifolocks.Values {
      map r | r in fifolocks :: fifolocks[r].View()
    }

    /** One iteration of the handler, from taking a request to releasing the
        mutex. blocked: the iteration never gets past its send into the full
        waiting channel. */
    method HandleRequest(request: LockRequest) returns (blocked: bool, effects: seq<Effect>)
      requires Valid()
      modifies this, fifolocks.Values
      ensures Valid()
      ensures blocked ==> View() == old(View())
      ensures Serve(old(View()), request) == if blocked then Blocked else Served(View(), effects)
    {
      blocked, effects := false, [];
      var r := request.resource;
      if r !in fifolocks {
        if request.Lock? {
          var info := new LockInfo(request.number, request.channel);
          fifolocks := fifolocks[r := info];
          assert View() == old(View())[r := info.View()];
          effects := [Grant(r, request.channel)];
        }
      } else {
        var info := fifolocks[r];
        if info.current == request.number {
          if request.Unlock? {
            effects := [Close(r, info.channel)];
            if info.waiting != [] {
              var next := info.waiting[0];
              info.waiting := info.waiting[1..];
              info.current := next.number;
              info.channel := next.channel;
              effects := effects + [Grant(r, next.channel)];
              assert View() == old(View())[r := info.View()];
            } else {
              info.current := NotHeld;
              assert View() == old(View())[r := info.View()];
            }
          }
        } else if request.Lock? {
          if |info.waiting| == 0 && info.current == NotHeld {
            info.current := request.number;
            info.channel := request.channel;
            effects := [Grant(r, request.channel)];
            assert View() == old(View())[r := info.View()];
          } else if |info.waiting| >= MaxWaiting {
            blocked := true;
          } else {
            info.waiting := info.waiting + [Ticket(request.number, request.channel)];
            assert View() == old(View())[r := info.View()];
          }
        }
      }
    }

    /** One wake-up of the cleanup worker. It visits entries in no particular
        order and gives up when its time slice, here a number of visits, ends. */
    method Cleanup(visits: nat) returns (removed: set<string>)
      requires Valid()
      modifies this
      ensures Valid()
      ensures forall r :: r in removed ==> r in old(View()) && old(View())[r].current == NotHeld
      ensures View() == old(View()) - removed
      ensures visits >= |old(fifolocks).Keys| ==> forall r :: r in View() ==> View()[r].current != NotHeld
    {
      removed := {};
      var left, i := fifolocks.Keys, 0;
      ghost var before := fifolocks;
      while left != {} && i < visits
        invariant left <= fifolocks.Keys && fifolocks == before - removed
        invariant forall r :: r in removed ==> r in before && before[r].current == NotHeld
        invariant forall r :: r in fifolocks && r !in left ==> fifolocks[r].current != NotHeld
        invariant i + |left| == |before.Keys|
        decreases |left|
      {
        var r :| r in left;
        left := left - {r};
        if fifolocks[r].current == NotHeld {
          fifolocks := fifolocks - {r};
          removed := removed + {r};
        }
        i := i + 1;
      }
    }
  }
}
