/** Whole runs of the worker: queueing, the three steps and pruning, in any
    order and against any answers. */
module DeletionRuns {
  import opened Options
  import opened Sequences
  import opened DeviceRanges
  import opened DeletionSpec
  import opened DeletionRounds
  import opened DeletionSteps

  datatype Op =
    | Enqueue(id: SymDeviceID, handle: string, volume: Volume)
    | CleanupSnapshots(cleanup: CleanupAnswers)
    | RemoveFromGroups(remove: RemoveAnswers)
    | DeleteVolumes(delete: DeleteAnswers, range: DeviceRange)
    | Prune

  ghost predicate OpOK(ds: seq<Device>, op: Op) {
    && (op.Enqueue? ==> CanonicalID(op.id))
    && (op.DeleteVolumes? ==> RangeOK(ds, op.delete, op.range))
  }

  function Apply(ds: seq<Device>, op: Op): seq<Device> {
    match op
    case Enqueue(id, handle, v) => Enqueued(ds, NewDevice(id, handle, v))
    case CleanupSnapshots(a) => CleanupFrom(ds, 0, 0, a).0
    case RemoveFromGroups(a) => Remove(ds, a).0
    case DeleteVolumes(a, range) => DeleteRound(ds, a, range)
    case Prune => Pruned(ds)
  }

  // ---- One step ----

  predicate Clean(v: Volume) { v.storageGroups == [] && !Linked(v) }

  /** The operation was told v by the array when it asked about the device. */
  predicate Answers(op: Op, deviceID: string, v: Volume) {
    match op
    case Enqueue(id, _, volume) => id.deviceID == deviceID && volume == v
    case CleanupSnapshots(a) => a.fetch(deviceID) == Found(v) || a.refetch(deviceID) == Found(v)
    case RemoveFromGroups(a) => a.fetch(deviceID) == Found(v) || a.refetch(deviceID) == Found(v)
    case DeleteVolumes(a, _) => a.fetch(deviceID) == Found(v)
    case Prune => false
  }

  /** Same entry, and a volume newly in its cache is an answer of the operation. */
  predicate SameEntry(d: Device, d': Device, op: Op) {
    && d'.id == d.id && d'.identifier == d.identifier && d'.nErrors >= d.nErrors
    && (d'.cache.Some? && d'.cache != d.cache ==> Answers(op, d.id.deviceID, d'.cache.value))
  }

  /** What an operation may do to one device: a terminal device stays as it is;
      readiness for deletion is entered only on a cached volume without storage
      group and snapshot link; and only a deletion round that checked the device
      and deleted a range naming it makes it deleted. */
  predicate Sound(d: Device, d': Device, op: Op) {
    && SameEntry(d, d', op)
    && (Terminal(d.state) ==> d' == d)
    && (d.state != DeleteVol && d'.state == DeleteVol ==> d'.cache.Some? && Clean(d'.cache.value))
    && (d.state != Deleted && d'.state == Deleted ==> DeletedBy(d, op))
  }

  predicate DeletedBy(d: Device, op: Op) {
    && op.DeleteVolumes?
    && d.state == DeleteVol && SeenFree(d, op.delete)
    && d.id.deviceID in op.range.Members()
    && op.delete.delete(op.range.Text()) == None
  }

  lemma CleanupOneSound(d: Device, a: CleanupAnswers)
    ensures Sound(d, CleanupOne(d, a).0, CleanupSnapshots(a))
  {}

  lemma {:induction false} CleanupSound(ds: seq<Device>, i: nat, count: nat, a: CleanupAnswers, j: nat)
    requires i <= |ds| && j < |ds|
    ensures var d' := CleanupFrom(ds, i, count, a).0[j];
      d' == ds[j] || (i <= j && d' == CleanupOne(ds[j], a).0)
    decreases |ds| - i
  {
    if i == |ds| || count == MaxSnapshotsPerStep {
    } else {
      var (d, progress) := CleanupOne(ds[i], a);
      match progress
      case Stop =>
      case Counted => CleanupSound(ds[i := d], i + 1, count + 1, a, j);
      case Passed => CleanupSound(ds[i := d], i + 1, count, a, j);
    }
  }

  /** A device that joined the batch was waiting to leave its storage groups. */
  predicate Joined(d: Device, d': Device, a: RemoveAnswers) {
    && SameEntry(d, d', RemoveFromGroups(a))
    && d.state == DisAssociateSG && (d'.state == DisAssociateSG || d'.state == MaxedOut)
  }

  lemma {:induction false} PickGroupJoins(d: Device, groups: seq<string>, k: nat, a: RemoveAnswers)
    requires k <= |groups| && (d.state == DisAssociateSG || d.state == MaxedOut)
    ensures var d' := PickGroup(d, groups, k, a).0;
      && (d'.state == DisAssociateSG || d'.state == MaxedOut)
      && d'.id == d.id && d'.identifier == d.identifier && d'.nErrors >= d.nErrors && d'.cache == d.cache
      && (d.state == MaxedOut || OverBudget(d, d') ==> d'.state == MaxedOut)
    decreases |groups| - k
  {
    if k == |groups| {
    } else {
      match a.group(d.id.deviceID, k)
      case GroupFailed(msg) => PickGroupJoins(Updated(d, d.state, msg), groups, k + 1, a);
      case Group(n) => if n > 0 { PickGroupJoins(Updated(d, d.state, InMaskingView), groups, k + 1, a); }
    }
  }

  /** The errors of the device have reached the limit in this step. */
  predicate OverBudget(d: Device, d': Device) {
    d'.nErrors > d.nErrors && d'.nErrors >= MaxErrorCount
  }

  lemma RemoveOneSound(d: Device, sg: string, a: RemoveAnswers)
    ensures var (d', _, joins) := RemoveOne(d, sg, a);
      && Sound(d, d', RemoveFromGroups(a))
      && (joins ==> Joined(d, d', a))
      && (OverBudget(d, d') ==> d'.state == MaxedOut)
  {
    if d.state == DisAssociateSG {
      var (d1, answer) := Refreshed(d, a.stale(d.id.deviceID), false, a.fetch(d.id.deviceID));
      if answer.Found? { PickGroupJoins(d1, answer.volume.storageGroups, 0, a); }
    }
  }

  ghost predicate BatchSound(ds: seq<Device>, b: Batch, i: nat, a: RemoveAnswers) {
    && |b.ds| == |ds|
    && (forall j :: 0 <= j < |ds| ==> Sound(ds[j], b.ds[j], RemoveFromGroups(a)))
    && (forall j :: i <= j < |ds| ==> b.ds[j] == ds[j] && ds[j].id.deviceID !in b.ids)
    && (forall j :: 0 <= j < |ds| && ds[j].id.deviceID in b.ids ==> Joined(ds[j], b.ds[j], a))
    && (forall j :: 0 <= j < |ds| && OverBudget(ds[j], b.ds[j]) ==> b.ds[j].state == MaxedOut)
  }

  lemma {:induction false} RemoveFromSound(ds: seq<Device>, b: Batch, i: nat, a: RemoveAnswers)
    requires DistinctIDs(ds) && i <= |b.ds| && BatchSound(ds, b, i, a)
    ensures BatchSound(ds, RemoveFrom(b, i, a), |ds|, a)
    decreases |b.ds| - i
  {
    if i == |b.ds| || |b.ids| == MaxRequestsPerStep {
    } else {
      RemoveOneSound(ds[i], b.sg, a);
      RemoveFromSound(ds, RemoveStep(b, i, a), i + 1, a);
    }
  }

  lemma RefreshOneSound(d: Device, d1: Device, msg: string, a: RemoveAnswers)
    requires Joined(d, d1, a)
    ensures Sound(d, RefreshOne(d1, msg, a), RemoveFromGroups(a))
  {}

  lemma RemoveSound(ds: seq<Device>, a: RemoveAnswers, j: nat)
    requires DistinctIDs(ds) && j < |ds|
    ensures Sound(ds[j], Remove(ds, a).0[j], RemoveFromGroups(a))
  {
    var b := RemoveFrom(Batch(ds, "", []), 0, a);
    RemoveFromSound(ds, Batch(ds, "", []), 0, a);
    if ds[j].id.deviceID in b.ids && a.removal(b.sg, b.ids).Tried? {
      RefreshOneSound(ds[j], b.ds[j], a.removal(b.sg, b.ids).msg, a);
    }
  }

  lemma OutcomeSound(d: Device, a: DeleteAnswers, range: DeviceRange)
    ensures Sound(d, CheckOne(d, a), DeleteVolumes(a, range))
    ensures Passes(d, a) && d.id.deviceID in range.Members() ==>
      Sound(d, Outcome(CheckOne(d, a), a.delete(range.Text())), DeleteVolumes(a, range))
  {}

  lemma DeleteSound(ds: seq<Device>, a: DeleteAnswers, range: DeviceRange, j: nat)
    requires DistinctIDs(ds) && AllCanonical(ds) && RangeOK(ds, a, range) && j < |ds|
    ensures |DeleteRound(ds, a, range)| == |ds|
    ensures Sound(ds[j], DeleteRound(ds, a, range)[j], DeleteVolumes(a, range))
  {
    RoundOutcome(ds, a, range, j);
    OutcomeSound(ds[j], a, range);
    if range.Covers(ds[j].id.intVal) { CoveredIsMember(range, ds[j].id.intVal); }
    assert CanonicalID(ds[j].id);
  }

  /** Steps other than pruning keep every queued device in its place. */
  lemma StepKeepsPlaces(ds: seq<Device>, op: Op, j: nat)
    requires DistinctIDs(ds) && AllCanonical(ds) && OpOK(ds, op) && !op.Prune? && j < |ds|
    ensures |Apply(ds, op)| >= |ds| && Sound(ds[j], Apply(ds, op)[j], op)
  {
    match op
    case Enqueue(_, _, _) =>
    case CleanupSnapshots(a) =>
      CleanupSound(ds, 0, 0, a, j);
      CleanupOneSound(ds[j], a);
    case RemoveFromGroups(a) => RemoveSound(ds, a, j);
    case DeleteVolumes(a, range) => DeleteSound(ds, a, range, j);
  }

  /** What each operation does to each queued device, by what the array answered. */
  lemma StepExactly(ds: seq<Device>, op: Op, i: nat)
    requires DistinctIDs(ds) && AllCanonical(ds) && OpOK(ds, op) && !op.Prune? && i < |ds|
    ensures |Apply(ds, op)| >= |ds|
    ensures var d' := Apply(ds, op)[i];
      match op
      case Enqueue(_, _, _) => d' == ds[i]
      case CleanupSnapshots(a) => if Reached(ds, i, a) then CleanedUp(ds[i], d', a) else d' == ds[i]
      case RemoveFromGroups(a) => Removed(ds, i, d', a)
      case DeleteVolumes(a, range) => Settled(ds[i], d', range, a)
      case Prune => true
  {
    match op
    case Enqueue(_, _, _) =>
    case CleanupSnapshots(a) => CleanupExactly(ds, a, i);
    case RemoveFromGroups(a) => RemoveExactly(ds, a, i);
    case DeleteVolumes(a, range) => RoundExactly(ds, a, range, i);
  }

  /** Deleted, maxedOut and skipDelete are left only by pruning. */
  lemma TerminalUntilPruned(ds: seq<Device>, op: Op, j: nat)
    requires DistinctIDs(ds) && AllCanonical(ds) && OpOK(ds, op) && !op.Prune?
    requires j < |ds| && Terminal(ds[j].state)
    ensures j < |Apply(ds, op)| && Apply(ds, op)[j] == ds[j]
  {
    StepKeepsPlaces(ds, op, j);
  }

  lemma {:induction false} PrunedMembers(ds: seq<Device>)
    ensures forall d :: d in Pruned(ds) <==>
      d in ds && (d.state == DisAssociateSG || d.state == CleanupSnaps || d.state == DeleteVol)
    ensures DistinctIDs(ds) ==> DistinctIDs(Pruned(ds))
  {
    if ds == [] {
    } else {
      var init, last := ds[..|ds| - 1], ds[|ds| - 1];
      PrunedMembers(init);
      assert ds == init + [last];
      var kept := Pruned(init);
      if DistinctIDs(ds) {
        forall i | 0 <= i < |kept| ensures kept[i].id.deviceID != last.id.deviceID {
          assert kept[i] in init;
        }
      }
    }
  }

  /** Pruning keeps the order: the survivors of a list are those of any front
      part followed by those of the rest. */
  lemma {:induction false} PruningKeepsOrder(front: seq<Device>, rest: seq<Device>)
    ensures Pruned(front + rest) == Pruned(front) + Pruned(rest)
  {
    if rest == [] {
      assert front + rest == front;
    } else {
      var init, last := rest[..|rest| - 1], rest[|rest| - 1];
      assert rest == init + [last];
      PruningKeepsOrder(front, init);
      PruneLast(front, init, last);
    }
  }

  lemma PruneLast(front: seq<Device>, init: seq<Device>, last: Device)
    requires Pruned(front + init) == Pruned(front) + Pruned(init)
    ensures Pruned(front + (init + [last])) == Pruned(front) + Pruned(init + [last])
  {
    PrunedSnoc(front + init, last);
    PrunedSnoc(init, last);
    Regroup(front, init, [last]);
    Regroup(Pruned(front), Pruned(init), Kept(last));
  }

  /** Where a device of the new list comes from: its old entry, or the request
      just queued. */
  lemma Origin(ds: seq<Device>, op: Op, d': Device) returns (j: int)
    requires DistinctIDs(ds) && AllCanonical(ds) && OpOK(ds, op) && d' in Apply(ds, op)
    ensures -1 <= j < |ds|
    ensures j == -1 ==> op.Enqueue? && d' == NewDevice(op.id, op.handle, op.volume) && !Listed(ds, op.id.deviceID)
    ensures j >= 0 ==> Sound(ds[j], d', op)
  {
    j := -1;
    if op.Prune? {
      PrunedMembers(ds);
      j :| 0 <= j < |ds| && ds[j] == d';
    } else {
      var ds' := Apply(ds, op);
      var i :| 0 <= i < |ds'| && ds'[i] == d';
      if i < |ds| {
        j := i;
        StepKeepsPlaces(ds, op, i);
      } else {
        LengthKept(ds, op);
      }
    }
  }

  lemma LengthKept(ds: seq<Device>, op: Op)
    requires !op.Prune?
    ensures !op.Enqueue? ==> |Apply(ds, op)| == |ds|
    ensures op.Enqueue? ==>
      Apply(ds, op) == if Listed(ds, op.id.deviceID) then ds else ds + [NewDevice(op.id, op.handle, op.volume)]
  {
    if op.DeleteVolumes? { RoundKeepsIDs(ds, op.delete, op.range); }
  }

  lemma StepKeepsQueue(ds: seq<Device>, op: Op)
    requires DistinctIDs(ds) && AllCanonical(ds) && OpOK(ds, op)
    ensures DistinctIDs(Apply(ds, op)) && AllCanonical(Apply(ds, op))
  {
    var ds' := Apply(ds, op);
    forall i | 0 <= i < |ds'| ensures CanonicalID(ds'[i].id) {
      var j := Origin(ds, op, ds'[i]);
    }
    if op.Prune? {
      PrunedMembers(ds);
    } else {
      LengthKept(ds, op);
      forall i, j | 0 <= i < j < |ds'| ensures ds'[i].id.deviceID != ds'[j].id.deviceID {
        StepKeepsPlaces(ds, op, i);
        if j < |ds| { StepKeepsPlaces(ds, op, j); }
      }
    }
  }

  // ---- Whole runs ----

  /** The queue after a run that started with an empty queue. */
  ghost function After(ops: seq<Op>): seq<Device> {
    if ops == [] then [] else Apply(After(ops[..|ops| - 1]), ops[|ops| - 1])
  }

  /** The queue after the first n operations. */
  ghost function At(ops: seq<Op>, n: nat): seq<Device>
    requires n <= |ops|
  {
    After(ops[..n])
  }

  ghost predicate StepOK(ops: seq<Op>, k: nat)
    requires k < |ops|
  {
    OpOK(At(ops, k), ops[k])
  }

  ghost predicate RunOK(ops: seq<Op>) {
    forall k :: 0 <= k < |ops| ==> StepOK(ops, k)
  }

  lemma AtNext(ops: seq<Op>, n: nat)
    requires n < |ops|
    ensures At(ops, n + 1) == Apply(At(ops, n), ops[n])
  {
    assert ops[..n + 1][..n] == ops[..n];
  }

  /** At no moment of a run is a device queued twice. */
  lemma {:induction false} RunKeepsQueue(ops: seq<Op>, n: nat)
    requires RunOK(ops) && n <= |ops|
    ensures DistinctIDs(At(ops, n)) && AllCanonical(At(ops, n))
  {
    if n == 0 {
    } else {
      RunKeepsQueue(ops, n - 1);
      AtNext(ops, n - 1);
      assert StepOK(ops, n - 1);
      StepKeepsQueue(At(ops, n - 1), ops[n - 1]);
    }
  }

  /** Where an entry after n + 1 operations comes from. */
  lemma OriginAt(ops: seq<Op>, n: nat, d: Device) returns (j: int)
    requires RunOK(ops) && n < |ops| && d in At(ops, n + 1)
    ensures var ds, op := At(ops, n), ops[n];
      && -1 <= j < |ds|
      && (j == -1 ==>
            op.Enqueue? && d == NewDevice(op.id, op.handle, op.volume) && !Listed(ds, op.id.deviceID))
      && (j >= 0 ==> Sound(ds[j], d, op))
  {
    RunKeepsQueue(ops, n);
    AtNext(ops, n);
    assert StepOK(ops, n);
    j := Origin(At(ops, n), ops[n], d);
  }

  // ---- The life of an entry ----

  predicate HasEntry(ds: seq<Device>, id: SymDeviceID, handle: string) {
    exists j :: 0 <= j < |ds| && ds[j].id == id && ds[j].identifier == handle
  }

  predicate HasReady(ds: seq<Device>, id: SymDeviceID) {
    exists j :: 0 <= j < |ds| && ds[j].id == id && ds[j].state == DeleteVol
  }

  predicate HasCached(ds: seq<Device>, id: SymDeviceID, v: Volume) {
    exists j :: 0 <= j < |ds| && ds[j].id == id && ds[j].cache == Some(v)
  }

  /** Operation q put the entry into a queue that did not hold the device, and it
      stayed there at least until n operations were done. */
  ghost predicate Queued(ops: seq<Op>, q: nat, n: nat, id: SymDeviceID, handle: string)
    requires n <= |ops|
  {
    && q < n
    && ops[q].Enqueue? && ops[q].id == id && ops[q].handle == handle
    && !Listed(At(ops, q), id.deviceID)
    && forall i :: q < i <= n ==> HasEntry(At(ops, i), id, handle)
  }

  /** Operation m made the device ready for deletion, and it stayed so at least
      until n operations were done. */
  ghost predicate Readied(ops: seq<Op>, m: nat, n: nat, id: SymDeviceID)
    requires n <= |ops|
  {
    && m < n
    && !HasReady(At(ops, m), id)
    && forall i :: m < i <= n ==> HasReady(At(ops, i), id)
  }

  /** Operation m went by a volume outside every storage group and snapshot link,
      which operation o was told by the array. */
  ghost predicate SeenClean(ops: seq<Op>, o: nat, m: nat, id: SymDeviceID)
    requires o <= m < |ops|
  {
    exists v :: Answers(ops[o], id.deviceID, v) && Clean(v) && HasCached(At(ops, m + 1), id, v)
  }

  /** The entry was queued by q, the array's answer to o showed its volume free, m
      went by that and made it ready, and it was ready from then on. */
  ghost predicate BecameReady(ops: seq<Op>, n: nat, d: Device, q: nat, o: nat, m: nat)
    requires n <= |ops|
  {
    && q <= o <= m < n
    && Queued(ops, q, n, d.id, d.identifier)
    && SeenClean(ops, o, m, d.id)
    && Readied(ops, m, n, d.id)
  }

  /** Operation k deleted the entry's volume on the array, in a round that checked
      it, and the entry has been in the queue, marked deleted, ever since. */
  ghost predicate DeletedAt(ops: seq<Op>, k: nat, n: nat, d: Device)
    requires n <= |ops|
  {
    && k < n
    && (exists e :: e in At(ops, k) && e.id == d.id && e.identifier == d.identifier && DeletedBy(e, ops[k]))
    && forall i :: k < i <= n ==> d in At(ops, i)
  }

  lemma QueuedLonger(ops: seq<Op>, q: nat, n: nat, id: SymDeviceID, handle: string)
    requires n < |ops| && Queued(ops, q, n, id, handle) && HasEntry(At(ops, n + 1), id, handle)
    ensures Queued(ops, q, n + 1, id, handle)
  {}

  lemma ReadiedLonger(ops: seq<Op>, m: nat, n: nat, id: SymDeviceID)
    requires n < |ops| && Readied(ops, m, n, id) && HasReady(At(ops, n + 1), id)
    ensures Readied(ops, m, n + 1, id)
  {}

  lemma EntryShows(ds: seq<Device>, d: Device)
    requires d in ds
    ensures HasEntry(ds, d.id, d.identifier)
    ensures d.state == DeleteVol ==> HasReady(ds, d.id)
    ensures d.cache.Some? ==> HasCached(ds, d.id, d.cache.value)
  {}

  lemma ReadyLonger(ops: seq<Op>, n: nat, d: Device, d': Device, q: nat, o: nat, m: nat)
    requires n < |ops| && BecameReady(ops, n, d, q, o, m) && d'.id == d.id && d'.identifier == d.identifier
    requires HasEntry(At(ops, n + 1), d.id, d.identifier) && HasReady(At(ops, n + 1), d.id)
    ensures BecameReady(ops, n + 1, d', q, o, m)
  {
    QueuedLonger(ops, q, n, d.id, d.identifier);
    ReadiedLonger(ops, m, n, d.id);
  }

  /** Every entry was put into the queue once and stayed, and the volume in its
      cache is an answer the array gave since. */
  lemma {:induction false} EntryLife(ops: seq<Op>, n: nat, d: Device) returns (q: nat, c: nat)
    requires RunOK(ops) && n <= |ops| && d in At(ops, n)
    ensures Queued(ops, q, n, d.id, d.identifier)
    ensures d.cache.Some? ==> q <= c < n && Answers(ops[c], d.id.deviceID, d.cache.value)
  {
    if n == 0 {
      assert false;
    } else {
      var j := OriginAt(ops, n - 1, d);
      assert HasEntry(At(ops, n), d.id, d.identifier);
      if j == -1 {
        q, c := n - 1, n - 1;
      } else {
        var e := At(ops, n - 1)[j];
        q, c := EntryLife(ops, n - 1, e);
        QueuedLonger(ops, q, n - 1, d.id, d.identifier);
        if d.cache != e.cache { c := n - 1; }
      }
    }
  }

  lemma NotReadyBefore(ds: seq<Device>, id: SymDeviceID, j: int)
    requires DistinctIDs(ds) && -1 <= j < |ds|
    requires j == -1 ==> !Listed(ds, id.deviceID)
    requires j >= 0 ==> ds[j].id == id && ds[j].state != DeleteVol
    ensures !HasReady(ds, id)
  {}

  lemma ReadyNow(ops: seq<Op>, n: nat, d: Device, q: nat, o: nat)
    requires n < |ops| && d in At(ops, n + 1) && d.state == DeleteVol && !HasReady(At(ops, n), d.id)
    requires Queued(ops, q, n + 1, d.id, d.identifier) && q <= o <= n
    requires d.cache.Some? && Clean(d.cache.value) && Answers(ops[o], d.id.deviceID, d.cache.value)
    ensures BecameReady(ops, n + 1, d, q, o, n)
  {
    EntryShows(At(ops, n + 1), d);
    assert SeenClean(ops, o, n, d.id);
  }

  lemma ReadiedByLast(ops: seq<Op>, n: nat, d: Device, j: int) returns (q: nat, o: nat)
    requires RunOK(ops) && n < |ops| && d in At(ops, n + 1) && d.state == DeleteVol && -1 <= j < |At(ops, n)|
    requires d.cache.Some? && Clean(d.cache.value)
    requires j == -1 ==> !Listed(At(ops, n), d.id.deviceID)
    requires j >= 0 ==> At(ops, n)[j].id == d.id && At(ops, n)[j].state != DeleteVol
    ensures BecameReady(ops, n + 1, d, q, o, n)
  {
    q, o := EntryLife(ops, n + 1, d);
    RunKeepsQueue(ops, n);
    NotReadyBefore(At(ops, n), d.id, j);
    ReadyNow(ops, n, d, q, o);
  }

  /** In every run a device is ready for deletion only if, since it was queued, the
      array showed its volume free of storage groups and snapshot links. */
  lemma {:induction false} ReadyMeansObserved(ops: seq<Op>, n: nat, d: Device)
    requires RunOK(ops) && n <= |ops| && d in At(ops, n) && d.state == DeleteVol
    ensures exists q, o, m :: BecameReady(ops, n, d, q, o, m)
  {
    if n == 0 {
      assert false;
    } else {
      var j := OriginAt(ops, n - 1, d);
      var ds := At(ops, n - 1);
      if j >= 0 && ds[j].state == DeleteVol {
        ReadyMeansObserved(ops, n - 1, ds[j]);
        var q, o, m :| BecameReady(ops, n - 1, ds[j], q, o, m);
        EntryShows(At(ops, n), d);
        ReadyLonger(ops, n - 1, ds[j], d, q, o, m);
      } else {
        var q, o := ReadiedByLast(ops, n - 1, d, j);
        assert BecameReady(ops, n, d, q, o, n - 1);
      }
    }
  }

  lemma DeletedLonger(ops: seq<Op>, k: nat, n: nat, d: Device)
    requires n < |ops| && DeletedAt(ops, k, n, d) && d in At(ops, n + 1)
    ensures DeletedAt(ops, k, n + 1, d)
  {}

  lemma DeletedNow(ops: seq<Op>, n: nat, d: Device, j: nat)
    requires n < |ops| && d in At(ops, n + 1) && j < |At(ops, n)|
    requires var e := At(ops, n)[j]; e.id == d.id && e.identifier == d.identifier && DeletedBy(e, ops[n])
    ensures DeletedAt(ops, n, n + 1, d)
  {
    assert At(ops, n)[j] in At(ops, n);
  }

  /** In every run an entry is marked deleted only if the run deleted its volume on
      the array while it was queued, in a round that checked it. */
  lemma {:induction false} DeletedMeansDeleted(ops: seq<Op>, n: nat, d: Device)
    requires RunOK(ops) && n <= |ops| && d in At(ops, n) && d.state == Deleted
    ensures exists k: nat :: DeletedAt(ops, k, n, d)
  {
    if n == 0 {
      assert false;
    } else {
      var j := OriginAt(ops, n - 1, d);
      var e := At(ops, n - 1)[j];
      if e.state == Deleted {
        DeletedMeansDeleted(ops, n - 1, e);
        var k: nat :| DeletedAt(ops, k, n - 1, e);
        DeletedLonger(ops, k, n - 1, d);
      } else {
        DeletedNow(ops, n - 1, d, j);
      }
    }
  }

  /** The four moments in the life of an entry marked deleted: queued by q, shown by
      the array to be free when o asked, ready from m on without interruption until
      round k, which checked it and deleted its volume on the array. It has been in
      the queue all the time. */
  ghost predicate LifeOfDeleted(ops: seq<Op>, n: nat, d: Device, q: nat, o: nat, m: nat, k: nat)
    requires n <= |ops|
  {
    && k < n
    && BecameReady(ops, k, d, q, o, m)
    && DeletedAt(ops, k, n, d)
    && Queued(ops, q, n, d.id, d.identifier)
  }

  lemma QueuedToTheEnd(ops: seq<Op>, q: nat, k: nat, n: nat, d: Device)
    requires k < n <= |ops| && Queued(ops, q, k, d.id, d.identifier) && forall i :: k < i <= n ==> d in At(ops, i)
    ensures Queued(ops, q, n, d.id, d.identifier)
  {
    forall i | q < i <= n ensures HasEntry(At(ops, i), d.id, d.identifier) {
      if k < i { assert d in At(ops, i); }
    }
  }

  /** Every entry marked deleted has had such a life. */
  lemma DeletionStory(ops: seq<Op>, n: nat, d: Device)
    requires RunOK(ops) && n <= |ops| && d in At(ops, n) && d.state == Deleted
    ensures exists q: nat, o: nat, m: nat, k: nat :: LifeOfDeleted(ops, n, d, q, o, m, k)
  {
    DeletedMeansDeleted(ops, n, d);
    var k: nat :| DeletedAt(ops, k, n, d);
    var e :| e in At(ops, k) && e.id == d.id && e.identifier == d.identifier && DeletedBy(e, ops[k]);
    ReadyMeansObserved(ops, k, e);
    var q, o, m :| BecameReady(ops, k, e, q, o, m);
    QueuedToTheEnd(ops, q, k, n, d);
    assert LifeOfDeleted(ops, n, d, q, o, m, k);
  }

  // ---- The error budget ----

  /** In these two steps, a device whose errors reach the limit ends up maxed out. */
  lemma CleanupKeepsBudget(ds: seq<Device>, a: CleanupAnswers, j: nat)
    requires j < |ds| && OverBudget(ds[j], CleanupFrom(ds, 0, 0, a).0[j])
    ensures CleanupFrom(ds, 0, 0, a).0[j].state == MaxedOut
  {
    CleanupSound(ds, 0, 0, a, j);
  }

  lemma RoundBudget(d: Device, a: DeleteAnswers, err: Option<string>)
    ensures OverBudget(d, CheckOne(d, a)) ==> CheckOne(d, a).state == MaxedOut
    ensures Passes(d, a) && OverBudget(d, Outcome(CheckOne(d, a), err)) ==>
      Outcome(CheckOne(d, a), err).state == MaxedOut
  {}

  lemma DeleteKeepsBudget(ds: seq<Device>, a: DeleteAnswers, range: DeviceRange, j: nat)
    requires DistinctIDs(ds) && AllCanonical(ds) && RangeOK(ds, a, range)
    requires j < |ds| && OverBudget(ds[j], DeleteRound(ds, a, range)[j])
    ensures DeleteRound(ds, a, range)[j].state == MaxedOut
  {
    RoundOutcome(ds, a, range, j);
    RoundBudget(ds[j], a, a.delete(range.Text()));
  }

  /** The removal went through without error and the refreshed device has no
      storage group left. */
  ghost predicate LeftItsGroups(ds: seq<Device>, a: RemoveAnswers, j: nat)
    requires j < |ds|
  {
    var b := RemoveFrom(Batch(ds, "", []), 0, a);
    var id := ds[j].id.deviceID;
    && id in b.ids
    && a.removal(b.sg, b.ids) == Tried("")
    && a.refetch(id).Found? && a.refetch(id).volume.storageGroups == []
  }

  /** In the storage group step it does so unless the very same step also gets
      it out of its last group: that puts it back to work. */
  lemma RemoveBudgetExactly(ds: seq<Device>, a: RemoveAnswers, j: nat)
    requires DistinctIDs(ds) && j < |ds| && OverBudget(ds[j], Remove(ds, a).0[j])
    ensures Remove(ds, a).0[j].state == MaxedOut <==> !LeftItsGroups(ds, a, j)
  {
    RemoveFromSound(ds, Batch(ds, "", []), 0, a);
  }

  /** The volume of the example, in two storage groups. */
  const InTwoGroups := Volume("h", ["A", "B"], false, false)

  const Unreachable := RemoveAnswers(
    _ => true, _ => Failed("timeout"), (_, _) => Group(0), (_, _) => Tried(""), _ => Failed("timeout"))

  /** The first group is masked, the second is not, and the removal succeeds. */
  const Recovering := RemoveAnswers(
    _ => true, _ => Found(InTwoGroups), (_, k) => Group(if k == 0 then 1 else 0), (_, _) => Tried(""),
    _ => Found(Volume("h", [], false, false)))

  lemma RunSnoc(ops: seq<Op>, op: Op)
    requires RunOK(ops) && OpOK(After(ops), op)
    ensures RunOK(ops + [op]) && After(ops + [op]) == Apply(After(ops), op)
  {
    var more := ops + [op];
    assert more[..|ops|] == ops;
    forall k | 0 <= k < |more| ensures StepOK(more, k) {
      if k < |ops| { assert more[..k] == ops[..k] && StepOK(ops, k); }
    }
  }

  /** One device that waits to leave its groups, with k errors. */
  predicate Waits(ds: seq<Device>, id: SymDeviceID, k: nat) {
    |ds| == 1 && ds[0].id == id && ds[0].identifier == "h" && ds[0].state == DisAssociateSG && ds[0].nErrors == k
  }

  lemma OneMoreError(ds: seq<Device>, id: SymDeviceID, k: nat)
    requires Waits(ds, id, k) && k + 1 < MaxErrorCount
    ensures Waits(Remove(ds, Unreachable).0, id, k + 1)
  {
    var d := ds[0];
    var d1 := Updated(d.(cache := None), DisAssociateSG, "timeout");
    assert RemoveOne(d, "", Unreachable) == (d1, "", false);
    assert RemoveStep(Batch(ds, "", []), 0, Unreachable) == Batch([d1], "", []);
    assert RemoveFrom(Batch(ds, "", []), 0, Unreachable) == Batch([d1], "", []);
  }

  lemma {:induction false} ErrorsAddUp(id: SymDeviceID, k: nat) returns (ops: seq<Op>)
    requires CanonicalID(id) && k < MaxErrorCount
    ensures RunOK(ops) && Waits(After(ops), id, k)
  {
    if k == 0 {
      RunSnoc([], Enqueue(id, "h", InTwoGroups));
      ops := [] + [Enqueue(id, "h", InTwoGroups)];
    } else {
      ops := ErrorsAddUp(id, k - 1);
      OneMoreError(After(ops), id, k - 1);
      RunSnoc(ops, RemoveFromGroups(Unreachable));
      ops := ops + [RemoveFromGroups(Unreachable)];
    }
  }

  lemma LastError(ds: seq<Device>, id: SymDeviceID)
    requires Waits(ds, id, MaxErrorCount - 1)
    ensures Remove(ds, Recovering).0[0].state == DeleteVol && Remove(ds, Recovering).0[0].nErrors == MaxErrorCount
  {
    var d := ds[0].(cache := Some(InTwoGroups));
    var d1 := Updated(d, DisAssociateSG, InMaskingView);
    assert PickGroup(d1, ["A", "B"], 1, Recovering) == (d1, "B");
    assert PickGroup(d, ["A", "B"], 0, Recovering) == (d1, "B");
    assert RemoveOne(ds[0], "", Recovering) == (d1, "B", true);
    assert RemoveStep(Batch(ds, "", []), 0, Recovering) == Batch([d1], "B", [id.deviceID]);
    assert RemoveFrom(Batch(ds, "", []), 0, Recovering) == Batch([d1], "B", [id.deviceID]);
  }

  /** And that does happen: in some run a device has a hundred errors and is ready
      for deletion. */
  lemma BudgetIsExceeded(id: SymDeviceID)
    requires CanonicalID(id)
    ensures exists ops, d ::
      RunOK(ops) && d in After(ops) && d.id == id && d.nErrors >= MaxErrorCount && d.state == DeleteVol
  {
    var ops := ErrorsAddUp(id, MaxErrorCount - 1);
    LastError(After(ops), id);
    var last := RemoveFromGroups(Recovering);
    RunSnoc(ops, last);
    RemoveSound(After(ops), Recovering, 0);
    assert After(ops + [last])[0] in After(ops + [last]);
  }
}
