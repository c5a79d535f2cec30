/**
The per-device state machine of the deletion worker, as functions on the list
of queued devices. The array is an arbitrary environment: every question the
worker asks in one step is answered by a function of the device asked about.
*/
module DeletionSpec {
  import opened Options
  import opened DeviceRanges

  const MaxRequestsPerStep := 1000
  const MaxSnapshotsPerStep := 5
  const MaxErrorsStored := 5
  const MaxErrorCount := 100
  const FinalError := "Final error: Max error count reached, device will be removed from Deletion Queue"
  const IdentifierMismatch := "volume identifiers don't match"
  const InMaskingView := "device is in masking view, can't delete"

  datatype DeletionState = DisAssociateSG | CleanupSnaps | DeleteVol | Deleted | MaxedOut | SkipDelete

  datatype Volume = Volume(identifier: string, storageGroups: seq<string>, snapSource: bool, snapTarget: bool)

  datatype Fetch = Found(volume: Volume) | Failed(msg: string)

  datatype Device = Device(
    id: SymDeviceID, identifier: string,
    state: DeletionState, nErrors: nat, errors: seq<string>,
    cache: Option<Volume>)

  /** The empty message stands for "no error". */
  function Updated(d: Device, state: DeletionState, msg: string): Device {
    if msg == "" then d.(state := state) else
      var kept := if |d.errors| == MaxErrorsStored then d.errors[1..] else d.errors;
      if d.nErrors + 1 >= MaxErrorCount
      then d.(state := MaxedOut, nErrors := d.nErrors + 1, errors := kept + [FinalError])
      else d.(state := state, nErrors := d.nErrors + 1, errors := kept + [msg])
  }

  /** The timed cache in front of the array. */
  function Refreshed(d: Device, stale: bool, force: bool, answer: Fetch): (Device, Fetch) {
    if d.cache.None? || stale || force
    then (d.(cache := if answer.Found? then Some(answer.volume) else None), answer)
    else (d, Found(d.cache.value))
  }

  predicate Linked(v: Volume) { v.snapSource || v.snapTarget }

  // ---- Queueing ----

  function InitialState(v: Volume): DeletionState {
    if v.storageGroups != [] then DisAssociateSG
    else if Linked(v) then CleanupSnaps
    else DeleteVol
  }

  function NewDevice(id: SymDeviceID, handle: string, v: Volume): Device {
    Device(id, handle, InitialState(v), 0, [], Some(v))
  }

  predicate Listed(ds: seq<Device>, deviceID: string) {
    exists i :: 0 <= i < |ds| && ds[i].id.deviceID == deviceID
  }

  function Enqueued(ds: seq<Device>, d: Device): seq<Device> {
    if Listed(ds, d.id.deviceID) then ds else ds + [d]
  }

  // ---- Cleaning up snapshots ----

  datatype CleanupAnswers = CleanupAnswers(
    stale: string -> bool, fetch: string -> Fetch, unlink: string -> string, refetch: string -> Fetch)

  datatype Progress = Stop | Counted | Passed

  function CleanupOne(d: Device, a: CleanupAnswers): (Device, Progress) {
    if d.state != CleanupSnaps then (d, Passed) else
      var id := d.id.deviceID;
      var (d1, answer) := Refreshed(d, a.stale(id), false, a.fetch(id));
      match answer
      case Failed(msg) => (Updated(d1, d1.state, msg), Stop)
      case Found(v) =>
        if v.identifier != d.identifier then (Updated(d1, SkipDelete, IdentifierMismatch), Passed)
        else if Linked(v) then (Refreshed(Updated(d1, d1.state, a.unlink(id)), false, true, a.refetch(id)).0, Counted)
        else if v.storageGroups == [] then (Updated(d1, DeleteVol, ""), Passed)
        else (Updated(d1, DisAssociateSG, ""), Passed)
  }

  function CleanupFrom(ds: seq<Device>, i: nat, count: nat, a: CleanupAnswers): (r: (seq<Device>, bool))
    requires i <= |ds|
    ensures |r.0| == |ds|
    decreases |ds| - i
  {
    if i == |ds| || count == MaxSnapshotsPerStep then (ds, count > 0) else
      var (d, progress) := CleanupOne(ds[i], a);
      match progress
      case Stop => (ds[i := d], false)
      case Counted => CleanupFrom(ds[i := d], i + 1, count + 1, a)
      case Passed => CleanupFrom(ds[i := d], i + 1, count, a)
  }

  // ---- Removing volumes from a storage group ----

  datatype GroupAnswer = GroupFailed(msg: string) | Group(maskingViews: int)

  /** Abandoned: one of the early returns before the removal; Tried: the removal
      was attempted, with its error message. */
  datatype Removal = Abandoned(updated: bool) | Tried(msg: string)

  datatype RemoveAnswers = RemoveAnswers(
    stale: string -> bool, fetch: string -> Fetch, group: (string, nat) -> GroupAnswer,
    removal: (string, seq<string>) -> Removal, refetch: string -> Fetch)

  /** The first storage group outside every masking view; each one passed over
      costs the device an error. */
  function PickGroup(d: Device, groups: seq<string>, k: nat, a: RemoveAnswers): (Device, string)
    requires k <= |groups|
    decreases |groups| - k
  {
    if k == |groups| then (d, "") else
      match a.group(d.id.deviceID, k)
      case GroupFailed(msg) => PickGroup(Updated(d, d.state, msg), groups, k + 1, a)
      case Group(n) =>
        if n > 0 then PickGroup(Updated(d, d.state, InMaskingView), groups, k + 1, a) else (d, groups[k])
  }

  /** The device afterwards, the storage group of the batch, and whether the
      device joins the batch. */
  function RemoveOne(d: Device, sg: string, a: RemoveAnswers): (Device, string, bool) {
    if d.state != DisAssociateSG then (d, sg, false) else
      var id := d.id.deviceID;
      var (d1, answer) := Refreshed(d, a.stale(id), false, a.fetch(id));
      match answer
      case Failed(msg) => (Updated(d1, d1.state, msg), sg, false)
      case Found(v) =>
        if v.identifier != d.identifier then (Updated(d1, SkipDelete, IdentifierMismatch), sg, false)
        else if v.storageGroups == [] then (Updated(d1, if Linked(v) then CleanupSnaps else DeleteVol, ""), sg, false)
        else if sg == "" then
          var (d2, picked) := PickGroup(d1, v.storageGroups, 0, a);
          (d2, picked, picked != "")
        else (d1, sg, sg in v.storageGroups)
  }

  datatype Batch = Batch(ds: seq<Device>, sg: string, ids: seq<string>)

  function RemoveStep(b: Batch, i: nat, a: RemoveAnswers): Batch
    requires i < |b.ds|
  {
    var (d, sg, joins) := RemoveOne(b.ds[i], b.sg, a);
    Batch(b.ds[i := d], sg, if joins then b.ids + [b.ds[i].id.deviceID] else b.ids)
  }

  function RemoveFrom(b: Batch, i: nat, a: RemoveAnswers): (r: Batch)
    requires i <= |b.ds|
    ensures |r.ds| == |b.ds|
    decreases |b.ds| - i
  {
    if i == |b.ds| || |b.ids| == MaxRequestsPerStep then b else RemoveFrom(RemoveStep(b, i, a), i + 1, a)
  }

  ghost predicate DistinctIDs(ds: seq<Device>) {
    forall i, j :: 0 <= i < j < |ds| ==> ds[i].id.deviceID != ds[j].id.deviceID
  }

  ghost predicate BatchOK(b: Batch, i: nat)
    requires i <= |b.ds|
  {
    && (forall k :: 0 <= k < |b.ids| ==> Listed(b.ds[..i], b.ids[k]))
    && (forall k, l :: 0 <= k < l < |b.ids| ==> b.ids[k] != b.ids[l])
  }

  lemma ListedFurther(ds: seq<Device>, i: nat, more: seq<Device>, j: nat, deviceID: string)
    requires i <= j <= |more| && i <= |ds| && forall k :: 0 <= k < i ==> more[k] == ds[k]
    requires Listed(ds[..i], deviceID)
    ensures Listed(more[..j], deviceID)
  {
    var k :| 0 <= k < |ds[..i]| && ds[..i][k].id.deviceID == deviceID;
    assert more[..j][k].id.deviceID == deviceID;
  }

  lemma NotListedTwice(ds: seq<Device>, i: nat, deviceID: string)
    requires i < |ds| && DistinctIDs(ds) && Listed(ds[..i], deviceID)
    ensures deviceID != ds[i].id.deviceID
  {
    var k :| 0 <= k < |ds[..i]| && ds[..i][k].id.deviceID == deviceID;
    assert ds[k].id.deviceID == deviceID;
  }

  lemma BatchGrows(b: Batch, i: nat, a: RemoveAnswers)
    requires i < |b.ds| && DistinctIDs(b.ds) && BatchOK(b, i)
    ensures |RemoveStep(b, i, a).ds| == |b.ds| && BatchOK(RemoveStep(b, i, a), i + 1) &&
        DistinctIDs(RemoveStep(b, i, a).ds)
  {
    RemoveKeepsID(b.ds[i], b.sg, a);
    var next := RemoveStep(b, i, a);
    forall k | 0 <= k < |b.ids| ensures Listed(next.ds[..i + 1], b.ids[k]) && b.ids[k] != b.ds[i].id.deviceID {
      ListedFurther(b.ds, i, next.ds, i + 1, b.ids[k]);
      NotListedTwice(b.ds, i, b.ids[k]);
    }
    assert next.ds[..i + 1][i].id == b.ds[i].id;
  }

  lemma BatchStays(b: Batch, i: nat)
    requires i <= |b.ds| && BatchOK(b, i)
    ensures BatchOK(b, |b.ds|)
  {
    forall k | 0 <= k < |b.ids| ensures Listed(b.ds[..|b.ds|], b.ids[k]) {
      ListedFurther(b.ds, i, b.ds, |b.ds|, b.ids[k]);
    }
  }

  /** A batch names queued devices, each once. */
  lemma {:induction false} BatchIsDistinct(b: Batch, i: nat, a: RemoveAnswers)
    requires i <= |b.ds| && DistinctIDs(b.ds) && BatchOK(b, i)
    ensures |RemoveFrom(b, i, a).ds| == |b.ds| && BatchOK(RemoveFrom(b, i, a), |b.ds|)
    decreases |b.ds| - i
  {
    if i == |b.ds| || |b.ids| == MaxRequestsPerStep {
      BatchStays(b, i);
    } else {
      BatchGrows(b, i, a);
      BatchIsDistinct(RemoveStep(b, i, a), i + 1, a);
    }
  }

  lemma {:induction false} PickKeepsID(d: Device, groups: seq<string>, k: nat, a: RemoveAnswers)
    requires k <= |groups|
    ensures PickGroup(d, groups, k, a).0.id == d.id
    decreases |groups| - k
  {
    if k == |groups| {
    } else {
      match a.group(d.id.deviceID, k)
      case GroupFailed(msg) => PickKeepsID(Updated(d, d.state, msg), groups, k + 1, a);
      case Group(n) => if n > 0 { PickKeepsID(Updated(d, d.state, InMaskingView), groups, k + 1, a); }
    }
  }

  lemma RemoveKeepsID(d: Device, sg: string, a: RemoveAnswers)
    ensures RemoveOne(d, sg, a).0.id == d.id
  {
    if d.state == DisAssociateSG {
      var (d1, answer) := Refreshed(d, a.stale(d.id.deviceID), false, a.fetch(d.id.deviceID));
      if answer.Found? { PickKeepsID(d1, answer.volume.storageGroups, 0, a); }
    }
  }

  function RefreshOne(d: Device, msg: string, a: RemoveAnswers): Device {
    var (d1, answer) := Refreshed(d, false, true, a.refetch(d.id.deviceID));
    match answer
    case Failed(m) => Updated(d1, d1.state, m)
    case Found(v) =>
      Updated(d1, if v.storageGroups != [] then d1.state else if Linked(v) then CleanupSnaps else DeleteVol, msg)
  }

  function RefreshedIn(d: Device, ids: seq<string>, msg: string, a: RemoveAnswers): Device {
    if d.id.deviceID in ids then RefreshOne(d, msg, a) else d
  }

  function RefreshAll(ds: seq<Device>, ids: seq<string>, msg: string, a: RemoveAnswers): seq<Device> {
    seq(|ds|, i requires 0 <= i < |ds| => RefreshedIn(ds[i], ids, msg, a))
  }

  function Remove(ds: seq<Device>, a: RemoveAnswers): (r: (seq<Device>, bool))
    ensures |r.0| == |ds|
  {
    var b := RemoveFrom(Batch(ds, "", []), 0, a);
    if b.ids == [] then (b.ds, false) else
      match a.removal(b.sg, b.ids)
      case Abandoned(updated) => (b.ds, updated)
      case Tried(msg) => (RefreshAll(b.ds, b.ids, msg, a), true)
  }

  // ---- Deleting ----

  datatype BulkVolume = BulkVolume(identifier: string, groupCount: nat)

  /** bulk is the listing of the enhanced endpoint, empty when there is none. */
  datatype DeleteAnswers = DeleteAnswers(
    bulk: map<string, BulkVolume>, fetch: string -> Fetch, delete: string -> Option<string>)

  /** What this round observes of a device: storage groups and identifier. */
  function Observation(d: Device, a: DeleteAnswers): Option<BulkVolume> {
    if d.id.deviceID in a.bulk then Some(a.bulk[d.id.deviceID]) else
      match a.fetch(d.id.deviceID)
      case Failed(_) => None
      case Found(v) => Some(BulkVolume(v.identifier, |v.storageGroups|))
  }

  /** Seen in this round outside every storage group and under the queued identifier. */
  predicate Passes(d: Device, a: DeleteAnswers) {
    d.state == DeleteVol && Observation(d, a) == Some(BulkVolume(d.identifier, 0))
  }

  function CheckOne(d: Device, a: DeleteAnswers): Device {
    if d.state != DeleteVol then d else
      var id := d.id.deviceID;
      var d1 := if id in a.bulk then d else Refreshed(d, false, true, a.fetch(id)).0;
      match Observation(d, a)
      case None => Updated(d1, d1.state, a.fetch(id).msg)
      case Some(seen) =>
        if seen.groupCount != 0 then Updated(d1, DisAssociateSG, "")
        else if seen.identifier != d.identifier then Updated(d1, SkipDelete, IdentifierMismatch)
        else d1
  }

  function CheckAll(ds: seq<Device>, a: DeleteAnswers): seq<Device> {
    seq(|ds|, i requires 0 <= i < |ds| => CheckOne(ds[i], a))
  }

  function Eligible(ds: seq<Device>, a: DeleteAnswers): seq<SymDeviceID> {
    if ds == [] then [] else
      var last := ds[|ds| - 1];
      Eligible(ds[..|ds| - 1], a) + if Passes(last, a) then [last.id] else []
  }

  lemma EligibleSnoc(ds: seq<Device>, i: nat, a: DeleteAnswers)
    requires i < |ds|
    ensures Eligible(ds[..i + 1], a) == Eligible(ds[..i], a) + if Passes(ds[i], a) then [ds[i].id] else []
  {
    assert ds[..i + 1][..i] == ds[..i];
  }

  function Outcome(d: Device, err: Option<string>): Device {
    match err
    case Some(msg) => Updated(d, d.state, msg)
    case None => Updated(d, Deleted, "")
  }

  function Marked(d: Device, ids: seq<string>, err: Option<string>): Device {
    if d.id.deviceID in ids then Outcome(d, err) else d
  }

  function MarkAll(ds: seq<Device>, ids: seq<string>, err: Option<string>): seq<Device> {
    seq(|ds|, i requires 0 <= i < |ds| => Marked(ds[i], ids, err))
  }

  /** One round, given the range that was passed to the array. */
  function DeleteRound(ds: seq<Device>, a: DeleteAnswers, range: DeviceRange): seq<Device> {
    if Eligible(ds, a) == [] then CheckAll(ds, a)
    else MarkAll(CheckAll(ds, a), range.Members(), a.delete(range.Text()))
  }

  ghost predicate RangeOK(ds: seq<Device>, a: DeleteAnswers, range: DeviceRange) {
    Eligible(ds, a) != [] ==> Chosen(Eligible(ds, a), range)
  }

  // ---- Pruning ----

  predicate Terminal(s: DeletionState) { s == Deleted || s == MaxedOut || s == SkipDelete }

  function Kept(d: Device): seq<Device> { if Terminal(d.state) then [] else [d] }

  function Pruned(ds: seq<Device>): seq<Device> {
    if ds == [] then [] else Pruned(ds[..|ds| - 1]) + Kept(ds[|ds| - 1])
  }

  lemma PrunedSnoc(ds: seq<Device>, d: Device)
    ensures Pruned(ds + [d]) == Pruned(ds) + Kept(d)
  {
    assert (ds + [d])[..|ds + [d]| - 1] == ds;
  }
}
