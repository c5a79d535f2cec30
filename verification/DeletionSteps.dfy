/** What each step of the worker does to each device, said in terms of what the
    array answered and of the positions in the queue. */
module DeletionSteps {
  import opened Options
  import Hex
  import opened Strings
  import opened DeviceRanges
  import opened DeletionSpec
  import opened DeletionRounds

  /** The device in a new state, with the message noted as one more error; the
      hundredth error is the last. */
  ghost predicate Noted(d: Device, d': Device, state: DeletionState, msg: string) {
    && d'.id == d.id && d'.identifier == d.identifier
    && if msg == "" then d'.state == state && d'.nErrors == d.nErrors && d'.errors == d.errors
       else
         var last := d.nErrors + 1 >= 100;
         && d'.nErrors == d.nErrors + 1 && d'.errors != []
         && d'.errors[|d'.errors| - 1] == (if last then FinalError else msg)
         && d'.state == if last then MaxedOut else state
  }

  /** The volume a step goes by: the one in the cache, unless that is stale. */
  function Known(d: Device, stale: string -> bool, fetch: string -> Fetch): Fetch {
    if d.cache.Some? && !stale(d.id.deviceID) then Found(d.cache.value) else fetch(d.id.deviceID)
  }

  function Cached(answer: Fetch): Option<Volume> {
    match answer
    case Found(v) => Some(v)
    case Failed(_) => None
  }

  // ---- The messages a device remembers ----

  datatype Update = Update(state: DeletionState, msg: string)

  function UpdatedBy(d: Device, updates: seq<Update>): Device {
    if updates == [] then d else
      var last := updates[|updates| - 1];
      Updated(UpdatedBy(d, updates[..|updates| - 1]), last.state, last.msg)
  }

  /** Every message as it is written down. */
  function Messages(updates: seq<Update>): seq<string> {
    seq(|updates|, i requires 0 <= i < |updates| => if i < 99 then updates[i].msg else FinalError)
  }

  function LastFive(msgs: seq<string>): seq<string> {
    if |msgs| <= 5 then msgs else msgs[|msgs| - 5..]
  }

  lemma LastFiveSnoc(msgs: seq<string>, m: string)
    ensures var kept := LastFive(msgs);
      LastFive(msgs + [m]) == (if |kept| == 5 then kept[1..] else kept) + [m]
  {}

  /** After any number of errors a new device has them counted, holds the last five
      messages, and is maxed out exactly from the hundredth on. */
  lemma {:induction false} ErrorsAreRemembered(d: Device, updates: seq<Update>)
    requires d.nErrors == 0 && d.errors == [] && forall i :: 0 <= i < |updates| ==> updates[i].msg != ""
    ensures var d' := UpdatedBy(d, updates);
      && d'.nErrors == |updates| && d'.errors == LastFive(Messages(updates))
      && (updates != [] ==> d'.state == if |updates| >= 100 then MaxedOut else updates[|updates| - 1].state)
  {
    if updates == [] {
    } else {
      var n := |updates| - 1;
      ErrorsAreRemembered(d, updates[..n]);
      var m := if n < 99 then updates[n].msg else FinalError;
      assert Messages(updates) == Messages(updates[..n]) + [m];
      LastFiveSnoc(Messages(updates[..n]), m);
    }
  }

  /** A device is queued with the volume it was requested with, without errors, in
      the state that volume calls for. */
  lemma QueuedAsItStands(id: SymDeviceID, handle: string, v: Volume)
    ensures var d := NewDevice(id, handle, v);
      && d.id == id && d.identifier == handle && d.nErrors == 0 && d.errors == [] && d.cache == Some(v)
      && (d.state == DisAssociateSG <==> v.storageGroups != [])
      && (d.state == CleanupSnaps <==> v.storageGroups == [] && (v.snapSource || v.snapTarget))
      && (d.state == DeleteVol <==> v.storageGroups == [] && !v.snapSource && !v.snapTarget)
  {}

  // ---- Cleaning up snapshots ----

  predicate LookupFails(d: Device, a: CleanupAnswers) {
    d.state == CleanupSnaps && Known(d, a.stale, a.fetch).Failed?
  }

  predicate IsUnlinked(d: Device, a: CleanupAnswers) {
    && d.state == CleanupSnaps
    && match Known(d, a.stale, a.fetch)
       case Failed(_) => false
       case Found(v) => v.identifier == d.identifier && (v.snapSource || v.snapTarget)
  }

  function UnlinkedBefore(ds: seq<Device>, i: nat, a: CleanupAnswers): set<nat>
    requires i <= |ds|
  {
    set j: nat | j < i && IsUnlinked(ds[j], a)
  }

  /** The step gets to a device unless a lookup before it failed or five devices
      before it were unlinked. */
  ghost predicate Reached(ds: seq<Device>, i: nat, a: CleanupAnswers)
    requires i <= |ds|
  {
    (forall j :: 0 <= j < i ==> !LookupFails(ds[j], a)) && |UnlinkedBefore(ds, i, a)| < 5
  }

  /** What becomes of a device the step gets to. */
  ghost predicate CleanedUp(d: Device, d': Device, a: CleanupAnswers) {
    var id := d.id.deviceID;
    if d.state != CleanupSnaps then d' == d else
      match Known(d, a.stale, a.fetch)
      case Failed(msg) => Noted(d, d', CleanupSnaps, msg) && d'.cache == None
      case Found(v) =>
        if v.identifier != d.identifier then Noted(d, d', SkipDelete, IdentifierMismatch) && d'.cache == Some(v)
        else if v.snapSource || v.snapTarget then
          Noted(d, d', CleanupSnaps, a.unlink(id)) && d'.cache == Cached(a.refetch(id))
        else
          Noted(d, d', if v.storageGroups == [] then DeleteVol else DisAssociateSG, "") && d'.cache == Some(v)
  }

  lemma CleanupOneExactly(d: Device, a: CleanupAnswers)
    ensures CleanedUp(d, CleanupOne(d, a).0, a)
    ensures CleanupOne(d, a).1 == if LookupFails(d, a) then Stop else if IsUnlinked(d, a) then Counted else Passed
  {}

  lemma UnlinkedNext(ds: seq<Device>, i: nat, a: CleanupAnswers)
    requires i < |ds|
    ensures |UnlinkedBefore(ds, i + 1, a)| == |UnlinkedBefore(ds, i, a)| + if IsUnlinked(ds[i], a) then 1 else 0
  {
    assert UnlinkedBefore(ds, i + 1, a) == UnlinkedBefore(ds, i, a) + if IsUnlinked(ds[i], a) then {i} else {};
  }

  lemma {:induction false} UnlinkedGrows(ds: seq<Device>, i: nat, j: nat, a: CleanupAnswers)
    requires i <= j <= |ds|
    ensures |UnlinkedBefore(ds, i, a)| <= |UnlinkedBefore(ds, j, a)|
  {
    if i < j {
      UnlinkedGrows(ds, i, j - 1, a);
      UnlinkedNext(ds, j - 1, a);
    }
  }

  /** The loop has come to device i, and was not stopped. */
  ghost predicate CleanupAt(ds: seq<Device>, now: seq<Device>, i: nat, count: nat, a: CleanupAnswers) {
    && i <= |ds| == |now|
    && (forall k :: i <= k < |ds| ==> now[k] == ds[k])
    && (forall k :: 0 <= k < i ==> !LookupFails(ds[k], a))
    && count == |UnlinkedBefore(ds, i, a)| <= 5
  }

  lemma CleanupNext(ds: seq<Device>, now: seq<Device>, i: nat, count: nat, a: CleanupAnswers)
    requires CleanupAt(ds, now, i, count, a) && i < |ds| && count < 5
    ensures var (d, progress) := CleanupOne(ds[i], a);
      && (progress == Stop <==> LookupFails(ds[i], a))
      && (progress != Stop ==>
            CleanupAt(ds, now[i := d], i + 1, if progress == Counted then count + 1 else count, a))
  {
    CleanupOneExactly(ds[i], a);
    UnlinkedNext(ds, i, a);
  }

  lemma {:induction false} CleanupFromExactly(ds: seq<Device>, now: seq<Device>, i: nat, count: nat, a: CleanupAnswers,
                                              j: nat)
    requires CleanupAt(ds, now, i, count, a) && j < |ds|
    ensures var d' := CleanupFrom(now, i, count, a).0[j];
      if j < i then d' == now[j] else if Reached(ds, j, a) then CleanedUp(ds[j], d', a) else d' == ds[j]
    decreases |ds| - i
  {
    if i == |ds| {
    } else if count == 5 {
      if i <= j { UnlinkedGrows(ds, i, j, a); }
    } else {
      var (d, progress) := CleanupOne(ds[i], a);
      CleanupOneExactly(ds[i], a);
      CleanupNext(ds, now, i, count, a);
      match progress
      case Stop =>
      case Counted => CleanupFromExactly(ds, now[i := d], i + 1, count + 1, a, j);
      case Passed => CleanupFromExactly(ds, now[i := d], i + 1, count, a, j);
    }
  }

  /** The step works on exactly the devices it gets to. */
  lemma CleanupExactly(ds: seq<Device>, a: CleanupAnswers, i: nat)
    requires i < |ds|
    ensures var d' := CleanupFrom(ds, 0, 0, a).0[i];
      if Reached(ds, i, a) then CleanedUp(ds[i], d', a) else d' == ds[i]
  {
    assert UnlinkedBefore(ds, 0, a) == {};
    CleanupFromExactly(ds, ds, 0, 0, a, i);
  }

  ghost predicate StoppedAt(ds: seq<Device>, i: nat, a: CleanupAnswers)
    requires i < |ds|
  {
    Reached(ds, i, a) && LookupFails(ds[i], a)
  }

  lemma {:induction false} CleanupFromReports(ds: seq<Device>, now: seq<Device>, i: nat, count: nat, a: CleanupAnswers)
    requires CleanupAt(ds, now, i, count, a)
    ensures CleanupFrom(now, i, count, a).1 <==>
      |UnlinkedBefore(ds, |ds|, a)| > 0 && !exists j :: i <= j < |ds| && StoppedAt(ds, j, a)
    decreases |ds| - i
  {
    if i == |ds| {
    } else if count == 5 {
      UnlinkedGrows(ds, i, |ds|, a);
      forall j | i <= j < |ds| ensures !StoppedAt(ds, j, a) { UnlinkedGrows(ds, i, j, a); }
    } else {
      var (d, progress) := CleanupOne(ds[i], a);
      CleanupNext(ds, now, i, count, a);
      match progress
      case Stop => assert StoppedAt(ds, i, a);
      case Counted => CleanupFromReports(ds, now[i := d], i + 1, count + 1, a);
      case Passed => CleanupFromReports(ds, now[i := d], i + 1, count, a);
    }
  }

  /** And reports progress exactly when some device was unlinked and no lookup it
      got to failed. */
  lemma CleanupReports(ds: seq<Device>, a: CleanupAnswers)
    ensures CleanupFrom(ds, 0, 0, a).1 <==>
      (exists i :: 0 <= i < |ds| && IsUnlinked(ds[i], a)) && !exists j :: 0 <= j < |ds| && StoppedAt(ds, j, a)
  {
    assert UnlinkedBefore(ds, 0, a) == {};
    CleanupFromReports(ds, ds, 0, 0, a);
    var all := UnlinkedBefore(ds, |ds|, a);
    if i :| 0 <= i < |ds| && IsUnlinked(ds[i], a) { assert i in all; }
    if |all| > 0 { var i: nat :| i in all; }
  }

  // ---- Removing volumes from a storage group ----

  /** The array says that the k-th storage group of the device is in no masking view. */
  predicate FreeGroup(a: RemoveAnswers, id: string, k: nat) {
    a.group(id, k).Group? && a.group(id, k).maskingViews <= 0
  }

  /** What is noted about a group that is passed over. */
  function Complaint(a: RemoveAnswers, id: string, k: nat): string {
    match a.group(id, k)
    case GroupFailed(msg) => msg
    case Group(_) => InMaskingView
  }

  function Complaints(a: RemoveAnswers, id: string, k: nat, l: nat): set<nat> {
    set m: nat | k <= m < l && Complaint(a, id, m) != ""
  }

  /** The first of n groups that is free, from the k-th on, or n. */
  function FirstFree(a: RemoveAnswers, id: string, k: nat, n: nat): (l: nat)
    requires k <= n
    ensures k <= l <= n && (l < n ==> FreeGroup(a, id, l))
    ensures forall m :: k <= m < l ==> !FreeGroup(a, id, m)
    decreases n - k
  {
    if k == n || FreeGroup(a, id, k) then k else FirstFree(a, id, k + 1, n)
  }

  lemma ComplaintsFrom(a: RemoveAnswers, id: string, k: nat, l: nat)
    requires k < l
    ensures |Complaints(a, id, k, l)| == |Complaints(a, id, k + 1, l)| + if Complaint(a, id, k) != "" then 1 else 0
  {
    assert Complaints(a, id, k, l) == Complaints(a, id, k + 1, l) + if Complaint(a, id, k) != "" then {k} else {};
  }

  /** The device while a group was looked for: one error per complaint. */
  ghost predicate Searched(d: Device, d': Device, complaints: nat) {
    && d'.id == d.id && d'.identifier == d.identifier && d'.cache == d.cache
    && d'.nErrors == d.nErrors + complaints
    && d'.state == if complaints > 0 && d'.nErrors >= 100 then MaxedOut else d.state
  }

  lemma SearchedMore(d: Device, msg: string, d': Device, complaints: nat)
    requires Searched(Updated(d, d.state, msg), d', complaints)
    ensures Searched(d, d', complaints + if msg != "" then 1 else 0)
  {}

  /** The group picked is the first free one, and every one passed over is noted. */
  lemma {:induction false} PickGroupExactly(d: Device, groups: seq<string>, k: nat, a: RemoveAnswers)
    requires k <= |groups|
    ensures var l := FirstFree(a, d.id.deviceID, k, |groups|);
      var (d', sg) := PickGroup(d, groups, k, a);
      && sg == (if l < |groups| then groups[l] else "")
      && Searched(d, d', |Complaints(a, d.id.deviceID, k, l)|)
    decreases |groups| - k
  {
    var id := d.id.deviceID;
    var l := FirstFree(a, id, k, |groups|);
    if l == k {
      assert Complaints(a, id, k, l) == {};
    } else {
      var d1 := Updated(d, d.state, Complaint(a, id, k));
      PickGroupExactly(d1, groups, k + 1, a);
      ComplaintsFrom(a, id, k, l);
      SearchedMore(d, Complaint(a, id, k), PickGroup(d1, groups, k + 1, a).0, |Complaints(a, id, k + 1, l)|);
    }
  }

  /** The volume the step goes by, if the device waits to leave its storage groups. */
  predicate Waits(d: Device, a: RemoveAnswers) {
    && d.state == DisAssociateSG
    && match Known(d, a.stale, a.fetch)
       case Failed(_) => false
       case Found(v) => v.identifier == d.identifier && v.storageGroups != []
  }

  predicate Holds(d: Device, sg: string, a: RemoveAnswers) {
    Waits(d, a) && sg in Known(d, a.stale, a.fetch).volume.storageGroups
  }

  /** The device is in the group, and the array says that is in no masking view. */
  predicate HoldsFree(d: Device, sg: string, a: RemoveAnswers) {
    && Waits(d, a)
    && var groups := Known(d, a.stale, a.fetch).volume.storageGroups;
       exists k :: 0 <= k < |groups| && groups[k] == sg && FreeGroup(a, d.id.deviceID, k)
  }

  /** The first storage group of the device outside every masking view. */
  function Offered(d: Device, a: RemoveAnswers): (sg: string)
    ensures sg != "" ==> Holds(d, sg, a) && HoldsFree(d, sg, a)
  {
    if !Waits(d, a) then "" else
      var groups := Known(d, a.stale, a.fetch).volume.storageGroups;
      var l := FirstFree(a, d.id.deviceID, 0, |groups|);
      if l < |groups| then groups[l] else ""
  }

  /** What becomes of a device while the batch is gathered. */
  ghost predicate Examined(d: Device, d': Device, searching: bool, a: RemoveAnswers) {
    if d.state != DisAssociateSG then d' == d else
      match Known(d, a.stale, a.fetch)
      case Failed(msg) => Noted(d, d', DisAssociateSG, msg) && d'.cache == None
      case Found(v) =>
        if v.identifier != d.identifier then Noted(d, d', SkipDelete, IdentifierMismatch) && d'.cache == Some(v)
        else if v.storageGroups == [] then
          && Noted(d, d', if v.snapSource || v.snapTarget then CleanupSnaps else DeleteVol, "")
          && d'.cache == Some(v)
        else if !searching then d' == d.(cache := Some(v))
        else
          var l := FirstFree(a, d.id.deviceID, 0, |v.storageGroups|);
          Searched(d.(cache := Some(v)), d', |Complaints(a, d.id.deviceID, 0, l)|)
  }

  lemma RemoveOneExactly(d: Device, sg: string, a: RemoveAnswers)
    ensures var (d', sg', joins) := RemoveOne(d, sg, a);
      && Examined(d, d', sg == "", a)
      && sg' == (if sg == "" then Offered(d, a) else sg)
      && (joins <==> if sg == "" then Offered(d, a) != "" else Holds(d, sg, a))
  {
    if Waits(d, a) {
      var v := Known(d, a.stale, a.fetch).volume;
      PickGroupExactly(d.(cache := Some(v)), v.storageGroups, 0, a);
    }
  }

  /** The first device, from the k-th on, that offers a group. */
  function FirstOffer(ds: seq<Device>, k: nat, a: RemoveAnswers): (p: nat)
    requires k <= |ds|
    ensures k <= p <= |ds| && (p < |ds| ==> Offered(ds[p], a) != "")
    ensures forall j :: k <= j < p ==> Offered(ds[j], a) == ""
    decreases |ds| - k
  {
    if k == |ds| || Offered(ds[k], a) != "" then k else FirstOffer(ds, k + 1, a)
  }

  /** The group of the batch; there is none if no device offers one. */
  function GroupOf(ds: seq<Device>, a: RemoveAnswers): string {
    var p := FirstOffer(ds, 0, a);
    if p < |ds| then Offered(ds[p], a) else ""
  }

  /** The devices before the i-th that hold the group of the batch, from the one
      that offered it on. */
  function HoldersBefore(ds: seq<Device>, i: nat, a: RemoveAnswers): set<nat>
    requires i <= |ds|
  {
    HoldersOf(ds, FirstOffer(ds, 0, a), i, GroupOf(ds, a), a)
  }

  function HoldersOf(ds: seq<Device>, p: nat, i: nat, sg: string, a: RemoveAnswers): set<nat>
    requires i <= |ds|
  {
    set j: nat | p <= j < i && Holds(ds[j], sg, a)
  }

  lemma HoldersOfNext(ds: seq<Device>, p: nat, i: nat, sg: string, a: RemoveAnswers)
    requires i < |ds|
    ensures |HoldersOf(ds, p, i + 1, sg, a)| == |HoldersOf(ds, p, i, sg, a)| +
      if p <= i && Holds(ds[i], sg, a) then 1 else 0
  {
    var more := if p <= i && Holds(ds[i], sg, a) then {i} else {};
    assert HoldersOf(ds, p, i + 1, sg, a) == HoldersOf(ds, p, i, sg, a) + more;
  }

  lemma HoldersNext(ds: seq<Device>, i: nat, a: RemoveAnswers)
    requires i < |ds|
    ensures |HoldersBefore(ds, i + 1, a)| == |HoldersBefore(ds, i, a)| +
      if FirstOffer(ds, 0, a) <= i && Holds(ds[i], GroupOf(ds, a), a) then 1 else 0
  {
    HoldersOfNext(ds, FirstOffer(ds, 0, a), i, GroupOf(ds, a), a);
  }

  lemma {:induction false} HoldersGrow(ds: seq<Device>, i: nat, j: nat, a: RemoveAnswers)
    requires i <= j <= |ds|
    ensures |HoldersBefore(ds, i, a)| <= |HoldersBefore(ds, j, a)|
  {
    if i < j {
      HoldersGrow(ds, i, j - 1, a);
      HoldersNext(ds, j - 1, a);
    }
  }

  /** The batch is full when it comes to a thousand devices. */
  predicate Gets(ds: seq<Device>, i: nat, a: RemoveAnswers)
    requires i < |ds|
  {
    |HoldersBefore(ds, i, a)| < 1000
  }

  predicate Joins(ds: seq<Device>, i: nat, a: RemoveAnswers)
    requires i < |ds|
  {
    FirstOffer(ds, 0, a) <= i && Holds(ds[i], GroupOf(ds, a), a) && Gets(ds, i, a)
  }

  /** The loop has come to device i. */
  ghost predicate BatchAt(ds: seq<Device>, b: Batch, i: nat, a: RemoveAnswers) {
    && i <= |ds| == |b.ds|
    && b.sg == (if i <= FirstOffer(ds, 0, a) then "" else GroupOf(ds, a))
    && |b.ids| == |HoldersBefore(ds, i, a)| <= 1000
    && (forall j :: i <= j < |ds| ==> b.ds[j] == ds[j] && ds[j].id.deviceID !in b.ids)
    && (forall j :: 0 <= j < i ==> MemberAt(ds, b, j, a))
  }

  ghost predicate MemberAt(ds: seq<Device>, b: Batch, j: nat, a: RemoveAnswers)
    requires j < |ds| == |b.ds|
  {
    && Gets(ds, j, a)
    && Examined(ds[j], b.ds[j], j <= FirstOffer(ds, 0, a), a)
    && (ds[j].id.deviceID in b.ids <==> FirstOffer(ds, 0, a) <= j && Holds(ds[j], GroupOf(ds, a), a))
  }

  lemma BatchNext(ds: seq<Device>, b: Batch, i: nat, a: RemoveAnswers)
    requires DistinctIDs(ds) && i < |ds| && BatchAt(ds, b, i, a) && |b.ids| < 1000
    ensures BatchAt(ds, RemoveStep(b, i, a), i + 1, a)
  {
    RemoveOneExactly(ds[i], b.sg, a);
    HoldersNext(ds, i, a);
    forall j | 0 <= j < i ensures MemberAt(ds, RemoveStep(b, i, a), j, a) { MemberStays(ds, b, i, a, j); }
  }

  lemma MemberStays(ds: seq<Device>, b: Batch, i: nat, a: RemoveAnswers, j: nat)
    requires DistinctIDs(ds) && j < i < |ds| == |b.ds| && b.ds[i] == ds[i] && MemberAt(ds, b, j, a)
    ensures MemberAt(ds, RemoveStep(b, i, a), j, a)
  {
    assert ds[j].id.deviceID != ds[i].id.deviceID;
  }

  /** The batch when the loop is done. */
  ghost predicate BatchDone(ds: seq<Device>, b: Batch, a: RemoveAnswers) {
    && |b.ds| == |ds| && b.sg == GroupOf(ds, a)
    && forall j :: 0 <= j < |ds| ==> DoneAt(ds, b, j, a)
  }

  ghost predicate DoneAt(ds: seq<Device>, b: Batch, j: nat, a: RemoveAnswers)
    requires j < |ds| == |b.ds|
  {
    && (ds[j].id.deviceID in b.ids <==> Joins(ds, j, a))
    && if Gets(ds, j, a) then Examined(ds[j], b.ds[j], j <= FirstOffer(ds, 0, a), a) else b.ds[j] == ds[j]
  }

  lemma BatchOver(ds: seq<Device>, b: Batch, i: nat, a: RemoveAnswers)
    requires BatchAt(ds, b, i, a) && (i == |ds| || |b.ids| == 1000)
    ensures BatchDone(ds, b, a)
  {
    if |b.ids| == 1000 { assert HoldersBefore(ds, i, a) != {}; }
    forall j | 0 <= j < |ds| ensures DoneAt(ds, b, j, a) {
      if j < i {
        assert MemberAt(ds, b, j, a);
      } else {
        HoldersGrow(ds, i, j, a);
      }
    }
  }

  lemma {:induction false} BatchFromExactly(ds: seq<Device>, b: Batch, i: nat, a: RemoveAnswers)
    requires DistinctIDs(ds) && i <= |b.ds| && BatchAt(ds, b, i, a)
    ensures BatchDone(ds, RemoveFrom(b, i, a), a)
    decreases |b.ds| - i
  {
    if i == |b.ds| || |b.ids| == 1000 {
      BatchOver(ds, b, i, a);
    } else {
      BatchNext(ds, b, i, a);
      BatchFromExactly(ds, RemoveStep(b, i, a), i + 1, a);
    }
  }

  /** The batch is the first free storage group of the first device that has one,
      and the first thousand devices, from that one on, whose volume is in it. */
  lemma BatchExactly(ds: seq<Device>, a: RemoveAnswers, i: nat)
    requires DistinctIDs(ds) && i < |ds|
    ensures var b := RemoveFrom(Batch(ds, "", []), 0, a);
      && b.sg == GroupOf(ds, a)
      && (ds[i].id.deviceID in b.ids <==> Joins(ds, i, a))
      && if Gets(ds, i, a) then Examined(ds[i], b.ds[i], i <= FirstOffer(ds, 0, a), a) else b.ds[i] == ds[i]
  {
    BatchFrom(ds, a);
    assert DoneAt(ds, RemoveFrom(Batch(ds, "", []), 0, a), i, a);
  }

  lemma BatchFrom(ds: seq<Device>, a: RemoveAnswers)
    requires DistinctIDs(ds)
    ensures BatchDone(ds, RemoveFrom(Batch(ds, "", []), 0, a), a)
  {
    assert HoldersBefore(ds, 0, a) == {};
    BatchFromExactly(ds, Batch(ds, "", []), 0, a);
  }

  /** No volume is taken out of a storage group it was not seen in, under another
      identifier than the queued one, or out of a group in a masking view. */
  lemma BatchIsInItsGroup(ds: seq<Device>, a: RemoveAnswers, i: nat)
    requires DistinctIDs(ds) && i < |ds| && ds[i].id.deviceID in RemoveFrom(Batch(ds, "", []), 0, a).ids
    ensures var b := RemoveFrom(Batch(ds, "", []), 0, a);
      && ds[i].state == DisAssociateSG && b.ds[i].cache.Some?
      && b.sg in b.ds[i].cache.value.storageGroups && b.ds[i].cache.value.identifier == ds[i].identifier
    ensures exists j :: 0 <= j <= i && HoldsFree(ds[j], RemoveFrom(Batch(ds, "", []), 0, a).sg, a)
  {
    BatchExactly(ds, a, i);
    var p := FirstOffer(ds, 0, a);
    assert HoldsFree(ds[p], RemoveFrom(Batch(ds, "", []), 0, a).sg, a);
  }

  /** What becomes of a device of the batch once the removal was tried. */
  ghost predicate Refetched(d: Device, d': Device, msg: string, a: RemoveAnswers) {
    match a.refetch(d.id.deviceID)
    case Failed(m) => Noted(d, d', d.state, m) && d'.cache == None
    case Found(v) =>
      && d'.cache == Some(v)
      && Noted(d, d', if v.storageGroups != [] then d.state
                      else if v.snapSource || v.snapTarget then CleanupSnaps else DeleteVol, msg)
  }

  /** The whole step for one device: it is examined if the step gets to it; if it is in
      the batch it is looked up again once the removal was tried. */
  ghost predicate Removed(ds: seq<Device>, i: nat, d': Device, a: RemoveAnswers)
    requires i < |ds|
  {
    var b := RemoveFrom(Batch(ds, "", []), 0, a);
    && (if Gets(ds, i, a) then Examined(ds[i], b.ds[i], i <= FirstOffer(ds, 0, a), a) else b.ds[i] == ds[i])
    && if Joins(ds, i, a) && a.removal(b.sg, b.ids).Tried? then Refetched(b.ds[i], d', a.removal(b.sg, b.ids).msg, a)
       else d' == b.ds[i]
  }

  lemma RemoveExactly(ds: seq<Device>, a: RemoveAnswers, i: nat)
    requires DistinctIDs(ds) && i < |ds|
    ensures Removed(ds, i, Remove(ds, a).0[i], a)
  {
    BatchExactly(ds, a, i);
    var b := RemoveFrom(Batch(ds, "", []), 0, a);
    ExaminedKeepsID(ds[i], b.ds[i], i <= FirstOffer(ds, 0, a), a);
  }

  lemma ExaminedKeepsID(d: Device, d': Device, searching: bool, a: RemoveAnswers)
    requires Examined(d, d', searching, a) || d' == d
    ensures d'.id == d.id
  {}

  /** Nothing is removed exactly when no device offers a group. */
  lemma RemoveReports(ds: seq<Device>, a: RemoveAnswers)
    requires DistinctIDs(ds)
    ensures var b := RemoveFrom(Batch(ds, "", []), 0, a);
      && (b.ids == [] <==> forall i :: 0 <= i < |ds| ==> Offered(ds[i], a) == "")
      && (Remove(ds, a).1 <==> b.ids != [] && match a.removal(b.sg, b.ids)
                                              case Abandoned(updated) => updated
                                              case Tried(_) => true)
  {
    var b := RemoveFrom(Batch(ds, "", []), 0, a);
    BatchFrom(ds, a);
    BatchIsDistinct(Batch(ds, "", []), 0, a);
    var p := FirstOffer(ds, 0, a);
    if p < |ds| {
      assert HoldersBefore(ds, p, a) == {};
      assert DoneAt(ds, b, p, a);
    } else if b.ids != [] {
      assert Listed(b.ds[..|ds|], b.ids[0]);
      var j :| 0 <= j < |b.ds[..|ds|]| && b.ds[..|ds|][j].id.deviceID == b.ids[0];
      assert DoneAt(ds, b, j, a);
      ExaminedKeepsID(ds[j], b.ds[j], j <= p, a);
    }
  }

  // ---- Deleting ----

  /** Seen in this round outside every storage group and under the queued identifier. */
  predicate SeenFree(d: Device, a: DeleteAnswers) {
    var id := d.id.deviceID;
    if id in a.bulk then a.bulk[id].groupCount == 0 && a.bulk[id].identifier == d.identifier
    else
      match a.fetch(id)
      case Failed(_) => false
      case Found(v) => v.storageGroups == [] && v.identifier == d.identifier
  }

  predicate SeenInGroups(d: Device, a: DeleteAnswers) {
    var id := d.id.deviceID;
    if id in a.bulk then a.bulk[id].groupCount != 0 else a.fetch(id).Found? && a.fetch(id).volume.storageGroups != []
  }

  predicate IsFree(d: Device, a: DeleteAnswers) {
    d.state == DeleteVol && SeenFree(d, a)
  }

  lemma PassesExactly(d: Device, a: DeleteAnswers)
    ensures Passes(d, a) <==> IsFree(d, a)
  {}

  /** Whatever the array is asked to delete it had just shown, in the same round, to
      be outside every storage group and under the queued identifier. */
  lemma OnlyFreeVolumesAreDeleted(ds: seq<Device>, a: DeleteAnswers, range: DeviceRange, name: string)
    requires AllCanonical(ds) && Eligible(ds, a) != [] && RangeOK(ds, a, range) && name in range.Members()
    ensures exists i :: 0 <= i < |ds| && ds[i].id.deviceID == name && ds[i].state == DeleteVol && SeenFree(ds[i], a)
  {
    OnlyCheckedDevicesAreDeleted(ds, a, range, name);
    var i :| 0 <= i < |ds| && ds[i].id.deviceID == name && Passes(ds[i], a);
    PassesExactly(ds[i], a);
  }

  lemma PrintedHasNoDash(n: nat)
    ensures '-' !in Hex.DeviceIDOf(n)
  {
    Hex.PrintedValue(n, 5);
    assert Hex.DigitValue('-') < 0;
  }

  lemma EndsOfRange(range: DeviceRange)
    requires CanonicalID(range.start) && CanonicalID(range.end) && range.start.intVal <= range.end.intVal
    ensures var ids := range.Members();
      && |ids| == range.end.intVal - range.start.intVal + 1
      && ids[0] == range.start.deviceID && ids[|ids| - 1] == range.end.deviceID
  {}

  lemma JoinOfTwo(s: string, t: string)
    ensures Join([s, t], "-") == s + "-" + t && Join([s], "-") == s
    ensures '-' !in s && '-' !in t ==> Split(s + "-" + t, '-') == [s, t] && Split(s, '-') == [s]
  {
    assert [s, t][..1] == [s];
    if '-' !in s && '-' !in t {
      SplitSingle(s, '-');
      SplitSnoc(s, t, '-');
    }
  }

  /** The text for a range names its first and its last member, and its dash cuts it
      into just these two. */
  lemma TextOfRange(range: DeviceRange)
    requires CanonicalID(range.start) && CanonicalID(range.end) && range.start.intVal <= range.end.intVal
    ensures var ids := range.Members();
      var ends := if |ids| == 1 then [ids[0]] else [ids[0], ids[|ids| - 1]];
      range.Text() == Join(ends, "-") && (range.start.intVal >= 0 ==> Split(range.Text(), '-') == ends)
  {
    EndsOfRange(range);
    JoinOfTwo(range.start.deviceID, range.end.deviceID);
    if range.start.intVal >= 0 {
      PrintedHasNoDash(range.start.intVal);
      PrintedHasNoDash(range.end.intVal);
    }
  }

  /** So does every text the array gets. */
  lemma TextNamesTheEnds(ds: seq<Device>, a: DeleteAnswers, range: DeviceRange)
    requires AllCanonical(ds) && Eligible(ds, a) != [] && RangeOK(ds, a, range)
    ensures var ids := range.Members();
      |ids| > 0 && range.Text() == Join(if |ids| == 1 then [ids[0]] else [ids[0], ids[|ids| - 1]], "-")
  {
    var i := EligibleIsFree(ds, a, range.start);
    var j := EligibleIsFree(ds, a, range.end);
    assert CanonicalID(ds[i].id) && CanonicalID(ds[j].id);
    TextOfRange(range);
  }

  /** What becomes of a device in a round that deletes the given range. */
  ghost predicate Settled(d: Device, d': Device, range: DeviceRange, a: DeleteAnswers) {
    var id := d.id.deviceID;
    if d.state != DeleteVol then d' == d
    else
      && d'.cache == (if id in a.bulk then d.cache else Cached(a.fetch(id)))
      && if id !in a.bulk && a.fetch(id).Failed? then Noted(d, d', DeleteVol, a.fetch(id).msg)
         else if SeenInGroups(d, a) then Noted(d, d', DisAssociateSG, "")
         else if !SeenFree(d, a) then Noted(d, d', SkipDelete, IdentifierMismatch)
         else if !range.Covers(d.id.intVal) then Noted(d, d', DeleteVol, "")
         else
           match a.delete(range.Text())
           case None => Noted(d, d', Deleted, "")
           case Some(msg) => Noted(d, d', DeleteVol, msg)
  }

  lemma CheckOneExactly(d: Device, a: DeleteAnswers, range: DeviceRange)
    ensures Settled(d, if Passes(d, a) && range.Covers(d.id.intVal) then Outcome(CheckOne(d, a), a.delete(range.Text()))
                       else CheckOne(d, a), range, a)
  {}

  /** The whole round, for every device of the queue. */
  lemma RoundExactly(ds: seq<Device>, a: DeleteAnswers, range: DeviceRange, i: nat)
    requires DistinctIDs(ds) && AllCanonical(ds) && RangeOK(ds, a, range) && i < |ds|
    ensures |DeleteRound(ds, a, range)| == |ds| && Settled(ds[i], DeleteRound(ds, a, range)[i], range, a)
  {
    RoundOutcome(ds, a, range, i);
    CheckOneExactly(ds[i], a, range);
  }

  lemma {:induction false} LastEligible(ds: seq<Device>, a: DeleteAnswers, i: nat)
    requires i < |ds| && IsFree(ds[i], a) && forall j :: i < j < |ds| ==> !IsFree(ds[j], a)
    ensures var ids := Eligible(ds, a); ids != [] && ids[|ids| - 1] == ds[i].id
  {
    var n := |ds| - 1;
    PassesExactly(ds[n], a);
    if i < n { LastEligible(ds[..n], a, i); }
  }

  /** Some free device has the given number. */
  ghost predicate FreeAt(ds: seq<Device>, v: int, a: DeleteAnswers) {
    exists j :: 0 <= j < |ds| && ds[j].id.intVal == v && IsFree(ds[j], a)
  }

  /** The range holds the last free device of the queue, only free devices, and all
      free devices next to it. */
  lemma RangeIsAroundLastFree(ds: seq<Device>, a: DeleteAnswers, range: DeviceRange, i: nat)
    requires DistinctIDs(ds) && AllCanonical(ds) && RangeOK(ds, a, range)
    requires i < |ds| && IsFree(ds[i], a) && forall j :: i < j < |ds| ==> !IsFree(ds[j], a)
    ensures range.Covers(ds[i].id.intVal)
    ensures forall v :: range.Covers(v) ==> FreeAt(ds, v, a)
    ensures !FreeAt(ds, range.start.intVal - 1, a) && !FreeAt(ds, range.end.intVal + 1, a)
  {
    LastFreeIsCovered(ds, a, range, i);
    forall v | range.Covers(v) ensures FreeAt(ds, v, a) { CoveredIsFree(ds, a, range, v); }
    if v :| (v == range.start.intVal - 1 || v == range.end.intVal + 1) && FreeAt(ds, v, a) {
      NextIsNotFree(ds, a, range, v);
    }
  }

  lemma LastFreeIsCovered(ds: seq<Device>, a: DeleteAnswers, range: DeviceRange, i: nat)
    requires RangeOK(ds, a, range)
    requires i < |ds| && IsFree(ds[i], a) && forall j :: i < j < |ds| ==> !IsFree(ds[j], a)
    ensures Eligible(ds, a) != [] && range.Covers(ds[i].id.intVal)
  {
    LastEligible(ds, a, i);
  }

  lemma CoveredIsFree(ds: seq<Device>, a: DeleteAnswers, range: DeviceRange, v: int)
    requires Eligible(ds, a) != [] && RangeOK(ds, a, range) && range.Covers(v)
    ensures FreeAt(ds, v, a)
  {
    var id :| id in Eligible(ds, a) && id.intVal == v;
    var j := EligibleIsFree(ds, a, id);
  }

  lemma NextIsNotFree(ds: seq<Device>, a: DeleteAnswers, range: DeviceRange, v: int)
    requires DistinctIDs(ds) && AllCanonical(ds) && Eligible(ds, a) != [] && RangeOK(ds, a, range)
    requires v == range.start.intVal - 1 || v == range.end.intVal + 1
    ensures !FreeAt(ds, v, a)
  {
    EligibleDistinct(ds, a);
    if j :| 0 <= j < |ds| && ds[j].id.intVal == v && IsFree(ds[j], a) { FreeIsEligible(ds, a, j); }
  }

  lemma EligibleIsFree(ds: seq<Device>, a: DeleteAnswers, id: SymDeviceID) returns (j: nat)
    requires id in Eligible(ds, a)
    ensures j < |ds| && ds[j].id == id && IsFree(ds[j], a)
  {
    EligibleIff(ds, a, id);
    j :| 0 <= j < |ds| && ds[j].id == id && Passes(ds[j], a);
    PassesExactly(ds[j], a);
  }

  lemma FreeIsEligible(ds: seq<Device>, a: DeleteAnswers, j: nat)
    requires j < |ds| && IsFree(ds[j], a)
    ensures ds[j].id in Eligible(ds, a)
  {
    PassesExactly(ds[j], a);
    EligibleIff(ds, a, ds[j].id);
  }

  lemma {:induction false} EligibleDistinct(ds: seq<Device>, a: DeleteAnswers)
    requires DistinctIDs(ds) && AllCanonical(ds)
    ensures DistinctValues(Eligible(ds, a))
  {
    if ds == [] {
    } else {
      var n := |ds| - 1;
      var init := Eligible(ds[..n], a);
      EligibleDistinct(ds[..n], a);
      forall k | 0 <= k < |init| ensures init[k].intVal != ds[n].id.intVal {
        EligibleBefore(ds, a, n, init[k]);
      }
    }
  }

  lemma EligibleBefore(ds: seq<Device>, a: DeleteAnswers, n: nat, id: SymDeviceID)
    requires DistinctIDs(ds) && AllCanonical(ds) && n < |ds| && id in Eligible(ds[..n], a)
    ensures id.intVal != ds[n].id.intVal
  {
    EligibleIff(ds[..n], a, id);
    var j :| 0 <= j < |ds[..n]| && ds[..n][j].id == id && Passes(ds[..n][j], a);
    assert CanonicalID(ds[j].id) && CanonicalID(ds[n].id) && ds[j].id.deviceID != ds[n].id.deviceID;
  }
}
