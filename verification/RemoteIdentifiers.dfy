/**
Copying the identifiers of replicated volumes to their remote partners. Every
answer of the arrays is an input; the remote array is the only state changed.
*/
module RemoteIdentifiers {
  import opened Options

  datatype Listed = Listed(id: string, identifier: string)

  /** bulk: the bulk endpoint is supported. A listing or a volume that cannot be
      fetched is None; renameOK(k) says whether rename number k goes through. */
  datatype Answers = Answers(
    bulk: bool,
    localBulk: Option<seq<Listed>>, localList: Option<seq<string>>, remoteBulk: Option<seq<Listed>>,
    localVolume: string -> Option<string>, pair: string -> Option<string>, remoteVolume: string -> Option<string>,
    renameOK: nat -> bool)

  datatype Rename = Rename(device: string, identifier: string)

  type Names = map<string, string>

  // ---- What is gathered ----

  datatype Gathered = ListingFailed | Gathered(ids: seq<string>, localNames: Names, remoteNames: Names)

  function IdsOf(volumes: seq<Listed>): seq<string> {
    seq(|volumes|, i requires 0 <= i < |volumes| => volumes[i].id)
  }

  function NamesOf(volumes: seq<Listed>): Names {
    if volumes == [] then map[] else
      NamesOf(volumes[..|volumes| - 1])[volumes[|volumes| - 1].id := volumes[|volumes| - 1].identifier]
  }

  function Gather(a: Answers): Gathered {
    if a.bulk && a.localBulk.Some? then
      Gathered(IdsOf(a.localBulk.value), NamesOf(a.localBulk.value),
               if a.localBulk.value != [] && a.remoteBulk.Some? then NamesOf(a.remoteBulk.value) else map[])
    else if a.localList.Some? then Gathered(a.localList.value, map[], map[])
    else ListingFailed
  }

  // ---- What is to be renamed ----

  datatype Plan = Leave | Unknown | Do(rename: Rename)

  function PlanFor(id: string, g: Gathered, a: Answers): Plan
    requires g.Gathered?
  {
    var localName := if id in g.localNames then Some(g.localNames[id]) else a.localVolume(id);
    if localName.None? then Unknown
    else if localName.value == "" then Leave
    else if a.pair(id).None? then Unknown
    else
      var remoteID := a.pair(id).value;
      var remoteName := if remoteID in g.remoteNames then Some(g.remoteNames[remoteID]) else a.remoteVolume(remoteID);
      if remoteName.None? then Unknown
      else if remoteName == localName then Leave
      else Do(Rename(remoteID, localName.value))
  }

  function Pending(ids: seq<string>, g: Gathered, a: Answers): seq<Rename>
    requires g.Gathered?
  {
    if ids == [] then [] else
      var plan := PlanFor(ids[|ids| - 1], g, a);
      Pending(ids[..|ids| - 1], g, a) + if plan.Do? then [plan.rename] else []
  }

  predicate AllKnown(ids: seq<string>, g: Gathered, a: Answers)
    requires g.Gathered?
  {
    forall i :: 0 <= i < |ids| ==> PlanFor(ids[i], g, a) != Unknown
  }

  // ---- What is renamed ----

  function Renamed(remote: Names, renames: seq<Rename>, a: Answers): Names {
    if renames == [] then remote else
      var k := |renames| - 1;
      var before := Renamed(remote, renames[..k], a);
      if a.renameOK(k) then before[renames[k].device := renames[k].identifier] else before
  }

  predicate AllRenamed(renames: seq<Rename>, a: Answers) {
    forall k :: 0 <= k < |renames| ==> a.renameOK(k)
  }

  /** The remote identifiers afterwards, and whether the run succeeded. */
  function Sync(remote: Names, a: Answers): (Names, bool) {
    var g := Gather(a);
    if g.ListingFailed? then (remote, false) else
      var renames := Pending(g.ids, g, a);
      (Renamed(remote, renames, a), AllKnown(g.ids, g, a) && AllRenamed(renames, a))
  }

  class RemoteArray {
    var identifiers: Names

    constructor (identifiers: Names)
      ensures this.identifiers == identifiers
    {
      this.identifiers := identifiers;
    }

    method SyncRemoteVolumeIdentifiers(a: Answers) returns (ok: bool)
      modifies this
      ensures (identifiers, ok) == Sync(old(identifiers), a)
    {
      var g := GatherNames(a);
      if g.ListingFailed? {
        return false;
      }
      if |g.ids| == 0 {
        return true;
      }
      var pending, known := PlanRenames(g, a);
      if |pending| == 0 {
        return known;
      }
      var renamed := PerVolumeRename(pending, a);
      return known && renamed;
    }

    method PerVolumeRename(renames: seq<Rename>, a: Answers) returns (ok: bool)
      modifies this
      ensures identifiers == Renamed(old(identifiers), renames, a)
      ensures ok == AllRenamed(renames, a)
    {
      ok := true;
      for k := 0 to |renames|
        invariant identifiers == Renamed(old(identifiers), renames[..k], a)
        invariant ok == forall j :: 0 <= j < k ==> a.renameOK(j)
      {
        assert renames[..k + 1][..k] == renames[..k];
        if a.renameOK(k) {
          identifiers := identifiers[renames[k].device := renames[k].identifier];
        } else {
          ok := false;
        }
      }
      assert renames[..|renames|] == renames;
    }
  }

  method CollectNames(volumes: seq<Listed>) returns (ids: seq<string>, names: Names)
    ensures ids == IdsOf(volumes) && names == NamesOf(volumes)
  {
    ids, names := [], map[];
    for i := 0 to |volumes|
      invariant ids == IdsOf(volumes[..i]) && names == NamesOf(volumes[..i])
    {
      assert volumes[..i + 1][..i] == volumes[..i];
      ids := ids + [volumes[i].id];
      names := names[volumes[i].id := volumes[i].identifier];
    }
    assert volumes[..|volumes|] == volumes;
  }

  method GatherNames(a: Answers) returns (g: Gathered)
    ensures g == Gather(a)
  {
    var bulk := a.bulk;
    var ids, localNames, remoteNames := [], map[], map[];
    if bulk {
      if a.localBulk.None? {
        bulk := false;
      } else {
        ids, localNames := CollectNames(a.localBulk.value);
      }
    }
    if !bulk {
      if a.localList.None? {
        return ListingFailed;
      }
      ids := a.localList.value;
    }
    if |ids| != 0 && bulk && a.remoteBulk.Some? {
      var _, names := CollectNames(a.remoteBulk.value);
      remoteNames := names;
    }
    return Gathered(ids, localNames, remoteNames);
  }

  method PlanRenames(g: Gathered, a: Answers) returns (pending: seq<Rename>, known: bool)
    requires g.Gathered?
    ensures pending == Pending(g.ids, g, a) && known == AllKnown(g.ids, g, a)
  {
    pending, known := [], true;
    for i := 0 to |g.ids|
      invariant pending == Pending(g.ids[..i], g, a)
      invariant known == AllKnown(g.ids[..i], g, a)
    {
      assert g.ids[..i + 1][..i] == g.ids[..i];
      var plan := PlanFor(g.ids[i], g, a);
      if plan.Unknown? {
        known := false;
        assert !AllKnown(g.ids[..i + 1], g, a) by { assert PlanFor(g.ids[..i + 1][i], g, a) == Unknown; }
      } else if plan.Do? {
        pending := pending + [plan.rename];
      }
    }
    assert g.ids[..|g.ids|] == g.ids;
  }

  // ---- Truthful answers ----

  /** Whatever the arrays say agrees with what they hold. */
  ghost predicate Truthful(local: Names, remote: Names, a: Answers) {
    && (a.localBulk.Some? ==> ListsOf(local, a.localBulk.value))
    && (a.remoteBulk.Some? ==> ListsOf(remote, a.remoteBulk.value))
    && (forall id :: a.localVolume(id).Some? ==> id in local && local[id] == a.localVolume(id).value)
    && (forall id :: a.remoteVolume(id).Some? ==> id in remote && remote[id] == a.remoteVolume(id).value)
  }

  ghost predicate ListsOf(names: Names, volumes: seq<Listed>) {
    forall i :: 0 <= i < |volumes| ==> volumes[i].id in names && names[volumes[i].id] == volumes[i].identifier
  }

  lemma {:induction false} NamesAreTrue(names: Names, volumes: seq<Listed>, id: string)
    requires ListsOf(names, volumes)
    ensures id in NamesOf(volumes) ==> id in names && names[id] == NamesOf(volumes)[id]
  {
    if volumes == [] {
    } else {
      NamesAreTrue(names, volumes[..|volumes| - 1], id);
    }
  }

  /** What has to be done about one volume, by the state of the arrays alone. */
  function Wanted(local: Names, remote: Names, pair: string -> Option<string>, id: string): Plan {
    if id !in local || pair(id).None? || (local[id] != "" && pair(id).value !in remote) then Unknown
    else if local[id] == "" || remote[pair(id).value] == local[id] then Leave
    else Do(Rename(pair(id).value, local[id]))
  }

  /** However the names were gathered, a known plan is the one wanted. */
  lemma PlanIsWanted(local: Names, remote: Names, a: Answers, id: string)
    requires Truthful(local, remote, a) && Gather(a).Gathered? && PlanFor(id, Gather(a), a) != Unknown
    ensures id in local
    ensures local[id] == "" ==> PlanFor(id, Gather(a), a) == Leave
    ensures local[id] != "" ==> PlanFor(id, Gather(a), a) == Wanted(local, remote, a.pair, id)
  {
    var g := Gather(a);
    if a.localBulk.Some? { NamesAreTrue(local, a.localBulk.value, id); }
    if a.pair(id).Some? && a.remoteBulk.Some? { NamesAreTrue(remote, a.remoteBulk.value, a.pair(id).value); }
  }

  /** The bulk and the per-volume way compute the same renames. */
  lemma {:induction false} SameRenamesEitherWay(local: Names, remote: Names, a: Answers, b: Answers, ids: seq<string>)
    requires Truthful(local, remote, a) && Truthful(local, remote, b) && a.pair == b.pair
    requires Gather(a).Gathered? && Gather(b).Gathered?
    requires AllKnown(ids, Gather(a), a) && AllKnown(ids, Gather(b), b)
    ensures Pending(ids, Gather(a), a) == Pending(ids, Gather(b), b)
  {
    if ids == [] {
    } else {
      var n := |ids| - 1;
      forall i | 0 <= i < n
        ensures PlanFor(ids[..n][i], Gather(a), a) != Unknown && PlanFor(ids[..n][i], Gather(b), b) != Unknown
      {
        assert ids[..n][i] == ids[i];
      }
      SameRenamesEitherWay(local, remote, a, b, ids[..n]);
      PlanIsWanted(local, remote, a, ids[n]);
      PlanIsWanted(local, remote, b, ids[n]);
    }
  }

  // ---- What a run works on, by the answers alone ----

  predicate UsesBulk(a: Answers) { a.bulk && a.localBulk.Some? }

  /** The volume is in the listing the run works from. */
  predicate IsListed(a: Answers, id: string) {
    if UsesBulk(a) then exists i :: 0 <= i < |a.localBulk.value| && a.localBulk.value[i].id == id
    else a.localList.Some? && id in a.localList.value
  }

  /** The name in the last entry of a listing for the volume. */
  function NameIn(volumes: seq<Listed>, id: string): Option<string> {
    if volumes == [] then None else
      var last := volumes[|volumes| - 1];
      if last.id == id then Some(last.identifier) else NameIn(volumes[..|volumes| - 1], id)
  }

  lemma {:induction false} NamesOfExactly(volumes: seq<Listed>, id: string)
    ensures NameIn(volumes, id) == if id in NamesOf(volumes) then Some(NamesOf(volumes)[id]) else None
    ensures NameIn(volumes, id).Some? <==> exists i :: 0 <= i < |volumes| && volumes[i].id == id
  {
    if volumes == [] {
    } else {
      var n := |volumes| - 1;
      NamesOfExactly(volumes[..n], id);
      if i :| 0 <= i < |volumes| && volumes[i].id == id {
        if i < n { assert volumes[..n][i].id == id; }
      }
    }
  }

  /** A run works on all volumes of the listing and on no others, and fails for want
      of a listing exactly when neither kind can be had. */
  lemma GatherListsAll(a: Answers, id: string)
    ensures Gather(a).ListingFailed? <==> !UsesBulk(a) && a.localList.None?
    ensures Gather(a).Gathered? ==> (id in Gather(a).ids <==> IsListed(a, id))
    ensures IsListed(a, id) ==> Gather(a).Gathered?
  {
    if UsesBulk(a) {
      var ids := IdsOf(a.localBulk.value);
      if i :| 0 <= i < |a.localBulk.value| && a.localBulk.value[i].id == id { assert ids[i] == id; }
      if id in ids {
        var i :| 0 <= i < |ids| && ids[i] == id;
        assert a.localBulk.value[i].id == id;
      }
    }
  }

  function LocalName(a: Answers, id: string): Option<string> {
    if UsesBulk(a) && NameIn(a.localBulk.value, id).Some? then NameIn(a.localBulk.value, id) else a.localVolume(id)
  }

  function RemoteName(a: Answers, id: string): Option<string> {
    if UsesBulk(a) && a.remoteBulk.Some? && NameIn(a.remoteBulk.value, id).Some? then NameIn(a.remoteBulk.value, id)
    else a.remoteVolume(id)
  }

  /** Everything the run asks about the volume is answered. */
  predicate Answered(a: Answers, id: string) {
    && LocalName(a, id).Some?
    && (LocalName(a, id).value != "" ==> a.pair(id).Some? && RemoteName(a, a.pair(id).value).Some?)
  }

  /** The partner is known under another name than the volume. */
  predicate Differs(a: Answers, id: string, partner: string, name: string) {
    && LocalName(a, id) == Some(name) && name != "" && a.pair(id) == Some(partner)
    && RemoteName(a, partner).Some? && RemoteName(a, partner) != Some(name)
  }

  /** A volume is left undecided exactly when an answer is missing, and its partner
      is renamed exactly when it is known under another name. */
  lemma PlanExactly(a: Answers, id: string, partner: string, name: string)
    requires IsListed(a, id)
    ensures Gather(a).Gathered?
    ensures PlanFor(id, Gather(a), a) == Unknown <==> !Answered(a, id)
    ensures PlanFor(id, Gather(a), a) == Do(Rename(partner, name)) <==> Differs(a, id, partner, name)
  {
    GatherListsAll(a, id);
    if UsesBulk(a) {
      NamesOfExactly(a.localBulk.value, id);
      if a.remoteBulk.Some? && a.pair(id).Some? { NamesOfExactly(a.remoteBulk.value, a.pair(id).value); }
    }
  }

  /** A run renames a device to a name exactly when that is the name of a listed
      volume whose partner it is and which it does not carry. */
  lemma RenamesExactly(a: Answers, r: Rename)
    requires Gather(a).Gathered?
    ensures r in Pending(Gather(a).ids, Gather(a), a) <==>
      exists id :: IsListed(a, id) && Differs(a, id, r.device, r.identifier)
  {
    var g := Gather(a);
    PendingIff(g.ids, g, a, r);
    if i :| 0 <= i < |g.ids| && PlanFor(g.ids[i], g, a) == Do(r) {
      GatherListsAll(a, g.ids[i]);
      PlanExactly(a, g.ids[i], r.device, r.identifier);
    }
    if id :| IsListed(a, id) && Differs(a, id, r.device, r.identifier) {
      GatherListsAll(a, id);
      PlanExactly(a, id, r.device, r.identifier);
      var i :| 0 <= i < |g.ids| && g.ids[i] == id;
    }
  }

  /** It succeeds exactly when there is a listing, everything asked about the listed
      volumes is answered, and every rename goes through. */
  lemma SucceedsExactly(remote: Names, a: Answers)
    ensures Sync(remote, a).1 <==>
      && Gather(a).Gathered?
      && (forall id :: IsListed(a, id) ==> Answered(a, id))
      && forall k :: 0 <= k < |Pending(Gather(a).ids, Gather(a), a)| ==> a.renameOK(k)
  {
    var g := Gather(a);
    if g.Gathered? {
      forall i | 0 <= i < |g.ids| ensures IsListed(a, g.ids[i]) && (PlanFor(g.ids[i], g, a) == Unknown <==>
          !Answered(a, g.ids[i]))
      {
        GatherListsAll(a, g.ids[i]);
        PlanExactly(a, g.ids[i], "", "");
      }
      forall id | IsListed(a, id) ensures id in g.ids { GatherListsAll(a, id); }
    }
  }

  // ---- What a successful run establishes ----

  lemma {:induction false} PendingIff(ids: seq<string>, g: Gathered, a: Answers, r: Rename)
    requires g.Gathered?
    ensures r in Pending(ids, g, a) <==> exists i :: 0 <= i < |ids| && PlanFor(ids[i], g, a) == Do(r)
  {
    if ids == [] {
    } else {
      var n := |ids| - 1;
      PendingIff(ids[..n], g, a, r);
      if i :| 0 <= i < |ids| && PlanFor(ids[i], g, a) == Do(r) {
        if i < n { assert ids[..n][i] == ids[i]; }
      }
    }
  }

  /** If all renames of a device give it one name, that is the name it ends with. */
  lemma {:induction false} RenamedTo(remote: Names, renames: seq<Rename>, a: Answers, device: string, name: string)
    requires AllRenamed(renames, a)
    requires forall k :: 0 <= k < |renames| && renames[k].device == device ==> renames[k].identifier == name
    requires (device in remote && remote[device] == name) ||
             (exists k :: 0 <= k < |renames| && renames[k].device == device)
    ensures device in Renamed(remote, renames, a) && Renamed(remote, renames, a)[device] == name
  {
    if renames == [] {
    } else {
      var n := |renames| - 1;
      if renames[n].device != device {
        var earlier := renames[..n];
        if k :| 0 <= k < |renames| && renames[k].device == device {
          assert earlier[k].device == device;
        }
        RenamedTo(remote, earlier, a, device, name);
      }
    }
  }

  /** Rename number k of the list is the last one of the device that goes through. */
  ghost predicate LastOf(renames: seq<Rename>, a: Answers, device: string, k: nat) {
    && k < |renames| && renames[k].device == device && a.renameOK(k)
    && forall j :: k < j < |renames| && renames[j].device == device ==> !a.renameOK(j)
  }

  /** A device ends with the name of the last rename that goes through. */
  lemma {:induction false} LastRenameCounts(remote: Names, renames: seq<Rename>, a: Answers, device: string, k: nat)
    requires LastOf(renames, a, device, k)
    ensures device in Renamed(remote, renames, a) && Renamed(remote, renames, a)[device] == renames[k].identifier
  {
    var n := |renames| - 1;
    if k < n { LastRenameCounts(remote, renames[..n], a, device, k); }
  }

  /** If none goes through, it keeps its name. */
  lemma {:induction false} NotRenamed(remote: Names, renames: seq<Rename>, a: Answers, device: string)
    requires forall k :: 0 <= k < |renames| && renames[k].device == device ==> !a.renameOK(k)
    ensures device in Renamed(remote, renames, a) <==> device in remote
    ensures device in remote ==> Renamed(remote, renames, a)[device] == remote[device]
  {
    if renames == [] {
    } else {
      NotRenamed(remote, renames[..|renames| - 1], a, device);
    }
  }

  /** No two volumes of the list have the same partner. */
  ghost predicate InjectivePairing(a: Answers) {
    forall x, y :: IsListed(a, x) && IsListed(a, y) && a.pair(x).Some? && a.pair(x) == a.pair(y) ==> x == y
  }

  /** After a successful run the partner of every listed volume with a name carries
      that name. */
  lemma PartnersCarryTheName(local: Names, remote: Names, a: Answers, id: string)
    requires Truthful(local, remote, a) && InjectivePairing(a)
    requires Sync(remote, a).1 && IsListed(a, id) && id in local && local[id] != ""
    ensures a.pair(id).Some?
    ensures var partner := a.pair(id).value; partner in Sync(remote, a).0 && Sync(remote, a).0[partner] == local[id]
  {
    var g := Gather(a);
    var renames := Pending(g.ids, g, a);
    GatherListsAll(a, id);
    var i :| 0 <= i < |g.ids| && g.ids[i] == id;
    assert PlanFor(g.ids[i], g, a) != Unknown;
    PlanIsWanted(local, remote, a, id);
    var partner := a.pair(id).value;
    forall k | 0 <= k < |renames| && renames[k].device == partner ensures PlanFor(id, g, a) == Do(renames[k]) {
      PendingIff(g.ids, g, a, renames[k]);
      var j :| 0 <= j < |g.ids| && PlanFor(g.ids[j], g, a) == Do(renames[k]);
      GatherListsAll(a, g.ids[j]);
      assert a.pair(g.ids[j]) == a.pair(id);
    }
    if PlanFor(id, g, a).Do? {
      PendingIff(g.ids, g, a, PlanFor(id, g, a).rename);
      var k :| 0 <= k < |renames| && renames[k] == PlanFor(id, g, a).rename;
      assert renames[k].device == partner;
    }
    RenamedTo(remote, renames, a, partner, local[id]);
  }

  /** Only partners of listed volumes are ever renamed, successful run or not. */
  lemma OthersAreLeftAlone(remote: Names, a: Answers, device: string)
    requires forall id :: IsListed(a, id) ==> a.pair(id) != Some(device)
    ensures device in Sync(remote, a).0 <==> device in remote
    ensures device in remote ==> Sync(remote, a).0[device] == remote[device]
  {
    var g := Gather(a);
    if g.Gathered? {
      var renames := Pending(g.ids, g, a);
      forall k | 0 <= k < |renames| ensures renames[k].device != device {
        PendingIff(g.ids, g, a, renames[k]);
        var j :| 0 <= j < |g.ids| && PlanFor(g.ids[j], g, a) == Do(renames[k]);
        GatherListsAll(a, g.ids[j]);
      }
      NotRenamed(remote, renames, a, device);
    }
  }

  /** A second run over the same volumes has nothing left to rename, whichever
      way it gathers their names. */
  lemma SecondRunIsIdle(local: Names, remote: Names, a: Answers, b: Answers)
    requires Truthful(local, remote, a) && InjectivePairing(a) && Sync(remote, a).1
    requires Truthful(local, Sync(remote, a).0, b) && b.pair == a.pair
    requires forall id :: IsListed(b, id) ==> IsListed(a, id)
    ensures Gather(b).Gathered? ==> Pending(Gather(b).ids, Gather(b), b) == []
    ensures Sync(Sync(remote, a).0, b).0 == Sync(remote, a).0
  {
    var g, after := Gather(b), Sync(remote, a).0;
    if g.Gathered? {
      forall i | 0 <= i < |g.ids| ensures !PlanFor(g.ids[i], g, b).Do? {
        var id := g.ids[i];
        if PlanFor(id, g, b) != Unknown {
          PlanIsWanted(local, after, b, id);
          GatherListsAll(b, id);
          if local[id] != "" { PartnersCarryTheName(local, remote, a, id); }
        }
      }
      NothingPending(g.ids, g, b);
    }
  }

  lemma {:induction false} NothingPending(ids: seq<string>, g: Gathered, a: Answers)
    requires g.Gathered? && forall i :: 0 <= i < |ids| ==> !PlanFor(ids[i], g, a).Do?
    ensures Pending(ids, g, a) == []
  {
    if ids == [] {
    } else {
      var n := |ids| - 1;
      assert forall i :: 0 <= i < n ==> ids[..n][i] == ids[i];
      NothingPending(ids[..n], g, a);
    }
  }
}
