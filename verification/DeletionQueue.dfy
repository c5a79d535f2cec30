/** The deletion queue and its devices as the mutable objects they are. Every
    method is proved equal to its function in DeletionSpec. */
module DeletionQueue {
  import opened Options
  import opened DeviceRanges
  import opened DeletionSpec
  import Runs = DeletionRuns

  class CsiDevice {
    const id: SymDeviceID
    const identifier: string
    var state: DeletionState
    var nErrors: nat
    var errors: seq<string>
    var cache: Option<Volume>

    constructor (id: SymDeviceID, handle: string, volume: Volume)
      ensures View() == NewDevice(id, handle, volume)
    {
      this.id, identifier := id, handle;
      state, nErrors, errors := DisAssociateSG, 0, [];
      cache := Some(volume);
      new;
      if volume.storageGroups == [] {
        if volume.snapSource || volume.snapTarget {
          state := CleanupSnaps;
        } else {
          state := DeleteVol;
        }
      }
    }

    function View(): Device reads this {
      Device(id, identifier, state, nErrors, errors, cache)
    }

    method UpdateStatus(newState: DeletionState, msg: string)
      modifies this
      ensures View() == Updated(old(View()), newState, msg)
    {
      state := newState;
      if msg != "" {
        nErrors := nErrors + 1;
        if |errors| == MaxErrorsStored {
          errors := errors[1..];
        }
        if nErrors >= MaxErrorCount {
          errors := errors + [FinalError];
          state := MaxedOut;
        } else {
          errors := errors + [msg];
        }
      }
    }

    method GetOrUpdateVolume(stale: bool, force: bool, answer: Fetch) returns (r: Fetch)
      modifies this
      ensures (View(), r) == Refreshed(old(View()), stale, force, answer)
    {
      var update := false;
      if cache.None? {
        update := true;
      } else if stale || force {
        update := true;
      }
      if update {
        if answer.Failed? {
          cache := None;
          return answer;
        }
        cache := Some(answer.volume);
      }
      r := Found(cache.value);
    }
  }

  class Queue {
    var deviceList: seq<CsiDevice>

    constructor ()
      ensures Valid() && Views() == []
    {
      deviceList := [];
    }

    /** No device object is queued twice, and neither is a device identifier. */
    ghost predicate Valid() reads this {
      Distinct(deviceList)
    }

    ghost function Views(): seq<Device> reads this, deviceList {
      ViewsOf(deviceList)
    }

    method QueueDeviceForDeletion(device: CsiDevice) returns (ok: bool)
      requires Valid() && device !in deviceList
      modifies this
      ensures Valid()
      ensures ok <==> !Listed(old(Views()), device.id.deviceID)
      ensures Views() == Enqueued(old(Views()), device.View())
    {
      for i := 0 to |deviceList|
        invariant forall j :: 0 <= j < i ==> deviceList[j].id.deviceID != device.id.deviceID
        invariant deviceList == old(deviceList)
      {
        if deviceList[i].id.deviceID == device.id.deviceID {
          assert Views()[i].id.deviceID == device.id.deviceID;
          return false;
        }
      }
      deviceList := deviceList + [device];
      ok := true;
    }

    /** The body of the loop in CleanupSnapshots. */
    method CleanupDevice(device: CsiDevice, a: CleanupAnswers) returns (progress: Progress)
      modifies device
      ensures (device.View(), progress) == CleanupOne(old(device.View()), a)
    {
      if device.state != CleanupSnaps {
        return Passed;
      }
      var volumeID := device.id.deviceID;
      var answer := device.GetOrUpdateVolume(a.stale(volumeID), false, a.fetch(volumeID));
      if answer.Failed? {
        device.UpdateStatus(device.state, answer.msg);
        return Stop;
      }
      var v := answer.volume;
      if v.identifier != device.identifier {
        device.UpdateStatus(SkipDelete, IdentifierMismatch);
      } else if v.snapTarget || v.snapSource {
        device.UpdateStatus(device.state, a.unlink(volumeID));
        var _ := device.GetOrUpdateVolume(false, true, a.refetch(volumeID));
        return Counted;
      } else if |v.storageGroups| == 0 {
        device.UpdateStatus(DeleteVol, "");
      } else {
        device.UpdateStatus(DisAssociateSG, "");
      }
      return Passed;
    }

    method CleanupAt(i: nat, a: CleanupAnswers) returns (progress: Progress)
      requires Valid() && i < |deviceList|
      modifies deviceList[i]
      ensures Views() == old(Views())[i := CleanupOne(old(Views())[i], a).0]
      ensures progress == CleanupOne(old(Views())[i], a).1
    {
      progress := CleanupDevice(deviceList[i], a);
    }

    method CleanupSnapshots(a: CleanupAnswers) returns (updated: bool)
      requires Valid()
      modifies deviceList
      ensures Valid()
      ensures (Views(), updated) == CleanupFrom(old(Views()), 0, 0, a)
    {
      var count, i := 0, 0;
      ghost var result := CleanupFrom(Views(), 0, 0, a);
      while i < |deviceList| && count != MaxSnapshotsPerStep
        invariant i <= |deviceList|
        invariant CleanupFrom(Views(), i, count, a) == result
      {
        var progress := CleanupAt(i, a);
        if progress == Stop {
          return false;
        }
        if progress == Counted {
          count := count + 1;
        }
        i := i + 1;
      }
      updated := count > 0;
    }

    /** The search for a storage group to remove volumes from. */
    method PickGroupFor(device: CsiDevice, groups: seq<string>, a: RemoveAnswers) returns (sg: string)
      modifies device
      ensures (device.View(), sg) == PickGroup(old(device.View()), groups, 0, a)
    {
      for k := 0 to |groups|
        invariant PickGroup(device.View(), groups, k, a) == PickGroup(old(device.View()), groups, 0, a)
      {
        var answer := a.group(device.id.deviceID, k);
        if answer.GroupFailed? {
          device.UpdateStatus(device.state, answer.msg);
        } else if answer.maskingViews > 0 {
          device.UpdateStatus(device.state, InMaskingView);
        } else {
          return groups[k];
        }
      }
      return "";
    }

    /** The body of the first loop in RemoveVolumesFromStorageGroup. */
    method RemoveDevice(device: CsiDevice, sgID: string, a: RemoveAnswers) returns (sg: string, joins: bool)
      modifies device
      ensures (device.View(), sg, joins) == RemoveOne(old(device.View()), sgID, a)
    {
      sg, joins := sgID, false;
      if device.state != DisAssociateSG {
        return;
      }
      var volumeID := device.id.deviceID;
      var answer := device.GetOrUpdateVolume(a.stale(volumeID), false, a.fetch(volumeID));
      if answer.Failed? {
        device.UpdateStatus(device.state, answer.msg);
        return;
      }
      var v := answer.volume;
      if v.identifier != device.identifier {
        device.UpdateStatus(SkipDelete, IdentifierMismatch);
      } else if |v.storageGroups| > 0 {
        if sg == "" {
          sg := PickGroupFor(device, v.storageGroups, a);
          joins := sg != "";
        } else {
          joins := sg in v.storageGroups;
        }
      } else if v.snapSource || v.snapTarget {
        device.UpdateStatus(CleanupSnaps, "");
      } else {
        device.UpdateStatus(DeleteVol, "");
      }
    }

    /** The body of the last loop in RemoveVolumesFromStorageGroup. */
    method RefreshDevice(device: CsiDevice, msg: string, a: RemoveAnswers)
      modifies device
      ensures device.View() == RefreshOne(old(device.View()), msg, a)
    {
      var answer := device.GetOrUpdateVolume(false, true, a.refetch(device.id.deviceID));
      if answer.Failed? {
        device.UpdateStatus(device.state, answer.msg);
      } else if |answer.volume.storageGroups| == 0 {
        if answer.volume.snapTarget || answer.volume.snapSource {
          device.UpdateStatus(CleanupSnaps, msg);
        } else {
          device.UpdateStatus(DeleteVol, msg);
        }
      } else {
        device.UpdateStatus(device.state, msg);
      }
    }

    method GetDevice(deviceID: string) returns (i: int)
      requires Valid()
      ensures -1 <= i < |deviceList|
      ensures i == -1 ==> !Listed(Views(), deviceID)
      ensures i >= 0 ==> deviceList[i].id.deviceID == deviceID
    {
      for k := 0 to |deviceList|
        invariant forall j :: 0 <= j < k ==> deviceList[j].id.deviceID != deviceID
      {
        if deviceList[k].id.deviceID == deviceID {
          return k;
        }
      }
      return -1;
    }

    method RemoveAt(i: nat, sgID: string, volumeIDs: seq<string>, a: RemoveAnswers)
      returns (sg: string, ids: seq<string>)
      requires Valid() && i < |deviceList|
      modifies deviceList[i]
      ensures Batch(Views(), sg, ids) == RemoveStep(Batch(old(Views()), sgID, volumeIDs), i, a)
    {
      ghost var before := Views();
      var joins;
      sg, joins := RemoveDevice(deviceList[i], sgID, a);
      assert Views() == before[i := RemoveOne(before[i], sgID, a).0];
      ids := if joins then volumeIDs + [deviceList[i].id.deviceID] else volumeIDs;
    }

    /** The first loop of RemoveVolumesFromStorageGroup. */
    method GatherBatch(a: RemoveAnswers) returns (sgID: string, volumeIDs: seq<string>)
      requires Valid()
      modifies deviceList
      ensures Valid()
      ensures Batch(Views(), sgID, volumeIDs) == RemoveFrom(Batch(old(Views()), "", []), 0, a)
    {
      sgID, volumeIDs := "", [];
      var i := 0;
      ghost var result := RemoveFrom(Batch(Views(), "", []), 0, a);
      while i < |deviceList| && |volumeIDs| != MaxRequestsPerStep
        invariant i <= |deviceList|
        invariant RemoveFrom(Batch(Views(), sgID, volumeIDs), i, a) == result
      {
        sgID, volumeIDs := RemoveAt(i, sgID, volumeIDs, a);
        i := i + 1;
      }
    }

    method RemoveVolumesFromStorageGroup(a: RemoveAnswers) returns (updated: bool)
      requires Valid()
      modifies deviceList
      ensures Valid()
      ensures (Views(), updated) == Remove(old(Views()), a)
    {
      var sgID, volumeIDs := GatherBatch(a);
      if volumeIDs == [] {
        return false;
      }
      var removal := a.removal(sgID, volumeIDs);
      if removal.Abandoned? {
        return removal.updated;
      }
      BatchIsDistinct(Batch(old(Views()), "", []), 0, a);
      RefreshDevices(volumeIDs, removal.msg, a);
      return true;
    }

    method RefreshDevices(volumeIDs: seq<string>, msg: string, a: RemoveAnswers)
      requires Valid()
      requires forall k, l :: 0 <= k < l < |volumeIDs| ==> volumeIDs[k] != volumeIDs[l]
      modifies deviceList
      ensures Valid() && Views() == RefreshAll(old(Views()), volumeIDs, msg, a)
    {
      for k := 0 to |volumeIDs|
        invariant forall j :: 0 <= j < |deviceList| ==>
            deviceList[j].View() == RefreshedIn(old(deviceList[j].View()), volumeIDs[..k], msg, a)
      {
        var i := GetDevice(volumeIDs[k]);
        assert volumeIDs[..k + 1] == volumeIDs[..k] + [volumeIDs[k]];
        if i >= 0 {
          RefreshDevice(deviceList[i], msg, a);
        } else {
          assert forall j :: 0 <= j < |deviceList| ==> deviceList[j].id.deviceID == Views()[j].id.deviceID;
        }
      }
      assert volumeIDs[..|volumeIDs|] == volumeIDs;
    }

    /** The body of the first loop in DeleteVolumes. */
    method CheckDevice(device: CsiDevice, a: DeleteAnswers) returns (eligible: bool)
      modifies device
      ensures device.View() == CheckOne(old(device.View()), a)
      ensures eligible <==> Passes(old(device.View()), a)
    {
      if device.state != DeleteVol {
        return false;
      }
      var sgCount, volumeIdentifier;
      var volumeID := device.id.deviceID;
      if volumeID in a.bulk {
        sgCount, volumeIdentifier := a.bulk[volumeID].groupCount, a.bulk[volumeID].identifier;
      } else {
        var answer := device.GetOrUpdateVolume(false, true, a.fetch(volumeID));
        if answer.Failed? {
          device.UpdateStatus(device.state, answer.msg);
          return false;
        }
        sgCount, volumeIdentifier := |answer.volume.storageGroups|, answer.volume.identifier;
      }
      if sgCount != 0 {
        device.UpdateStatus(DisAssociateSG, "");
        return false;
      }
      if volumeIdentifier != device.identifier {
        device.UpdateStatus(SkipDelete, IdentifierMismatch);
        return false;
      }
      return true;
    }

    /** The last loops of DeleteVolumes: every queue entry named by the range
        gets the outcome of its deletion. */
    method MarkDevices(volumeIDs: seq<string>, err: Option<string>)
      requires Valid()
      requires forall k, l :: 0 <= k < l < |volumeIDs| ==> volumeIDs[k] != volumeIDs[l]
      modifies deviceList
      ensures Valid() && Views() == MarkAll(old(Views()), volumeIDs, err)
    {
      for k := 0 to |volumeIDs|
        invariant forall j :: 0 <= j < |deviceList| ==>
            deviceList[j].View() == Marked(old(deviceList[j].View()), volumeIDs[..k], err)
      {
        ghost var done := volumeIDs[..k];
        assert volumeIDs[..k + 1] == done + [volumeIDs[k]];
        for i := 0 to |deviceList|
          invariant forall j :: i <= j < |deviceList| ==>
              deviceList[j].View() == Marked(old(deviceList[j].View()), done, err)
          invariant forall j :: 0 <= j < i ==>
              deviceList[j].View() == Marked(old(deviceList[j].View()), volumeIDs[..k + 1], err)
        {
          var device := deviceList[i];
          if volumeIDs[k] == device.id.deviceID {
            assert device.id.deviceID !in done;
            if err.Some? {
              device.UpdateStatus(device.state, err.value);
            } else {
              device.UpdateStatus(Deleted, "");
            }
          }
        }
      }
      assert volumeIDs[..|volumeIDs|] == volumeIDs;
    }

    method DeleteVolumes(a: DeleteAnswers) returns (updated: bool, ghost range: DeviceRange)
      requires Valid()
      modifies deviceList
      ensures Valid()
      ensures RangeOK(old(Views()), a, range)
      ensures Views() == DeleteRound(old(Views()), a, range)
      ensures updated <==> Eligible(old(Views()), a) != []
    {
      range := DeviceRange(SymDeviceID("", 0), SymDeviceID("", 0));
      var deviceIDs := CheckDevices(a);
      if deviceIDs == [] {
        return false, range;
      }
      var chosen := ChooseRange(deviceIDs);
      var err := a.delete(chosen.Text());
      var volumeIDs := chosen.GetDeviceIDs();
      MembersDistinct(chosen);
      MarkDevices(volumeIDs, err);
      return true, chosen;
    }

    /** The first loop of DeleteVolumes. */
    method CheckDevices(a: DeleteAnswers) returns (deviceIDs: seq<SymDeviceID>)
      requires Valid()
      modifies deviceList
      ensures Valid()
      ensures Views() == CheckAll(old(Views()), a)
      ensures deviceIDs == Eligible(old(Views()), a)
    {
      deviceIDs := [];
      ghost var before := Views();
      for i := 0 to |deviceList|
        invariant forall j :: 0 <= j < i ==> deviceList[j].View() == CheckOne(before[j], a)
        invariant forall j :: i <= j < |deviceList| ==> deviceList[j].View() == before[j]
        invariant deviceIDs == Eligible(before[..i], a)
      {
        var eligible := CheckDevice(deviceList[i], a);
        EligibleSnoc(before, i, a);
        if eligible {
          deviceIDs := deviceIDs + [deviceList[i].id];
        }
      }
      assert before[..|deviceList|] == before;
    }

    /** Survivors are moved to the front of the list. */
    method Compact() returns (list: seq<CsiDevice?>, i: nat)
      ensures |list| == |deviceList| && Front(list, i, Survivors(deviceList))
    {
      list, i := deviceList, 0;
      ghost var kept := SurvivorsSoFar(deviceList);
      for k := 0 to |deviceList|
        invariant i <= k && |list| == |deviceList|
        invariant forall j :: k <= j < |list| ==> list[j] == deviceList[j]
        invariant Front(list, i, kept[k])
      {
        var dev := list[k];
        if dev.state != Deleted && dev.state != MaxedOut && dev.state != SkipDelete {
          list := list[i := dev];
          i := i + 1;
        }
      }
    }

    /** What is left behind the survivors is cleared and cut off. */
    method PruneDeletionQueue()
      requires Valid()
      modifies this
      ensures Valid()
      ensures Views() == Pruned(old(Views()))
      ensures deviceList == old(Survivors(deviceList))
    {
      var list, i := Compact();
      ghost var survivors := Survivors(deviceList);
      for j := i to |list|
        invariant |list| == |deviceList| && deviceList == old(deviceList)
        invariant Front(list, i, survivors)
      {
        list := list[j := null];
      }
      SurvivorsView(deviceList);
      SurvivorsDistinct(deviceList);
      assert list[..i] == survivors;
      deviceList := list[..i];
    }
  }

  /** One operation of the worker. The range in a deletion is chosen on the way. */
  method Perform(queue: Queue, op: Runs.Op) returns (ghost done: Runs.Op)
    requires queue.Valid()
    modifies queue, queue.deviceList
    ensures queue.Valid() && queue.Views() == Runs.Apply(old(queue.Views()), done)
    ensures if op.DeleteVolumes? then
      done.DeleteVolumes? && done.delete == op.delete && RangeOK(old(queue.Views()), op.delete, done.range)
      else done == op
  {
    done := op;
    match op
    case Enqueue(id, handle, volume) =>
      var device := new CsiDevice(id, handle, volume);
      var _ := queue.QueueDeviceForDeletion(device);
    case CleanupSnapshots(a) => var _ := queue.CleanupSnapshots(a);
    case RemoveFromGroups(a) => var _ := queue.RemoveVolumesFromStorageGroup(a);
    case DeleteVolumes(a, _) =>
      var updated, range := queue.DeleteVolumes(a);
      done := Runs.DeleteVolumes(a, range);
    case Prune => queue.PruneDeletionQueue();
  }

  /** The first i places of the list hold the given devices. */
  ghost predicate Front(list: seq<CsiDevice?>, i: nat, devices: seq<CsiDevice>) {
    i == |devices| <= |list| && forall j :: 0 <= j < i ==> list[j] == devices[j]
  }

  ghost function Survivors(devices: seq<CsiDevice>): seq<CsiDevice>
    reads devices
  {
    if devices == [] then [] else
      var last := devices[|devices| - 1];
      Survivors(devices[..|devices| - 1]) + if Terminal(last.state) then [] else [last]
  }

  lemma SurvivorsSnoc(devices: seq<CsiDevice>, d: CsiDevice)
    ensures Survivors(devices + [d]) == Survivors(devices) + if Terminal(d.state) then [] else [d]
  {
    assert (devices + [d])[..|devices + [d]| - 1] == devices;
  }

  /** The survivors of every front part of a list, each from the one before. */
  lemma {:induction false} SurvivorsSoFar(devices: seq<CsiDevice>) returns (kept: seq<seq<CsiDevice>>)
    ensures |kept| == |devices| + 1 && kept[0] == [] && kept[|devices|] == Survivors(devices)
    ensures forall k :: 0 <= k < |devices| ==>
      kept[k + 1] == kept[k] + if Terminal(devices[k].state) then [] else [devices[k]]
  {
    if devices == [] {
      kept := [[]];
    } else {
      var n := |devices| - 1;
      var init := devices[..n];
      var before := SurvivorsSoFar(init);
      assert devices == init + [devices[n]];
      SurvivorsSnoc(init, devices[n]);
      kept := before + [Survivors(devices)];
      forall k | 0 <= k < |devices|
        ensures kept[k + 1] == kept[k] + if Terminal(devices[k].state) then [] else [devices[k]]
      {
        if k < n { assert init[k] == devices[k] && kept[k] == before[k] && kept[k + 1] == before[k + 1]; }
      }
    }
  }

  /** Survivors are the devices in a non-terminal state, in their old order. */
  lemma {:induction false} SurvivorsView(devices: seq<CsiDevice>)
    ensures ViewsOf(Survivors(devices)) == Pruned(ViewsOf(devices))
  {
    if devices == [] {
    } else {
      var init, last := devices[..|devices| - 1], devices[|devices| - 1];
      SurvivorsView(init);
      assert devices == init + [last];
      SurvivorsSnoc(init, last);
      PrunedSnoc(ViewsOf(init), last.View());
      assert ViewsOf(devices) == ViewsOf(init) + [last.View()];
    }
  }

  lemma {:induction false} SurvivorsMembers(devices: seq<CsiDevice>)
    ensures var kept := Survivors(devices); forall i :: 0 <= i < |kept| ==>
        kept[i] in devices && !Terminal(kept[i].state)
    ensures forall i :: 0 <= i < |devices| && !Terminal(devices[i].state) ==> devices[i] in Survivors(devices)
  {
    if devices == [] {
    } else {
      var init, last := devices[..|devices| - 1], devices[|devices| - 1];
      SurvivorsMembers(init);
      assert devices == init + [last];
      SurvivorsSnoc(init, last);
    }
  }

  predicate Distinct(devices: seq<CsiDevice>) {
    forall i, j :: 0 <= i < j < |devices| ==>
        devices[i] != devices[j] && devices[i].id.deviceID != devices[j].id.deviceID
  }

  lemma {:induction false} SurvivorsDistinct(devices: seq<CsiDevice>)
    requires Distinct(devices)
    ensures Distinct(Survivors(devices))
  {
    if devices == [] {
    } else {
      var init, last := devices[..|devices| - 1], devices[|devices| - 1];
      SurvivorsDistinct(init);
      SurvivorsMembers(init);
      SurvivorsSnoc(init, last);
      assert devices == init + [last];
      var kept := Survivors(init);
      forall i | 0 <= i < |kept| ensures kept[i] != last && kept[i].id.deviceID != last.id.deviceID {
        assert kept[i] in init;
      }
    }
  }

  ghost function ViewsOf(devices: seq<CsiDevice>): seq<Device>
    reads devices
  {
    seq(|devices|, i requires 0 <= i < |devices| reads devices => devices[i].View())
  }
}
