/** What one deletion round may delete, and how long a queue can hold devices
    that are ready for deletion. */
module DeletionRounds {
  import opened Options
  import Hex
  import opened DeviceRanges
  import opened DeletionSpec

  /** What the request handler makes of a device identifier. */
  function GetDeviceID(deviceID: string): Option<SymDeviceID> {
    match Hex.ParseDeviceID(deviceID)
    case Parsed(v) => Some(SymDeviceID(deviceID, v))
    case Malformed => None
  }

  predicate CanonicalID(id: SymDeviceID) {
    id.deviceID == Hex.DeviceIDOf(id.intVal)
  }

  ghost predicate AllCanonical(ds: seq<Device>) {
    forall i :: 0 <= i < |ds| ==> CanonicalID(ds[i].id)
  }

  /** The identifiers the array uses, five upper-case hexadecimal digits, are canonical. */
  lemma FiveDigitsAreCanonical(deviceID: string)
    requires Hex.Canonical(deviceID)
    ensures GetDeviceID(deviceID).Some? && CanonicalID(GetDeviceID(deviceID).value)
  {
    Hex.PrintInvertsParse(deviceID);
  }

  lemma {:induction false} EligibleIff(ds: seq<Device>, a: DeleteAnswers, id: SymDeviceID)
    ensures id in Eligible(ds, a) <==> exists i :: 0 <= i < |ds| && ds[i].id == id && Passes(ds[i], a)
  {
    if ds == [] {
    } else {
      var n := |ds| - 1;
      EligibleIff(ds[..n], a, id);
      if i :| 0 <= i < |ds| && ds[i].id == id && Passes(ds[i], a) {
        if i < n { assert ds[..n][i] == ds[i]; }
      }
    }
  }

  lemma MemberIsCovered(range: DeviceRange, name: string) returns (v: int)
    requires name in range.Members()
    ensures range.Covers(v) && name == Hex.DeviceIDOf(v)
  {
    var k :| 0 <= k < |range.Members()| && range.Members()[k] == name;
    v := range.start.intVal + k;
  }

  lemma CoveredIsMember(range: DeviceRange, v: int)
    requires range.Covers(v)
    ensures Hex.DeviceIDOf(v) in range.Members()
  {
    assert range.Members()[v - range.start.intVal] == Hex.DeviceIDOf(v);
  }

  /** Every device the range names was itself checked in this very round. */
  lemma OnlyCheckedDevicesAreDeleted(ds: seq<Device>, a: DeleteAnswers, range: DeviceRange, name: string)
    requires AllCanonical(ds) && Eligible(ds, a) != [] && RangeOK(ds, a, range) && name in range.Members()
    ensures exists i :: 0 <= i < |ds| && ds[i].id.deviceID == name && Passes(ds[i], a)
  {
    var v := MemberIsCovered(range, name);
    var id :| id in Eligible(ds, a) && id.intVal == v;
    EligibleIff(ds, a, id);
  }

  /** Among the queued devices the range names exactly the checked ones it covers. */
  lemma NamedExactly(ds: seq<Device>, a: DeleteAnswers, range: DeviceRange, i: nat)
    requires DistinctIDs(ds) && AllCanonical(ds) && Eligible(ds, a) != [] && RangeOK(ds, a, range) && i < |ds|
    ensures ds[i].id.deviceID in range.Members() <==> Passes(ds[i], a) && range.Covers(ds[i].id.intVal)
  {
    var id := ds[i].id;
    assert CanonicalID(id);
    if id.deviceID in range.Members() {
      OnlyCheckedDevicesAreDeleted(ds, a, range, id.deviceID);
      var j :| 0 <= j < |ds| && ds[j].id.deviceID == id.deviceID && Passes(ds[j], a);
      assert i == j;
      var v := MemberIsCovered(range, id.deviceID);
      Hex.PrintIsInjective(v, id.intVal);
    } else if range.Covers(id.intVal) {
      CoveredIsMember(range, id.intVal);
    }
  }

  /** Exactly the checked devices inside the range get its outcome, and every
      other device is only checked. */
  lemma RoundOutcome(ds: seq<Device>, a: DeleteAnswers, range: DeviceRange, i: nat)
    requires DistinctIDs(ds) && AllCanonical(ds) && RangeOK(ds, a, range) && i < |ds|
    ensures var d, d' := ds[i], DeleteRound(ds, a, range)[i];
      d' == if Passes(d, a) && range.Covers(d.id.intVal) then Outcome(CheckOne(d, a), a.delete(range.Text()))
            else CheckOne(d, a)
  {
    var d := ds[i];
    if Eligible(ds, a) == [] {
      EligibleIff(ds, a, d.id);
    } else {
      NamedExactly(ds, a, range, i);
      CheckKeepsID(d, a);
      assert DeleteRound(ds, a, range)[i] == Marked(CheckOne(d, a), range.Members(), a.delete(range.Text()));
    }
  }

  lemma CheckKeepsID(d: Device, a: DeleteAnswers)
    ensures CheckOne(d, a).id == d.id && CheckOne(d, a).identifier == d.identifier
  {}

  /** Canonical identifiers are needed: whatever the array deletes, a checked
      device in the range hears of it exactly when its identifier is canonical. */
  lemma OutcomeNeedsCanonicalID(ds: seq<Device>, a: DeleteAnswers, range: DeviceRange, i: nat)
    requires i < |ds| && Passes(ds[i], a) && range.Covers(ds[i].id.intVal)
    requires GetDeviceID(ds[i].id.deviceID) == Some(ds[i].id)
    ensures ds[i].id.deviceID in range.Members() <==> CanonicalID(ds[i].id)
  {
    var id := ds[i].id;
    if id.deviceID in range.Members() {
      var v := MemberIsCovered(range, id.deviceID);
      Hex.ParseInvertsPrint(v);
    }
    CoveredIsMember(range, id.intVal);
  }

  /** A device with another identifier is accepted, its volume is deleted on the
      array, and the queue holds it ready for deletion as before. */
  lemma OtherIDsAreNeverMarked(d: Device, a: DeleteAnswers, range: DeviceRange)
    requires Passes(d, a) && GetDeviceID(d.id.deviceID) == Some(d.id) && !CanonicalID(d.id)
    requires RangeOK([d], a, range)
    ensures range.Text() == d.id.deviceID
    ensures DeleteRound([d], a, range) == [CheckOne(d, a)] && CheckOne(d, a).state == DeleteVol
  {
    SingleDevice(d, a);
    EligibleIff([d], a, range.start);
    EligibleIff([d], a, range.end);
    assert range.start == d.id && range.end == d.id;
    OutcomeNeedsCanonicalID([d], a, range, 0);
  }

  /** A lower-case identifier is one of those. */
  lemma LowerCaseIsAccepted()
    ensures GetDeviceID("0001a") == Some(SymDeviceID("0001a", 0x1A)) && !CanonicalID(SymDeviceID("0001a", 0x1A))
  {
    LowerCaseParses();
    LowerCaseIsNotPrinted();
  }

  lemma SingleDevice(d: Device, a: DeleteAnswers)
    requires Passes(d, a)
    ensures Eligible([d], a) == [d.id] && CheckAll([d], a) == [CheckOne(d, a)]
  {
    assert [d][..0] == [];
  }

  lemma LowerCaseParses()
    ensures Hex.ParseDeviceID("0001a") == Hex.Parsed(0x1A)
  {
    assert "0001a"[1..] == "001a";
    assert "001a"[..3] == "001" && "001"[..2] == "00" && "00"[..1] == "0" && "0"[..0] == "";
    assert Hex.Value("0") == 0 && Hex.Value("00") == 0 && Hex.Value("001") == 1;
  }

  lemma LowerCaseIsNotPrinted()
    ensures Hex.DeviceIDOf(0x1A) != "0001a"
  {
    assert Hex.Digits(0x1A) == [Hex.Digit(1)] + [Hex.Digit(10)];
    assert Hex.DeviceIDOf(0x1A)[4] == 'A' != "0001a"[4];
  }

  // ---- Draining ----

  function Weight(d: Device): nat {
    if d.state != DeleteVol then 0
    else if d.nErrors < MaxErrorCount then 1 + MaxErrorCount - d.nErrors
    else 1
  }

  function Measure(ds: seq<Device>): nat {
    if ds == [] then 0 else Weight(ds[0]) + Measure(ds[1..])
  }

  lemma {:induction false} MeasureDrops(ds: seq<Device>, ds': seq<Device>)
    requires |ds'| == |ds| && forall i :: 0 <= i < |ds| ==> Weight(ds'[i]) <= Weight(ds[i])
    ensures Measure(ds') <= Measure(ds)
    ensures (exists i :: 0 <= i < |ds| && Weight(ds'[i]) < Weight(ds[i])) ==> Measure(ds') < Measure(ds)
  {
    if ds == [] {
    } else {
      MeasureDrops(ds[1..], ds'[1..]);
      if i :| 0 <= i < |ds| && Weight(ds'[i]) < Weight(ds[i]) {
        if i > 0 { assert Weight(ds'[1..][i - 1]) < Weight(ds[1..][i - 1]); }
      }
    }
  }

  /** An error whose text is empty would not be counted as one. */
  ghost predicate ErrorsHaveText(a: DeleteAnswers) {
    && (forall id :: a.fetch(id).Failed? ==> a.fetch(id).msg != "")
    && (forall text :: a.delete(text).Some? ==> a.delete(text).value != "")
  }

  predicate Ready(ds: seq<Device>) {
    exists i :: 0 <= i < |ds| && ds[i].state == DeleteVol
  }

  lemma OutcomeWeighsLess(d: Device, a: DeleteAnswers, range: DeviceRange)
    requires ErrorsHaveText(a)
    ensures Weight(CheckOne(d, a)) <= Weight(d)
    ensures d.state == DeleteVol && !Passes(d, a) ==> Weight(CheckOne(d, a)) < Weight(d)
    ensures Passes(d, a) ==> Weight(Outcome(CheckOne(d, a), a.delete(range.Text()))) < Weight(d)
  {}

  /** As long as a device is ready for deletion, a round makes progress,
      whatever the array answers. */
  lemma RoundMakesProgress(ds: seq<Device>, a: DeleteAnswers, range: DeviceRange)
    requires DistinctIDs(ds) && AllCanonical(ds) && RangeOK(ds, a, range) && ErrorsHaveText(a)
    ensures Measure(DeleteRound(ds, a, range)) <= Measure(ds)
    ensures Ready(ds) ==> Measure(DeleteRound(ds, a, range)) < Measure(ds)
  {
    var ds' := DeleteRound(ds, a, range);
    forall i | 0 <= i < |ds| ensures Weight(ds'[i]) <= Weight(ds[i]) {
      RoundOutcome(ds, a, range, i);
      OutcomeWeighsLess(ds[i], a, range);
    }
    if Ready(ds) {
      var i := SomeoneProgresses(ds, a, range);
      RoundOutcome(ds, a, range, i);
      OutcomeWeighsLess(ds[i], a, range);
      assert Weight(ds'[i]) < Weight(ds[i]);
    }
    MeasureDrops(ds, ds');
  }

  lemma SomeoneProgresses(ds: seq<Device>, a: DeleteAnswers, range: DeviceRange) returns (i: nat)
    requires RangeOK(ds, a, range) && Ready(ds)
    ensures i < |ds| && ds[i].state == DeleteVol && (!Passes(ds[i], a) || range.Covers(ds[i].id.intVal))
  {
    i :| 0 <= i < |ds| && ds[i].state == DeleteVol;
    if Passes(ds[i], a) {
      EligibleIff(ds, a, ds[i].id);
      var eligible := Eligible(ds, a);
      var last := eligible[|eligible| - 1];
      EligibleIff(ds, a, last);
      i :| 0 <= i < |ds| && ds[i].id == last && Passes(ds[i], a);
    }
  }

  lemma RoundKeepsIDs(ds: seq<Device>, a: DeleteAnswers, range: DeviceRange)
    ensures |DeleteRound(ds, a, range)| == |ds|
    ensures forall i :: 0 <= i < |ds| ==> DeleteRound(ds, a, range)[i].id == ds[i].id
  {}

  datatype Round = Round(answers: DeleteAnswers, range: DeviceRange)

  ghost predicate RoundsOK(ds: seq<Device>, rounds: seq<Round>)
    decreases |rounds|
  {
    rounds == [] || (
      && RangeOK(ds, rounds[0].answers, rounds[0].range)
      && ErrorsHaveText(rounds[0].answers)
      && RoundsOK(DeleteRound(ds, rounds[0].answers, rounds[0].range), rounds[1..]))
  }

  ghost function AfterRounds(ds: seq<Device>, rounds: seq<Round>): seq<Device>
    requires RoundsOK(ds, rounds)
    decreases |rounds|
  {
    if rounds == [] then ds else AfterRounds(DeleteRound(ds, rounds[0].answers, rounds[0].range), rounds[1..])
  }

  lemma {:induction false} NotReadyWhenZero(ds: seq<Device>)
    requires Measure(ds) == 0
    ensures !Ready(ds)
  {
    if Ready(ds) {
      var i :| 0 <= i < |ds| && ds[i].state == DeleteVol;
      if i > 0 {
        assert ds[1..][i - 1].state == DeleteVol;
        NotReadyWhenZero(ds[1..]);
      }
    }
  }

  /** After at most Measure rounds, whatever the array answers, nothing is left
      waiting to be deleted. */
  lemma {:induction false} QueueDrains(ds: seq<Device>, rounds: seq<Round>)
    requires DistinctIDs(ds) && AllCanonical(ds) && RoundsOK(ds, rounds) && |rounds| >= Measure(ds)
    ensures !Ready(AfterRounds(ds, rounds))
    decreases |rounds|
  {
    if rounds == [] {
      NotReadyWhenZero(ds);
    } else {
      var a, range := rounds[0].answers, rounds[0].range;
      RoundMakesProgress(ds, a, range);
      RoundKeepsIDs(ds, a, range);
      if !Ready(ds) {
        StaysDrained(ds);
      }
      QueueDrains(DeleteRound(ds, a, range), rounds[1..]);
    }
  }

  lemma {:induction false} StaysDrained(ds: seq<Device>)
    requires !Ready(ds)
    ensures Measure(ds) == 0
  {
    if ds == [] {
    } else {
      assert Weight(ds[0]) == 0;
      assert forall i :: 0 <= i < |ds[1..]| ==> ds[1..][i] == ds[i + 1];
      StaysDrained(ds[1..]);
    }
  }

  /** So a queue of n devices drains in at most 101 n rounds. */
  lemma {:induction false} MeasureBound(ds: seq<Device>)
    ensures Measure(ds) <= (MaxErrorCount + 1) * |ds|
  {
    if ds == [] {
    } else {
      MeasureBound(ds[1..]);
    }
  }
}
