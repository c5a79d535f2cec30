/** Volume handles: a volume name, an array and a device in one string, with a
    second array and device for Metro volumes. */
module VolumeHandle {
  import opened Strings

  /** Crashed: the parser indexes past the end of a list. */
  datatype Parse =
    | Parsed(name: string, symID: string, devID: string, remoteSymID: string, remoteDevID: string)
    | Malformed
    | Crashed

  function ParseCsiID(csiID: string): Parse {
    if csiID == "" then Malformed else
      var parts := Split(csiID, '-');
      var n := |parts|;
      if n < 3 then Malformed else
        var last, second := parts[n - 1], parts[n - 2];
        var isFileSystem := |last| > 5 && |second| < 12;
        if isFileSystem && n < 6 then Malformed else
          var devID := if isFileSystem then Join(parts[n - 5..], "-") else last;
          var symID := if isFileSystem then parts[n - 6] else second;
          ParseCut(csiID, symID, devID)
  }

  /** The second half of the parser: the string has been cut at its last dashes. */
  function ParseCut(csiID: string, symID: string, devID: string): Parse {
    var trailer := |devID| + |symID| + 2;
    if |csiID| <= trailer + 2 then Malformed else
      var name := csiID[..|csiID| - trailer];
      if ':' !in symID then Parsed(name, symID, devID, "", "") else
        var arrays, vols := Split(symID, ':'), Split(devID, ':');
        if |arrays| < 2 || |vols| < 2 then Crashed
        else Parsed(name, arrays[0], vols[0], arrays[1], vols[1])
  }

  /** Block volumes, file systems and snapshots. */
  function Handle(name: string, symID: string, devID: string): string {
    name + "-" + symID + "-" + devID
  }

  function MetroHandle(name: string, symID: string, remoteSymID: string, devID: string, remoteDevID: string): string {
    Handle(name, symID + ":" + remoteSymID, devID + ":" + remoteDevID)
  }

  /** A file system identifier is five groups joined by dashes. */
  function FileSystemID(groups: seq<string>): string {
    Join(groups, "-")
  }

  function Nth(parts: seq<string>, i: nat): string {
    if i < |parts| then parts[i] else ""
  }

  predicate Plain(s: string) { '-' !in s && ':' !in s }

  /** The lengths by which the parser tells devices from file systems. */
  predicate LooksLikeDevice(symID: string, devID: string) { |devID| <= 5 || |symID| >= 12 }

  lemma SplitHandle(name: string, symID: string, devID: string)
    requires '-' !in symID && '-' !in devID
    ensures Split(Handle(name, symID, devID), '-') == Split(name, '-') + [symID, devID]
  {
    SplitSnoc(name, symID, '-');
    SplitSnoc(name + "-" + symID, devID, '-');
  }

  lemma NameOfHandle(name: string, symID: string, devID: string)
    ensures var h := Handle(name, symID, devID);
      |h| == |name| + |symID| + |devID| + 2 && h[..|name|] == name
  {}

  /** What a name, an array part and a device part mean. */
  function Understood(name: string, symID: string, devID: string): Parse {
    var arrays, vols := Split(symID, ':'), Split(devID, ':');
    if |name| < 3 then Malformed
    else if ':' !in symID then Parsed(name, symID, devID, "", "")
    else if ':' !in devID then Crashed
    else Parsed(name, arrays[0], vols[0], Nth(arrays, 1), Nth(vols, 1))
  }

  lemma ParseOfParts(name: string, symID: string, devID: string)
    requires '-' !in symID && '-' !in devID && LooksLikeDevice(symID, devID)
    ensures ParseCsiID(Handle(name, symID, devID)) == Understood(name, symID, devID)
  {
    SplitHandle(name, symID, devID);
    CutIsUnderstood(name, symID, devID);
  }

  lemma CutIsUnderstood(name: string, symID: string, devID: string)
    ensures ParseCut(Handle(name, symID, devID), symID, devID) == Understood(name, symID, devID)
  {
    NameOfHandle(name, symID, devID);
    TwoParts(symID);
    TwoParts(devID);
  }

  lemma {:induction false} TwoParts(s: string)
    ensures |Split(s, ':')| >= 2 <==> ':' in s
  {
    if s == "" {
    } else {
      TwoParts(s[..|s| - 1]);
      assert s == s[..|s| - 1] + [s[|s| - 1]];
    }
  }

  lemma SplitPair(a: string, b: string)
    requires ':' !in a && ':' !in b
    ensures Split(a + ":" + b, ':') == [a, b]
  {
    SplitSingle(a, ':');
    SplitSnoc(a, b, ':');
  }

  // ---- Round trips ----

  lemma DeviceRoundTrip(name: string, symID: string, devID: string)
    requires Plain(symID) && '-' !in devID && LooksLikeDevice(symID, devID)
    ensures ParseCsiID(Handle(name, symID, devID)) ==
            if |name| >= 3 then Parsed(name, symID, devID, "", "") else Malformed
  {
    ParseOfParts(name, symID, devID);
  }

  /** The remote device may be empty: the handle of a degraded Metro volume. */
  lemma MetroRoundTrip(name: string, symID: string, remoteSymID: string, devID: string, remoteDevID: string)
    requires Plain(symID) && Plain(remoteSymID) && Plain(devID) && Plain(remoteDevID)
    requires |devID| + |remoteDevID| <= 4 || |symID| + |remoteSymID| >= 11
    ensures ParseCsiID(MetroHandle(name, symID, remoteSymID, devID, remoteDevID)) ==
      if |name| >= 3 then Parsed(name, symID, devID, remoteSymID, remoteDevID) else Malformed
  {
    var arrays, devices := symID + ":" + remoteSymID, devID + ":" + remoteDevID;
    ParseOfParts(name, arrays, devices);
    SplitPair(symID, remoteSymID);
    SplitPair(devID, remoteDevID);
    assert arrays[|symID|] == ':' && devices[|devID|] == ':';
  }

  /** Joining is undone by splitting, behind anything else. */
  lemma {:induction false} SplitJoin(s: string, groups: seq<string>)
    requires groups != [] && forall i :: 0 <= i < |groups| ==> '-' !in groups[i]
    ensures Split(s + "-" + Join(groups, "-"), '-') == Split(s, '-') + groups
  {
    var init, last := groups[..|groups| - 1], groups[|groups| - 1];
    assert groups == init + [last];
    if |groups| == 1 {
      SplitSnoc(s, last, '-');
    } else {
      SplitJoin(s, init);
      var head := s + "-" + Join(init, "-");
      SplitSnoc(head, last, '-');
      JoinBehind(s, Join(init, "-"), last, '-');
    }
  }

  /** Five groups with lengths by which the parser tells them from a device. */
  predicate LooksLikeFileSystem(groups: seq<string>) {
    |groups| == 5 && (forall i :: 0 <= i < 5 ==> '-' !in groups[i]) && |groups[4]| > 5 && |groups[3]| < 12
  }

  lemma ParseOfGroups(name: string, symID: string, groups: seq<string>)
    requires '-' !in symID && LooksLikeFileSystem(groups)
    ensures ParseCsiID(Handle(name, symID, FileSystemID(groups))) == Understood(name, symID, FileSystemID(groups))
  {
    SplitGroups(name, symID, groups);
    CutIsUnderstood(name, symID, FileSystemID(groups));
  }

  lemma SplitGroups(name: string, symID: string, groups: seq<string>)
    requires |groups| == 5 && '-' !in symID && forall i :: 0 <= i < 5 ==> '-' !in groups[i]
    ensures var parts := Split(Handle(name, symID, FileSystemID(groups)), '-');
      |parts| >= 7 && parts[|parts| - 5..] == groups && parts[|parts| - 6] == symID
      && parts[|parts| - 1] == groups[4] && parts[|parts| - 2] == groups[3]
  {
    SplitSnoc(name, symID, '-');
    SplitJoin(name + "-" + symID, groups);
    LastSix(Split(name, '-'), symID, groups);
  }

  lemma LastSix(front: seq<string>, s: string, groups: seq<string>)
    requires |front| >= 1 && |groups| == 5
    ensures var parts := front + [s] + groups;
      |parts| >= 7 && parts[|parts| - 5..] == groups && parts[|parts| - 6] == s
      && parts[|parts| - 1] == groups[4] && parts[|parts| - 2] == groups[3]
  {}

  lemma FileSystemRoundTrip(name: string, symID: string, groups: seq<string>)
    requires Plain(symID) && LooksLikeFileSystem(groups)
    ensures ParseCsiID(Handle(name, symID, FileSystemID(groups))) ==
      if |name| >= 3 then Parsed(name, symID, FileSystemID(groups), "", "") else Malformed
  {
    ParseOfGroups(name, symID, groups);
  }

  // ---- Injectivity ----

  /** The volumes the driver makes handles for. */
  datatype Volume =
    | Device(name: string, symID: string, devID: string)
    | Metro(name: string, symID: string, remoteSymID: string, devID: string, remoteDevID: string)
    | FileSystem(name: string, symID: string, groups: seq<string>)

  predicate WellFormed(v: Volume) {
    && |v.name| >= 3 && Plain(v.symID)
    && match v
       case Device(_, symID, devID) => '-' !in devID && LooksLikeDevice(symID, devID)
       case Metro(_, symID, remoteSymID, devID, remoteDevID) =>
         && Plain(remoteSymID) && Plain(devID) && Plain(remoteDevID)
         && (|devID| + |remoteDevID| <= 4 || |symID| + |remoteSymID| >= 11)
       case FileSystem(_, _, groups) => LooksLikeFileSystem(groups)
  }

  function HandleOf(v: Volume): string {
    match v
    case Device(name, symID, devID) => Handle(name, symID, devID)
    case Metro(name, symID, remoteSymID, devID, remoteDevID) =>
      MetroHandle(name, symID, remoteSymID, devID, remoteDevID)
    case FileSystem(name, symID, groups) => Handle(name, symID, FileSystemID(groups))
  }

  function PartsOf(v: Volume): Parse {
    match v
    case Device(name, symID, devID) => Parsed(name, symID, devID, "", "")
    case Metro(name, symID, remoteSymID, devID, remoteDevID) => Parsed(name, symID, devID, remoteSymID, remoteDevID)
    case FileSystem(name, symID, groups) => Parsed(name, symID, FileSystemID(groups), "", "")
  }

  /** Parsing inverts all three printers. */
  lemma RoundTrip(v: Volume)
    requires WellFormed(v)
    ensures ParseCsiID(HandleOf(v)) == PartsOf(v)
  {
    match v
    case Device(name, symID, devID) => DeviceRoundTrip(name, symID, devID);
    case Metro(name, symID, remoteSymID, devID, remoteDevID) =>
      MetroRoundTrip(name, symID, remoteSymID, devID, remoteDevID);
    case FileSystem(name, symID, groups) => FileSystemRoundTrip(name, symID, groups);
  }

  /** The last parts of a handle show what kind of volume it is for. */
  lemma KindShows(v: Volume)
    requires WellFormed(v)
    ensures var parts := Split(HandleOf(v), '-');
      var n := |parts|;
      && n >= 3
      && (v.FileSystem? <==> |parts[n - 1]| > 5 && |parts[n - 2]| < 12)
      && (v.Device? ==> ':' !in parts[n - 2])
      && (v.Metro? ==> ':' in parts[n - 2])
      && (v.FileSystem? ==> n >= 7 && parts[n - 5..] == v.groups)
  {
    match v
    case Device(name, symID, devID) => SplitHandle(name, symID, devID);
    case Metro(name, symID, remoteSymID, devID, remoteDevID) =>
      var arrays, devices := symID + ":" + remoteSymID, devID + ":" + remoteDevID;
      SplitHandle(name, arrays, devices);
      assert arrays[|symID|] == ':';
    case FileSystem(name, symID, groups) => SplitGroups(name, symID, groups);
  }

  /** Different volumes, of whatever kinds, have different handles. */
  lemma HandlesAreInjective(v: Volume, w: Volume)
    requires WellFormed(v) && WellFormed(w) && HandleOf(v) == HandleOf(w)
    ensures v == w
  {
    RoundTrip(v);
    RoundTrip(w);
    KindShows(v);
    KindShows(w);
  }

  // ---- Every string ----

  /** The string is a name, an array part and a device part, the last two of a
      shape the parser looks for. */
  ghost predicate CutAs(csiID: string, name: string, symID: string, devID: string) {
    csiID == Handle(name, symID, devID) && '-' !in symID && DevicePart(symID, devID)
  }

  ghost predicate DevicePart(symID: string, devID: string) {
    || ('-' !in devID && LooksLikeDevice(symID, devID))
    || exists groups: seq<string> :: LooksLikeFileSystem(groups) && devID == FileSystemID(groups)
  }

  lemma ParseOfCut(csiID: string, name: string, symID: string, devID: string)
    requires CutAs(csiID, name, symID, devID)
    ensures ParseCsiID(csiID) == Understood(name, symID, devID)
  {
    if '-' !in devID && LooksLikeDevice(symID, devID) {
      ParseOfParts(name, symID, devID);
    } else {
      var groups: seq<string> :| LooksLikeFileSystem(groups) && devID == FileSystemID(groups);
      ParseOfGroups(name, symID, groups);
    }
  }

  lemma CutDevice(csiID: string) returns (name: string)
    requires var parts := Split(csiID, '-');
      |parts| >= 3 && LooksLikeDevice(parts[|parts| - 2], parts[|parts| - 1])
    ensures var parts := Split(csiID, '-');
      CutAs(csiID, name, parts[|parts| - 2], parts[|parts| - 1])
  {
    var parts := Split(csiID, '-');
    PartsAreFree(csiID, '-');
    var rest := TakeLastPart(csiID, '-');
    name := TakeLastPart(rest, '-');
  }

  lemma CutFileSystem(csiID: string) returns (rest: string)
    requires var parts := Split(csiID, '-');
      |parts| >= 6 && !LooksLikeDevice(parts[|parts| - 2], parts[|parts| - 1])
    ensures var parts := Split(csiID, '-');
      var groups := parts[|parts| - 5..];
      LooksLikeFileSystem(groups) && csiID == rest + "-" + FileSystemID(groups) &&
          Split(rest, '-') == parts[..|parts| - 5]
  {
    PartsAreFree(csiID, '-');
    var parts := Split(csiID, '-');
    rest := TakeLastParts(csiID, parts, '-', |parts| - 5);
  }

  /** With nothing in front of the array part the string is too short. */
  lemma SixPartsAreMalformed(csiID: string)
    requires var parts := Split(csiID, '-');
      |parts| == 6 && !LooksLikeDevice(parts[4], parts[5])
    ensures ParseCsiID(csiID) == Malformed
  {
    var parts := Split(csiID, '-');
    var rest := CutFileSystem(csiID);
    assert parts[..1] == [parts[0]];
    SinglePart(rest, '-');
    assert |csiID| == |parts[0]| + 1 + |FileSystemID(parts[1..])|;
  }

  /** A string is malformed unless it can be cut that way. */
  lemma MalformedUnlessCut(csiID: string)
    ensures ParseCsiID(csiID) == Malformed || exists name, symID, devID :: CutAs(csiID, name, symID, devID)
  {
    var parts := Split(csiID, '-');
    var n := |parts|;
    if n < 3 {
    } else if LooksLikeDevice(parts[n - 2], parts[n - 1]) {
      var name := CutDevice(csiID);
      assert CutAs(csiID, name, parts[n - 2], parts[n - 1]);
    } else if n < 6 {
    } else if n == 6 {
      SixPartsAreMalformed(csiID);
    } else {
      PartsAreFree(csiID, '-');
      var rest := CutFileSystem(csiID);
      var name := TakeLastPart(rest, '-');
      assert CutAs(csiID, name, parts[n - 6], FileSystemID(parts[n - 5..]));
    }
  }

  /** The parser crashes exactly on the strings that can be cut into a name of at
      least three characters, an array part with a colon and a device part without. */
  lemma CrashesExactly(csiID: string)
    ensures ParseCsiID(csiID).Crashed? <==>
      exists name, symID, devID ::
        CutAs(csiID, name, symID, devID) && |name| >= 3 && ':' in symID && ':' !in devID
  {
    MalformedUnlessCut(csiID);
    forall name, symID, devID | CutAs(csiID, name, symID, devID)
      ensures ParseCsiID(csiID) == Understood(name, symID, devID)
    {
      ParseOfCut(csiID, name, symID, devID);
    }
  }

  /** It returns parts exactly on those with a name of at least three characters and
      a colon in the device part if there is one in the array part, and they are
      the parts the string was put together from. */
  lemma ParsesExactly(csiID: string)
    ensures ParseCsiID(csiID).Parsed? <==>
      exists name, symID, devID ::
        CutAs(csiID, name, symID, devID) && |name| >= 3 && (':' in symID ==> ':' in devID)
    ensures forall name, symID, devID ::
      CutAs(csiID, name, symID, devID) ==> ParseCsiID(csiID) == Understood(name, symID, devID)
  {
    MalformedUnlessCut(csiID);
    forall name, symID, devID | CutAs(csiID, name, symID, devID)
      ensures ParseCsiID(csiID) == Understood(name, symID, devID)
    {
      ParseOfCut(csiID, name, symID, devID);
    }
  }

  /** An array pair with a single device is such a string. */
  lemma CrashExample(csiID: string)
    requires csiID == "vol-1:2-0001A"
    ensures ParseCsiID(csiID) == Crashed
  {
    var name, symID, devID := csiID[..3], csiID[4..7], csiID[8..];
    assert csiID == Handle(name, symID, devID) && symID[1] == ':';
    ParseOfParts(name, symID, devID);
  }
}
