/** Names of the storage groups of replicated volume groups, and the identifiers
    of the volume groups. */
module ReplicationNames {
  import opened Options
  import opened Strings

  const ManagedPrefix := "csi-rep-sg-addons-"
  const DefaultPrefix := "csi-addons-vg"
  const MaxStorageGroupNameLength := 64

  predicate IsSpace(c: char) {
    var code := c as int;
    code == 0x20 || 0x09 <= code <= 0x0D || code == 0x85 || code == 0xA0
  }

  function TrimSpace(s: string): string {
    if s != "" && IsSpace(s[0]) then TrimSpace(s[1..])
    else if s != "" && IsSpace(s[|s| - 1]) then TrimSpace(s[..|s| - 1])
    else s
  }

  /** Keep both ends of a string and drop its middle. None: the slice bounds are
      out of range, which crashes. For -1 a single character is left. */
  function TruncateString(s: string, max: int): Option<string> {
    if |s| <= max then Some(s)
    else if max <= -2 then None
    else
      var half := if max == -1 then 0 else max / 2;
      var from := if max % 2 != 0 then |s| - half - 1 else |s| - half;
      if from < 0 then None else Some(s[..half] + s[from..])
  }

  function OrDefault(s: string, default: string): string {
    if TrimSpace(s) == "" then default else TrimSpace(s)
  }

  /** What is left of prefix and namespace in the room they have. */
  function VariablePart(vgPrefix: string, namespace: string, group: string, mode: string): Option<string> {
    var variable := OrDefault(vgPrefix, DefaultPrefix) + "-" + OrDefault(namespace, "default");
    var room := MaxStorageGroupNameLength - (|ManagedPrefix| + |group| + |mode| + 3);
    if |variable| > room then TruncateString(variable, room) else Some(variable)
  }

  function Assemble(part: string, group: string, mode: string): string {
    ManagedPrefix + part + "-" + group + "-" + mode
  }

  /** None: the name cannot be built, the driver crashes. */
  function BuildName(vgPrefix: string, namespace: string, group: string, mode: string): Option<string> {
    match VariablePart(vgPrefix, namespace, group, mode)
    case None => None
    case Some(part) => Some(Assemble(part, group, mode))
  }

  datatype GroupAndMode = GroupAndMode(group: string, mode: string)

  function ParseName(name: string): Option<GroupAndMode> {
    if !HasPrefix(name, ManagedPrefix) then None else
      var parts := Split(name, '-');
      if |parts| < 2 then None else
        var mode, group := parts[|parts| - 1], parts[|parts| - 2];
        if group == "" || mode == "" then None else Some(GroupAndMode(group, mode))
  }

  datatype GroupID = GroupID(symID: string, sgName: string, group: string)

  function Encode(id: GroupID): string {
    id.symID + ":" + id.sgName + ":" + id.group
  }

  function Decode(s: string): Option<GroupID> {
    if s == "" then None else
      var parts := Split(s, ':');
      if |parts| != 3 || parts[0] == "" || parts[1] == "" then None
      else Some(GroupID(parts[0], parts[1], parts[2]))
  }

  // ---- Building ----

  /** What is left of a string that is too long: exactly max characters, its
      beginning and its end. */
  lemma TruncateKeepsEnds(s: string, max: nat)
    requires |s| > max
    ensures var t := TruncateString(s, max);
      t.Some? && |t.value| == max && s[..max / 2] <= t.value && HasSuffix(s, t.value[max / 2..])
  {
    var half := max / 2;
    var from := if max % 2 != 0 then |s| - half - 1 else |s| - half;
    var t := s[..half] + s[from..];
    assert t[half..] == s[from..];
  }

  ghost predicate AllSpace(s: string) {
    forall i :: 0 <= i < |s| ==> IsSpace(s[i])
  }

  /** No white space at either end. */
  predicate Solid(s: string) {
    s == "" || (!IsSpace(s[0]) && !IsSpace(s[|s| - 1]))
  }

  /** Trimming takes off all white space at both ends and nothing else. */
  lemma {:induction false} TrimSpaceExactly(before: string, s: string, after: string)
    requires AllSpace(before) && Solid(s) && AllSpace(after)
    ensures TrimSpace(before + s + after) == s
    decreases |before| + |after|
  {
    var t := before + s + after;
    if before != "" {
      assert t[0] == before[0] && t[1..] == before[1..] + s + after;
      TrimSpaceExactly(before[1..], s, after);
    } else if s == "" && after != "" {
      assert t[0] == after[0] && t[1..] == before + s + after[1..];
      TrimSpaceExactly(before, s, after[1..]);
    } else if after != "" {
      assert t[0] == s[0] && t[|t| - 1] == after[|after| - 1];
      assert t[..|t| - 1] == before + s + after[..|after| - 1];
      TrimSpaceExactly(before, s, after[..|after| - 1]);
    } else {
      assert t == s;
    }
  }

  /** As much of both ends as there is room for; the half of the room, rounded down,
      goes to the beginning. */
  function Shortened(s: string, room: nat): string {
    if |s| <= room then s else s[..room / 2] + s[|s| - (room - room / 2)..]
  }

  /** The name is the managed prefix, the given prefix and namespace without white space
      around them, or their defaults, shortened to what room there is, the group and
      the mode, in this order. */
  lemma NameIs(vgPrefix: string, namespace: string, p: string, n: string, before: string, after: string,
               group: string, mode: string)
    requires AllSpace(before) && AllSpace(after) && Solid(p) && Solid(n) && |group| + |mode| <= 43
    requires vgPrefix == before + p + after && namespace == before + n + after
    ensures var v := (if p == "" then DefaultPrefix else p) + "-" + (if n == "" then "default" else n);
      BuildName(vgPrefix, namespace, group, mode) ==
        Some(ManagedPrefix + Shortened(v, 43 - |group| - |mode|) + "-" + group + "-" + mode)
  {
    DefaultIs(before, p, after, DefaultPrefix);
    DefaultIs(before, n, after, "default");
    VariableIs(vgPrefix, namespace, OrDefault(vgPrefix, DefaultPrefix), OrDefault(namespace, "default"), group, mode);
  }

  lemma VariableIs(vgPrefix: string, namespace: string, p: string, n: string, group: string, mode: string)
    requires OrDefault(vgPrefix, DefaultPrefix) == p && OrDefault(namespace, "default") == n && |group| + |mode| <= 43
    ensures VariablePart(vgPrefix, namespace, group, mode) == Some(Shortened(p + "-" + n, 43 - |group| - |mode|))
  {
    PartIs(p + "-" + n, 43 - |group| - |mode|);
  }

  lemma DefaultIs(before: string, s: string, after: string, default: string)
    requires AllSpace(before) && Solid(s) && AllSpace(after)
    ensures OrDefault(before + s + after, default) == if s == "" then default else s
  {
    TrimSpaceExactly(before, s, after);
  }

  lemma PartIs(v: string, room: nat)
    ensures (if |v| > room then TruncateString(v, room) else Some(v)) == Some(Shortened(v, room))
  {}

  lemma VariableIsLong(vgPrefix: string, namespace: string)
    ensures |OrDefault(vgPrefix, DefaultPrefix) + "-" + OrDefault(namespace, "default")| >= 3
  {}

  /** The name can be built exactly when group and mode take at most 44
      characters together, and respects the limit of 64 exactly when they take
      at most 43. At 44 the truncation leaves one character too many. */
  lemma BuildsExactly(vgPrefix: string, namespace: string, group: string, mode: string)
    ensures BuildName(vgPrefix, namespace, group, mode).Some? <==> |group| + |mode| <= 44
    ensures BuildName(vgPrefix, namespace, group, mode).Some? ==>
      (|BuildName(vgPrefix, namespace, group, mode).value| <= MaxStorageGroupNameLength <==> |group| + |mode| <= 43)
  {
    var variable := OrDefault(vgPrefix, DefaultPrefix) + "-" + OrDefault(namespace, "default");
    var room := MaxStorageGroupNameLength - (|ManagedPrefix| + |group| + |mode| + 3);
    VariableIsLong(vgPrefix, namespace);
    if 0 <= room < |variable| { TruncateKeepsEnds(variable, room); }
  }

  /** A group of 40 characters, for one, yields 65 characters with the mode SYNC and
      a crash with the mode ASYNC. */
  lemma TooLongExample(group: string)
    requires group == "0123456789012345678901234567890123456789"
    ensures BuildName("vg", "ns", group, "SYNC").Some? && |BuildName("vg", "ns", group, "SYNC").value| == 65
    ensures BuildName("vg", "ns", group, "ASYNC") == None
  {
    NameLength("vg", "ns", group, "SYNC");
    BuildsExactly("vg", "ns", group, "ASYNC");
  }

  /** At 44 characters there is room for minus one. */
  lemma NameLength(vgPrefix: string, namespace: string, group: string, mode: string)
    requires |group| + |mode| == 44
    ensures BuildName(vgPrefix, namespace, group, mode).Some?
    ensures |BuildName(vgPrefix, namespace, group, mode).value| == 65
  {
    VariableIsLong(vgPrefix, namespace);
  }

  /** Group and mode are read back from every name that can be built, however
      much of its middle was dropped. */
  lemma NameRoundTrip(vgPrefix: string, namespace: string, group: string, mode: string)
    requires '-' !in group && '-' !in mode && group != "" && mode != "" && |group| + |mode| <= 44
    ensures BuildName(vgPrefix, namespace, group, mode).Some?
    ensures ParseName(BuildName(vgPrefix, namespace, group, mode).value) == Some(GroupAndMode(group, mode))
  {
    BuildsExactly(vgPrefix, namespace, group, mode);
    ParseAssembled(VariablePart(vgPrefix, namespace, group, mode).value, group, mode);
  }

  lemma ParseAssembled(part: string, group: string, mode: string)
    requires '-' !in group && '-' !in mode && group != "" && mode != ""
    ensures ParseName(Assemble(part, group, mode)) == Some(GroupAndMode(group, mode))
  {
    var head := ManagedPrefix + part;
    SplitSnoc(head, group, '-');
    SplitSnoc(head + "-" + group, mode, '-');
    assert HasPrefix(Assemble(part, group, mode), ManagedPrefix);
  }

  /** A name is parsed exactly when it has the managed prefix and ends in a group and a
      mode, both non-empty, behind dashes. */
  lemma ParsesExactly(name: string, group: string, mode: string)
    ensures ParseName(name) == Some(GroupAndMode(group, mode)) <==>
      && HasPrefix(name, ManagedPrefix) && group != "" && mode != "" && '-' !in group && '-' !in mode
      && exists head: string :: name == head + "-" + group + "-" + mode
  {
    if ParseName(name) == Some(GroupAndMode(group, mode)) {
      PartsAreFree(name, '-');
      var rest := TakeLastPart(name, '-');
      PrefixHasThreeParts(name);
      var head := TakeLastPart(rest, '-');
      assert name == head + "-" + group + "-" + mode;
    }
    if '-' !in group && '-' !in mode {
      if head: string :| name == head + "-" + group + "-" + mode {
        SplitSnoc(head, group, '-');
        SplitSnoc(head + "-" + group, mode, '-');
      }
    }
  }

  lemma PrefixHasThreeParts(name: string)
    requires HasPrefix(name, ManagedPrefix)
    ensures |Split(name, '-')| >= 3
  {
    var a, b, rest := name[..3], name[4..7], name[8..];
    assert ManagedPrefix[3] == '-' && ManagedPrefix[7] == '-';
    assert name == a + ['-'] + b + ['-'] + rest;
    assert forall i :: 0 <= i < 3 ==> a[i] == ManagedPrefix[i] && b[i] == ManagedPrefix[i + 4];
    ThreeParts(a, b, rest);
  }

  lemma ThreeParts(a: string, b: string, rest: string)
    requires '-' !in a && '-' !in b
    ensures |Split(a + ['-'] + b + ['-'] + rest, '-')| >= 3
  {
    SplitSingle(a, '-');
    SplitSnoc(a, b, '-');
    var start := a + ['-'] + b + ['-'] + "";
    SplitSnoc(a + ['-'] + b, "", '-');
    SplitGrows(start, rest, '-');
    assert start + rest == a + ['-'] + b + ['-'] + rest;
  }

  // ---- Group identifiers ----

  /** Decoding undoes encoding exactly for parts without colons, with an array
      and a storage group. */
  lemma DecodesExactly(id: GroupID)
    ensures Decode(Encode(id)) == Some(id) <==>
      ':' !in id.symID && ':' !in id.sgName && ':' !in id.group && id.symID != "" && id.sgName != ""
  {
    PartsAreFree(Encode(id), ':');
    if ':' !in id.symID && ':' !in id.sgName && ':' !in id.group {
      SplitSingle(id.symID, ':');
      SplitSnoc(id.symID, id.sgName, ':');
      SplitSnoc(id.symID + ":" + id.sgName, id.group, ':');
    }
  }

  /** Nothing else is decoded. */
  lemma OnlyEncodedIsDecoded(s: string)
    requires Decode(s).Some?
    ensures Encode(Decode(s).value) == s
  {
    var rest := TakeLastPart(s, ':');
    var head := TakeLastPart(rest, ':');
    SinglePart(head, ':');
  }

  /** Together: group and mode survive in the identifier of the volume group. */
  lemma GroupSurvives(symID: string, vgPrefix: string, namespace: string, group: string, mode: string)
    requires '-' !in group && '-' !in mode && group != "" && mode != "" && |group| + |mode| <= 44
    requires symID != "" && ':' !in symID && ':' !in group && ':' !in mode && ':' !in vgPrefix && ':' !in namespace
    ensures var name := BuildName(vgPrefix, namespace, group, mode);
      && name.Some?
      && Decode(Encode(GroupID(symID, name.value, group))) == Some(GroupID(symID, name.value, group))
      && ParseName(name.value) == Some(GroupAndMode(group, mode))
  {
    NameRoundTrip(vgPrefix, namespace, group, mode);
    NoColonAdded(vgPrefix, namespace, group, mode);
    DecodesExactly(GroupID(symID, BuildName(vgPrefix, namespace, group, mode).value, group));
  }

  lemma NoColonAdded(vgPrefix: string, namespace: string, group: string, mode: string)
    requires ':' !in group && ':' !in mode && ':' !in vgPrefix && ':' !in namespace
    requires BuildName(vgPrefix, namespace, group, mode).Some?
    ensures ':' !in BuildName(vgPrefix, namespace, group, mode).value
  {
    var variable := OrDefault(vgPrefix, DefaultPrefix) + "-" + OrDefault(namespace, "default");
    DefaultAddsNoColon(vgPrefix);
    DefaultAddsNoColon(namespace);
    TruncateAddsNothing(variable, MaxStorageGroupNameLength - (|ManagedPrefix| + |group| + |mode| + 3), ':');
    AssembleAddsNoColon(VariablePart(vgPrefix, namespace, group, mode).value, group, mode);
  }

  lemma DefaultAddsNoColon(s: string)
    requires ':' !in s
    ensures ':' !in OrDefault(s, DefaultPrefix) && ':' !in OrDefault(s, "default")
  {
    TrimAddsNothing(s, ':');
  }

  lemma TruncateAddsNothing(s: string, max: int, c: char)
    requires c !in s && TruncateString(s, max).Some?
    ensures c !in TruncateString(s, max).value
  {}

  lemma AssembleAddsNoColon(part: string, group: string, mode: string)
    requires ':' !in part && ':' !in group && ':' !in mode
    ensures ':' !in Assemble(part, group, mode)
  {
    assert ':' !in ManagedPrefix;
  }

  lemma {:induction false} TrimAddsNothing(s: string, c: char)
    requires c !in s
    ensures c !in TrimSpace(s)
  {
    if s != "" && IsSpace(s[0]) { TrimAddsNothing(s[1..], c); }
    else if s != "" && IsSpace(s[|s| - 1]) { TrimAddsNothing(s[..|s| - 1], c); }
  }
}
