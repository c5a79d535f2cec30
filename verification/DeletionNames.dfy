/**
Names that mark a volume for deletion. The controller renames the volume, the
retried request has to recognise the new name, the queue has to accept it and,
after a restart, the scan of the array has to find it again. An authorization
proxy may have put a tenant prefix of up to three characters in front.
*/
module DeletionNames {
  import opened Strings

  const DeletionPrefix := "_DEL"
  const CSIPrefix := "csi"
  const CSIDash := "csi-"
  const CSIMarker := "-csi-"
  const MaxVolIdentifierLength := 64
  const MaxClusterPrefixLength := 3
  const DelSrcTag := "DS"

  predicate VolumeIdentifiersMatch(expected: string, actual: string) {
    if expected == "" || actual == expected then expected != ""
    else HasSuffix(actual, "-" + expected) && |TrimSuffix(actual, "-" + expected)| <= MaxClusterPrefixLength
  }

  predicate DeletionMarkedVolumeMatches(expected: string, actual: string) {
    HasPrefix(actual, DeletionPrefix) && VolumeIdentifiersMatch(expected, TrimPrefix(actual, DeletionPrefix))
  }

  /** The name given by MarkVolumeForDeletion, and the one a retry expects. */
  function Marked(identifier: string): string {
    var name := DeletionPrefix + identifier;
    if |name| > MaxVolIdentifierLength then name[..MaxVolIdentifierLength] else name
  }

  predicate RetryRecognises(volName: string, actual: string) {
    || DeletionMarkedVolumeMatches(volName, actual)
    || actual == Marked(volName)
    || HasSuffix(actual, "-" + Marked(volName))
  }

  /** What deleteVolume makes of the identifier it reads from the array. */
  datatype Decision = DeleteIt | QueueAgain | AssumeDeleted

  function Decide(volName: string, actual: string): Decision {
    if VolumeIdentifiersMatch(volName, actual) then DeleteIt
    else if RetryRecognises(volName, actual) then QueueAgain
    else AssumeDeleted
  }

  datatype DeletionRequest = DeletionRequest(deviceID: string, volumeHandle: string, symID: string)

  predicate IsValid(req: DeletionRequest) {
    && req.deviceID != "" && req.symID != ""
    && if HasPrefix(req.volumeHandle, DeletionPrefix + CSIDash) then true
       else if !HasPrefix(req.volumeHandle, DeletionPrefix) then false
       else var k := Index(TrimPrefix(req.volumeHandle, DeletionPrefix), CSIMarker); 0 < k <= 3
  }

  predicate IsDeletionVolumeForCluster(identifier: string, clusterPrefix: string) {
    if !HasPrefix(identifier, DeletionPrefix) then false else
      var rest := TrimPrefix(identifier, DeletionPrefix);
      if HasPrefix(rest, CSIDash + clusterPrefix) then true
      else var k := Index(rest, CSIMarker + clusterPrefix); 0 < k <= MaxClusterPrefixLength
  }

  /** The name a snapshot source gets instead. */
  function SoftDeleted(volName: string): string {
    var excess := |volName| + |DelSrcTag| - MaxVolIdentifierLength;
    (if excess > 0 then volName[..|volName| - excess] else volName) + "-" + DelSrcTag
  }

  // ---- Matching ----

  /** The identifier on the array is the name, bare or behind a tenant prefix. */
  lemma MatchMeans(expected: string, actual: string)
    ensures VolumeIdentifiersMatch(expected, actual) <==>
      expected != "" &&
          (actual == expected || exists t: string :: |t| <= MaxClusterPrefixLength && actual == t + "-" + expected)
  {
    if VolumeIdentifiersMatch(expected, actual) && actual != expected {
      var t := TrimSuffix(actual, "-" + expected);
      assert actual == t + ("-" + expected) == t + "-" + expected;
    }
    if expected != "" && actual != expected {
      if t: string :| |t| <= MaxClusterPrefixLength && actual == t + "-" + expected {
        assert actual[|actual| - |"-" + expected|..] == "-" + expected;
      }
    }
  }

  /** Character i of w repeated without end. */
  function Cyclic(w: string, i: nat): char
    requires |w| > 0
  {
    if i < |w| then w[i] else Cyclic(w, i - |w|)
  }

  /** The first n characters of e are those of w repeated. */
  ghost predicate Repeats(e: string, w: string, n: nat)
    requires |w| > 0
  {
    |e| >= n && forall i :: 0 <= i < n ==> e[i] == Cyclic(w, i)
  }

  lemma {:induction false} ShiftRepeats(e: string, w: string, n: nat, i: nat)
    requires |w| > 0 && |e| >= n && e[..n] == (w + e)[..n] && i < n
    ensures e[i] == Cyclic(w, i)
    decreases i
  {
    assert e[i] == e[..n][i] == (w + e)[i];
    if i >= |w| { ShiftRepeats(e, w, n, i - |w|); }
  }

  /** A string starts like itself shifted by w exactly when it repeats w. */
  lemma ShiftIffRepeats(e: string, w: string, n: nat)
    requires |w| > 0 && |e| >= n
    ensures e[..n] == (w + e)[..n] <==> Repeats(e, w, n)
  {
    if e[..n] == (w + e)[..n] {
      forall i | 0 <= i < n ensures e[i] == Cyclic(w, i) { ShiftRepeats(e, w, n, i); }
    }
  }

  // ---- A marked volume is no longer live ----

  lemma MarkedHasNoTenant(identifier: string, expected: string)
    ensures !exists t: string :: |t| <= MaxClusterPrefixLength && Marked(identifier) == t + "-" + expected
  {
    var m := Marked(identifier);
    assert m[..4] == DeletionPrefix;
    forall t: string | |t| <= MaxClusterPrefixLength ensures m != t + "-" + expected {
      assert (t + "-" + expected)[|t|] == '-' != m[..4][|t|];
    }
  }

  lemma MarkedIsNameExactly(expected: string, prefix: string)
    ensures Marked(prefix + expected) == expected <==>
      |expected| == MaxVolIdentifierLength && Repeats(expected, DeletionPrefix + prefix, MaxVolIdentifierLength)
  {
    var w, n := DeletionPrefix + prefix, MaxVolIdentifierLength;
    assert DeletionPrefix + (prefix + expected) == w + expected;
    if |expected| == n {
      ShiftIffRepeats(expected, w, n);
      assert expected[..n] == expected;
    }
  }

  /** Marking hides a volume from every request for it, except when its name is
      64 characters of the deletion prefix and the tenant prefix, repeated. */
  lemma MarkedIsLiveExactly(expected: string, prefix: string)
    requires expected != "" && (prefix == "" || exists t: string :: |t| <= MaxClusterPrefixLength && prefix == t + "-")
    ensures VolumeIdentifiersMatch(expected, prefix + expected)
    ensures VolumeIdentifiersMatch(expected, Marked(prefix + expected)) <==>
      |expected| == MaxVolIdentifierLength && Repeats(expected, DeletionPrefix + prefix, MaxVolIdentifierLength)
  {
    MatchMeans(expected, prefix + expected);
    assert "" + expected == expected;
    MatchMeans(expected, Marked(prefix + expected));
    MarkedHasNoTenant(prefix + expected, expected);
    MarkedIsNameExactly(expected, prefix);
  }

  /** So no volume named by the driver is live after it was marked. */
  lemma MarkedIsNotLive(volName: string, actual: string)
    requires HasPrefix(volName, CSIDash) && VolumeIdentifiersMatch(volName, actual)
    ensures !VolumeIdentifiersMatch(volName, Marked(actual))
  {
    MatchMeans(volName, actual);
    var prefix := if actual == volName then "" else actual[..|actual| - |volName|];
    if actual != volName {
      var t: string :| |t| <= MaxClusterPrefixLength && actual == t + "-" + volName;
      assert prefix == t + "-";
    }
    assert prefix + volName == actual;
    MarkedIsLiveExactly(volName, prefix);
    assert volName[0] == 'c' != (DeletionPrefix + prefix)[0];
  }

  // ---- A retry recognises it ----

  lemma RetryRecognisesMarked(volName: string, actual: string)
    requires VolumeIdentifiersMatch(volName, actual)
    requires |actual| <= MaxVolIdentifierLength - |DeletionPrefix| || actual == volName
    ensures RetryRecognises(volName, Marked(actual))
  {
    if |actual| <= MaxVolIdentifierLength - |DeletionPrefix| {
      assert TrimPrefix(Marked(actual), DeletionPrefix) == actual;
    }
  }

  /** All identifiers a retry recognises: the marked name, bare or behind a tenant
      prefix, the name marked and cut off, and that behind anything and a dash. */
  lemma RecognisesExactly(volName: string, actual: string)
    ensures RetryRecognises(volName, actual) <==>
      || (volName != "" && actual == DeletionPrefix + volName)
      || (volName != "" && exists t: string :: |t| <= 3 && actual == DeletionPrefix + (t + "-" + volName))
      || actual == (DeletionPrefix + volName)[..if |volName| > 60 then 64 else |volName| + 4]
      || exists t: string :: actual == t + "-" + Marked(volName)
  {
    assert |volName| <= 60 ==> (DeletionPrefix + volName)[..|volName| + 4] == DeletionPrefix + volName;
    assert Marked(volName) == (DeletionPrefix + volName)[..if |volName| > 60 then 64 else |volName| + 4];
    MarkedMatches(volName, actual);
    SuffixMeans(actual, Marked(volName));
  }

  lemma MarkedMatches(volName: string, actual: string)
    ensures DeletionMarkedVolumeMatches(volName, actual) <==>
      volName != "" &&
        (actual == DeletionPrefix + volName ||
         exists t: string :: |t| <= 3 && actual == DeletionPrefix + (t + "-" + volName))
  {
    var rest := TrimPrefix(actual, DeletionPrefix);
    MatchMeans(volName, rest);
    if HasPrefix(actual, DeletionPrefix) { assert actual == DeletionPrefix + rest; }
    if volName != "" {
      if actual == DeletionPrefix + volName { assert rest == volName; }
      if t: string :| |t| <= 3 && actual == DeletionPrefix + (t + "-" + volName) { assert rest == t + "-" + volName; }
    }
  }

  lemma SuffixMeans(actual: string, s: string)
    ensures HasSuffix(actual, "-" + s) <==> exists t: string :: actual == t + "-" + s
  {
    if HasSuffix(actual, "-" + s) {
      var t := actual[..|actual| - |s| - 1];
      assert actual == t + ("-" + s) == t + "-" + s;
    }
    if t: string :| actual == t + "-" + s { assert actual[|t|..] == "-" + s; }
  }

  /** Behind a tenant prefix, a name that had to be cut off is not recognised,
      but for the tenant csi and a name starting with csi- fifteen times over. */
  lemma RetryRecognisesCutOffExactly(volName: string, tenant: string)
    requires HasPrefix(volName, CSIDash) && |tenant| <= MaxClusterPrefixLength
    requires |tenant + "-" + volName| > MaxVolIdentifierLength - |DeletionPrefix|
    ensures RetryRecognises(volName, Marked(tenant + "-" + volName)) <==>
      tenant == CSIPrefix && Repeats(volName, CSIDash, MaxVolIdentifierLength - |DeletionPrefix|)
  {
    var a, n := tenant + "-" + volName, MaxVolIdentifierLength - |DeletionPrefix|;
    var m := Marked(a);
    assert m == DeletionPrefix + a[..n];
    CutOffIsNotSuffix(volName, m);
    CutOffIsNotTenanted(volName, tenant, n);
    MatchMeans(volName, a[..n]);
    assert TrimPrefix(m, DeletionPrefix) == a[..n];
    assert RetryRecognises(volName, m) <==> |volName| >= n && a[..n] == volName[..n] by {
      assert |volName| == n ==> volName[..n] == volName;
      if |volName| >= n {
        assert Marked(volName) == DeletionPrefix + volName[..n];
        assert m[4..] == a[..n] && Marked(volName)[4..] == volName[..n];
      } else {
        assert |Marked(volName)| < |m|;
      }
    }
    assert CSIPrefix + "-" == CSIDash;
    if |volName| >= n {
      assert a == (tenant + "-") + volName;
      ShiftIffRepeats(volName, tenant + "-", n);
      if Repeats(volName, tenant + "-", n) {
        RepeatsCsi(volName, tenant, n);
      }
    }
  }

  lemma RepeatsCsi(volName: string, tenant: string, n: nat)
    requires HasPrefix(volName, CSIDash) && |tenant| <= MaxClusterPrefixLength && n >= 4
    requires Repeats(volName, tenant + "-", n)
    ensures tenant == CSIPrefix
  {
    var w := tenant + "-";
    assert volName[0] == 'c' && volName[1] == 's' && volName[2] == 'i' && volName[3] == '-';
    assert volName[|tenant|] == Cyclic(w, |tenant|) == '-';
    assert forall i :: 0 <= i < |tenant| ==> tenant[i] == w[i] == Cyclic(w, i);
  }

  lemma CutOffIsNotSuffix(volName: string, m: string)
    requires |m| == MaxVolIdentifierLength && HasPrefix(m, DeletionPrefix) && |volName| >= 57
    ensures !HasSuffix(m, "-" + Marked(volName))
  {
    var s := "-" + Marked(volName);
    if |s| <= |m| {
      var k := |m| - |s|;
      assert k <= 2;
      assert m[k] == DeletionPrefix[k];
      assert m[k..][0] == m[k] && s[0] == '-';
    }
  }

  lemma CutOffIsNotTenanted(volName: string, tenant: string, n: nat)
    requires HasPrefix(volName, CSIDash) && |tenant| <= MaxClusterPrefixLength
    requires 4 < n < |tenant + "-" + volName|
    ensures forall t: string :: |t| <= MaxClusterPrefixLength ==> (tenant + "-" + volName)[..n] != t + "-" + volName
  {
    var a := tenant + "-" + volName;
    forall t: string | |t| <= MaxClusterPrefixLength ensures a[..n] != t + "-" + volName {
      if |t| < |tenant| < n {
        assert a[..n][|tenant|] == '-';
        assert (t + "-" + volName)[|tenant|] == volName[|tenant| - |t| - 1] == CSIDash[|tenant| - |t| - 1];
      }
    }
  }

  /** Everything DeleteVolume does with a name it marked before: it queues the
      volume again, unless the mark was cut off, when it takes it for deleted. */
  lemma RetryDecision(volName: string, tenant: string)
    requires HasPrefix(volName, CSIDash) && |tenant| <= MaxClusterPrefixLength
    requires !(tenant == CSIPrefix && Repeats(volName, CSIDash, MaxVolIdentifierLength - |DeletionPrefix|))
    ensures Decide(volName, volName) == DeleteIt && Decide(volName, Marked(volName)) == QueueAgain
    ensures Decide(volName, tenant + "-" + volName) == DeleteIt
    ensures Decide(volName, Marked(tenant + "-" + volName)) ==
      if |DeletionPrefix + tenant + "-" + volName| <= MaxVolIdentifierLength then QueueAgain else AssumeDeleted
  {
    var a := tenant + "-" + volName;
    MatchMeans(volName, volName);
    MatchMeans(volName, a);
    MarkedIsNotLive(volName, volName);
    MarkedIsNotLive(volName, a);
    RetryRecognisesMarked(volName, volName);
    if |DeletionPrefix + tenant + "-" + volName| <= MaxVolIdentifierLength {
      RetryRecognisesMarked(volName, a);
    } else {
      RetryRecognisesCutOffExactly(volName, tenant);
    }
  }

  /** The tenant abc and a name of 60 characters make such a mark. */
  lemma CutOffExample(volName: string)
    requires volName == CSIDash + "abc-pmax-0123456789-0123456789-0123456789-0123456789-abc"
    ensures |volName| == 60 && Decide(volName, "abc-" + volName) == DeleteIt
    ensures Decide(volName, Marked("abc-" + volName)) == AssumeDeleted
  {
    var tenant := "abc";
    assert HasPrefix(volName, CSIDash) && tenant[0] != CSIPrefix[0];
    RetryDecision(volName, tenant);
    assert tenant + "-" + volName == "abc-" + volName;
  }

  // ---- The queue accepts it and the scan finds it ----

  lemma OccurrenceBoundsIndex(s: string, sub: string, k: nat)
    requires OccursAt(s, sub, k)
    ensures 0 <= Index(s, sub) <= k
  {}

  /** The marker cannot overlap itself, so a tenant prefix hides no earlier one. */
  lemma MarkerIsBehindTenant(tenant: string, marker: string, rest: string)
    requires 1 <= |tenant| <= MaxClusterPrefixLength && HasPrefix(marker, "-csi")
    requires HasPrefix(rest, tenant + marker)
    ensures 0 < Index(rest, marker) <= |tenant|
  {
    assert rest[|tenant|..|tenant| + |marker|] == (tenant + marker)[|tenant|..] == marker;
    OccurrenceBoundsIndex(rest, marker, |tenant|);
    assert rest[|tenant|] == '-';
    assert !OccursAt(rest, marker, 0) by {
      assert rest[0..|marker|][|tenant|] == '-' != marker[|tenant|];
    }
  }

  lemma UnderMark(rest: string, p: string)
    ensures HasPrefix(DeletionPrefix + rest, DeletionPrefix)
    ensures TrimPrefix(DeletionPrefix + rest, DeletionPrefix) == rest
    ensures HasPrefix(rest, p) ==> HasPrefix(DeletionPrefix + rest, DeletionPrefix + p)
  {
    assert (DeletionPrefix + rest)[4..] == rest;
  }

  lemma MarkedIs(actual: string)
    ensures Marked(actual) == DeletionPrefix + if |actual| > 60 then actual[..60] else actual
  {}

  lemma CutOffKeepsPrefix(actual: string, p: string)
    requires HasPrefix(actual, p) && |p| <= 60
    ensures HasPrefix(if |actual| > 60 then actual[..60] else actual, p)
  {}

  /** Accepted and found, bare or behind a tenant prefix. */
  lemma AcceptedAndFound(tenant: string, clusterPrefix: string, rest: string, deviceID: string, symID: string)
    requires |tenant| <= MaxClusterPrefixLength && deviceID != "" && symID != ""
    requires HasPrefix(rest, if tenant == "" then CSIDash + clusterPrefix else tenant + (CSIMarker + clusterPrefix))
    ensures IsValid(DeletionRequest(deviceID, DeletionPrefix + rest, symID))
    ensures IsDeletionVolumeForCluster(DeletionPrefix + rest, clusterPrefix)
  {
    UnderMark(rest, CSIDash);
    if tenant != "" { MarkersBehindTenant(tenant, clusterPrefix, rest); }
  }

  lemma MarkersBehindTenant(tenant: string, clusterPrefix: string, rest: string)
    requires 1 <= |tenant| <= MaxClusterPrefixLength && HasPrefix(rest, tenant + (CSIMarker + clusterPrefix))
    ensures 0 < Index(rest, CSIMarker + clusterPrefix) <= MaxClusterPrefixLength
    ensures 0 < Index(rest, CSIMarker) <= MaxClusterPrefixLength
  {
    assert tenant + CSIMarker <= tenant + (CSIMarker + clusterPrefix);
    MarkerIsBehindTenant(tenant, CSIMarker + clusterPrefix, rest);
    MarkerIsBehindTenant(tenant, CSIMarker, rest);
  }

  /** A volume of this cluster, bare or behind a tenant prefix, is accepted by
      the queue and found by the scan once it is marked, cut off or not. */
  lemma MarkedIsQueuedAndFound(tenant: string, clusterPrefix: string, name: string, deviceID: string, symID: string)
    requires |tenant| <= MaxClusterPrefixLength && |clusterPrefix| <= MaxClusterPrefixLength
    requires deviceID != "" && symID != ""
    ensures
      var volName := CSIDash + clusterPrefix + name;
      var marked := Marked(if tenant == "" then volName else tenant + "-" + volName);
      IsValid(DeletionRequest(deviceID, marked, symID)) && IsDeletionVolumeForCluster(marked, clusterPrefix)
  {
    var volName := CSIDash + clusterPrefix + name;
    var actual := if tenant == "" then volName else tenant + "-" + volName;
    var p := if tenant == "" then CSIDash + clusterPrefix else tenant + (CSIMarker + clusterPrefix);
    assert actual == p + name;
    MarkedIs(actual);
    CutOffKeepsPrefix(actual, p);
    AcceptedAndFound(tenant, clusterPrefix, if |actual| > 60 then actual[..60] else actual, deviceID, symID);
  }

  lemma FirstOccurrence(rest: string, marker: string, p: string)
    requires Index(rest, marker) > 0 && HasPrefix(marker, p)
    ensures HasPrefix(rest, rest[..Index(rest, marker)] + p)
  {
    var k := Index(rest, marker);
    assert rest[k..k + |marker|] == marker;
    assert rest == rest[..k] + marker + rest[k + |marker|..];
  }

  /** Marked, and named for the cluster, bare or behind a tenant prefix. */
  ghost predicate NamedFor(identifier: string, clusterPrefix: string) {
    || HasPrefix(identifier, "_DEL" + "csi-" + clusterPrefix)
    || exists tenant: string :: TenantOf(identifier, clusterPrefix, tenant)
  }

  ghost predicate TenantOf(identifier: string, clusterPrefix: string, tenant: string) {
    1 <= |tenant| <= 3 && HasPrefix(identifier, "_DEL" + (tenant + "-" + "csi-" + clusterPrefix))
  }

  /** The scan finds exactly the marked volumes named for its cluster. */
  lemma FoundExactly(identifier: string, clusterPrefix: string)
    ensures IsDeletionVolumeForCluster(identifier, clusterPrefix) <==> NamedFor(identifier, clusterPrefix)
  {
    if IsDeletionVolumeForCluster(identifier, clusterPrefix) {
      FoundIsNamed(identifier, clusterPrefix);
    }
    if HasPrefix(identifier, DeletionPrefix + CSIDash + clusterPrefix) {
      BehindMark(identifier, CSIDash + clusterPrefix);
      assert DeletionPrefix + (CSIDash + clusterPrefix) == DeletionPrefix + CSIDash + clusterPrefix;
    } else if tenant: string :| TenantOf(identifier, clusterPrefix, tenant) {
      BehindMark(identifier, tenant + (CSIMarker + clusterPrefix));
      assert tenant + "-" + CSIDash + clusterPrefix == tenant + (CSIMarker + clusterPrefix);
      MarkersBehindTenant(tenant, clusterPrefix, TrimPrefix(identifier, DeletionPrefix));
    }
  }

  lemma BehindMark(identifier: string, p: string)
    ensures HasPrefix(identifier, DeletionPrefix + p) <==>
      HasPrefix(identifier, DeletionPrefix) && HasPrefix(TrimPrefix(identifier, DeletionPrefix), p)
  {
    if HasPrefix(identifier, DeletionPrefix) {
      assert identifier == DeletionPrefix + identifier[4..];
    }
  }

  lemma FoundIsNamed(identifier: string, clusterPrefix: string)
    requires IsDeletionVolumeForCluster(identifier, clusterPrefix)
    ensures NamedFor(identifier, clusterPrefix)
  {
    var rest := TrimPrefix(identifier, DeletionPrefix);
    if HasPrefix(rest, CSIDash + clusterPrefix) {
      BehindMark(identifier, CSIDash + clusterPrefix);
      assert DeletionPrefix + (CSIDash + clusterPrefix) == DeletionPrefix + CSIDash + clusterPrefix;
    } else {
      var marker := CSIMarker + clusterPrefix;
      var tenant := rest[..Index(rest, marker)];
      FirstOccurrence(rest, marker, marker);
      BehindMark(identifier, tenant + marker);
      assert tenant + "-" + CSIDash + clusterPrefix == tenant + marker;
      assert TenantOf(identifier, clusterPrefix, tenant);
    }
  }

  /** The queue accepts exactly what a scan for any cluster could find. */
  lemma QueuedExactly(req: DeletionRequest)
    ensures IsValid(req) <==> req.deviceID != "" && req.symID != "" && NamedFor(req.volumeHandle, "")
  {
    var handle := req.volumeHandle;
    FoundExactly(handle, "");
    BehindMark(handle, CSIDash);
    assert CSIDash + "" == CSIDash && CSIMarker + "" == CSIMarker;
  }

  /** Whatever the scan picks up, for any cluster prefix, the queue accepts. */
  lemma FoundIsQueued(identifier: string, clusterPrefix: string, deviceID: string, symID: string)
    requires IsDeletionVolumeForCluster(identifier, clusterPrefix) && deviceID != "" && symID != ""
    ensures IsValid(DeletionRequest(deviceID, identifier, symID))
  {
    var rest := TrimPrefix(identifier, DeletionPrefix);
    assert identifier == DeletionPrefix + rest;
    if HasPrefix(rest, CSIDash + clusterPrefix) {
      AcceptedAndFound("", "", rest, deviceID, symID);
    } else {
      FirstOccurrence(rest, CSIMarker + clusterPrefix, CSIMarker + "");
      AcceptedAndFound(rest[..Index(rest, CSIMarker + clusterPrefix)], "", rest, deviceID, symID);
    }
  }

  /** And it accepts nothing that is not marked. */
  lemma OnlyMarkedIsQueued(req: DeletionRequest)
    requires IsValid(req)
    ensures HasPrefix(req.volumeHandle, DeletionPrefix)
  {}

  /** A volume of another cluster, for one, is left alone. */
  lemma OtherClusterExample()
    ensures !IsDeletionVolumeForCluster("_DELcsi-XYZ-vol1", "ABC")
  {
    FoundExactly("_DELcsi-XYZ-vol1", "ABC");
    var id := "_DELcsi-XYZ-vol1";
    assert (DeletionPrefix + CSIDash + "ABC")[8] == 'A' != id[8];
    forall tenant: string ensures !TenantOf(id, "ABC", tenant) {
      if 1 <= |tenant| <= 3 {
        var p := DeletionPrefix + (tenant + "-" + CSIDash + "ABC");
        assert if |tenant| == 3 then p[8] == 'c' && id[8] == 'X' else p[4 + |tenant|] == '-' != id[4 + |tenant|];
      }
    }
  }

  // ---- Snapshot sources ----

  /** The soft-delete tag is meant to keep the name within 64 characters. The
      dash in front of it was not counted: it does so up to 61 characters. */
  lemma SoftDeletedFitsExactly(volName: string)
    ensures |SoftDeleted(volName)| <= MaxVolIdentifierLength <==> |volName| < MaxVolIdentifierLength - |DelSrcTag|
  {}

  /** It keeps the first 62 characters of the name. */
  lemma SoftDeletedKeepsName(volName: string)
    ensures SoftDeleted(volName) == (if |volName| <= 62 then volName else volName[..62]) + "-DS"
  {}

  /** A retried delete takes a soft-deleted volume of the driver for deleted, but for
      a name of 65 characters that ends like a tag. */
  lemma SoftDeletedIsDone(volName: string)
    requires HasPrefix(volName, CSIDash)
    ensures Decide(volName, SoftDeleted(volName)) ==
      if |volName| == 65 && HasSuffix(volName, "-DS") then DeleteIt else AssumeDeleted
  {
    var actual := SoftDeleted(volName);
    SoftDeletedKeepsName(volName);
    MatchMeans(volName, actual);
    assert actual[0] == 'c' && actual[1] == 's' && actual[2] == 'i' && actual[3] == '-';
    forall t: string | |t| <= MaxClusterPrefixLength ensures actual != t + "-" + volName {
      if |actual| == |t| + 1 + |volName| { assert |t| <= 2 && (t + "-" + volName)[|t|] == '-' != actual[|t|]; }
    }
    assert actual == volName <==> |volName| == 65 && HasSuffix(volName, "-DS") by {
      if |volName| == 65 { assert volName == volName[..62] + volName[62..] && actual[62..] == "-DS"; }
    }
    SoftDeletedIsNoSuffix(volName, actual);
  }

  lemma SoftDeletedIsNoSuffix(volName: string, actual: string)
    requires actual != "" && actual[0] == 'c' && |actual| == (if |volName| <= 62 then |volName| else 62) + 3
    ensures !HasSuffix(actual, "-" + Marked(volName))
  {
    var s := "-" + Marked(volName);
    assert s[0] == '-';
    assert actual[0..] == actual;
  }

  /** A name of 62 characters, for one, gets a tagged name of 65. */
  lemma SoftDeletedExample(volName: string)
    requires volName == "csi-abc-pmax-0123456789-0123456789-0123456789-0123456789-abcde"
    ensures |volName| == 62 && |SoftDeleted(volName)| == 65
  {}
}
