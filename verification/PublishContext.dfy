/**
The publish context: a map of short strings in which the controller hands the
port identifiers of a volume to the node, cut into chunks, for the local array
and, with Metro, for the remote one.
*/
module PublishContext {
  import opened Options
  import Decimal
  import opened Strings

  const MaxPortIdentifierLength := 128

  datatype Side = Local | Remote

  type Context = map<string, string>

  function BaseKey(side: Side): string {
    if side.Local? then "PORT_IDENTIFIERS" else "REMOTE_PORT_IDENTIFIERS"
  }

  function CountKey(side: Side): string {
    if side.Local? then "PORT_IDENTIFIER_KEYS" else "REMOTE_PORT_IDENTIFIER_KEYS"
  }

  function LunKey(side: Side): string {
    if side.Local? then "LUN_ADDRESS" else "REMOTE_LUN_ADDRESS"
  }

  function ChunkKey(side: Side, i: nat): string {
    BaseKey(side) + "_" + Decimal.Itoa(i)
  }

  /** A missing key reads as the empty string. */
  function Lookup(c: Context, key: string): string {
    if key in c then c[key] else ""
  }

  // ---- Keys never collide ----

  lemma ChunkKeysDiffer(side: Side, i: nat, j: nat)
    requires ChunkKey(side, i) == ChunkKey(side, j)
    ensures i == j
  {
    var n := |BaseKey(side)| + 1;
    assert ChunkKey(side, i)[n..] == Decimal.Itoa(i) && ChunkKey(side, j)[n..] == Decimal.Itoa(j);
    Decimal.ItoaInjective(i, j);
  }

  lemma ChunkKeyIsNoOther(side: Side, i: nat)
    ensures ChunkKey(side, i) != CountKey(side) && ChunkKey(side, i) != LunKey(side)
  {
    var k := if side.Local? then 15 else 22;
    assert ChunkKey(side, i)[k] == BaseKey(side)[k] == 'S' && CountKey(side)[k] == '_';
    assert side.Remote? ==> ChunkKey(side, i)[7] == 'P' && LunKey(side)[7] == 'L';
    assert side.Local? ==> ChunkKey(side, i)[0] == 'P' && LunKey(side)[0] == 'L';
  }

  // ---- Writing ----

  /** Each identifier followed by a comma. */
  function Joined(ports: seq<string>): string {
    if ports == [] then "" else Joined(ports[..|ports| - 1]) + ports[|ports| - 1] + ","
  }

  function KeyCount(text: string): nat {
    |text| / MaxPortIdentifierLength + 1
  }

  function Chunk(text: string, i: nat): string
    requires 1 <= i <= KeyCount(text)
  {
    var end := i * MaxPortIdentifierLength;
    text[(i - 1) * MaxPortIdentifierLength..if end > |text| then |text| else end]
  }

  /** The context after writing the first n chunks of text for side. */
  function WithChunks(c: Context, side: Side, text: string, n: nat): Context
    requires n <= KeyCount(text)
  {
    if n == 0 then c else WithChunks(c, side, text, n - 1)[ChunkKey(side, n) := Chunk(text, n)]
  }

  function Written(c: Context, side: Side, text: string, lun: string): Context {
    WithChunks(c, side, text, KeyCount(text))[CountKey(side) := Decimal.Itoa(KeyCount(text))][LunKey(side) := lun]
  }

  // ---- Reading ----

  function Concatenated(c: Context, side: Side, n: nat): string {
    if n == 0 then "" else Concatenated(c, side, n - 1) + Lookup(c, ChunkKey(side, n))
  }

  function Reassembled(c: Context, side: Side): string {
    if CountKey(side) in c then
      var n := Decimal.Atoi(c[CountKey(side)]);
      Concatenated(c, side, if n < 0 then 0 else n)
    else Lookup(c, BaseKey(side))
  }

  class Publication {
    var values: Context

    constructor (values: Context)
      ensures this.values == values
    {
      this.values := values;
    }

    /** The controller's half; a port whose details cannot be fetched is None. */
    method Update(ports: seq<Option<string>>, lun: string, side: Side) returns (ok: bool)
      modifies this
      ensures ok <==> Fetched(ports) != []
      ensures ok ==> values == Written(old(values), side, Joined(Fetched(ports)), lun)
      ensures !ok ==> values == old(values)
    {
      var text := JoinPorts(ports);
      if text == "" {
        return false;
      }
      var keyCount := |text| / MaxPortIdentifierLength + 1;
      WriteChunks(text, keyCount, side);
      values := values[CountKey(side) := Decimal.Itoa(keyCount)];
      values := values[LunKey(side) := lun];
      return true;
    }

    /** The loop over the chunks in Update. */
    method WriteChunks(text: string, keyCount: nat, side: Side)
      requires keyCount == KeyCount(text)
      modifies this
      ensures values == WithChunks(old(values), side, text, keyCount)
    {
      for i := 1 to keyCount + 1
        invariant values == WithChunks(old(values), side, text, i - 1)
      {
        var start := (i - 1) * MaxPortIdentifierLength;
        var end := i * MaxPortIdentifierLength;
        if end > |text| {
          end := |text|;
        }
        values := values[ChunkKey(side, i) := text[start..end]];
      }
    }

    /** The node's half. */
    method TargetIdentifiers(side: Side) returns (text: string)
      ensures text == Reassembled(values, side)
    {
      text := "";
      if CountKey(side) in values {
        var keyCount := Decimal.Atoi(values[CountKey(side)]);
        var i := 1;
        while i <= keyCount
          invariant 1 <= i && (i <= keyCount + 1 || (i == 1 && keyCount < 0))
          invariant text == Concatenated(values, side, i - 1)
        {
          text := text + Lookup(values, ChunkKey(side, i));
          i := i + 1;
        }
      } else {
        text := Lookup(values, BaseKey(side));
      }
    }
  }

  /** The loop over the ports in Update. */
  method JoinPorts(ports: seq<Option<string>>) returns (text: string)
    ensures text == Joined(Fetched(ports)) && (text == "" <==> Fetched(ports) == [])
  {
    text := "";
    for k := 0 to |ports|
      invariant text == Joined(Fetched(ports[..k])) && (text == "" <==> Fetched(ports[..k]) == [])
    {
      assert ports[..k + 1][..k] == ports[..k];
      if ports[k].Some? {
        JoinedSnoc(Fetched(ports[..k]), ports[k].value);
        text := text + ports[k].value + ",";
      } else {
        assert Fetched(ports[..k + 1]) == Fetched(ports[..k]);
      }
    }
    assert ports[..|ports|] == ports;
  }

  lemma JoinedSnoc(ports: seq<string>, p: string)
    ensures Joined(ports + [p]) == Joined(ports) + p + ","
  {
    assert (ports + [p])[..|ports + [p]| - 1] == ports;
  }

  function Fetched(ports: seq<Option<string>>): seq<string> {
    if ports == [] then [] else
      var last := ports[|ports| - 1];
      Fetched(ports[..|ports| - 1]) + if last.Some? then [last.value] else []
  }

  lemma {:induction false} FetchedInOrder(a: seq<Option<string>>, b: seq<Option<string>>)
    ensures Fetched(a + b) == Fetched(a) + Fetched(b)
  {
    if b == [] {
      assert a + b == a;
    } else {
      var n := |b| - 1;
      FetchedInOrder(a, b[..n]);
      assert (a + b)[..|a + b| - 1] == a + b[..n];
    }
  }

  /** Ports that could not be fetched are left out, all others kept in order. */
  lemma FetchedExactly(a: seq<Option<string>>, p: string, b: seq<Option<string>>)
    ensures Fetched(a + [Some(p)] + b) == Fetched(a) + [p] + Fetched(b)
    ensures Fetched(a + [None] + b) == Fetched(a) + Fetched(b)
    ensures Fetched([]) == []
  {
    FetchedInOrder(a, [Some(p)]);
    FetchedInOrder(a + [Some(p)], b);
    FetchedInOrder(a, [None]);
    FetchedInOrder(a + [None], b);
  }

  // ---- Reading back what was written ----

  lemma {:induction false} ChunksWritten(c: Context, side: Side, text: string, n: nat, i: nat)
    requires 1 <= i <= n <= KeyCount(text)
    ensures ChunkKey(side, i) in WithChunks(c, side, text, n) &&
        WithChunks(c, side, text, n)[ChunkKey(side, i)] == Chunk(text, i)
  {
    if i < n {
      ChunksWritten(c, side, text, n - 1, i);
      if ChunkKey(side, n) == ChunkKey(side, i) { ChunkKeysDiffer(side, n, i); }
    }
  }

  lemma {:induction false} OtherKeysKept(c: Context, side: Side, text: string, n: nat, key: string)
    requires n <= KeyCount(text) && forall i: nat :: key != ChunkKey(side, i)
    ensures key in WithChunks(c, side, text, n) <==> key in c
    ensures Lookup(WithChunks(c, side, text, n), key) == Lookup(c, key)
  {
    if n == 0 {
    } else {
      OtherKeysKept(c, side, text, n - 1, key);
    }
  }

  /** Where the first n chunks end. */
  function ChunksEnd(text: string, n: nat): nat {
    if n * MaxPortIdentifierLength > |text| then |text| else n * MaxPortIdentifierLength
  }

  lemma ChunkSpan(text: string, n: nat)
    requires 1 <= n <= KeyCount(text)
    ensures text[..ChunksEnd(text, n - 1)] + Chunk(text, n) == text[..ChunksEnd(text, n)]
    ensures ChunksEnd(text, KeyCount(text)) == |text|
  {
    var a, b := (n - 1) * MaxPortIdentifierLength, ChunksEnd(text, n);
    assert a <= |text| && ChunksEnd(text, n - 1) == a;
    assert Chunk(text, n) == text[a..b];
  }

  lemma {:induction false} ChunksConcatenate(c: Context, side: Side, text: string, n: nat)
    requires n <= KeyCount(text)
    requires forall i :: 1 <= i <= n ==> Lookup(c, ChunkKey(side, i)) == Chunk(text, i)
    ensures Concatenated(c, side, n) == text[..ChunksEnd(text, n)]
  {
    if n == 0 {
    } else {
      ChunksConcatenate(c, side, text, n - 1);
      ChunkSpan(text, n);
    }
  }

  /** No chunk is longer than 128 characters. */
  lemma ChunksAreShort(text: string, i: nat)
    requires 1 <= i <= KeyCount(text)
    ensures |Chunk(text, i)| <= MaxPortIdentifierLength
  {}

  /** The node reads the text the controller wrote, whatever the context held, from
      chunks of at most 128 characters. */
  lemma ReadsBack(c: Context, side: Side, text: string, lun: string)
    requires |text| < Decimal.MaxInt64
    ensures Reassembled(Written(c, side, text, lun), side) == text
    ensures Lookup(Written(c, side, text, lun), LunKey(side)) == lun
    ensures forall i :: 1 <= i <= KeyCount(text) ==>
      |Lookup(Written(c, side, text, lun), ChunkKey(side, i))| <= 128
  {
    var n := KeyCount(text);
    var c' := Written(c, side, text, lun);
    forall i | 1 <= i <= n ensures Lookup(c', ChunkKey(side, i)) == Chunk(text, i) {
      ChunksWritten(c, side, text, n, i);
      ChunkKeyIsNoOther(side, i);
      ChunksAreShort(text, i);
    }
    ChunksConcatenate(c', side, text, n);
    ChunkSpan(text, n);
    Decimal.AtoiInvertsItoa(n);
    KeysOfOneSide(side);
    assert text[..|text|] == text;
  }

  lemma KeysOfOneSide(side: Side)
    ensures CountKey(side) != LunKey(side)
  {
    assert |CountKey(Local)| == 20 && |LunKey(Local)| == 11 && |CountKey(Remote)| == 27 && |LunKey(Remote)| == 18;
  }

  lemma {:induction false} SameChunksSameText(c: Context, c': Context, side: Side, n: nat)
    requires forall i: nat :: Lookup(c', ChunkKey(side, i)) == Lookup(c, ChunkKey(side, i))
    ensures Concatenated(c', side, n) == Concatenated(c, side, n)
  {
    if n == 0 {
    } else {
      SameChunksSameText(c, c', side, n - 1);
    }
  }

  /** Writing one side leaves what the node reads for the other side alone. */
  lemma OtherSideKept(c: Context, side: Side, text: string, lun: string, other: Side)
    requires other != side
    ensures Reassembled(Written(c, side, text, lun), other) == Reassembled(c, other)
    ensures Lookup(Written(c, side, text, lun), LunKey(other)) == Lookup(c, LunKey(other))
  {
    var c' := Written(c, side, text, lun);
    forall key | key == CountKey(other) || key == LunKey(other) || key == BaseKey(other) ||
        exists i: nat :: key == ChunkKey(other, i)
      ensures Lookup(c', key) == Lookup(c, key) && (key in c' <==> key in c)
    {
      OtherSideKey(side, other, key);
      OtherKeysKept(c, side, text, KeyCount(text), key);
    }
    if CountKey(other) in c {
      var n := Decimal.Atoi(c[CountKey(other)]);
      SameChunksSameText(c, c', other, if n < 0 then 0 else n);
    }
  }

  lemma OtherSideKey(side: Side, other: Side, key: string)
    requires other != side
    requires key == CountKey(other) || key == LunKey(other) || key == BaseKey(other) ||
        exists i: nat :: key == ChunkKey(other, i)
    ensures key != CountKey(side) && key != LunKey(side) && forall i: nat :: key != ChunkKey(side, i)
  {
    assert forall i: nat :: ChunkKey(other, i)[0] == BaseKey(other)[0] && ChunkKey(side, i)[0] == BaseKey(side)[0];
    assert BaseKey(Local)[0] == 'P' && BaseKey(Remote)[0] == 'R';
    assert CountKey(Local)[0] == 'P' && CountKey(Remote)[0] == 'R';
    assert LunKey(Local)[0] == 'L' && LunKey(Remote)[0] == 'R';
  }

  // ---- Splitting the text into targets ----

  /** The identifiers of a text; the piece behind the last comma is dropped. */
  function Targets(text: string): seq<string> {
    var parts := Split(text, ',');
    if |parts| == 1 then [] else parts[..|parts| - 1]
  }

  lemma {:induction false} SplitJoined(ports: seq<string>)
    requires forall i :: 0 <= i < |ports| ==> ',' !in ports[i]
    ensures Split(Joined(ports), ',') == ports + [""]
  {
    if ports == [] {
    } else {
      var init, p := ports[..|ports| - 1], ports[|ports| - 1];
      SplitJoined(init);
      SplitAppend(Joined(init), p, ',');
      assert "" + p == p && init + [p] == ports;
      SplitSnoc(Joined(init) + p, "", ',');
      assert Joined(init) + p + [','] + "" == Joined(ports);
    }
  }

  /** For every list of identifiers without commas, even empty ones, the node
      ends up with exactly the list the controller fetched. */
  lemma TargetsRoundTrip(c: Context, side: Side, ports: seq<string>, lun: string)
    requires forall i :: 0 <= i < |ports| ==> ',' !in ports[i]
    requires ports != [] && |Joined(ports)| < Decimal.MaxInt64
    ensures Targets(Reassembled(Written(c, side, Joined(ports), lun), side)) == ports
  {
    ReadsBack(c, side, Joined(ports), lun);
    SplitJoined(ports);
  }

  /** So it does from a context with a single key, as older controllers write it. */
  lemma SingleKeyRoundTrip(c: Context, side: Side, ports: seq<string>)
    requires forall i :: 0 <= i < |ports| ==> ',' !in ports[i]
    requires CountKey(side) !in c && BaseKey(side) in c && c[BaseKey(side)] == Joined(ports)
    ensures Targets(Reassembled(c, side)) == ports
  {
    SplitJoined(ports);
  }

  /** A count that is no number reads as zero chunks. */
  lemma BadCountReadsNothing(c: Context, side: Side, k: nat)
    requires CountKey(side) in c && k < |c[CountKey(side)]| && !Decimal.IsDigit(c[CountKey(side)][k])
    requires k > 0 || (c[CountKey(side)][0] != '+' && c[CountKey(side)][0] != '-')
    ensures Reassembled(c, side) == ""
  {
    var s := c[CountKey(side)];
    assert k > 0 ==> s[1..][k - 1] == s[k];
  }

  /** Both arrays of a Metro volume in one context, in either order. */
  lemma BothSidesRoundTrip(c: Context, first: Side, ports: seq<string>, lun: string, second: Side,
                           ports': seq<string>, lun': string)
    requires first != second && ports != [] && ports' != []
    requires forall i :: 0 <= i < |ports| ==> ',' !in ports[i]
    requires forall i :: 0 <= i < |ports'| ==> ',' !in ports'[i]
    requires |Joined(ports)| < Decimal.MaxInt64 && |Joined(ports')| < Decimal.MaxInt64
    ensures var both := Written(Written(c, first, Joined(ports), lun), second, Joined(ports'), lun');
      && Targets(Reassembled(both, first)) == ports && Lookup(both, LunKey(first)) == lun
      && Targets(Reassembled(both, second)) == ports' && Lookup(both, LunKey(second)) == lun'
  {
    var c1 := Written(c, first, Joined(ports), lun);
    TargetsRoundTrip(c, first, ports, lun);
    TargetsRoundTrip(c1, second, ports', lun');
    ReadsBack(c, first, Joined(ports), lun);
    ReadsBack(c1, second, Joined(ports'), lun');
    OtherSideKept(c1, second, Joined(ports'), lun', first);
  }

  // ---- What kind of targets they are ----

  /** The Fibre Channel ports of a list, without their 0x. */
  function FibreChannel(targets: seq<string>): seq<string> {
    if targets == [] then [] else
      var last := targets[|targets| - 1];
      FibreChannel(targets[..|targets| - 1]) + if HasPrefix(last, "0x") then [last[2..]] else []
  }

  lemma {:induction false} FibreChannelInOrder(a: seq<string>, b: seq<string>)
    ensures FibreChannel(a + b) == FibreChannel(a) + FibreChannel(b)
  {
    if b == [] {
      assert a + b == a;
    } else {
      var n := |b| - 1;
      FibreChannelInOrder(a, b[..n]);
      assert (a + b)[..|a + b| - 1] == a + b[..n];
    }
  }

  /** A list is read target by target: a port behind its 0x is Fibre Channel, and
      nothing else is. */
  lemma FibreChannelExactly(a: seq<string>, t: string, b: seq<string>)
    ensures FibreChannel(a + ["0x" + t] + b) == FibreChannel(a) + [t] + FibreChannel(b)
    ensures !HasPrefix(t, "0x") ==> FibreChannel(a + [t] + b) == FibreChannel(a) + FibreChannel(b)
    ensures FibreChannel([]) == []
  {
    assert ("0x" + t)[2..] == t;
    FibreChannelInOrder(a, ["0x" + t]);
    FibreChannelInOrder(a + ["0x" + t], b);
    FibreChannelInOrder(a, [t]);
    FibreChannelInOrder(a + [t], b);
  }

  function Prefixed(ports: seq<string>): seq<string> {
    seq(|ports|, i requires 0 <= i < |ports| => "0x" + ports[i])
  }

  lemma {:induction false} PrefixedIsFibreChannel(ports: seq<string>)
    ensures FibreChannel(Prefixed(ports)) == ports
  {
    if ports == [] {
    } else {
      var n := |ports| - 1;
      PrefixedIsFibreChannel(ports[..n]);
      assert Prefixed(ports) == Prefixed(ports[..n]) + ["0x" + ports[n]];
      FibreChannelExactly(Prefixed(ports[..n]), ports[n], []);
      assert Prefixed(ports) + [] == Prefixed(ports);
    }
  }

  /** The node ends up with the Fibre Channel ports the controller wrote, without
      their 0x and in their order. */
  lemma FibreChannelRoundTrip(c: Context, side: Side, ports: seq<string>, lun: string)
    requires forall i :: 0 <= i < |ports| ==> ',' !in ports[i]
    requires ports != [] && |Joined(Prefixed(ports))| < Decimal.MaxInt64
    ensures FibreChannel(Targets(Reassembled(Written(c, side, Joined(Prefixed(ports)), lun), side))) == ports
  {
    TargetsRoundTrip(c, side, Prefixed(ports), lun);
    PrefixedIsFibreChannel(ports);
  }

  /** Which identifiers are looked up as NVMe or as iSCSI targets: all of them,
      or none. */
  method GetArrayTargets(text: string)
    returns (fc: seq<string>, isFC: bool, isNVMe: bool, nvme: seq<string>, iscsi: seq<string>)
    ensures fc == FibreChannel(Targets(text))
    ensures isFC <==> exists i :: 0 <= i < |Targets(text)| && HasPrefix(Targets(text)[i], "0x")
    ensures isNVMe <==> exists i :: 0 <= i < |Targets(text)| && HasPrefix(Targets(text)[i], "nqn")
    ensures nvme == if isNVMe then Targets(text) else []
    ensures iscsi == if !isNVMe && !isFC then Targets(text) else []
  {
    fc, isFC, isNVMe, nvme, iscsi := [], false, false, [], [];
    var targets := Split(text, ',');
    if |targets| > 1 {
      targets := targets[..|targets| - 1];
      for i := 0 to |targets|
        invariant fc == FibreChannel(targets[..i])
        invariant isFC <==> exists j :: 0 <= j < i && HasPrefix(targets[j], "0x")
        invariant isNVMe <==> exists j :: 0 <= j < i && HasPrefix(targets[j], "nqn")
      {
        assert targets[..i + 1][..i] == targets[..i];
        if HasPrefix(targets[i], "0x") {
          isFC := true;
          fc := fc + [targets[i][2..]];
        }
        if HasPrefix(targets[i], "nqn") {
          isNVMe := true;
        }
      }
      assert targets[..|targets|] == targets;
      if isNVMe {
        nvme := targets;
      } else if !isFC {
        iscsi := targets;
      }
    }
  }
}
