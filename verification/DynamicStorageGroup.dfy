/** Choosing the storage group for a new volume: the least filled one of a family
    of names, or a new member of the family. */
module DynamicStorageGroup {
  import Decimal
  import opened Strings

  datatype StorageGroup = StorageGroup(id: string, volumes: int)

  /** The base name, or the base name with a numeric suffix. */
  predicate InFamily(base: string, id: string) {
    id == base || (base != "" && HasPrefix(id, base + "--") && |id| > |base| + 2 && Decimal.AllDigits(id[|base| + 2..]))
  }

  /** The family is the base name and, unless that is empty, the base name behind which
      a double dash and one or more digits stand; nothing else belongs to it. */
  lemma InFamilyExactly(base: string, id: string)
    ensures InFamily(base, id) <==> id == base || (base != "" && exists suffix: string ::
      id == base + "--" + suffix && suffix != "" && forall i :: 0 <= i < |suffix| ==> '0' <= suffix[i] <= '9')
  {
    if HasPrefix(id, base + "--") {
      assert id == base + "--" + id[|base| + 2..];
    }
    if suffix: string :| id == base + "--" + suffix { assert id[|base| + 2..] == suffix; }
  }

  /** The k-th name proposed for a new group. */
  function Proposed(base: string, k: nat): string {
    if k == 0 then base else base + "--" + Decimal.Itoa(k)
  }

  lemma ProposedInjective(base: string, j: nat, k: nat)
    requires Proposed(base, j) == Proposed(base, k)
    ensures j == k
  {
    if j > 0 { assert Proposed(base, j)[|base| + 2..] == Decimal.Itoa(j); }
    if k > 0 { assert Proposed(base, k)[|base| + 2..] == Decimal.Itoa(k); }
    if j > 0 && k > 0 { Decimal.ItoaInjective(j, k); }
  }

  lemma ProposedInFamily(base: string, k: nat)
    requires base != ""
    ensures InFamily(base, Proposed(base, k))
  {
    if k > 0 {
      Decimal.ItoaValue(k);
      assert Proposed(base, k)[|base| + 2..] == Decimal.Itoa(k);
    }
  }

  /** Entry i of the listing has the fewest volumes of the family, is below the
      limit, and is the first such entry. */
  ghost predicate IsBest(listing: seq<StorageGroup>, base: string, limit: int, i: nat)
    requires i < |listing|
  {
    && InFamily(base, listing[i].id) && listing[i].volumes < limit
    && (forall j :: 0 <= j < |listing| && InFamily(base, listing[j].id) ==> listing[i].volumes <= listing[j].volumes)
    && (forall j :: 0 <= j < i && InFamily(base, listing[j].id) ==> listing[i].volumes < listing[j].volumes)
  }

  ghost predicate HasRoom(listing: seq<StorageGroup>, base: string, limit: int) {
    exists i :: 0 <= i < |listing| && InFamily(base, listing[i].id) && listing[i].volumes < limit
  }

  /** The names of the family that are taken. */
  function Taken(listing: seq<StorageGroup>, base: string): set<string> {
    set i | 0 <= i < |listing| && InFamily(base, listing[i].id) :: listing[i].id
  }

  /** The first loop: best is the position of the best group so far, or -1. */
  method ScanListing(listing: seq<StorageGroup>, base: string, limit: int) returns (best: int, counts: map<string, int>)
    ensures counts.Keys == Taken(listing, base)
    ensures -1 <= best < |listing|
    ensures best == -1 <==> !HasRoom(listing, base, limit)
    ensures best >= 0 ==> IsBest(listing, base, limit, best)
  {
    best, counts := -1, map[];
    var least := limit;
    for i := 0 to |listing|
      invariant counts.Keys == set j | 0 <= j < i && InFamily(base, listing[j].id) :: listing[j].id
      invariant -1 <= best < i
      invariant best == -1 ==> least == limit
      invariant best >= 0 ==> InFamily(base, listing[best].id) && least == listing[best].volumes < limit
      invariant forall j :: 0 <= j < i && InFamily(base, listing[j].id) ==> least <= listing[j].volumes
      invariant forall j :: 0 <= j < best && InFamily(base, listing[j].id) ==> least < listing[j].volumes
    {
      var group := listing[i];
      if InFamily(base, group.id) {
        counts := counts[group.id := group.volumes];
        if group.volumes < least {
          least, best := group.volumes, i;
        }
      }
    }
  }

  /** The answer is an existing group exactly when the base name is not empty and
      some group of the family has room; then it is the first least filled one.
      Otherwise it is a name no listed group has, the first one free of the
      sequence base, base--1, base--2 and so on, found after at most as many
      collisions as there are names taken. */
  method GetDynamicSG(listing: seq<StorageGroup>, base: string, limit: int)
    returns (name: string, create: bool, collisions: nat)
    ensures create <==> base == "" || !HasRoom(listing, base, limit)
    ensures !create ==> exists i :: 0 <= i < |listing| && name == listing[i].id && IsBest(listing, base, limit, i)
    ensures create ==> name == Proposed(base, collisions) && name !in Taken(listing, base)
    ensures create ==> forall k :: 0 <= k < collisions ==> Proposed(base, k) in Taken(listing, base)
    ensures create ==> collisions <= |Taken(listing, base)|
    ensures create && base != "" ==> forall i :: 0 <= i < |listing| ==> listing[i].id != name
  {
    var best, counts := ScanListing(listing, base, limit);
    assert best >= 0 ==> listing[best].id in counts.Keys;
    if |counts| == 0 {
      assert base !in counts.Keys;
      if base != "" { FreeNameIsNew(listing, base, 0); }
      return base, true, 0;
    }
    var bestSG := if best == -1 then "" else listing[best].id;
    if bestSG != "" {
      return bestSG, false, 0;
    }
    name, collisions := ProposeName(base, counts);
    if base != "" { FreeNameIsNew(listing, base, collisions); }
    create := true;
  }

  /** The second loop; it ends by counting the names it can collide with. */
  method ProposeName(base: string, counts: map<string, int>) returns (name: string, suffix: nat)
    ensures name == Proposed(base, suffix) && name !in counts
    ensures forall k :: 0 <= k < suffix ==> Proposed(base, k) in counts.Keys
    ensures suffix <= |counts.Keys|
  {
    suffix := 0;
    while true
      invariant forall k :: 0 <= k < suffix ==> Proposed(base, k) in counts.Keys
      invariant suffix <= |counts.Keys|
      decreases |counts.Keys| - suffix
    {
      name := Proposed(base, suffix);
      if name !in counts {
        return;
      }
      suffix := suffix + 1;
      Pigeonhole(base, suffix, counts.Keys);
    }
  }

  lemma {:induction false} Pigeonhole(base: string, n: nat, names: set<string>)
    requires forall k :: 0 <= k < n ==> Proposed(base, k) in names
    ensures n <= |names|
  {
    if n == 0 {
    } else {
      var last := Proposed(base, n - 1);
      forall k | 0 <= k < n - 1 ensures Proposed(base, k) in names - {last} {
        if Proposed(base, k) == last { ProposedInjective(base, k, n - 1); }
      }
      Pigeonhole(base, n - 1, names - {last});
    }
  }

  lemma FreeNameIsNew(listing: seq<StorageGroup>, base: string, k: nat)
    requires base != "" && Proposed(base, k) !in Taken(listing, base)
    ensures forall i :: 0 <= i < |listing| ==> listing[i].id != Proposed(base, k)
  {
    ProposedInFamily(base, k);
  }
}
