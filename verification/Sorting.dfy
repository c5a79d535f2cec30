/** Stable sorting of a list by a comparison, as the Go library does it. */
module Sorting {

  /** A strict order up to ties. */
  ghost predicate WeakOrder<T(!new)>(less: (T, T) -> bool) {
    && (forall x, y :: less(x, y) ==> !less(y, x))
    && (forall x, y, z :: less(x, z) ==> less(x, y) || less(y, z))
  }

  function Insert<T>(x: T, s: seq<T>, less: (T, T) -> bool): seq<T> {
    if s == [] || !less(s[0], x) then [x] + s else [s[0]] + Insert(x, s[1..], less)
  }

  function Sort<T>(s: seq<T>, less: (T, T) -> bool): seq<T> {
    if s == [] then [] else Insert(s[0], Sort(s[1..], less), less)
  }

  ghost predicate InOrder<T>(s: seq<T>, less: (T, T) -> bool) {
    forall i, j :: 0 <= i < j < |s| ==> !less(s[j], s[i])
  }

  /** Any two elements of the list are apart. */
  ghost predicate Apart<T>(s: seq<T>, apart: (T, T) -> bool) {
    forall i, j :: 0 <= i < j < |s| ==> apart(s[i], s[j]) && apart(s[j], s[i])
  }

  lemma {:induction false} InsertMembers<T(!new)>(x: T, s: seq<T>, less: (T, T) -> bool)
    ensures multiset(Insert(x, s, less)) == multiset(s) + multiset{x}
    ensures forall y :: y in Insert(x, s, less) <==> y in s || y == x
  {
    if s != [] && less(s[0], x) {
      InsertMembers(x, s[1..], less);
      assert s == [s[0]] + s[1..];
    }
  }

  lemma {:induction false} InsertInOrder<T(!new)>(x: T, s: seq<T>, less: (T, T) -> bool)
    requires WeakOrder(less) && InOrder(s, less)
    ensures InOrder(Insert(x, s, less), less)
  {
    if s != [] && less(s[0], x) {
      InsertInOrder(x, s[1..], less);
      InsertMembers(x, s[1..], less);
      var rest := Insert(x, s[1..], less);
      forall j | 0 <= j < |rest| ensures !less(rest[j], s[0]) {
        assert rest[j] in rest;
      }
    }
  }

  lemma {:induction false} InsertApart<T(!new)>(x: T, s: seq<T>, less: (T, T) -> bool, apart: (T, T) -> bool)
    requires Apart(s, apart) && forall y :: y in s ==> apart(x, y) && apart(y, x)
    ensures Apart(Insert(x, s, less), apart)
  {
    if s != [] && less(s[0], x) {
      InsertApart(x, s[1..], less, apart);
      InsertMembers(x, s[1..], less);
      var rest := Insert(x, s[1..], less);
      forall j | 0 <= j < |rest| ensures apart(s[0], rest[j]) && apart(rest[j], s[0]) {
        var y := rest[j];
        assert y in rest;
        if y in s[1..] {
          var k :| 0 <= k < |s[1..]| && s[1..][k] == y;
          assert s[k + 1] == y;
        } else {
          assert y == x && s[0] in s;
        }
      }
    }
  }

  /** Sorting permutes and orders. */
  lemma {:induction false} SortSorts<T(!new)>(s: seq<T>, less: (T, T) -> bool)
    requires WeakOrder(less)
    ensures InOrder(Sort(s, less), less) && multiset(Sort(s, less)) == multiset(s) && |Sort(s, less)| == |s|
  {
    if s == [] {
    } else {
      SortSorts(s[1..], less);
      InsertInOrder(s[0], Sort(s[1..], less), less);
      InsertMembers(s[0], Sort(s[1..], less), less);
      assert s == [s[0]] + s[1..];
      assert |multiset(Sort(s, less))| == |s|;
    }
  }

  lemma {:induction false} SortMembers<T(!new)>(s: seq<T>, less: (T, T) -> bool, x: T)
    ensures x in Sort(s, less) <==> x in s
  {
    if s == [] {
    } else {
      SortMembers(s[1..], less, x);
      InsertMembers(s[0], Sort(s[1..], less), less);
      assert s == [s[0]] + s[1..];
    }
  }

  /** Elements that were pairwise apart still are. */
  lemma {:induction false} SortApart<T(!new)>(s: seq<T>, less: (T, T) -> bool, apart: (T, T) -> bool)
    requires Apart(s, apart)
    ensures Apart(Sort(s, less), apart)
  {
    if s == [] {
    } else {
      SortApart(s[1..], less, apart);
      forall y | y in Sort(s[1..], less) ensures apart(s[0], y) && apart(y, s[0]) {
        SortMembers(s[1..], less, y);
        var j :| 0 <= j < |s[1..]| && s[1..][j] == y;
        assert s[j + 1] == y;
      }
      InsertApart(s[0], Sort(s[1..], less), less, apart);
    }
  }
}
