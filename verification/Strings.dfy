/** The string functions of the Go standard library that names are built from. */
module Strings {

  predicate HasPrefix(s: string, prefix: string) {
    prefix <= s
  }

  predicate HasSuffix(s: string, suffix: string) {
    |suffix| <= |s| && s[|s| - |suffix|..] == suffix
  }

  function TrimPrefix(s: string, prefix: string): string {
    if HasPrefix(s, prefix) then s[|prefix|..] else s
  }

  function TrimSuffix(s: string, suffix: string): string {
    if HasSuffix(s, suffix) then s[..|s| - |suffix|] else s
  }

  predicate OccursAt(s: string, sub: string, k: int) {
    0 <= k && k + |sub| <= |s| && s[k..k + |sub|] == sub
  }

  /** The position of the first occurrence, or -1. */
  function Index(s: string, sub: string): (k: int)
    ensures k == -1 || OccursAt(s, sub, k)
    ensures forall j :: 0 <= j && (k == -1 || j < k) ==> !OccursAt(s, sub, j)
  {
    IndexFrom(s, sub, 0)
  }

  function IndexFrom(s: string, sub: string, from: nat): (k: int)
    ensures k == -1 || (from <= k && OccursAt(s, sub, k))
    ensures forall j :: from <= j && (k == -1 || j < k) ==> !OccursAt(s, sub, j)
    decreases |s| - from
  {
    if from + |sub| > |s| then -1
    else if OccursAt(s, sub, from) then from
    else if from == |s| then -1
    else IndexFrom(s, sub, from + 1)
  }

  // ---- Splitting and joining ----

  function Split(s: string, sep: char): (parts: seq<string>)
    ensures |parts| > 0
  {
    if s == "" then [""] else
      var init := Split(s[..|s| - 1], sep);
      if s[|s| - 1] == sep then init + [""]
      else init[..|init| - 1] + [init[|init| - 1] + [s[|s| - 1]]]
  }

  function Join(parts: seq<string>, sep: string): string {
    if parts == [] then ""
    else if |parts| == 1 then parts[0]
    else Join(parts[..|parts| - 1], sep) + sep + parts[|parts| - 1]
  }

  /** A part without separator is appended to the last part. */
  lemma {:induction false} SplitAppend(s: string, t: string, sep: char)
    requires sep !in t
    ensures Split(s + t, sep) == Split(s, sep)[..|Split(s, sep)| - 1] + [Split(s, sep)[|Split(s, sep)| - 1] + t]
  {
    var parts := Split(s, sep);
    if t == "" {
      assert s + t == s;
      assert parts[|parts| - 1] + t == parts[|parts| - 1];
    } else {
      var t', c := t[..|t| - 1], t[|t| - 1];
      SplitAppend(s, t', sep);
      assert (s + t)[..|s + t| - 1] == s + t';
      assert parts[|parts| - 1] + t == parts[|parts| - 1] + t' + [c];
    }
  }

  /** A separator and a part without separator make one more part. */
  lemma SplitSnoc(s: string, t: string, sep: char)
    requires sep !in t
    ensures Split(s + [sep] + t, sep) == Split(s, sep) + [t]
  {
    assert (s + [sep])[..|s + [sep]| - 1] == s;
    SplitAppend(s + [sep], t, sep);
    assert "" + t == t;
  }

  lemma SplitSingle(t: string, sep: char)
    requires sep !in t
    ensures Split(t, sep) == [t]
  {
    SplitAppend("", t, sep);
    assert "" + t == t;
  }

  /** A longer string has no fewer parts. */
  lemma {:induction false} SplitGrows(s: string, t: string, sep: char)
    ensures |Split(s + t, sep)| >= |Split(s, sep)|
  {
    if t == "" {
      assert s + t == s;
    } else {
      SplitGrows(s, t[..|t| - 1], sep);
      assert (s + t)[..|s + t| - 1] == s + t[..|t| - 1];
    }
  }

  /** No part contains the separator. */
  lemma {:induction false} PartsAreFree(s: string, sep: char)
    ensures forall i :: 0 <= i < |Split(s, sep)| ==> sep !in Split(s, sep)[i]
  {
    if s == "" {
    } else {
      PartsAreFree(s[..|s| - 1], sep);
    }
  }

  /** A single part is the whole string. */
  lemma {:induction false} SinglePart(s: string, sep: char)
    requires |Split(s, sep)| == 1
    ensures Split(s, sep) == [s]
  {
    if s == "" {
    } else {
      SinglePart(s[..|s| - 1], sep);
      assert s == s[..|s| - 1] + [s[|s| - 1]];
    }
  }

  /** The last of several parts can be taken off the string. */
  lemma {:induction false} TakeLastPart(s: string, sep: char) returns (rest: string)
    requires |Split(s, sep)| >= 2
    ensures var parts := Split(s, sep);
      s == rest + [sep] + parts[|parts| - 1] && Split(rest, sep) == parts[..|parts| - 1]
  {
    var init, c := s[..|s| - 1], s[|s| - 1];
    assert s == init + [c];
    if c == sep {
      rest := init;
    } else {
      rest := TakeLastPart(init, sep);
      assert rest + [sep] + Split(init, sep)[|Split(init, sep)| - 1] + [c] == s;
    }
  }

  /** So can all but the first m of them. */
  lemma {:induction false} TakeLastParts(s: string, parts: seq<string>, sep: char, m: nat) returns (rest: string)
    requires parts == Split(s, sep) && 1 <= m < |parts|
    ensures s == rest + [sep] + Join(parts[m..], [sep]) && Split(rest, sep) == parts[..m]
    decreases |parts|
  {
    var head := TakeLastPart(s, sep);
    if m == |parts| - 1 {
      rest := head;
    } else {
      var init := parts[..|parts| - 1];
      rest := TakeLastParts(head, init, sep, m);
      TakeOneMore(s, head, rest, parts, m, sep);
    }
  }

  lemma TakeOneMore(s: string, head: string, rest: string, parts: seq<string>, m: nat, sep: char)
    requires m + 2 <= |parts|
    requires var n := |parts|;
      s == head + [sep] + parts[n - 1] && head == rest + [sep] + Join(parts[..n - 1][m..], [sep])
    ensures s == rest + [sep] + Join(parts[m..], [sep]) && parts[..|parts| - 1][..m] == parts[..m]
  {
    var n := |parts|;
    var taken := parts[m..];
    assert taken[..|taken| - 1] == parts[..n - 1][m..];
    JoinBehind(rest, Join(taken[..|taken| - 1], [sep]), parts[n - 1], sep);
  }

  lemma JoinBehind(s: string, t: string, last: string, sep: char)
    ensures s + [sep] + (t + [sep] + last) == s + [sep] + t + [sep] + last
  {}
}
