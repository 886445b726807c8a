/**
  The few pieces of Go's `strings` package the validator relies on:
  substring search (`strings.Contains`, `strings.Index`), the first piece of
  `strings.Split` on a multi-character separator, and `strings.Split` on a
  single-character separator together with its inverse, joining.
 */
module Strings {
  import opened Wrappers

  /** `sub` occurs in `s` starting at position `i`. */
  predicate OccursAt(s: string, sub: string, i: nat)
  {
    i + |sub| <= |s| && s[i..i + |sub|] == sub
  }

  /** `strings.Contains(s, sub)`. */
  predicate Contains(s: string, sub: string)
  {
    exists i: nat :: i <= |s| && OccursAt(s, sub, i)
  }

  /** Leftmost position at or after `from` where `sub` occurs in `s`. */
  function IndexFrom(s: string, sub: string, from: nat): (r: Option<nat>)
    requires from <= |s|
    ensures r.Some? ==> from <= r.value && OccursAt(s, sub, r.value)
    ensures r.Some? ==> forall j: nat :: from <= j < r.value ==> !OccursAt(s, sub, j)
    ensures r.None? ==> forall j: nat :: from <= j ==> !OccursAt(s, sub, j)
    decreases |s| - from
  {
    if OccursAt(s, sub, from) then Some(from)
    else if from == |s| then None
    else IndexFrom(s, sub, from + 1)
  }

  /** `strings.Index(s, sub)`, with `None` for Go's `-1`. */
  function Index(s: string, sub: string): (r: Option<nat>)
    ensures r.Some? <==> Contains(s, sub)
    ensures r.Some? ==> OccursAt(s, sub, r.value)
    ensures r.Some? ==> forall j: nat :: j < r.value ==> !OccursAt(s, sub, j)
  {
    IndexFrom(s, sub, 0)
  }

  /**
    `strings.Split(s, sep)[0]`: the part of `s` before the leftmost
    occurrence of `sep`, or all of `s` when `sep` does not occur.
   */
  function PrefixBefore(s: string, sep: string): (r: string)
    requires |sep| > 0
    ensures r <= s
    ensures Contains(s, sep) ==> OccursAt(s, sep, |r|)
    ensures !Contains(s, sep) ==> r == s
    ensures forall j: nat :: j < |r| ==> !OccursAt(s, sep, j)
  {
    match Index(s, sep)
    case Some(i) => s[..i]
    case None => s
  }

  /** `c` occurs nowhere in any of `pieces`. */
  predicate Avoids(pieces: seq<string>, c: char)
  {
    forall k :: 0 <= k < |pieces| ==> c !in pieces[k]
  }

  /**
    `strings.Split(s, string(sep))`: the maximal runs of `s` between
    occurrences of `sep`. Like Go, the empty string splits into one empty
    piece, and `n` separators always give `n + 1` pieces.
   */
  function Split(s: string, sep: char): (pieces: seq<string>)
    ensures |pieces| == multiset(s)[sep] + 1
    ensures Avoids(pieces, sep)
    decreases |s|
  {
    match Index(s, [sep])
    case None =>
      NoOccurrenceMeansAbsent(s, sep);
      [s]
    case Some(i) =>
      BeforeFirstMeansAbsent(s, sep, i);
      assert s == s[..i] + [sep] + s[i + 1..];
      [s[..i]] + Split(s[i + 1..], sep)
  }

  /** `strings.Join(pieces, string(sep))`. */
  function Join(pieces: seq<string>, sep: char): (s: string)
    requires |pieces| >= 1
    ensures |s| == |pieces| - 1 + SumLengths(pieces)
  {
    if |pieces| == 1 then pieces[0]
    else pieces[0] + [sep] + Join(pieces[1..], sep)
  }

  /** Total length of all pieces. */
  function SumLengths(pieces: seq<string>): nat
  {
    if |pieces| == 0 then 0 else |pieces[0]| + SumLengths(pieces[1..])
  }

  lemma NoOccurrenceMeansAbsent(s: string, c: char)
    requires forall j: nat :: !OccursAt(s, [c], j)
    ensures c !in s
  {
    forall j | 0 <= j < |s|
      ensures s[j] != c
    {
      assert s[j..j + 1] == [s[j]];
      assert !OccursAt(s, [c], j);
    }
  }

  lemma BeforeFirstMeansAbsent(s: string, c: char, i: nat)
    requires OccursAt(s, [c], i)
    requires forall j: nat :: j < i ==> !OccursAt(s, [c], j)
    ensures i < |s| && s[i] == c
    ensures c !in s[..i]
  {
    assert s[i..i + 1] == [s[i]];
    forall j | 0 <= j < i
      ensures s[..i][j] != c
    {
      assert s[j..j + 1] == [s[j]];
      assert !OccursAt(s, [c], j);
    }
  }

  /** Joining the pieces of a split gives back the original string. */
  lemma {:induction false} JoinSplit(s: string, sep: char)
    ensures Join(Split(s, sep), sep) == s
    decreases |s|
  {
    match Index(s, [sep])
    case None =>
    case Some(i) =>
      BeforeFirstMeansAbsent(s, sep, i);
      var rest := s[i + 1..];
      var tail := Split(rest, sep);
      JoinSplit(rest, sep);
      var p := Split(s, sep);
      assert p == [s[..i]] + tail;
      assert p[0] == s[..i] && p[1..] == tail && |p| >= 2;
      assert Join(p, sep) == s[..i] + [sep] + Join(tail, sep);
      assert s == s[..i] + [sep] + rest;
  }

  /** Splitting a join of separator-free pieces gives back the pieces. */
  lemma {:induction false} SplitJoin(pieces: seq<string>, sep: char)
    requires |pieces| >= 1
    requires Avoids(pieces, sep)
    ensures Split(Join(pieces, sep), sep) == pieces
    decreases |pieces|
  {
    var s := Join(pieces, sep);
    if |pieces| == 1 {
      AbsentMeansNoOccurrence(s, sep);
    } else {
      var head := pieces[0];
      var tail := Join(pieces[1..], sep);
      assert s == head + [sep] + tail;
      FirstSeparator(head, sep, tail);
      assert s[..|head|] == head;
      assert s[|head| + 1..] == tail;
      SplitJoin(pieces[1..], sep);
    }
  }

  lemma AbsentMeansNoOccurrence(s: string, c: char)
    requires c !in s
    ensures Index(s, [c]).None?
  {
    forall j: nat | j + 1 <= |s|
      ensures !OccursAt(s, [c], j)
    {
      assert s[j..j + 1] == [s[j]];
    }
  }

  lemma FirstSeparator(head: string, c: char, tail: string)
    requires c !in head
    ensures Index(head + [c] + tail, [c]) == Some(|head|)
  {
    var s := head + [c] + tail;
    assert s[|head|..|head| + 1] == [c];
    assert OccursAt(s, [c], |head|);
    forall j: nat | j < |head|
      ensures !OccursAt(s, [c], j)
    {
      assert s[j..j + 1] == [s[j]];
      assert s[j] == head[j];
    }
  }
}
