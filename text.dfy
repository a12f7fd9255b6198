/**
 * The few JavaScript string operations the caching layer relies on:
 * `startsWith`, `indexOf`, `split` with a non-empty separator, and
 * `replace` of the first occurrence of a literal.
 */
module Text {
  import opened Wrappers

  predicate StartsWith(s: string, prefix: string) {
    |prefix| <= |s| && s[..|prefix|] == prefix
  }

  /** `sep` occurs in `s` at index `j`. */
  predicate OccursAt(s: string, sep: string, j: int) {
    0 <= j && j + |sep| <= |s| && s[j..j + |sep|] == sep
  }

  /** Index of the first occurrence of `sep` in `s` at or after `from`. */
  function IndexFrom(s: string, sep: string, from: nat): (r: Option<nat>)
    requires |sep| > 0
    ensures r.Some? ==> from <= r.value && OccursAt(s, sep, r.value)
    ensures r.Some? ==> forall j :: from <= j < r.value ==> !OccursAt(s, sep, j)
    ensures r.None? ==> forall j :: from <= j ==> !OccursAt(s, sep, j)
    decreases |s| - from
  {
    if from + |sep| > |s| then None
    else if s[from..from + |sep|] == sep then Some(from)
    else IndexFrom(s, sep, from + 1)
  }

  /** `s.indexOf(sep)`, with `None` for -1. */
  function IndexOf(s: string, sep: string): (r: Option<nat>)
    requires |sep| > 0
    ensures r.Some? ==> OccursAt(s, sep, r.value) && forall j :: 0 <= j < r.value ==> !OccursAt(s, sep, j)
    ensures r.None? ==> forall j :: !OccursAt(s, sep, j)
  {
    IndexFrom(s, sep, 0)
  }

  /**
   * `s.split(sep)` for a non-empty separator: the pieces between
   * successive left-to-right occurrences of `sep`; always at least one piece.
   */
  function Split(s: string, sep: string): (parts: seq<string>)
    requires |sep| > 0
    ensures |parts| >= 1
    decreases |s|
  {
    match IndexOf(s, sep)
    case None => [s]
    case Some(i) => [s[..i]] + Split(s[i + |sep|..], sep)
  }

  /** `parts.join(sep)`. */
  function Join(parts: seq<string>, sep: string): string
    decreases |parts|
  {
    if parts == [] then ""
    else if |parts| == 1 then parts[0]
    else parts[0] + sep + Join(parts[1..], sep)
  }

  /** Joining the pieces of a split with the same separator gives back the text. */
  lemma {:induction false} JoinSplit(s: string, sep: string)
    requires |sep| > 0
    ensures Join(Split(s, sep), sep) == s
    decreases |s|
  {
    var found := IndexOf(s, sep);
    if found.Some? {
      var i := found.value;
      var rest := s[i + |sep|..];
      JoinSplit(rest, sep);
      SplitAt(s, sep, i);
      JoinCons(s[..i], Split(rest, sep), sep);
    }
  }

  /** One step of a split: the first piece, then the split of what follows the first separator. */
  lemma SplitAt(s: string, sep: string, i: nat)
    requires |sep| > 0 && IndexOf(s, sep) == Some(i)
    ensures Split(s, sep) == [s[..i]] + Split(s[i + |sep|..], sep)
    ensures s == s[..i] + sep + s[i + |sep|..]
  {
    assert s[i..i + |sep|] == sep;
    assert s == s[..i] + s[i..i + |sep|] + s[i + |sep|..];
  }

  lemma JoinCons(head: string, tail: seq<string>, sep: string)
    requires |tail| >= 1
    ensures Join([head] + tail, sep) == head + sep + Join(tail, sep)
  {
    assert ([head] + tail)[1..] == tail;
  }

  /** No piece of a split contains the separator. */
  lemma {:induction false} SplitPiecesFree(s: string, sep: string)
    requires |sep| > 0
    ensures forall k, j :: 0 <= k < |Split(s, sep)| ==> !OccursAt(Split(s, sep)[k], sep, j)
    decreases |s|
  {
    match IndexOf(s, sep)
    case None =>
    case Some(i) =>
      var rest := s[i + |sep|..];
      SplitPiecesFree(rest, sep);
      var head := s[..i];
      forall j | OccursAt(head, sep, j)
        ensures false
      {
        assert head[j..j + |sep|] == s[j..j + |sep|];
        assert OccursAt(s, sep, j);
      }
      assert Split(s, sep) == [head] + Split(rest, sep);
  }

  /** Number of occurrences of the character `c` in `s`. */
  function Count(s: string, c: char): nat
    decreases |s|
  {
    if s == [] then 0 else (if s[0] == c then 1 else 0) + Count(s[1..], c)
  }

  lemma {:induction false} CountConcat(a: string, b: string, c: char)
    ensures Count(a + b, c) == Count(a, c) + Count(b, c)
    decreases |a|
  {
    if a == [] {
      assert a + b == b;
    } else {
      assert (a + b)[1..] == a[1..] + b;
      CountConcat(a[1..], b, c);
    }
  }

  /** A one-character separator occurs exactly where that character stands. */
  lemma OccursChar(s: string, c: char, j: int)
    ensures OccursAt(s, [c], j) <==> 0 <= j < |s| && s[j] == c
  {
    if 0 <= j < |s| {
      assert s[j..j + 1] == [s[j]];
    }
  }

  lemma {:induction false} CountAbsent(s: string, c: char)
    requires forall j :: !OccursAt(s, [c], j)
    ensures Count(s, c) == 0
    decreases |s|
  {
    if s != [] {
      OccursChar(s, c, 0);
      forall j | OccursAt(s[1..], [c], j)
        ensures false
      {
        OccursChar(s[1..], c, j);
        OccursChar(s, c, j + 1);
      }
      CountAbsent(s[1..], c);
    }
  }

  /** Splitting on one character gives one more piece than there are occurrences of it. */
  lemma {:induction false} SplitCharCount(s: string, c: char)
    ensures |Split(s, [c])| == Count(s, c) + 1
    decreases |s|
  {
    match IndexOf(s, [c])
    case None =>
      CountAbsent(s, c);
    case Some(i) =>
      var rest := s[i + 1..];
      SplitCharCount(rest, c);
      forall j | OccursAt(s[..i], [c], j)
        ensures false
      {
        assert s[..i][j..j + 1] == s[j..j + 1];
        assert OccursAt(s, [c], j);
      }
      CountAbsent(s[..i], c);
      assert s[i..i + 1] == [c];
      assert s == s[..i] + [c] + rest;
      CountConcat(s[..i] + [c], rest, c);
      CountConcat(s[..i], [c], c);
      assert Count([c], c) == 1;
  }

  /** Text without the separator character is a single piece. */
  lemma SplitCharAbsent(a: string, c: char)
    requires c !in a
    ensures Split(a, [c]) == [a]
  {
    forall j | OccursAt(a, [c], j)
      ensures false
    {
      OccursChar(a, c, j);
    }
  }

  /** Splitting at the first occurrence of a one-character separator. */
  lemma SplitCharFirst(a: string, c: char, b: string)
    requires c !in a
    ensures Split(a + [c] + b, [c]) == [a] + Split(b, [c])
  {
    var s := a + [c] + b;
    forall j | 0 <= j < |a|
      ensures !OccursAt(s, [c], j)
    {
      OccursChar(s, c, j);
      assert s[j] == a[j];
    }
    OccursChar(s, c, |a|);
    assert IndexOf(s, [c]) == Some(|a|);
    assert s[..|a|] == a && s[|a| + 1..] == b;
  }

  /** A separator that occurs makes at least two pieces. */
  lemma SplitOccurs(s: string, sep: string, j: int)
    requires |sep| > 0 && OccursAt(s, sep, j)
    ensures |Split(s, sep)| >= 2
  {
    assert IndexOf(s, sep).Some?;
  }

  /** `s.replace(needle, replacement)` with a literal needle: only the first occurrence is replaced. */
  function ReplaceFirst(s: string, needle: string, replacement: string): (r: string)
    requires |needle| > 0
    ensures IndexOf(s, needle).None? ==> r == s
  {
    match IndexOf(s, needle)
    case None => s
    case Some(i) => s[..i] + replacement + s[i + |needle|..]
  }

  /** Replacing a leading literal with the empty string strips that prefix. */
  lemma ReplaceLeading(s: string, prefix: string)
    requires |prefix| > 0 && StartsWith(s, prefix)
    ensures ReplaceFirst(s, prefix, "") == s[|prefix|..]
  {
    assert OccursAt(s, prefix, 0);
  }
}
