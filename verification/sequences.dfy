/**
 * Searching and splitting sequences: the scan a `SequenceReader` does for a
 * delimiter, and `string.Split` / `string.Join` over one separator character.
 */
module Sequences {
  import opened Wrappers

  /** Index of the first occurrence of `x` in `s`, if any. */
  function IndexOf<T(==)>(s: seq<T>, x: T): (r: Option<nat>)
    ensures r.None? <==> x !in s
    ensures r.Some? ==> r.value < |s| && s[r.value] == x && x !in s[..r.value]
  {
    if |s| == 0 then None
    else if s[0] == x then Some(0)
    else
      var rest := IndexOf(s[1..], x);
      assert s[1..] == s[..|s|][1..];
      if rest.None? then None
      else
        assert s[..rest.value + 1] == [s[0]] + s[1..][..rest.value];
        Some(rest.value + 1)
  }

  /** A hit found in a prefix is still the first hit once more elements arrive. */
  lemma {:induction false} IndexOfExtends<T>(a: seq<T>, b: seq<T>, x: T)
    requires x in a
    ensures IndexOf(a + b, x) == IndexOf(a, x)
  {
    if a[0] != x {
      assert (a + b)[1..] == a[1..] + b;
      IndexOfExtends(a[1..], b, x);
    }
  }

  /** With no hit in `a`, the first hit in `a + b` is the first hit in `b`, shifted by `|a|`. */
  lemma {:induction false} IndexOfSkips<T>(a: seq<T>, b: seq<T>, x: T)
    requires x !in a
    ensures IndexOf(a + b, x) == if x in b then Some(|a| + IndexOf(b, x).value) else None
  {
    if a != [] {
      assert (a + b)[1..] == a[1..] + b;
      IndexOfSkips(a[1..], b, x);
    } else {
      assert a + b == b;
    }
  }

  /** `string.Split(sep)`: every piece, including empty ones, in order. */
  function Split<T(==)>(s: seq<T>, sep: T): (r: seq<seq<T>>)
    ensures |r| >= 1
    ensures forall piece :: piece in r ==> sep !in piece
    decreases |s|
  {
    match IndexOf(s, sep)
    case None => [s]
    case Some(i) => [s[..i]] + Split(s[i + 1..], sep)
  }

  /** `string.Join(sep, pieces)`. */
  function Join<T>(pieces: seq<seq<T>>, sep: T): seq<T>
  {
    if |pieces| == 0 then []
    else if |pieces| == 1 then pieces[0]
    else pieces[0] + [sep] + Join(pieces[1..], sep)
  }

  /** Every occurrence of `x` in `s` replaced by `y`. */
  function Replace<T(==)>(s: seq<T>, x: T, y: T): (r: seq<T>)
    ensures |r| == |s|
    ensures forall i :: 0 <= i < |s| ==> r[i] == if s[i] == x then y else s[i]
  {
    seq(|s|, i requires 0 <= i < |s| => if s[i] == x then y else s[i])
  }

  /** Replacing around one occurrence of the replaced element, with none before it. */
  lemma ReplaceAround<T>(head: seq<T>, tail: seq<T>, x: T, y: T)
    requires x !in head
    ensures Replace(head + [x] + tail, x, y) == head + [y] + Replace(tail, x, y)
  {
    var s := head + [x] + tail;
    var l, r := Replace(s, x, y), head + [y] + Replace(tail, x, y);
    forall i | 0 <= i < |l| ensures l[i] == r[i] {
      if i < |head| {
        assert s[i] == head[i];
      } else if i > |head| {
        assert s[i] == tail[i - |head| - 1];
      }
    }
  }

  /** Joining the pieces of a split with another separator replaces the separator. */
  lemma {:induction false} JoinSplit<T>(s: seq<T>, sep: T, glue: T)
    ensures Join(Split(s, sep), glue) == Replace(s, sep, glue)
    decreases |s|
  {
    match IndexOf(s, sep)
    case None =>
      assert Replace(s, sep, glue) == s;
    case Some(i) =>
      var head, tail := s[..i], s[i + 1..];
      assert s == head + [sep] + tail;
      JoinSplit(tail, sep, glue);
      ReplaceAround(head, tail, sep, glue);
      var pieces := [head] + Split(tail, sep);
      assert pieces[1..] == Split(tail, sep);
  }

  /** Splitting and joining on the same separator gives back the input. */
  lemma SplitJoinRoundTrip<T>(s: seq<T>, sep: T)
    ensures Join(Split(s, sep), sep) == s
  {
    JoinSplit(s, sep, sep);
    assert Replace(s, sep, sep) == s;
  }

  /** How many leading elements of `s` are in `strip`. */
  function LeadingCount<T>(s: seq<T>, strip: set<T>): (k: nat)
    ensures k <= |s|
    ensures forall i :: 0 <= i < k ==> s[i] in strip
    ensures k < |s| ==> s[k] !in strip
    decreases |s|
  {
    if |s| == 0 || s[0] !in strip then 0 else 1 + LeadingCount(s[1..], strip)
  }

  /** How many trailing elements of `s` are in `strip`. */
  function TrailingCount<T>(s: seq<T>, strip: set<T>): (k: nat)
    ensures k <= |s|
    ensures forall i :: |s| - k <= i < |s| ==> s[i] in strip
    ensures k < |s| ==> s[|s| - k - 1] !in strip
    decreases |s|
  {
    if |s| == 0 || s[|s| - 1] !in strip then 0 else 1 + TrailingCount(s[..|s| - 1], strip)
  }

  /**
   * `string.Trim(chars)`: `s` without its leading and trailing elements in
   * `strip`; what remains neither starts nor ends with one.
   */
  function Trim<T>(s: seq<T>, strip: set<T>): (r: seq<T>)
    ensures r != [] ==> r[0] !in strip && r[|r| - 1] !in strip
    ensures var a := LeadingCount(s, strip);
      && a + |r| <= |s| && r == s[a..a + |r|]
      && (forall i :: 0 <= i < a ==> s[i] in strip)
      && (forall i :: a + |r| <= i < |s| ==> s[i] in strip)
  {
    var a := LeadingCount(s, strip);
    var rest := s[a..];
    var b := TrailingCount(rest, strip);
    assert forall i :: a + |rest| - b <= i < |s| ==> s[i] == rest[i - a];
    rest[..|rest| - b]
  }
}
