/**
 * The few Python `str` operations the authentication code relies on:
 * `partition`, `split`, `startswith` and `lower`.
 */
module Strings {
  import opened Wrappers

  /** `sep` occurs in `s` starting at index `i`. */
  predicate OccursAt(s: string, sep: string, i: nat) {
    i + |sep| <= |s| && s[i..i + |sep|] == sep
  }

  /** Python's `sep in s`. */
  predicate Contains(s: string, sep: string) {
    exists i: nat | i <= |s| :: OccursAt(s, sep, i)
  }

  /** The first occurrence of `sep` in `s` at or after `from` (Python's `s.find(sep, from)`). */
  function FindFrom(s: string, sep: string, from: nat): (r: Option<nat>)
    requires from <= |s|
    ensures r.Some? ==> from <= r.value && OccursAt(s, sep, r.value)
    ensures forall j: nat :: from <= j && (r.None? || j < r.value) ==> !OccursAt(s, sep, j)
    decreases |s| - from
  {
    if OccursAt(s, sep, from) then Some(from)
    else if from == |s| then None
    else FindFrom(s, sep, from + 1)
  }

  datatype Partition = Partition(head: string, separator: string, tail: string)

  /**
   * Python's `s.partition(sep)`: split at the first occurrence of `sep`;
   * without one, the whole string is the head and the other two parts are empty.
   * Python rejects an empty separator, hence the precondition.
   */
  function PartitionAt(s: string, sep: string): (r: Partition)
    requires sep != []
    ensures r.head + r.separator + r.tail == s
    ensures r.separator == sep <==> Contains(s, sep)
    ensures r.separator != sep ==> r.separator == [] && r.tail == []
    ensures forall j: nat :: j < |r.head| ==> !OccursAt(s, sep, j)
    ensures !Contains(r.head, sep)
  {
    match FindFrom(s, sep, 0)
    case None => Partition(s, [], [])
    case Some(i) =>
      assert s == s[..i] + sep + s[i + |sep|..];
      NoOccurrenceInPrefix(s, sep, i);
      Partition(s[..i], sep, s[i + |sep|..])
  }

  /** Occurrences inside a prefix are occurrences in the whole string. */
  lemma NoOccurrenceInPrefix(s: string, sep: string, n: nat)
    requires sep != [] && n <= |s|
    requires forall j: nat :: j < n ==> !OccursAt(s, sep, j)
    ensures !Contains(s[..n], sep)
  {
    forall j: nat | j <= n && j + |sep| <= n
      ensures !OccursAt(s[..n], sep, j)
    {
      assert !OccursAt(s, sep, j);
      assert s[..n][j..j + |sep|] == s[j..j + |sep|];
    }
  }

  /**
   * Partition splits at the separator that follows `pre` when no earlier
   * occurrence of it starts inside `pre`.
   */
  lemma PartitionAtFirst(pre: string, sep: string, post: string)
    requires sep != []
    requires !Contains(pre + sep[..|sep| - 1], sep)
    ensures PartitionAt(pre + sep + post, sep) == Partition(pre, sep, post)
  {
    var s := pre + sep + post;
    var t := pre + sep[..|sep| - 1];
    assert s[|pre|..|pre| + |sep|] == sep;
    assert OccursAt(s, sep, |pre|);
    var r := PartitionAt(s, sep);
    assert r.separator == sep;
    var h := |r.head|;
    assert s[h..h + |sep|] == sep by {
      assert s == r.head + sep + r.tail;
    }
    if h < |pre| {
      assert t == s[..|pre| + |sep| - 1];
      assert t[h..h + |sep|] == s[h..h + |sep|];
      assert OccursAt(t, sep, h);
    }
    assert h == |pre|;
    assert r.head == s[..h] == pre;
    assert r.tail == s[h + |sep|..] == post;
  }

  /** A separator whose last character does not appear in `s` does not occur in `s`. */
  lemma AbsentLastChar(s: string, sep: string)
    requires sep != [] && sep[|sep| - 1] !in s
    ensures !Contains(s, sep)
  {
    forall j: nat | j <= |s|
      ensures !OccursAt(s, sep, j)
    {
      if j + |sep| <= |s| {
        assert s[j..j + |sep|][|sep| - 1] == s[j + |sep| - 1] != sep[|sep| - 1];
      }
    }
  }

  /** Python's `s.startswith(prefix)`. */
  predicate StartsWith(s: string, prefix: string) {
    |prefix| <= |s| && s[..|prefix|] == prefix
  }

  /** Python's `c.join(parts)` for a one-character separator. */
  function Join(parts: seq<string>, c: char): string
    requires |parts| >= 1
  {
    if |parts| == 1 then parts[0] else parts[0] + [c] + Join(parts[1..], c)
  }

  /**
   * Python's `s.split(c)` for a one-character separator: at least one part,
   * none containing `c`, and joining the parts with `c` gives `s` back.
   */
  function Split(s: string, c: char): (parts: seq<string>)
    ensures |parts| >= 1
    ensures forall k :: 0 <= k < |parts| ==> c !in parts[k]
    ensures Join(parts, c) == s
  {
    if s == [] then [[]]
    else
      var rest := Split(s[1..], c);
      if s[0] == c then
        assert ([[]] + rest)[1..] == rest;
        [[]] + rest
      else
        var parts := [[s[0]] + rest[0]] + rest[1..];
        assert parts[1..] == rest[1..];
        assert |rest| > 1 ==> Join(rest, c) == rest[0] + [c] + Join(rest[1..], c);
        parts
  }

  /** Splitting is compositional at a separator: `split(x + c + t) == split(x) + split(t)`. */
  lemma {:induction false} SplitAppend(x: string, c: char, t: string)
    ensures Split(x + [c] + t, c) == Split(x, c) + Split(t, c)
  {
    if x == [] {
      assert x + [c] + t == [c] + t;
      assert ([c] + t)[1..] == t;
    } else {
      assert (x + [c] + t)[1..] == x[1..] + [c] + t;
      SplitAppend(x[1..], c, t);
    }
  }

  /** A string without the separator splits into itself alone. */
  lemma {:induction false} SplitWithoutSeparator(s: string, c: char)
    requires c !in s
    ensures Split(s, c) == [s]
  {
    if s != [] {
      SplitWithoutSeparator(s[1..], c);
    }
  }

  /** Split inverts Join when no part contains the separator. */
  lemma {:induction false} SplitJoin(parts: seq<string>, c: char)
    requires |parts| >= 1
    requires forall k :: 0 <= k < |parts| ==> c !in parts[k]
    ensures Split(Join(parts, c), c) == parts
  {
    if |parts| == 1 {
      SplitWithoutSeparator(parts[0], c);
    } else {
      SplitJoin(parts[1..], c);
      SplitAppend(parts[0], c, Join(parts[1..], c));
      SplitWithoutSeparator(parts[0], c);
      assert parts == [parts[0]] + parts[1..];
    }
  }

  /** Python's `s.split(c)[-1]`. */
  function LastSegment(s: string, c: char): (r: string)
    ensures c !in r
  {
    var parts := Split(s, c);
    parts[|parts| - 1]
  }

  /** The last segment after a separator is what follows the last separator. */
  lemma LastSegmentAfter(x: string, c: char, n: string)
    requires c !in n
    ensures LastSegment(x + [c] + n, c) == n
  {
    SplitAppend(x, c, n);
    SplitWithoutSeparator(n, c);
  }

  /** ASCII lower-casing of one character. */
  function LowerChar(ch: char): char {
    if 'A' <= ch <= 'Z' then (ch as int + 32) as char else ch
  }

  /** Python's `s.lower()`, restricted to ASCII letters. */
  function Lower(s: string): (r: string)
    ensures |r| == |s|
    ensures forall i :: 0 <= i < |s| ==> !('A' <= r[i] <= 'Z')
    ensures forall i :: 0 <= i < |s| && !('A' <= s[i] <= 'Z') ==> r[i] == s[i]
    ensures forall i :: 0 <= i < |s| && 'A' <= s[i] <= 'Z' ==> r[i] as int == s[i] as int + 32
  {
    seq(|s|, i requires 0 <= i < |s| => LowerChar(s[i]))
  }
}
