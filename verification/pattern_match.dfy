/**
 * Action-pattern matching of a policy statement.
 *
 * The source turns a pattern into the regular expression `^p$` after replacing
 * each `*` by `.*`, and asks Python's `re.match` whether it matches. For a
 * pattern whose only metacharacter is `*` (the case the model covers), that is:
 *  - every other character matches itself;
 *  - `*` matches any run of characters not containing a line feed
 *    (Python's `.` does not match `\n`);
 *  - `$` matches at the very end, or just before one final line feed.
 */
module PatternMatch {
  import opened Strings

  /** Whole-string match of `p` against `s`, `*` absorbing any run of non-line-feed characters. */
  function Glob(p: string, s: string): (r: bool)
    ensures r && '*' !in p ==> s == p
    ensures r && '\n' !in p ==> SingleLine(s)
    decreases |p| + |s|
  {
    if p == [] then s == []
    else
      assert p == [p[0]] + p[1..];
      assert s != [] ==> s == [s[0]] + s[1..];
      if p[0] == '*' then Glob(p[1..], s) || (s != [] && s[0] != '\n' && Glob(p, s[1..]))
      else s != [] && s[0] == p[0] && Glob(p[1..], s[1..])
  }

  /** `re.match("^" + p.replace("*", ".*") + "$", s)`: `$` also accepts one trailing line feed. */
  function Match(p: string, s: string): (r: bool)
    ensures Glob(p, s) ==> r
    ensures r && '\n' !in p ==>
      SingleLine(s) || (s[|s| - 1] == '\n' && SingleLine(s[..|s| - 1]))
  {
    Glob(p, s) || (s != [] && s[|s| - 1] == '\n' && Glob(p, s[..|s| - 1]))
  }

  /** An action name as AWS writes it never holds a line feed. */
  predicate SingleLine(s: string) {
    '\n' !in s
  }

  /** For a single-line action the trailing-line-feed allowance of `$` plays no part. */
  lemma MatchSingleLine(p: string, s: string)
    requires SingleLine(s)
    ensures Match(p, s) == Glob(p, s)
  {
    if s != [] {
      assert s[|s| - 1] in s;
    }
  }

  /** `*` alone matches exactly the single-line strings, the empty one included. */
  lemma {:induction false} StarGlob(s: string)
    ensures Glob("*", s) <==> SingleLine(s)
  {
    assert "*"[1..] == [];
    if s != [] {
      StarGlob(s[1..]);
      assert s == [s[0]] + s[1..];
    }
  }

  /** The pattern `*` matches every action. */
  lemma StarMatchesEveryAction(action: string)
    requires SingleLine(action)
    ensures Match("*", action)
  {
    StarGlob(action);
  }

  /** A pattern without `*` matches only the identical string: matching is whole-string. */
  lemma {:induction false} LiteralGlob(p: string, s: string)
    requires '*' !in p
    ensures Glob(p, s) <==> s == p
  {
    if p != [] && s != [] {
      LiteralGlob(p[1..], s[1..]);
      assert p == [p[0]] + p[1..];
      assert s == [s[0]] + s[1..];
    }
  }

  /** A literal pattern matches a single-line action iff the two are identical. */
  lemma LiteralMatchesOnlyItself(p: string, action: string)
    requires '*' !in p && SingleLine(action)
    ensures Match(p, action) <==> action == p
  {
    MatchSingleLine(p, action);
    LiteralGlob(p, action);
  }

  /** `p*` with a literal `p` matches the strings that start with `p` and go on without a line feed. */
  lemma {:induction false} PrefixStarGlob(p: string, s: string)
    requires '*' !in p
    ensures Glob(p + "*", s) <==> StartsWith(s, p) && SingleLine(s[|p|..])
  {
    if p == [] {
      assert p + "*" == "*";
      StarGlob(s);
    } else {
      assert (p + "*")[1..] == p[1..] + "*";
      if s != [] {
        PrefixStarGlob(p[1..], s[1..]);
        if |p| <= |s| { assert s[1..][|p| - 1..] == s[|p|..]; }
        assert StartsWith(s, p) <==> s[0] == p[0] && StartsWith(s[1..], p[1..]);
      }
    }
  }

  /** `s3:Get*` matches `s3:GetObject`: the star takes `Object`. */
  lemma GetStarMatchesGetObject()
    ensures Match("s3:Get*", "s3:GetObject")
  {
    assert "s3:Get" + "*" == "s3:Get*";
    PrefixStarGlob("s3:Get", "s3:GetObject");
  }

  /** `s3:Get*` matches `s3:Get` itself: the star may take nothing. */
  lemma GetStarMatchesGet()
    ensures Match("s3:Get*", "s3:Get")
  {
    assert "s3:Get" + "*" == "s3:Get*";
    PrefixStarGlob("s3:Get", "s3:Get");
  }

  /** `s3:Get*` does not match `s3:PutObject`, which does not start with `s3:Get`. */
  lemma GetStarRejectsPutObject()
    ensures !Match("s3:Get*", "s3:PutObject")
  {
    var p := "s3:Get";
    assert p + "*" == "s3:Get*";
    PrefixStarGlob(p, "s3:PutObject");
    assert "s3:PutObject"[..|p|] != p by { assert "s3:PutObject"[3] != p[3]; }
    MatchSingleLine("s3:Get*", "s3:PutObject");
  }

  /** The first element and the rest of a concatenation whose left part is not empty. */
  lemma HeadTailOfConcat(a: string, b: string)
    requires a != []
    ensures (a + b)[0] == a[0] && (a + b)[1..] == a[1..] + b
  {
  }

  /** Matching composes: each piece of a pattern matches its own piece of the string. */
  lemma {:induction false} GlobConcat(p1: string, s1: string, p2: string, s2: string)
    requires Glob(p1, s1) && Glob(p2, s2)
    ensures Glob(p1 + p2, s1 + s2)
    decreases |p1| + |s1|
  {
    if p1 == [] {
      assert p1 + p2 == p2 && s1 + s2 == s2;
    } else if p1[0] == '*' {
      HeadTailOfConcat(p1, p2);
      if Glob(p1[1..], s1) {
        GlobConcat(p1[1..], s1, p2, s2);
      } else {
        HeadTailOfConcat(s1, s2);
        GlobConcat(p1, s1[1..], p2, s2);
      }
    } else {
      HeadTailOfConcat(p1, p2);
      HeadTailOfConcat(s1, s2);
      GlobConcat(p1[1..], s1[1..], p2, s2);
    }
  }

  /** A `*` in the middle of a pattern matches any single-line text at that point. */
  lemma StarAbsorbs(before: string, after: string, middle: string)
    requires '*' !in before && '*' !in after && SingleLine(middle)
    ensures Glob(before + "*" + after, before + middle + after)
  {
    LiteralGlob(before, before);
    StarGlob(middle);
    GlobConcat(before, before, "*", middle);
    LiteralGlob(after, after);
    GlobConcat(before + "*", before + middle, after, after);
  }
}
