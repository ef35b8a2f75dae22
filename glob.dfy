/**
 * The shell-style pattern match that `fnmatch.fnmatch` performs on a
 * forward-slash path: `*` matches any run of characters (including none, and
 * including `/`), `?` matches exactly one character, and every other pattern
 * character matches itself. The whole path must match, not a substring.
 */
module Glob {
  import opened Text

  /** `fnmatch.fnmatch(s, p)` on a host whose `os.path.normcase` is the identity. */
  predicate Match(s: string, p: string)
    decreases |s| + |p|
  {
    if p == [] then s == []
    else if p[0] == '*' then Match(s, p[1..]) || (s != [] && Match(s[1..], p))
    else s != [] && (p[0] == '?' || p[0] == s[0]) && Match(s[1..], p[1..])
  }

  /** The pattern has no wildcard and opens no character class: every character stands for itself. */
  predicate Literal(p: string) {
    forall i :: 0 <= i < |p| ==> p[i] != '*' && p[i] != '?' && p[i] != '['
  }

  /** The pattern `*` matches every path. */
  lemma {:induction false} StarMatchesEverything(s: string)
    ensures Match(s, "*")
    decreases |s|
  {
    if s != [] {
      StarMatchesEverything(s[1..]);
    }
  }

  /** A pattern without wildcards matches exactly the path equal to it. */
  lemma {:induction false} LiteralMatchesItself(s: string, p: string)
    requires Literal(p)
    ensures Match(s, p) <==> s == p
    decreases |p|
  {
    if p != [] && s != [] {
      LiteralMatchesItself(s[1..], p[1..]);
      if s[1..] == p[1..] && s[0] == p[0] {
        assert s == [s[0]] + s[1..] && p == [p[0]] + p[1..];
      }
    }
  }

  /** `*` followed by a literal tail (such as `*.log`) matches exactly the paths ending with that tail. */
  lemma {:induction false} StarSuffix(s: string, tail: string)
    requires Literal(tail)
    ensures Match(s, "*" + tail) <==> EndsWith(s, tail)
    decreases |s|
  {
    var p := "*" + tail;
    assert p[1..] == tail;
    LiteralMatchesItself(s, tail);
    if s != [] {
      StarSuffix(s[1..], tail);
      if |s| > |tail| {
        assert s[1..][|s[1..]| - |tail|..] == s[|s| - |tail|..];
      } else if |s| == |tail| {
        assert !EndsWith(s[1..], tail);
      }
    }
  }

  /** A literal head followed by `*` (such as `build/` then a star) matches exactly the paths starting with that head. */
  lemma {:induction false} PrefixStar(s: string, head: string)
    requires Literal(head)
    ensures Match(s, head + "*") <==> StartsWith(s, head)
    decreases |head|
  {
    if head == [] {
      assert head + "*" == "*";
      StarMatchesEverything(s);
    } else {
      var p := head + "*";
      assert p[0] == head[0] && p[1..] == head[1..] + "*";
      if s != [] {
        PrefixStar(s[1..], head[1..]);
        if |head| <= |s| {
          assert s[..|head|] == [s[0]] + s[1..][..|head| - 1];
          assert head == [head[0]] + head[1..];
        }
      }
    }
  }
}
