/**
 * The string primitives the consolidator leans on: Python's `str.strip()`,
 * `str.replace` on one character, `str.endswith`, and `sep.join(parts)`.
 */
module Text {

  /** Python's `str.isspace` for a single character (every code point Python treats as whitespace). */
  predicate IsSpace(c: char) {
    ('\t' <= c <= '\r') || ('\U{1C}' <= c <= '\U{1F}') || c == ' ' || c == '\U{85}' || c == '\U{A0}'
    || c == '\U{1680}' || ('\U{2000}' <= c <= '\U{200A}') || c == '\U{2028}' || c == '\U{2029}'
    || c == '\U{202F}' || c == '\U{205F}' || c == '\U{3000}'
  }

  /** `r` is the slice of `s` starting at `lo`, and everything around it in `s` is whitespace. */
  predicate Trims(s: string, r: string, lo: int) {
    0 <= lo <= |s| - |r| && r == s[lo..lo + |r|]
    && (forall i :: 0 <= i < lo ==> IsSpace(s[i]))
    && (forall i :: lo + |r| <= i < |s| ==> IsSpace(s[i]))
  }

  /** Python's `s.strip()`: drops whitespace from both ends, one character at a time. */
  function Strip(s: string): (r: string)
    ensures |r| <= |s|
    decreases |s|
  {
    if s != [] && IsSpace(s[0]) then Strip(s[1..])
    else if s != [] && IsSpace(s[|s| - 1]) then Strip(s[..|s| - 1])
    else s
  }

  /** The result of `Strip` neither starts nor ends with whitespace. */
  lemma {:induction false} StripEnds(s: string)
    ensures Strip(s) == [] || (!IsSpace(Strip(s)[0]) && !IsSpace(Strip(s)[|Strip(s)| - 1]))
    decreases |s|
  {
    if s != [] && IsSpace(s[0]) {
      StripEnds(s[1..]);
    } else if s != [] && IsSpace(s[|s| - 1]) {
      StripEnds(s[..|s| - 1]);
    }
  }

  /** The result of `Strip` is the slice of `s` left once the whitespace around it is dropped. */
  lemma {:induction false} StripTrims(s: string)
    ensures exists lo :: Trims(s, Strip(s), lo)
    decreases |s|
  {
    var r := Strip(s);
    if s != [] && IsSpace(s[0]) {
      StripTrims(s[1..]);
      var lo :| Trims(s[1..], r, lo);
      TrimsFirst(s, r, lo);
    } else if s != [] && IsSpace(s[|s| - 1]) {
      StripTrims(s[..|s| - 1]);
      var lo :| Trims(s[..|s| - 1], r, lo);
      TrimsLast(s, r, lo);
    } else {
      assert Trims(s, r, 0);
    }
  }

  /** Leading whitespace in front of a trimmed string keeps it trimmed, one place further on. */
  lemma TrimsFirst(s: string, r: string, lo: int)
    requires s != [] && IsSpace(s[0]) && Trims(s[1..], r, lo)
    ensures Trims(s, r, lo + 1)
  {
    var t := s[1..];
    assert forall i :: 1 <= i < |s| ==> s[i] == t[i - 1];
    assert s[lo + 1..lo + 1 + |r|] == t[lo..lo + |r|];
  }

  /** Trailing whitespace behind a trimmed string keeps it trimmed at the same place. */
  lemma TrimsLast(s: string, r: string, lo: int)
    requires s != [] && IsSpace(s[|s| - 1]) && Trims(s[..|s| - 1], r, lo)
    ensures Trims(s, r, lo)
  {
    var t := s[..|s| - 1];
    assert s[lo..lo + |r|] == t[lo..lo + |r|];
  }

  /** `Strip` yields the empty string exactly when `s` is whitespace only. */
  lemma {:induction false} StripEmpty(s: string)
    ensures Strip(s) == [] <==> forall i :: 0 <= i < |s| ==> IsSpace(s[i])
    decreases |s|
  {
    if s != [] && IsSpace(s[0]) {
      var t := s[1..];
      StripEmpty(t);
      assert forall i :: 0 <= i < |t| ==> t[i] == s[i + 1];
    } else if s != [] && IsSpace(s[|s| - 1]) {
      var t := s[..|s| - 1];
      StripEmpty(t);
      assert forall i :: 0 <= i < |t| ==> t[i] == s[i];
    }
  }

  /**
   * Python's `s.replace(from, to)` for single characters: every `from` becomes
   * `to`, every other character stays where it is.
   */
  function Replace(s: string, from: char, to: char): (r: string)
    ensures |r| == |s|
    ensures forall i :: 0 <= i < |s| ==> r[i] == (if s[i] == from then to else s[i])
    ensures from != to ==> from !in r
  {
    if s == [] then [] else [if s[0] == from then to else s[0]] + Replace(s[1..], from, to)
  }

  /** Replacing a character that does not occur changes nothing. */
  lemma {:induction false} ReplaceAbsent(s: string, from: char, to: char)
    requires from !in s
    ensures Replace(s, from, to) == s
    decreases |s|
  {
    if s != [] {
      assert from !in s[1..] by {
        assert forall c :: c in s[1..] ==> c in s;
      }
      ReplaceAbsent(s[1..], from, to);
      assert [s[0]] + s[1..] == s;
    }
  }

  /** Python's `s.endswith(t)`. */
  predicate EndsWith(s: string, t: string) {
    |t| <= |s| && s[|s| - |t|..] == t
  }

  /** Python's `s.startswith(t)`. */
  predicate StartsWith(s: string, t: string) {
    |t| <= |s| && s[..|t|] == t
  }

  /** Python's `sep.join(parts)`. */
  function Join(parts: seq<string>, sep: string): string {
    if parts == [] then ""
    else if |parts| == 1 then parts[0]
    else Join(parts[..|parts| - 1], sep) + sep + parts[|parts| - 1]
  }

  /** A joined text starts with its first part. */
  lemma {:induction false} JoinFirst(parts: seq<string>, sep: string)
    requires parts != []
    ensures StartsWith(Join(parts, sep), parts[0])
    decreases |parts|
  {
    if |parts| > 1 {
      var init := parts[..|parts| - 1];
      JoinFirst(init, sep);
      var j := Join(init, sep);
      assert (j + sep + parts[|parts| - 1])[..|parts[0]|] == j[..|parts[0]|];
    }
  }
}
