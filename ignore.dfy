/**
 * `should_ignore`: whether a path relative to the project root is left out of
 * the tree. A path is the sequence of its components (`rel_root / name` in the
 * source); its string form joins them with `/`, which is what the source
 * obtains by replacing the host separator with `/`.
 */
module Ignore {
  import opened Text
  import opened Glob

  /** The tool's own state files, ignored whatever the manifest says. */
  const BuiltIns: seq<string> := [".codebase_filenames", ".codebase_content"]

  /** `str(path)` with `/` as separator; the empty relative path prints as `.`. */
  function PathString(path: seq<string>): string {
    if path == [] then "." else Join(path, "/")
  }

  /** `path.name`: the last component, or the empty string for the empty path. */
  function Name(path: seq<string>): string {
    if path == [] then "" else path[|path| - 1]
  }

  /** Some pattern matches the whole forward-slash path. */
  predicate MatchesSome(path: seq<string>, patterns: seq<string>) {
    exists j :: 0 <= j < |patterns| && Match(PathString(path), patterns[j])
  }

  /** The reference meaning of `should_ignore`: a built-in name, or a match of some pattern. */
  predicate Ignored(path: seq<string>, patterns: seq<string>) {
    Name(path) in BuiltIns || MatchesSome(path, patterns)
  }

  /**
   * `should_ignore(path, ignore_patterns)`: built-in names first, then the
   * patterns in order, returning at the first match.
   */
  method ShouldIgnore(path: seq<string>, patterns: seq<string>) returns (ignored: bool)
    ensures Name(path) in BuiltIns ==> ignored
    ensures Name(path) !in BuiltIns ==>
              (ignored <==> MatchesSome(path, patterns))
    ensures ignored == Ignored(path, patterns)
  {
    var pathStr := PathString(path);
    if Name(path) in BuiltIns {
      return true;
    }
    for i := 0 to |patterns|
      invariant forall j :: 0 <= j < i ==> !Match(pathStr, patterns[j])
    {
      if Match(pathStr, patterns[i]) {
        return true;
      }
    }
    return false;
  }

  /** With no patterns, only the built-in names are ignored. */
  lemma NoPatternsOnlyBuiltIns(path: seq<string>)
    ensures Ignored(path, []) <==> Name(path) in BuiltIns
  {
  }

  /** Adding patterns, before or after the existing ones, never turns an ignored path into a kept one. */
  lemma MorePatternsIgnoreMore(path: seq<string>, patterns: seq<string>, extra: seq<string>)
    requires Ignored(path, patterns)
    ensures Ignored(path, patterns + extra) && Ignored(path, extra + patterns)
  {
    if Name(path) !in BuiltIns {
      var j :| 0 <= j < |patterns| && Match(PathString(path), patterns[j]);
      assert (patterns + extra)[j] == patterns[j];
      assert (extra + patterns)[|extra| + j] == patterns[j];
    }
  }
}
