/**
 * `parse_codebase_filenames`: reads the manifest line by line. Each line is
 * stripped and blank lines are skipped; the exact lines `Included:` and
 * `Ignored from tree:` switch the current section; a line before any marker
 * is dropped; a line under `Included:` becomes an included path (normalised,
 * unless it is one of the built-in names) and a line under
 * `Ignored from tree:` becomes an ignore pattern with `\` turned into `/`.
 *
 * `ParseManifest` is the loop; `Active` and `Collect` state the result
 * without a running state: the section of a line is decided by the latest
 * marker above it.
 */
module Manifest {
  import opened Wrappers
  import opened Text
  import opened Ignore

  datatype Section = NoSection | IncludedSection | IgnoredSection

  const IncludedMarker: string := "Included:"
  const IgnoredMarker: string := "Ignored from tree:"

  /** The section a stripped line switches to, when it is a marker line. */
  function Marker(t: string): Option<Section> {
    if t == IncludedMarker then Some(IncludedSection)
    else if t == IgnoredMarker then Some(IgnoredSection)
    else None
  }

  /** A stripped line that is neither blank nor a marker: it belongs to the current section. */
  predicate IsEntry(t: string) {
    t != "" && Marker(t).None?
  }

  /** Each line of the manifest, stripped of surrounding whitespace. */
  function Stripped(lines: seq<string>): (r: seq<string>)
    ensures |r| == |lines|
    decreases |lines|
  {
    if lines == [] then [] else Stripped(lines[..|lines| - 1]) + [Strip(lines[|lines| - 1])]
  }

  /** The section in force after the stripped lines `ts` when reading starts in `start`: the one named by the latest marker. */
  function Active(start: Section, ts: seq<string>): Section
    decreases |ts|
  {
    if ts == [] then start
    else match Marker(ts[|ts| - 1])
      case Some(s) => s
      case None => Active(start, ts[..|ts| - 1])
  }

  /** The entries among the stripped lines `ts` that fall in section `sec`, in order, when reading starts in `start`. */
  function Collect(start: Section, ts: seq<string>, sec: Section): seq<string>
    decreases |ts|
  {
    if ts == [] then []
    else
      var init := ts[..|ts| - 1];
      var t := ts[|ts| - 1];
      Collect(start, init, sec) + (if IsEntry(t) && Active(start, init) == sec then [t] else [])
  }

  /** The entries that are not built-in names (line 29), in order. */
  function NonBuiltIn(entries: seq<string>): (r: seq<string>)
    ensures forall x :: x in r <==> x in entries && x !in BuiltIns
    ensures |r| <= |entries|
    decreases |entries|
  {
    if entries == [] then []
    else
      var init := entries[..|entries| - 1];
      var x := entries[|entries| - 1];
      assert entries == init + [x];
      NonBuiltIn(init) + (if x in BuiltIns then [] else [x])
  }

  /** `str(Path(e))` applied to each entry; the host's path normalisation is the parameter `norm`. */
  function Normalized(norm: string -> string, entries: seq<string>): (r: seq<string>)
    ensures |r| == |entries|
    ensures forall i :: 0 <= i < |entries| ==> r[i] == norm(entries[i])
    decreases |entries|
  {
    if entries == [] then []
    else Normalized(norm, entries[..|entries| - 1]) + [norm(entries[|entries| - 1])]
  }

  /** `line.replace('\\', '/')` applied to each pattern. */
  function Slashed(entries: seq<string>): (r: seq<string>)
    ensures |r| == |entries|
    ensures forall i :: 0 <= i < |entries| ==> r[i] == Replace(entries[i], '\\', '/')
    decreases |entries|
  {
    if entries == [] then []
    else Slashed(entries[..|entries| - 1]) + [Replace(entries[|entries| - 1], '\\', '/')]
  }

  /** The included files the manifest yields. */
  function IncludedOf(lines: seq<string>, norm: string -> string): seq<string> {
    Normalized(norm, NonBuiltIn(Collect(NoSection, Stripped(lines), IncludedSection)))
  }

  /** The ignore patterns the manifest yields. */
  function PatternsOf(lines: seq<string>): seq<string> {
    Slashed(Collect(NoSection, Stripped(lines), IgnoredSection))
  }

  /** `parse_codebase_filenames()` over the manifest's lines. */
  method ParseManifest(lines: seq<string>, norm: string -> string) returns (included: seq<string>, patterns: seq<string>)
    ensures included == IncludedOf(lines, norm)
    ensures patterns == PatternsOf(lines)
    ensures forall k :: 0 <= k < |patterns| ==> '\\' !in patterns[k]
  {
    included, patterns := [], [];
    var section := NoSection;
    for i := 0 to |lines|
      invariant section == Active(NoSection, Stripped(lines[..i]))
      invariant included == IncludedOf(lines[..i], norm)
      invariant patterns == PatternsOf(lines[..i])
    {
      var line := Strip(lines[i]);
      ParseStep(lines, i, norm);
      if line == "" {
        continue;
      }
      if line == IncludedMarker {
        section := IncludedSection;
        continue;
      } else if line == IgnoredMarker {
        section := IgnoredSection;
        continue;
      }
      if section == IncludedSection {
        if line !in BuiltIns {
          included := included + [norm(line)];
        }
      } else if section == IgnoredSection {
        patterns := patterns + [Replace(line, '\\', '/')];
      }
    }
    assert lines[..|lines|] == lines;
  }

  /** What one more manifest line does to the section, the included files and the patterns. */
  lemma ParseStep(lines: seq<string>, i: nat, norm: string -> string)
    requires i < |lines|
    ensures var t, s := Strip(lines[i]), Active(NoSection, Stripped(lines[..i]));
      && Active(NoSection, Stripped(lines[..i + 1])) == (if Marker(t).Some? then Marker(t).value else s)
      && IncludedOf(lines[..i + 1], norm) == IncludedOf(lines[..i], norm)
           + (if IsEntry(t) && s == IncludedSection && t !in BuiltIns then [norm(t)] else [])
      && PatternsOf(lines[..i + 1]) == PatternsOf(lines[..i])
           + (if IsEntry(t) && s == IgnoredSection then [Replace(t, '\\', '/')] else [])
  {
    var t, ts := Strip(lines[i]), Stripped(lines[..i]);
    StrippedSnoc(lines, i);
    SectionStep(ts, t, IncludedSection);
    SectionStep(ts, t, IgnoredSection);
    IncludedStep(ts, t, norm);
    PatternsStep(ts, t);
  }

  lemma StrippedSnoc(lines: seq<string>, i: nat)
    requires i < |lines|
    ensures Stripped(lines[..i + 1]) == Stripped(lines[..i]) + [Strip(lines[i])]
  {
    assert lines[..i + 1][..i] == lines[..i];
  }

  lemma IncludedStep(ts: seq<string>, t: string, norm: string -> string)
    ensures Normalized(norm, NonBuiltIn(Collect(NoSection, ts + [t], IncludedSection)))
      == Normalized(norm, NonBuiltIn(Collect(NoSection, ts, IncludedSection)))
         + (if IsEntry(t) && Active(NoSection, ts) == IncludedSection && t !in BuiltIns then [norm(t)] else [])
  {
    var inc := Collect(NoSection, ts, IncludedSection);
    SectionStep(ts, t, IncludedSection);
    if IsEntry(t) && Active(NoSection, ts) == IncludedSection {
      NonBuiltInSnoc(inc, t);
      if t !in BuiltIns {
        NormalizedSnoc(norm, NonBuiltIn(inc), t);
      } else {
        assert NonBuiltIn(inc + [t]) == NonBuiltIn(inc);
      }
    } else {
      assert Collect(NoSection, ts + [t], IncludedSection) == inc;
    }
  }

  lemma PatternsStep(ts: seq<string>, t: string)
    ensures Slashed(Collect(NoSection, ts + [t], IgnoredSection))
      == Slashed(Collect(NoSection, ts, IgnoredSection))
         + (if IsEntry(t) && Active(NoSection, ts) == IgnoredSection then [Replace(t, '\\', '/')] else [])
  {
    var ign := Collect(NoSection, ts, IgnoredSection);
    SectionStep(ts, t, IgnoredSection);
    if IsEntry(t) && Active(NoSection, ts) == IgnoredSection {
      SlashedSnoc(ign, t);
    } else {
      assert Collect(NoSection, ts + [t], IgnoredSection) == ign;
    }
  }

  /** One more stripped line, read by the definitions of `Active` and `Collect`. */
  lemma SectionStep(ts: seq<string>, t: string, sec: Section)
    ensures Active(NoSection, ts + [t]) == (if Marker(t).Some? then Marker(t).value else Active(NoSection, ts))
    ensures Collect(NoSection, ts + [t], sec)
      == Collect(NoSection, ts, sec) + (if IsEntry(t) && Active(NoSection, ts) == sec then [t] else [])
  {
    assert (ts + [t])[..|ts|] == ts;
  }

  lemma NonBuiltInSnoc(xs: seq<string>, x: string)
    ensures NonBuiltIn(xs + [x]) == NonBuiltIn(xs) + (if x in BuiltIns then [] else [x])
  {
    assert (xs + [x])[..|xs|] == xs;
  }

  lemma NormalizedSnoc(norm: string -> string, xs: seq<string>, x: string)
    ensures Normalized(norm, xs + [x]) == Normalized(norm, xs) + [norm(x)]
  {
    assert (xs + [x])[..|xs|] == xs;
  }

  lemma SlashedSnoc(xs: seq<string>, x: string)
    ensures Slashed(xs + [x]) == Slashed(xs) + [Replace(x, '\\', '/')]
  {
    assert (xs + [x])[..|xs|] == xs;
  }

  /** Stripping works line by line. */
  lemma {:induction false} StrippedConcat(a: seq<string>, b: seq<string>)
    ensures Stripped(a + b) == Stripped(a) + Stripped(b)
    decreases |b|
  {
    if b == [] {
      assert a + b == a;
    } else {
      var b' := b[..|b| - 1];
      assert (a + b)[..|a + b| - 1] == a + b';
      assert (a + b)[|a + b| - 1] == b[|b| - 1];
      StrippedConcat(a, b');
    }
  }

  /** Each stripped line is its raw line stripped. */
  lemma {:induction false} StrippedAt(lines: seq<string>, m: nat)
    requires m < |lines|
    ensures Stripped(lines)[m] == Strip(lines[m])
    decreases |lines|
  {
    var init := lines[..|lines| - 1];
    if m < |init| {
      StrippedAt(init, m);
      assert lines[m] == init[m];
    }
  }

  /** Reading `a + b` ends in the section that reading `b` ends in, starting where `a` left off. */
  lemma {:induction false} ActiveConcat(start: Section, a: seq<string>, b: seq<string>)
    ensures Active(start, a + b) == Active(Active(start, a), b)
    decreases |b|
  {
    if b == [] {
      assert a + b == a;
    } else {
      assert (a + b)[..|a + b| - 1] == a + b[..|b| - 1];
      assert (a + b)[|a + b| - 1] == b[|b| - 1];
      ActiveConcat(start, a, b[..|b| - 1]);
    }
  }

  /**
   * Sections accumulate: the entries of `a + b` are those of `a` followed by
   * those of `b` read in the section `a` left in force.
   */
  lemma {:induction false} CollectConcat(start: Section, a: seq<string>, b: seq<string>, sec: Section)
    ensures Collect(start, a + b, sec) == Collect(start, a, sec) + Collect(Active(start, a), b, sec)
    decreases |b|
  {
    if b == [] {
      assert a + b == a;
    } else {
      var b' := b[..|b| - 1];
      assert (a + b)[..|a + b| - 1] == a + b';
      assert (a + b)[|a + b| - 1] == b[|b| - 1];
      CollectConcat(start, a, b', sec);
      ActiveConcat(start, a, b');
    }
  }

  /** The latest marker decides: after a marker line and no later marker, its section is in force. */
  lemma {:induction false} LatestMarkerWins(start: Section, ts: seq<string>, j: nat)
    requires j < |ts| && Marker(ts[j]).Some?
    requires forall m :: j < m < |ts| ==> Marker(ts[m]).None?
    ensures Active(start, ts) == Marker(ts[j]).value
    decreases |ts|
  {
    if j < |ts| - 1 {
      LatestMarkerWins(start, ts[..|ts| - 1], j);
    }
  }

  /** Lines without a marker keep the section they start in. */
  lemma {:induction false} NoMarkerKeepsSection(start: Section, ts: seq<string>)
    requires forall m :: 0 <= m < |ts| ==> Marker(ts[m]).None?
    ensures Active(start, ts) == start
    decreases |ts|
  {
    if ts != [] {
      NoMarkerKeepsSection(start, ts[..|ts| - 1]);
    }
  }

  /** Lines read in no section (before any marker) contribute to no section. */
  lemma {:induction false} OrphansContributeNothing(ts: seq<string>, sec: Section)
    requires forall m :: 0 <= m < |ts| ==> Marker(ts[m]).None?
    requires sec != NoSection
    ensures Collect(NoSection, ts, sec) == []
    decreases |ts|
  {
    if ts != [] {
      var init := ts[..|ts| - 1];
      OrphansContributeNothing(init, sec);
      NoMarkerKeepsSection(NoSection, init);
    }
  }

  /** Lines before the first marker are dropped: the manifest parses as if they were absent. */
  lemma LinesBeforeMarkerDropped(pre: seq<string>, rest: seq<string>, norm: string -> string)
    requires forall m :: 0 <= m < |pre| ==> Marker(Strip(pre[m])).None?
    ensures IncludedOf(pre + rest, norm) == IncludedOf(rest, norm)
    ensures PatternsOf(pre + rest) == PatternsOf(rest)
  {
    var ps, rs := Stripped(pre), Stripped(rest);
    StrippedConcat(pre, rest);
    forall m | 0 <= m < |pre|
      ensures Marker(ps[m]).None?
    {
      StrippedAt(pre, m);
    }
    NoMarkerKeepsSection(NoSection, ps);
    forall sec | sec != NoSection
      ensures Collect(NoSection, Stripped(pre + rest), sec) == Collect(NoSection, rs, sec)
    {
      CollectConcat(NoSection, ps, rs, sec);
      OrphansContributeNothing(ps, sec);
    }
  }

  /** A blank line read in any section adds nothing and keeps that section. */
  lemma BlankStep(s: Section, sec: Section)
    ensures Collect(s, [""], sec) == []
    ensures Active(s, [""]) == s
  {
    assert [""][..0] == [];
  }

  /** A blank (whitespace-only) line changes nothing, wherever it stands. */
  lemma BlankLineNeutral(a: seq<string>, blank: string, b: seq<string>, norm: string -> string)
    requires Strip(blank) == ""
    ensures IncludedOf(a + [blank] + b, norm) == IncludedOf(a + b, norm)
    ensures PatternsOf(a + [blank] + b) == PatternsOf(a + b)
  {
    StrippedBlank(a, blank, b);
    StrippedConcat(a, b);
    forall sec | sec != NoSection
      ensures Collect(NoSection, Stripped(a + [blank] + b), sec) == Collect(NoSection, Stripped(a + b), sec)
    {
      BlankCollect(Stripped(a), Stripped(b), sec);
    }
  }

  /** A whitespace-only line strips to the empty string. */
  lemma StrippedBlank(a: seq<string>, blank: string, b: seq<string>)
    requires Strip(blank) == ""
    ensures Stripped(a + [blank] + b) == Stripped(a) + [""] + Stripped(b)
  {
    StrippedConcat(a + [blank], b);
    StrippedConcat(a, [blank]);
    assert [blank][..0] == [];
  }

  /** The section-level half of `BlankLineNeutral`. */
  lemma BlankCollect(sa: seq<string>, sb: seq<string>, sec: Section)
    ensures Collect(NoSection, sa + [""] + sb, sec) == Collect(NoSection, sa + sb, sec)
  {
    var s := Active(NoSection, sa);
    CollectConcat(NoSection, sa + [""], sb, sec);
    CollectConcat(NoSection, sa, [""], sec);
    ActiveConcat(NoSection, sa, [""]);
    CollectConcat(NoSection, sa, sb, sec);
    BlankStep(s, sec);
  }

  /** No included entry, before normalisation, is a built-in name. */
  lemma IncludedNotBuiltIn(lines: seq<string>, x: string)
    requires x in NonBuiltIn(Collect(NoSection, Stripped(lines), IncludedSection))
    ensures x !in BuiltIns
  {
  }
}
