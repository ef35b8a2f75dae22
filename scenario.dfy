/**
 * An end-to-end example: a manifest including `foo.txt`
 * and ignoring `*.tmp`, a directory holding the manifest, `foo.txt`
 * (content `hi`, no trailing newline) and `bar.tmp`.
 */
module Scenario {
  import opened Wrappers
  import opened Seqs
  import opened Text
  import opened Glob
  import opened Ignore
  import opened Tree
  import opened Builder
  import opened Render
  import opened Manifest
  import opened Consolidator

  const ExampleManifest: seq<string> := ["Included:", "foo.txt", "", "Ignored from tree:", "*.tmp"]
  const ExampleFolder: Folder := Folder([], [".codebase_filenames", "foo.txt", "bar.tmp"])
  const ExampleDisk: map<string, Option<string>> := map["foo.txt" := Some("hi"), "bar.tmp" := Some("x")]

  /** The example manifest's lines are already stripped. */
  lemma ExampleStripped()
    ensures Stripped(ExampleManifest) == ExampleManifest
  {
    var ts := Stripped(ExampleManifest);
    forall m | 0 <= m < 5 ensures ts[m] == ExampleManifest[m] {
      StrippedAt(ExampleManifest, m);
    }
  }

  /** `foo.txt` is the one entry under `Included:`, `*.tmp` the one under `Ignored from tree:`. */
  lemma ExampleSections(sec: Section)
    requires sec != NoSection
    ensures Collect(NoSection, ExampleManifest, sec) == (if sec == IncludedSection then ["foo.txt"] else ["*.tmp"])
  {
    var m := ExampleManifest;
    assert m[..0] == [];
    assert m[..5] == m;
    TakeSnoc(m, 0);
    TakeSnoc(m, 1);
    TakeSnoc(m, 2);
    TakeSnoc(m, 3);
    TakeSnoc(m, 4);
    SectionStep(m[..0], m[0], sec);
    SectionStep(m[..1], m[1], sec);
    SectionStep(m[..2], m[2], sec);
    SectionStep(m[..3], m[3], sec);
    SectionStep(m[..4], m[4], sec);
  }

  /** The example manifest includes `foo.txt` and ignores `*.tmp`. */
  lemma ExampleParses(norm: string -> string)
    ensures IncludedOf(ExampleManifest, norm) == [norm("foo.txt")]
    ensures PatternsOf(ExampleManifest) == ["*.tmp"]
  {
    ExampleStripped();
    ExampleSections(IncludedSection);
    ExampleSections(IgnoredSection);
    assert NonBuiltIn(["foo.txt"]) == ["foo.txt"] by {
      NonBuiltInSnoc([], "foo.txt");
    }
    NormalizedSnoc(norm, [], "foo.txt");
    SlashedSnoc([], "*.tmp");
    PatternHasNoBackslash();
  }

  /** The example pattern has no backslash, so the parser keeps it as written. */
  lemma PatternHasNoBackslash()
    ensures Replace("*.tmp", '\\', '/') == "*.tmp"
  {
    var p := "*.tmp";
    assert '\\' !in p by {
      assert p == ['*', '.', 't', 'm', 'p'];
    }
    ReplaceAbsent(p, '\\', '/');
  }

  /** The manifest is a built-in name; `bar.tmp` matches `*.tmp` and `foo.txt` does not. */
  lemma ExampleIgnored()
    ensures Ignored([".codebase_filenames"], ["*.tmp"])
    ensures !Ignored(["foo.txt"], ["*.tmp"])
    ensures Ignored(["bar.tmp"], ["*.tmp"])
  {
    ExampleKept();
    ExampleMatched();
  }

  /** A name that does not end in `.tmp` is kept. */
  lemma ExampleKept()
    ensures !Ignored(["foo.txt"], ["*.tmp"])
  {
    var name := "foo.txt";
    assert PathString([name]) == name;
    assert Name([name]) !in BuiltIns by {
      assert Name([name]) == name;
      assert name[0] != BuiltIns[0][0] && name[0] != BuiltIns[1][0];
    }
    FooNotTmp();
  }

  /** `foo.txt` does not match `*.tmp`. */
  lemma FooNotTmp()
    ensures !Match("foo.txt", "*.tmp")
  {
    var name := "foo.txt";
    assert !EndsWith(name, ".tmp") by {
      assert name[|name| - 2] != ".tmp"[2];
    }
    assert "*.tmp" == "*" + ".tmp";
    StarSuffix(name, ".tmp");
  }

  /** A name ending in `.tmp` is ignored. */
  lemma ExampleMatched()
    ensures Ignored(["bar.tmp"], ["*.tmp"])
  {
    var name := "bar.tmp";
    assert PathString([name]) == name;
    assert EndsWith(name, ".tmp") by {
      assert name[3..] == ".tmp";
    }
    assert "*.tmp" == "*" + ".tmp";
    StarSuffix(name, ".tmp");
    assert Match(PathString([name]), ["*.tmp"][0]);
  }

  /** One more file in the root folder's listing: kept at the end unless ignored. */
  lemma RootLeafStep(files: seq<string>, f: string, patterns: seq<string>)
    ensures LeafNames([], files + [f], patterns)
      == LeafNames([], files, patterns) + (if Ignored([f], patterns) then [] else [f])
  {
    LeafNamesSnoc([], files, f, patterns);
    assert [] + [f] == [f];
  }

  /** Of the example's first two files, the manifest is dropped and `foo.txt` kept. */
  lemma ExampleLeavesPrefix()
    ensures LeafNames([], ExampleFolder.files[..2], ["*.tmp"]) == ["foo.txt"]
  {
    var p := ["*.tmp"];
    var files := ExampleFolder.files;
    assert Ignored([files[0]], p) by {
      assert Name([files[0]]) in BuiltIns;
    }
    assert !Ignored([files[1]], p) by {
      ExampleKept();
    }
    assert files[..0] == [];
    TakeSnoc(files, 0);
    TakeSnoc(files, 1);
    RootLeafStep(files[..0], files[0], p);
    RootLeafStep(files[..1], files[1], p);
  }

  /** Of the example's files only `foo.txt` is kept. */
  lemma ExampleLeaves()
    ensures LeafNames([], ExampleFolder.files, ["*.tmp"]) == ["foo.txt"]
  {
    var p := ["*.tmp"];
    var files := ExampleFolder.files;
    ExampleLeavesPrefix();
    ExampleMatched();
    assert files[..3] == files;
    TakeSnoc(files, 2);
    RootLeafStep(files[..2], files[2], p);
  }

  /** The tree lists `foo.txt` but neither the manifest nor `bar.tmp`. */
  lemma ExampleTree()
    ensures TreeOf(ExampleFolder, [], ["*.tmp"]) == [("foo.txt", File)]
  {
    ExampleLeaves();
    assert FileEntries(["foo.txt"]) == [("foo.txt", File)];
    assert SubTrees(ExampleFolder, [], ["*.tmp"], 0) == [];
  }

  /** The example tree renders as the title and one last-child line. */
  lemma ExampleTreeText()
    ensures TreeText(Dir([("foo.txt", File)])) == "Project Tree:\n" + Elbow + "foo.txt"
  {
    var n := Dir([("foo.txt", File)]);
    assert RenderItems(n, "", 1) == [Elbow + "foo.txt"] by {
      assert RenderItems(n, "", 0) == [];
      assert "" + Elbow + "foo.txt" == Elbow + "foo.txt";
    }
    assert Render.Render(n, "") == [Title, Elbow + "foo.txt"];
    assert Join([Title, Elbow + "foo.txt"], "\n") == Title + "\n" + (Elbow + "foo.txt") by {
      assert [Title, Elbow + "foo.txt"][..1] == [Title];
    }
  }

  /** `foo.txt` gets its header, its content with the missing newline added, a blank line and the separator. */
  lemma ExampleBlocks()
    ensures Blocks(["foo.txt"], ExampleDisk) == "[FILE: foo.txt]\n\n" + "hi\n" + "\n" + Separator + "\n\n"
  {
    var h, c := "[FILE: foo.txt]\n\n", "hi\n";
    assert Blocks(["foo.txt"], ExampleDisk) == Block("foo.txt", ExampleDisk) by {
      assert ["foo.txt"][..0] == [];
    }
    FooBlock();
    AppendAssoc(h, c, "\n");
    AppendAssoc(h + c + "\n", Separator, "\n\n");
  }

  /** The block of `foo.txt`: header, contents with the newline added, footer. */
  lemma FooBlock()
    ensures Block("foo.txt", ExampleDisk) == "[FILE: foo.txt]\n\n" + ("hi\n" + "\n") + (Separator + "\n\n")
  {
    assert Header("foo.txt") == "[FILE: foo.txt]\n\n";
    assert EnsureNewline("hi") == "hi\n";
  }

  /** The host's path normalisation, on paths that are already normal. */
  function Same(s: string): string {
    s
  }

  /** The whole document for the example: the tree lists only `foo.txt`, whose block shows `hi` with a newline added. */
  lemma ExampleDocument()
    ensures Document(ExampleManifest, ExampleFolder, ExampleDisk, Same)
      == ("Project Tree:\n" + Elbow + "foo.txt") + "\n\n" + Separator + "\n\n"
         + ("[FILE: foo.txt]\n\n" + "hi\n" + "\n" + Separator + "\n\n")
  {
    ExampleParses(Same);
    ExampleTree();
    ExampleTreeText();
    ExampleBlocks();
  }
}
