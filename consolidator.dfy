/**
 * `consolidate_codebase`: the document written to `.codebase_content`.
 *
 * The document is the rendered tree, a blank line, a separator of 80 `=`,
 * a blank line, and then one block per included file in manifest order.
 * A file that does not exist gets no block at all. A file that exists gets a
 * `[FILE: path]` header; if it can be read as text its content follows,
 * ending in a newline and then a blank line; whether read or not, the block
 * closes with the separator and a blank line.
 *
 * The file system is given as values: `fs` is the directory the walk
 * visits, and `disk` maps each path the manifest may name to `Some(text)`
 * when it reads as text, to `None` when it exists but reading fails, and
 * has no key for a path that does not exist.
 */
module Consolidator {
  import opened Wrappers
  import opened Seqs
  import opened Text
  import opened Tree
  import opened Builder
  import opened Render
  import opened Manifest

  /** A line of `n` copies of `=`. */
  function Rule(n: nat): string {
    seq(n, i => '=')
  }

  /** The line of 80 `=` between the tree and the blocks and after each block. */
  const Separator: string := Rule(80)

  /** The label opening a file's block, followed by a blank line. */
  function Header(path: string): string {
    "[FILE: " + path + "]\n\n"
  }

  /** The content as written: a newline is added unless it already ends in one. */
  function EnsureNewline(content: string): (r: string)
    ensures EndsWith(r, "\n")
    ensures StartsWith(r, content)
    ensures |content| <= |r| <= |content| + 1
    ensures r == content <==> EndsWith(content, "\n")
  {
    if EndsWith(content, "\n") then content else content + "\n"
  }

  /** What closes every block: the separator and a blank line. */
  const Footer: string := Separator + "\n\n"

  /**
   * What the read writes between header and footer: the content ending in a
   * newline, then a blank line; nothing when reading failed.
   */
  function Contents(read: Option<string>): string {
    match read
    case None => ""
    case Some(content) => EnsureNewline(content) + "\n"
  }

  /** The block written for one included path. */
  function Block(path: string, disk: map<string, Option<string>>): string {
    if path !in disk then "" else Header(path) + Contents(disk[path]) + Footer
  }

  /** The blocks of `paths`, in order. */
  function Blocks(paths: seq<string>, disk: map<string, Option<string>>): string
    decreases |paths|
  {
    if paths == [] then ""
    else Blocks(paths[..|paths| - 1], disk) + Block(paths[|paths| - 1], disk)
  }

  /** The tree as text: the rendered lines joined by newlines. */
  function TreeText(tree: Node): string
    requires tree.Dir?
  {
    Join(Render.Render(tree, ""), "\n")
  }

  /** The document laid out from the tree text and the included paths. */
  function Layout(treeText: string, paths: seq<string>, disk: map<string, Option<string>>): string {
    treeText + "\n\n" + Separator + "\n\n" + Blocks(paths, disk)
  }

  /** The document the consolidator writes for `manifest`, `fs` and `disk`. */
  function Document(manifest: seq<string>, fs: Folder, disk: map<string, Option<string>>, norm: string -> string): string {
    Layout(TreeText(Dir(TreeOf(fs, [], PatternsOf(manifest)))), IncludedOf(manifest, norm), disk)
  }

  /** `consolidate_codebase()`: parse the manifest, build and render the tree, write every block. */
  method Consolidate(manifest: seq<string>, fs: Folder, disk: map<string, Option<string>>, norm: string -> string)
    returns (doc: string)
    requires WellFormed(fs)
    ensures doc == Document(manifest, fs, disk, norm)
    ensures StartsWith(doc, Title)
  {
    var included, patterns := ParseManifest(manifest, norm);
    var tree := GenerateTree(fs, patterns);
    var lines := PrintTree(tree, "");
    var treeText := Join(lines, "\n");
    var head := treeText + "\n\n" + Separator + "\n\n";
    var body := "";
    for i := 0 to |included|
      invariant body == Blocks(included[..i], disk)
    {
      BlocksSnoc(included, i, disk);
      var path := included[i];
      if path !in disk {
        continue;
      }
      var block := Header(path);
      match disk[path] {
        case Some(content) =>
          block := block + content;
          if !EndsWith(content, "\n") {
            AppendAssoc(Header(path), content, "\n");
            block := block + "\n";
          }
          AppendAssoc(Header(path), EnsureNewline(content), "\n");
          block := block + "\n";
        case None =>
          assert block == Header(path) + "";
      }
      block := block + Footer;
      body := body + block;
    }
    assert included[..|included|] == included;
    doc := head + body;
    DocumentStartsWithTitle(manifest, fs, disk, norm);
  }

  /** Blocks of consecutive path lists concatenate. */
  lemma {:induction false} BlocksConcat(a: seq<string>, b: seq<string>, disk: map<string, Option<string>>)
    ensures Blocks(a + b, disk) == Blocks(a, disk) + Blocks(b, disk)
    decreases |b|
  {
    if b == [] {
      assert a + b == a;
    } else {
      var b' := b[..|b| - 1];
      assert (a + b)[..|a + b| - 1] == a + b';
      assert (a + b)[|a + b| - 1] == b[|b| - 1];
      BlocksConcat(a, b', disk);
      AppendAssoc(Blocks(a, disk), Blocks(b', disk), Block(b[|b| - 1], disk));
    }
  }

  /** One more path adds its block at the end. */
  lemma BlocksSnoc(paths: seq<string>, i: nat, disk: map<string, Option<string>>)
    requires i < |paths|
    ensures Blocks(paths[..i + 1], disk) == Blocks(paths[..i], disk) + Block(paths[i], disk)
  {
    assert paths[..i + 1][..i] == paths[..i];
  }

  /** A path that does not exist contributes nothing: the document reads as if it were not listed. */
  lemma MissingFileSkipped(a: seq<string>, path: string, b: seq<string>, disk: map<string, Option<string>>)
    requires path !in disk
    ensures Blocks(a + [path] + b, disk) == Blocks(a + b, disk)
  {
    var ba, bb := Blocks(a, disk), Blocks(b, disk);
    assert Blocks([path], disk) == "" by {
      assert [path][..0] == [];
      assert Block(path, disk) == "";
    }
    BlocksConcat(a + [path], b, disk);
    BlocksConcat(a, [path], disk);
    BlocksConcat(a, b, disk);
    assert ba + "" == ba;
  }

  /** Every existing path gets a block that opens with its header and closes with the separator and a blank line. */
  lemma ExistingFileBlock(path: string, disk: map<string, Option<string>>)
    requires path in disk
    ensures var b := Block(path, disk);
      StartsWith(b, Header(path)) && EndsWith(b, Separator + "\n\n")
  {
    Framed(Header(path), Contents(disk[path]), Footer);
  }

  /**
   * A readable file's block is its header, then its content verbatim, then
   * whatever makes it end in a newline followed by one blank line, then the
   * separator line and a blank line.
   */
  lemma ReadableBlock(path: string, disk: map<string, Option<string>>)
    requires path in disk && disk[path].Some?
    ensures var b, h, s := Block(path, disk), Header(path), Separator + "\n\n";
      && |h| + |s| <= |b|
      && b[..|h|] == h && b[|b| - |s|..] == s
      && var content := b[|h|..|b| - |s|];
         StartsWith(content, disk[path].value)
         && EndsWith(content, "\n\n")
         && |content| <= |disk[path].value| + 2
  {
    var m := Contents(disk[path]);
    Framed(Header(path), m, Footer);
    ReadContents(disk[path].value);
  }

  /** A readable file's contents: the text itself, at most two added characters, and a newline then a blank line at the end. */
  lemma ReadContents(c: string)
    ensures var m := Contents(Some(c));
      StartsWith(m, c) && EndsWith(m, "\n\n") && |m| <= |c| + 2
  {
    var e := EnsureNewline(c);
    var m := e + "\n";
    assert m[..|c|] == e[..|c|];
    assert m[|m| - 2] == e[|e| - 1];
    assert m[|m| - 2..] == [m[|m| - 2], m[|m| - 1]];
  }

  /** A file that exists but cannot be read still gets its header and its separator, with nothing between. */
  lemma UnreadableBlock(path: string, disk: map<string, Option<string>>)
    requires path in disk && disk[path].None?
    ensures Block(path, disk) == Header(path) + Separator + "\n\n"
    ensures |Block(path, disk)| == |path| + 92
  {
    assert Header(path) + "" == Header(path);
    AppendAssoc(Header(path), Separator, "\n\n");
  }

  /** The tree text opens with the title line. */
  lemma TreeTextStartsWithTitle(tree: Node)
    requires tree.Dir?
    ensures StartsWith(TreeText(tree), Title)
  {
    RenderTitle(tree, "");
    JoinFirst(Render.Render(tree, ""), "\n");
  }

  /** The document opens with the tree title, followed by the rendered tree. */
  lemma DocumentStartsWithTitle(manifest: seq<string>, fs: Folder, disk: map<string, Option<string>>, norm: string -> string)
    ensures StartsWith(Document(manifest, fs, disk, norm), Title)
  {
    var tree := Dir(TreeOf(fs, [], PatternsOf(manifest)));
    var t := TreeText(tree);
    TreeTextStartsWithTitle(tree);
    var rest := "\n\n" + Separator + "\n\n" + Blocks(IncludedOf(manifest, norm), disk);
    LayoutSplit(t, IncludedOf(manifest, norm), disk);
    assert (t + rest)[..|Title|] == t[..|Title|];
  }

  /** The layout starts with the tree text. */
  lemma LayoutSplit(treeText: string, paths: seq<string>, disk: map<string, Option<string>>)
    ensures Layout(treeText, paths, disk) == treeText + ("\n\n" + Separator + "\n\n" + Blocks(paths, disk))
  {
    var s, b := Separator, Blocks(paths, disk);
    AppendAssoc(treeText, "\n\n", s);
    AppendAssoc(treeText, "\n\n" + s, "\n\n");
    AppendAssoc(treeText, "\n\n" + s + "\n\n", b);
  }

  /** The document is the tree text, the separator, and then exactly the blocks of the included paths in order. */
  lemma DocumentSplit(treeText: string, a: seq<string>, b: seq<string>, disk: map<string, Option<string>>)
    ensures Layout(treeText, a + b, disk) == Layout(treeText, a, disk) + Blocks(b, disk)
  {
    BlocksConcat(a, b, disk);
    AppendAssoc(treeText + "\n\n" + Separator + "\n\n", Blocks(a, disk), Blocks(b, disk));
  }
}
