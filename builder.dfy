/**
 * `generate_tree`: a top-down walk of the project directory that prunes
 * ignored subdirectories before descending into them, and inserts every
 * visited directory and every non-ignored file into a nested ordered tree.
 *
 * `os.walk` is modelled by `Walk` over an in-memory `Folder`: it yields the
 * record of a directory before the records of its subdirectories, and it
 * descends only into the subdirectories that the filter of line 60 keeps, so
 * a pruned directory is never visited. `TreeOf` is the tree the walk is meant
 * to produce, stated directly over the folder; `GenerateTree` is proved to
 * produce it, and the lemmas below say what it contains.
 */
module Builder {
  import opened Wrappers
  import opened Seqs
  import opened Tree
  import opened Ignore

  /** A directory as `os.walk` lists it: subdirectories (name, content) and file names, in listing order. */
  datatype Folder = Folder(subdirs: seq<(string, Folder)>, files: seq<string>)

  /** Names are unique within each directory, across files and subdirectories, as on any filesystem. */
  predicate WellFormed(fs: Folder) {
    Distinct(fs.files) && KeysDistinct(fs.subdirs)
    && (forall i, j :: 0 <= i < |fs.subdirs| && 0 <= j < |fs.files| ==> fs.subdirs[i].0 != fs.files[j])
    && forall i :: 0 <= i < |fs.subdirs| ==> WellFormed(fs.subdirs[i].1)
  }

  /** One `(root, dirs, files)` triple of `os.walk`, as the loop body uses it: the root's path components and its files. */
  datatype Record = Record(root: seq<string>, files: seq<string>)

  /** `os.walk` from the folder at `root`, top-down, entering only the subdirectories line 60 keeps. */
  function Walk(fs: Folder, root: seq<string>, patterns: seq<string>): seq<Record>
    decreases fs, 1, 0
  {
    [Record(root, fs.files)] + WalkSubs(fs, root, patterns, 0)
  }

  /** The walks of the subdirectories from index `i` on, in listing order; a pruned one yields nothing. */
  function WalkSubs(fs: Folder, root: seq<string>, patterns: seq<string>, i: nat): seq<Record>
    requires i <= |fs.subdirs|
    decreases fs, 0, |fs.subdirs| - i
  {
    if i == |fs.subdirs| then []
    else
      var (d, sub) := fs.subdirs[i];
      (if Ignored(root + [d], patterns) then [] else Walk(sub, root + [d], patterns))
      + WalkSubs(fs, root, patterns, i + 1)
  }

  /**
   * The files of `root` that lines 71-72 keep, in order: exactly the listed
   * files whose relative path is not ignored.
   */
  function LeafNames(root: seq<string>, files: seq<string>, patterns: seq<string>): (r: seq<string>)
    ensures forall f :: f in r <==> f in files && !Ignored(root + [f], patterns)
    ensures |r| <= |files|
    ensures Distinct(files) ==> Distinct(r)
    decreases |files|
  {
    if files == [] then []
    else
      var init := files[..|files| - 1];
      var last := files[|files| - 1];
      assert files == init + [last];
      var r := LeafNames(root, init, patterns);
      if Ignored(root + [last], patterns) then r else r + [last]
  }

  /** One more listed file: kept at the end unless ignored. */
  lemma LeafNamesSnoc(root: seq<string>, files: seq<string>, f: string, patterns: seq<string>)
    ensures LeafNames(root, files + [f], patterns)
      == LeafNames(root, files, patterns) + (if Ignored(root + [f], patterns) then [] else [f])
  {
    assert (files + [f])[..|files|] == files;
  }

  /**
   * The children the tree holds for the folder at `root`: its non-ignored
   * files, then a directory node for each subdirectory that is not pruned,
   * each holding that subdirectory's own tree.
   */
  function TreeOf(fs: Folder, root: seq<string>, patterns: seq<string>): seq<(string, Node)>
    decreases fs, 1, 0
  {
    FileEntries(LeafNames(root, fs.files, patterns)) + SubTrees(fs, root, patterns, 0)
  }

  /** The directory nodes for the subdirectories from index `i` on that are not pruned. */
  function SubTrees(fs: Folder, root: seq<string>, patterns: seq<string>, i: nat): seq<(string, Node)>
    requires i <= |fs.subdirs|
    decreases fs, 0, |fs.subdirs| - i
  {
    if i == |fs.subdirs| then []
    else
      var (d, sub) := fs.subdirs[i];
      (if Ignored(root + [d], patterns) then [] else [(d, Dir(TreeOf(sub, root + [d], patterns)))])
      + SubTrees(fs, root, patterns, i + 1)
  }

  /** One iteration of the loop of lines 55-73 on the tree built so far. */
  function Apply(t: Node, rec: Record, patterns: seq<string>): Node {
    Insert(t, rec.root, LeafNames(rec.root, rec.files, patterns))
  }

  /** The loop of lines 55-73 over the records `recs`, starting from `t`. */
  function Run(t: Node, recs: seq<Record>, patterns: seq<string>): Node
    decreases |recs|
  {
    if recs == [] then t
    else Apply(Run(t, recs[..|recs| - 1], patterns), recs[|recs| - 1], patterns)
  }

  /**
   * `generate_tree(ignore_patterns)` on the filesystem `fs`: the tree it
   * returns is the root directory node holding `TreeOf(fs)`.
   */
  method GenerateTree(fs: Folder, patterns: seq<string>) returns (tree: Node)
    requires WellFormed(fs)
    ensures tree == Dir(TreeOf(fs, [], patterns))
  {
    var records := Walk(fs, [], patterns);
    tree := Dir([]);
    for i := 0 to |records|
      invariant tree == Run(Dir([]), records[..i], patterns)
    {
      var rec := records[i];
      var leaves := KeptFiles(rec.root, rec.files, patterns);
      RunSnoc(Dir([]), records, i, patterns);
      tree := Insert(tree, rec.root, leaves);
    }
    assert records[..|records|] == records;
    WalkBuildsTree(fs, patterns);
  }

  /** The inner loop of lines 71-73: the files of one directory that are not ignored, in listing order. */
  method KeptFiles(root: seq<string>, files: seq<string>, patterns: seq<string>) returns (leaves: seq<string>)
    ensures leaves == LeafNames(root, files, patterns)
  {
    leaves := [];
    for j := 0 to |files|
      invariant leaves == LeafNames(root, files[..j], patterns)
    {
      var ignored := ShouldIgnore(root + [files[j]], patterns);
      TakeSnoc(files, j);
      LeafNamesSnoc(root, files[..j], files[j], patterns);
      if !ignored {
        leaves := leaves + [files[j]];
      }
    }
    assert files[..|files|] == files;
  }

  /** One more record applies it to the tree built so far. */
  lemma RunSnoc(t: Node, recs: seq<Record>, i: nat, patterns: seq<string>)
    requires i < |recs|
    ensures Run(t, recs[..i + 1], patterns) == Apply(Run(t, recs[..i], patterns), recs[i], patterns)
  {
    assert recs[..i + 1][..i] == recs[..i];
  }

  /** Running the loop over `a + b` is running it over `a`, then over `b`. */
  lemma {:induction false} RunConcat(t: Node, a: seq<Record>, b: seq<Record>, patterns: seq<string>)
    ensures Run(t, a + b, patterns) == Run(Run(t, a, patterns), b, patterns)
    decreases |b|
  {
    if b == [] {
      assert a + b == a;
    } else {
      var b' := b[..|b| - 1];
      assert (a + b)[..|a + b| - 1] == a + b';
      assert (a + b)[|a + b| - 1] == b[|b| - 1];
      RunConcat(t, a, b', patterns);
    }
  }

  /** The first record of a walk is handled first. */
  lemma RunFirst(t: Node, rec: Record, rest: seq<Record>, patterns: seq<string>)
    ensures Run(t, [rec] + rest, patterns) == Run(Apply(t, rec, patterns), rest, patterns)
  {
    RunConcat(t, [rec], rest, patterns);
    assert [rec][..0] == [];
  }

  /** The non-ignored files of a well-formed folder are fresh keys for its subdirectories. */
  lemma LeavesAreNotSubdirs(fs: Folder, root: seq<string>, patterns: seq<string>, j: nat)
    requires WellFormed(fs) && j < |fs.subdirs|
    ensures Find(FileEntries(LeafNames(root, fs.files, patterns)), fs.subdirs[j].0).None?
  {
    var L := LeafNames(root, fs.files, patterns);
    forall k | 0 <= k < |L| ensures FileEntries(L)[k].0 != fs.subdirs[j].0 {
      assert L[k] in fs.files;
    }
  }

  /**
   * The heart of the correctness proof: when the directory at `root` already
   * exists with children `c`, the walks of the subdirectories from index `i`
   * on append exactly their subtrees to it and change nothing else.
   */
  lemma {:induction false} WalkSubsBuild(t: Node, fs: Folder, root: seq<string>, patterns: seq<string>,
                                         i: nat, c: seq<(string, Node)>)
    requires WellFormed(fs) && i <= |fs.subdirs|
    requires Get(t, root) == Some(Dir(c))
    requires forall j :: i <= j < |fs.subdirs| ==> Find(c, fs.subdirs[j].0).None?
    ensures Run(t, WalkSubs(fs, root, patterns, i), patterns)
            == Set(t, root, Dir(c + SubTrees(fs, root, patterns, i)))
    decreases fs, |fs.subdirs| - i, 1
  {
    if i == |fs.subdirs| {
      SetGet(t, root);
      assert c + [] == c;
    } else {
      var d := fs.subdirs[i].0;
      var sub := fs.subdirs[i].1;
      var rest := WalkSubs(fs, root, patterns, i + 1);
      var tail := SubTrees(fs, root, patterns, i + 1);
      if Ignored(root + [d], patterns) {
        assert WalkSubs(fs, root, patterns, i) == rest;
        assert SubTrees(fs, root, patterns, i) == tail;
        WalkSubsBuild(t, fs, root, patterns, i + 1, c);
      } else {
        WalkSubsKept(t, fs, root, patterns, i, c);
      }
    }
  }

  /** The step of `WalkSubsBuild` for a subdirectory that is not pruned. */
  lemma {:induction false} WalkSubsKept(t: Node, fs: Folder, root: seq<string>, patterns: seq<string>,
                                        i: nat, c: seq<(string, Node)>)
    requires WellFormed(fs) && i < |fs.subdirs|
    requires Get(t, root) == Some(Dir(c))
    requires forall j :: i <= j < |fs.subdirs| ==> Find(c, fs.subdirs[j].0).None?
    requires !Ignored(root + [fs.subdirs[i].0], patterns)
    ensures Run(t, WalkSubs(fs, root, patterns, i), patterns)
            == Set(t, root, Dir(c + SubTrees(fs, root, patterns, i)))
    decreases fs, |fs.subdirs| - i, 0
  {
    var d := fs.subdirs[i].0;
    var sub := fs.subdirs[i].1;
    var rest := WalkSubs(fs, root, patterns, i + 1);
    var tail := SubTrees(fs, root, patterns, i + 1);
    var rd := root + [d];
    var X := Dir(TreeOf(sub, rd, patterns));
    var c2 := c + [(d, X)];
    assert WalkSubs(fs, root, patterns, i) == Walk(sub, rd, patterns) + rest;
    assert SubTrees(fs, root, patterns, i) == [(d, X)] + tail;
    var t1 := SubdirBuild(t, fs, root, patterns, i, c);
    assert Run(t, WalkSubs(fs, root, patterns, i), patterns) == Run(t1, rest, patterns) by {
      RunConcat(t, Walk(sub, rd, patterns), rest, patterns);
    }
    assert Run(t1, rest, patterns) == Set(t1, root, Dir(c2 + tail)) by {
      GetSet(t, root, Dir(c2));
      forall j | i + 1 <= j < |fs.subdirs| ensures Find(c2, fs.subdirs[j].0).None? {
        FindAppendNone(c, d, X, fs.subdirs[j].0);
      }
      WalkSubsBuild(t1, fs, root, patterns, i + 1, c2);
    }
    assert Set(t1, root, Dir(c2 + tail)) == Set(t, root, Dir(c + SubTrees(fs, root, patterns, i))) by {
      SetSet(t, root, Dir(c2), Dir(c2 + tail));
      AppendAssoc(c, [(d, X)], tail);
    }
  }

  lemma {:induction false} SubdirBuild(t: Node, fs: Folder, root: seq<string>, patterns: seq<string>,
                                       i: nat, c: seq<(string, Node)>) returns (t1: Node)
    requires WellFormed(fs) && i < |fs.subdirs|
    requires Get(t, root) == Some(Dir(c))
    requires Find(c, fs.subdirs[i].0).None?
    requires !Ignored(root + [fs.subdirs[i].0], patterns)
    ensures t1 == Set(t, root, Dir(c + [(fs.subdirs[i].0, Dir(TreeOf(fs.subdirs[i].1, root + [fs.subdirs[i].0], patterns)))]))
    ensures Run(t, Walk(fs.subdirs[i].1, root + [fs.subdirs[i].0], patterns), patterns) == t1
    decreases fs, 0
  {
    var d := fs.subdirs[i].0;
    var sub := fs.subdirs[i].1;
    assert WellFormed(sub);
    var rd := root + [d];
    var L := LeafNames(rd, sub.files, patterns);
    var leafDir := Dir(FileEntries(L));
    var c1 := c + [(d, leafDir)];
    var tA := Set(t, root, Dir(c1));
    var X := Dir(TreeOf(sub, rd, patterns));
    t1 := Set(t, root, Dir(c + [(d, X)]));
    assert Run(t, Walk(sub, rd, patterns), patterns) == Run(tA, WalkSubs(sub, rd, patterns, 0), patterns) by {
      SubdirRecord(t, root, c, d, sub, patterns);
    }
    assert Get(tA, rd) == Some(leafDir) by {
      GetSet(t, root, Dir(c1));
      GetAppend(tA, root, [d]);
      GetLastChild(c, d, leafDir);
    }
    assert Run(tA, WalkSubs(sub, rd, patterns, 0), patterns) == Set(tA, rd, X) by {
      forall j | 0 <= j < |sub.subdirs| ensures Find(FileEntries(L), sub.subdirs[j].0).None? {
        LeavesAreNotSubdirs(sub, rd, patterns, j);
      }
      WalkSubsBuild(tA, sub, rd, patterns, 0, FileEntries(L));
    }
    assert Set(tA, rd, X) == t1 by {
      GetSet(t, root, Dir(c1));
      SetAppend(tA, root, [d], X);
      SetLastChild(c, d, leafDir, X);
      SetSet(t, root, Dir(c1), Dir(c + [(d, X)]));
    }
  }

  /** The record of a kept subdirectory creates its directory, holding the subdirectory's non-ignored files. */
  lemma SubdirRecord(t: Node, root: seq<string>, c: seq<(string, Node)>, d: string, sub: Folder, patterns: seq<string>)
    requires WellFormed(sub)
    requires Get(t, root) == Some(Dir(c)) && Find(c, d).None?
    ensures Run(t, Walk(sub, root + [d], patterns), patterns)
            == Run(Set(t, root, Dir(c + [(d, Dir(FileEntries(LeafNames(root + [d], sub.files, patterns))))])),
                   WalkSubs(sub, root + [d], patterns, 0), patterns)
  {
    var rd := root + [d];
    var L := LeafNames(rd, sub.files, patterns);
    RunFirst(t, Record(rd, sub.files), WalkSubs(sub, rd, patterns, 0), patterns);
    InsertMissingLast(t, root, c, d, L);
    PutFilesFresh([], L);
    assert [] + FileEntries(L) == FileEntries(L);
  }

  /** A child appended under a fresh name is found under that name. */
  lemma GetLastChild(c: seq<(string, Node)>, d: string, a: Node)
    requires Find(c, d).None?
    ensures Get(Dir(c + [(d, a)]), [d]) == Some(a)
  {
    assert (c + [(d, a)])[|c|].0 == d;
    assert Find(c + [(d, a)], d) == Some(|c|);
  }

  /** Replacing a child appended under a fresh name replaces the appended entry. */
  lemma SetLastChild(c: seq<(string, Node)>, d: string, a: Node, b: Node)
    requires Find(c, d).None?
    ensures Set(Dir(c + [(d, a)]), [d], b) == Dir(c + [(d, b)])
  {
    assert (c + [(d, a)])[|c|].0 == d;
    assert Find(c + [(d, a)], d) == Some(|c|);
    assert (c + [(d, a)])[|c| := (d, b)] == c + [(d, b)];
  }

  /** The whole walk from the project root builds exactly `TreeOf(fs)`. */
  lemma WalkBuildsTree(fs: Folder, patterns: seq<string>)
    requires WellFormed(fs)
    ensures Run(Dir([]), Walk(fs, [], patterns), patterns) == Dir(TreeOf(fs, [], patterns))
  {
    var L := LeafNames([], fs.files, patterns);
    var t := Dir(FileEntries(L));
    RunFirst(Dir([]), Record([], fs.files), WalkSubs(fs, [], patterns, 0), patterns);
    PutFilesFresh([], L);
    assert [] + FileEntries(L) == FileEntries(L);
    assert Apply(Dir([]), Record([], fs.files), patterns) == t;
    forall j | 0 <= j < |fs.subdirs| ensures Find(FileEntries(L), fs.subdirs[j].0).None? {
      LeavesAreNotSubdirs(fs, [], patterns, j);
    }
    WalkSubsBuild(t, fs, [], patterns, 0, FileEntries(L));
  }

  // What the built tree contains.

  /** Each directory entry built from the subdirectories from index `i` on is a kept subdirectory with its own tree. */
  lemma {:induction false} SubTreesEntry(fs: Folder, root: seq<string>, patterns: seq<string>, i: nat, k: nat)
    requires i <= |fs.subdirs| && k < |SubTrees(fs, root, patterns, i)|
    ensures exists j :: i <= j < |fs.subdirs| && !Ignored(root + [fs.subdirs[j].0], patterns)
                        && SubTrees(fs, root, patterns, i)[k]
                           == (fs.subdirs[j].0, Dir(TreeOf(fs.subdirs[j].1, root + [fs.subdirs[j].0], patterns)))
    decreases |fs.subdirs| - i
  {
    var d := fs.subdirs[i].0;
    var tail := SubTrees(fs, root, patterns, i + 1);
    if Ignored(root + [d], patterns) {
      assert SubTrees(fs, root, patterns, i) == tail;
      SubTreesEntry(fs, root, patterns, i + 1, k);
    } else if k > 0 {
      assert SubTrees(fs, root, patterns, i)[k] == tail[k - 1];
      SubTreesEntry(fs, root, patterns, i + 1, k - 1);
    }
  }

  /** Every kept subdirectory from index `i` on has its directory entry. */
  lemma {:induction false} SubTreesHas(fs: Folder, root: seq<string>, patterns: seq<string>, i: nat, j: nat)
    requires i <= j < |fs.subdirs| && !Ignored(root + [fs.subdirs[j].0], patterns)
    ensures exists k :: 0 <= k < |SubTrees(fs, root, patterns, i)|
                        && SubTrees(fs, root, patterns, i)[k]
                           == (fs.subdirs[j].0, Dir(TreeOf(fs.subdirs[j].1, root + [fs.subdirs[j].0], patterns)))
    decreases j - i
  {
    var tail := SubTrees(fs, root, patterns, i + 1);
    if j > i {
      SubTreesHas(fs, root, patterns, i + 1, j);
      var k :| 0 <= k < |tail| && tail[k] == (fs.subdirs[j].0, Dir(TreeOf(fs.subdirs[j].1, root + [fs.subdirs[j].0], patterns)));
      if Ignored(root + [fs.subdirs[i].0], patterns) {
        assert SubTrees(fs, root, patterns, i)[k] == tail[k];
      } else {
        assert SubTrees(fs, root, patterns, i)[k + 1] == tail[k];
      }
    } else {
      assert SubTrees(fs, root, patterns, i)[0]
             == (fs.subdirs[j].0, Dir(TreeOf(fs.subdirs[j].1, root + [fs.subdirs[j].0], patterns)));
    }
  }

  /** In a well-formed folder the directory entries have distinct names. */
  lemma {:induction false} SubTreesKeysDistinct(fs: Folder, root: seq<string>, patterns: seq<string>, i: nat)
    requires WellFormed(fs) && i <= |fs.subdirs|
    ensures KeysDistinct(SubTrees(fs, root, patterns, i))
    decreases |fs.subdirs| - i
  {
    if i < |fs.subdirs| {
      var d := fs.subdirs[i].0;
      var tail := SubTrees(fs, root, patterns, i + 1);
      SubTreesKeysDistinct(fs, root, patterns, i + 1);
      if !Ignored(root + [d], patterns) {
        forall k | 0 <= k < |tail| ensures tail[k].0 != d {
          SubTreesEntry(fs, root, patterns, i + 1, k);
        }
        assert SubTrees(fs, root, patterns, i) == [(d, Dir(TreeOf(fs.subdirs[i].1, root + [d], patterns)))] + tail;
      } else {
        assert SubTrees(fs, root, patterns, i) == tail;
      }
    }
  }

  /** In a well-formed folder the built directory has no two children of the same name. */
  lemma TreeKeysDistinct(fs: Folder, root: seq<string>, patterns: seq<string>)
    requires WellFormed(fs)
    ensures KeysDistinct(TreeOf(fs, root, patterns))
  {
    var L := LeafNames(root, fs.files, patterns);
    var F := FileEntries(L);
    var S := SubTrees(fs, root, patterns, 0);
    SubTreesKeysDistinct(fs, root, patterns, 0);
    forall a, b | 0 <= a < |F| && 0 <= b < |S| ensures F[a].0 != S[b].0 {
      SubTreesEntry(fs, root, patterns, 0, b);
      assert L[a] in fs.files;
    }
  }

  /**
   * Soundness: every node of the tree below the folder at `root` stands for a
   * path that is not ignored.
   */
  lemma {:induction false} NodeNotIgnored(fs: Folder, root: seq<string>, patterns: seq<string>, q: seq<string>)
    requires q != [] && Get(Dir(TreeOf(fs, root, patterns)), q).Some?
    ensures !Ignored(root + q, patterns)
    decreases fs
  {
    var c := TreeOf(fs, root, patterns);
    var k := Find(c, q[0]).value;
    var e := c[k];
    assert Get(Dir(c), q) == Get(e.1, q[1..]);
    TreeChild(fs, root, patterns, k);
    if |q| == 1 {
      assert q == [e.0];
    } else {
      var j :| 0 <= j < |fs.subdirs| && fs.subdirs[j].0 == e.0
               && e.1 == Dir(TreeOf(fs.subdirs[j].1, root + [e.0], patterns));
      NodeNotIgnored(fs.subdirs[j].1, root + [q[0]], patterns, q[1..]);
      ConsSplit(q);
      AppendAssoc(root, [q[0]], q[1..]);
    }
  }

  /** Each child in the tree of a folder is a kept file leaf or the tree of a kept subdirectory. */
  lemma TreeChild(fs: Folder, root: seq<string>, patterns: seq<string>, k: nat)
    requires k < |TreeOf(fs, root, patterns)|
    ensures var e := TreeOf(fs, root, patterns)[k];
      && !Ignored(root + [e.0], patterns)
      && (e.1 == File
          || exists j :: 0 <= j < |fs.subdirs| && fs.subdirs[j].0 == e.0
                         && e.1 == Dir(TreeOf(fs.subdirs[j].1, root + [e.0], patterns)))
  {
    var c := TreeOf(fs, root, patterns);
    var L := LeafNames(root, fs.files, patterns);
    var S := SubTrees(fs, root, patterns, 0);
    assert c == FileEntries(L) + S;
    if k < |L| {
      assert c[k] == (L[k], File);
      assert L[k] in L;
    } else {
      assert c[k] == S[k - |L|];
      SubTreesEntry(fs, root, patterns, 0, k - |L|);
    }
  }

  /**
   * Every node of the built tree, and every directory above it, has a relative
   * path that is not ignored: no ignored file, no pruned directory and nothing
   * below a pruned directory appears.
   */
  lemma TreeNodesNotIgnored(fs: Folder, patterns: seq<string>, q: seq<string>, k: nat)
    requires Get(Dir(TreeOf(fs, [], patterns)), q).Some? && 1 <= k <= |q|
    ensures !Ignored(q[..k], patterns)
  {
    PrefixClosed(Dir(TreeOf(fs, [], patterns)), q, k);
    NodeNotIgnored(fs, [], patterns, q[..k]);
    assert [] + q[..k] == q[..k];
  }

  /** A path with an ignored prefix has no node, even when nothing below that prefix matches a pattern. */
  lemma PrunedSubtreeAbsent(fs: Folder, patterns: seq<string>, q: seq<string>, k: nat)
    requires 1 <= k <= |q| && Ignored(q[..k], patterns)
    ensures Get(Dir(TreeOf(fs, [], patterns)), q).None?
  {
    if Get(Dir(TreeOf(fs, [], patterns)), q).Some? {
      TreeNodesNotIgnored(fs, patterns, q, k);
      assert false;
    }
  }

  /** The folder at path `q` below `fs`, if there is one. */
  function FsGet(fs: Folder, q: seq<string>): Option<Folder>
    decreases q
  {
    if q == [] then Some(fs)
    else match Find(fs.subdirs, q[0])
      case None => None
      case Some(i) => FsGet(fs.subdirs[i].1, q[1..])
  }

  /** Every folder of a well-formed filesystem is well-formed. */
  lemma {:induction false} FsGetWellFormed(fs: Folder, q: seq<string>)
    requires WellFormed(fs) && FsGet(fs, q).Some?
    ensures WellFormed(FsGet(fs, q).value)
    decreases q
  {
    if q != [] {
      FsGetWellFormed(fs.subdirs[Find(fs.subdirs, q[0]).value].1, q[1..]);
    }
  }

  /**
   * Completeness for directories: a folder reached through paths none of
   * which is ignored has a directory node, even when none of its entries
   * survives, and that node holds the folder's own tree.
   */
  lemma {:induction false} KeptFolderPresent(fs: Folder, root: seq<string>, patterns: seq<string>, q: seq<string>)
    requires WellFormed(fs) && FsGet(fs, q).Some?
    requires forall k :: 1 <= k <= |q| ==> !Ignored(root + q[..k], patterns)
    ensures Get(Dir(TreeOf(fs, root, patterns)), q) == Some(Dir(TreeOf(FsGet(fs, q).value, root + q, patterns)))
    decreases q
  {
    if q == [] {
      assert root + q == root;
    } else {
      var i := Find(fs.subdirs, q[0]).value;
      var d := fs.subdirs[i].0;
      var sub := fs.subdirs[i].1;
      assert !Ignored(root + [d], patterns) by {
        assert q[..1] == [d];
      }
      var c := TreeOf(fs, root, patterns);
      KeptSubdirIndex(fs, root, patterns, i);
      var m :| 0 <= m < |c| && c[m] == (d, Dir(TreeOf(sub, root + [d], patterns)));
      TreeKeysDistinct(fs, root, patterns);
      GetChild(c, m, q[1..]);
      assert FsGet(fs, q) == FsGet(sub, q[1..]);
      ShiftedNotIgnored(root, q, patterns);
      KeptFolderPresent(sub, root + [d], patterns, q[1..]);
      ConsSplit(q);
      AppendAssoc(root, [d], q[1..]);
    }
  }

  /** The paths below the first component of `q` are still not ignored, seen from one folder further down. */
  lemma ShiftedNotIgnored(root: seq<string>, q: seq<string>, patterns: seq<string>)
    requires q != []
    requires forall k :: 1 <= k <= |q| ==> !Ignored(root + q[..k], patterns)
    ensures forall k :: 1 <= k <= |q[1..]| ==> !Ignored(root + [q[0]] + q[1..][..k], patterns)
  {
    forall k | 1 <= k <= |q[1..]| ensures !Ignored(root + [q[0]] + q[1..][..k], patterns) {
      TakeCons(q, k);
      AppendAssoc(root, [q[0]], q[1..][..k]);
    }
  }

  /** A kept subdirectory has an entry, holding its own tree, among its parent's children. */
  lemma KeptSubdirIndex(fs: Folder, root: seq<string>, patterns: seq<string>, i: nat)
    requires i < |fs.subdirs|
    requires !Ignored(root + [fs.subdirs[i].0], patterns)
    ensures var d := fs.subdirs[i].0;
      exists m :: 0 <= m < |TreeOf(fs, root, patterns)|
        && TreeOf(fs, root, patterns)[m] == (d, Dir(TreeOf(fs.subdirs[i].1, root + [d], patterns)))
  {
    var d := fs.subdirs[i].0;
    var X := Dir(TreeOf(fs.subdirs[i].1, root + [d], patterns));
    var c := TreeOf(fs, root, patterns);
    var L := LeafNames(root, fs.files, patterns);
    var S := SubTrees(fs, root, patterns, 0);
    assert c == FileEntries(L) + S;
    SubTreesHas(fs, root, patterns, 0, i);
    var m :| 0 <= m < |S| && S[m] == (d, X);
    AppendAt(FileEntries(L), S, m);
  }

  /**
   * Completeness for files: a listed file whose own path and whose directories'
   * paths are all not ignored has a file node.
   */
  lemma KeptFilePresent(fs: Folder, patterns: seq<string>, q: seq<string>, f: string)
    requires WellFormed(fs) && FsGet(fs, q).Some? && f in FsGet(fs, q).value.files
    requires forall k :: 1 <= k <= |q| ==> !Ignored(q[..k], patterns)
    requires !Ignored(q + [f], patterns)
    ensures Get(Dir(TreeOf(fs, [], patterns)), q + [f]) == Some(File)
  {
    var folder := FsGet(fs, q).value;
    forall k | 1 <= k <= |q| ensures !Ignored([] + q[..k], patterns) {
      assert [] + q[..k] == q[..k];
    }
    KeptFolderPresent(fs, [], patterns, q);
    assert [] + q == q;
    GetAppend(Dir(TreeOf(fs, [], patterns)), q, [f]);
    FsGetWellFormed(fs, q);
    KeptLeaf(folder, q, patterns, f);
  }

  /** A kept file of a folder is a leaf of that folder's tree. */
  lemma KeptLeaf(folder: Folder, root: seq<string>, patterns: seq<string>, f: string)
    requires WellFormed(folder) && f in folder.files && !Ignored(root + [f], patterns)
    ensures Get(Dir(TreeOf(folder, root, patterns)), [f]) == Some(File)
  {
    var c := TreeOf(folder, root, patterns);
    var L := LeafNames(root, folder.files, patterns);
    var x :| 0 <= x < |L| && L[x] == f;
    assert c[x] == (f, File);
    TreeKeysDistinct(folder, root, patterns);
    GetChild(c, x, []);
    assert [f] + [] == [f];
  }
}
