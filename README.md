# Codebase consolidator, modelled in Dafny

`codebase_consolidator.py` gathers a project into one text document,
`.codebase_content`. It reads a manifest, `.codebase_filenames`, which has two
sections. The `Included:` section lists the files whose contents go into the
document. The `Ignored from tree:` section lists shell-style patterns for paths
to hide from the directory tree. The tool walks the project directory and skips
ignored directories before entering them. It builds a nested tree of the
directories and non-ignored files, and renders it with box-drawing connectors
under the title `Project Tree:`. It writes that text, a separator of 80 `=`,
and one block per included file. A block is a `[FILE: path]` header, the
content ending in a newline and then a blank line, and the separator again.

The model has these modules:

- `Text`: Python's `strip`, `replace`, `startswith`, `endswith` and `join`.
- `Glob`: the `fnmatch` match for `*`, `?` and literal characters.
- `Ignore`: `should_ignore`.
- `Manifest`: `parse_codebase_filenames`. `ParseManifest` is its loop. `IncludedOf` and `PatternsOf` state its result directly.
- `Tree`: the nested ordered dictionary, as `Node`. It also holds the insertion of one walk record.
- `Builder`: `generate_tree` over an in-memory `Folder`. `GenerateTree` is the loop. `TreeOf` is the tree it is proved to build.
- `Render`: `print_tree`. `PrintTree` is the loop and `Render` is the recursive function. `Flatten` is a text-free pre-order account of the same tree.
- `Consolidator`: the document that `consolidate_codebase` writes. `Consolidate` builds it step by step. `Document` states it whole.
- `Scenario`: a worked example, from the manifest to the final document.

The file system and file contents are inputs: a `Folder` value for the walk,
and a map from path to `Option<string>` for reading. A path absent from the
map does not exist. `None` means the path exists but cannot be read as text.
`Some(text)` is its content.

These inputs are the text as Python reads it in text mode. A file's content and
the manifest's lines are already decoded, and every `\r\n` or `\r` in them is
already a `\n`. So the newline test on line 123 and the stripping on line 16
see the translated text.

When a file exists but cannot be read, its header and its separator are still written
(`codebase_consolidator.py:116` runs before the `try`, and line 129 after it).
The block then holds the header, the separator and nothing in between.

## Model

| member | source | states |
|---|---|---|
| Text.Strip | codebase_consolidator.py:16 | definition: `str.strip()`, dropping whitespace one character at a time from either end; the result is never longer |
| Text.Join | codebase_consolidator.py:100 | definition: `"\n".join(lines)` |
| Text.IsSpace | codebase_consolidator.py:16 | definition: the characters `str.isspace` accepts, which `strip()` removes |
| Text.EndsWith | codebase_consolidator.py:123 | definition: `s.endswith(t)` |
| Text.StripTrims | codebase_consolidator.py:16 | a stripped line is a slice of the line, and everything cut off around it is whitespace |
| Text.StripEnds | codebase_consolidator.py:16 | a stripped line is empty or starts and ends with a non-whitespace character |
| Text.StripEmpty | codebase_consolidator.py:16-18 | a line strips to empty exactly when it is all whitespace, so such a line is skipped |
| Text.Replace | codebase_consolidator.py:32 | replacing keeps the length, changes exactly the occurrences of the old character, and leaves none of it behind |
| Text.ReplaceAbsent | codebase_consolidator.py:32 | a pattern without a backslash is kept exactly as written |
| Text.JoinFirst | codebase_consolidator.py:100 | joining lines gives a text that starts with the first line |
| Glob.Match | codebase_consolidator.py:47 | definition: `fnmatch.fnmatch` on the whole path, with `*` any run of characters including `/`, `?` one character, anything else itself |
| Glob.StarMatchesEverything | codebase_consolidator.py:47 | the pattern `*` matches every path, across `/` |
| Glob.LiteralMatchesItself | codebase_consolidator.py:47 | a pattern without `*`, `?` or `[` matches exactly the path equal to it |
| Glob.StarSuffix | codebase_consolidator.py:47 | `*` followed by a literal tail matches exactly the paths that end with the tail |
| Glob.PrefixStar | codebase_consolidator.py:47 | a literal head followed by `*` matches exactly the paths that start with the head |
| Ignore.PathString | codebase_consolidator.py:39 | definition: the path's `/`-separated string, `.` for the empty relative path |
| Ignore.Name | codebase_consolidator.py:42 | definition: `path.name`, the last component |
| Ignore.Ignored | codebase_consolidator.py:42-49 | definition: the last component is a built-in name, or some pattern matches the `/` form |
| Ignore.ShouldIgnore | codebase_consolidator.py:36-49 | a built-in last component is always ignored; otherwise a path is ignored exactly when some pattern matches its `/` form |
| Ignore.NoPatternsOnlyBuiltIns | codebase_consolidator.py:42-49 | with no patterns, only the two built-in names are ignored |
| Ignore.MorePatternsIgnoreMore | codebase_consolidator.py:46-48 | adding patterns before or after never un-ignores a path |
| Manifest.Active | codebase_consolidator.py:13-25 | definition: the section in force after some stripped lines, the one named by the latest marker |
| Manifest.Collect | codebase_consolidator.py:13-32 | definition: the entries among some stripped lines that fall in a given section, in order |
| Manifest.IncludedOf | codebase_consolidator.py:27-34 | definition: the included list returned at line 34, the non-built-in entries of `Included:` normalised |
| Manifest.PatternsOf | codebase_consolidator.py:31-34 | definition: the pattern list returned at line 34, the entries of `Ignored from tree:` with `/` for `\` |
| Manifest.ParseManifest | codebase_consolidator.py:8-34 | the loop returns the included entries and the patterns the latest-marker reading defines, and no pattern contains a backslash |
| Manifest.ParseStep | codebase_consolidator.py:15-32 | one more line switches the section if it is a marker, and otherwise appends itself to the list of the current section, or to neither |
| Manifest.NonBuiltIn | codebase_consolidator.py:29 | an entry is kept exactly when it is not a built-in name, and none is added |
| Manifest.Normalized | codebase_consolidator.py:30 | every kept entry is normalised, in order |
| Manifest.Slashed | codebase_consolidator.py:32 | every pattern has each backslash replaced by `/`, in order |
| Manifest.StrippedAt | codebase_consolidator.py:16 | each line is compared in its stripped form |
| Manifest.SectionStep | codebase_consolidator.py:20-32 | a marker switches the section and collects nothing; an entry joins the section in force |
| Manifest.IncludedStep | codebase_consolidator.py:27-30 | an entry under `Included:` that is not built-in adds its normalised form at the end; any other line adds nothing |
| Manifest.PatternsStep | codebase_consolidator.py:31-32 | an entry under `Ignored from tree:` adds its slash form at the end; any other line adds nothing |
| Manifest.CollectConcat | codebase_consolidator.py:13-32 | reading two runs of lines in a row collects the first run's entries, then the second run's entries as read in the section the first run leaves |
| Manifest.ActiveConcat | codebase_consolidator.py:13-25 | the section after two runs of lines is the one the second run leaves when started in the first run's |
| Manifest.LatestMarkerWins | codebase_consolidator.py:20-25 | the section in force is the one named by the latest marker |
| Manifest.NoMarkerKeepsSection | codebase_consolidator.py:13-25 | lines without a marker leave the section unchanged |
| Manifest.OrphansContributeNothing | codebase_consolidator.py:13-32 | entries before any marker join neither list |
| Manifest.LinesBeforeMarkerDropped | codebase_consolidator.py:13-32 | lines before the first marker can be deleted without changing either list |
| Manifest.BlankLineNeutral | codebase_consolidator.py:17-18 | a blank line can be deleted anywhere without changing either list |
| Manifest.BlankCollect | codebase_consolidator.py:17-18 | an empty stripped line neither switches the section nor is collected |
| Manifest.IncludedNotBuiltIn | codebase_consolidator.py:29 | no included entry, before normalisation, is a built-in name |
| Tree.Get | codebase_consolidator.py:65-68 | definition: the node reached by following a path's parts, as `current = current[part]` does |
| Tree.Set | codebase_consolidator.py:65-68 | definition: the tree with the node at a path replaced, the value form of updating through `current` |
| Tree.Find | codebase_consolidator.py:66 | `part in current`: the first index holding the key, or none exactly when no entry has it |
| Tree.Put | codebase_consolidator.py:67-73 | assigning a key stores the value under it, keeps the order and every other entry, and adds at most one entry |
| Tree.PutFiles | codebase_consolidator.py:71-73 | adding leaves keeps every existing key in place, and every entry whose key is not among the leaves |
| Tree.PutFilesFresh | codebase_consolidator.py:71-73 | distinct new leaves are appended in listing order as file nodes |
| Tree.Insert | codebase_consolidator.py:62-73 | inserting a record keeps every child of the root that is not on its path, and adds at most one |
| Tree.InsertExisting | codebase_consolidator.py:62-73 | when the record's directory exists, only its leaves are added and nothing else changes |
| Tree.InsertMissingLast | codebase_consolidator.py:65-67 | a missing last directory is created, at the end of its parent, holding the record's leaves |
| Tree.GetSet | codebase_consolidator.py:65-68 | a node stored at an existing path is found there again |
| Tree.SetSet | codebase_consolidator.py:65-68 | storing twice at a path keeps only the second |
| Tree.SetGet | codebase_consolidator.py:65-68 | storing back what is at a path changes nothing |
| Tree.SetAppend | codebase_consolidator.py:65-68 | storing at a longer path is storing into the subtree at its prefix |
| Tree.GetAppend | codebase_consolidator.py:65-68 | following a path in two steps is following the whole path |
| Tree.PrefixClosed | codebase_consolidator.py:65-68 | every prefix of a path present in the tree is present |
| Tree.GetChild | codebase_consolidator.py:65-68 | with unique keys, a path through a child leads into that child's subtree |
| Builder.Walk | codebase_consolidator.py:55-60 | definition: `os.walk` top-down, yielding a directory's record before its subdirectories' and entering only the subdirectories line 60 keeps |
| Builder.WalkSubs | codebase_consolidator.py:55-60 | definition: the records of the kept subdirectories, from the i-th on, in listing order |
| Builder.TreeOf | codebase_consolidator.py:51-75 | definition: the intended tree of a folder, its kept files as leaves followed by its kept subdirectories' trees |
| Builder.SubTrees | codebase_consolidator.py:60-68 | definition: the trees of the kept subdirectories, from the i-th on, in listing order |
| Builder.Apply | codebase_consolidator.py:62-73 | definition: one iteration of the walk loop, inserting a record's directory and its kept files |
| Builder.Run | codebase_consolidator.py:55-73 | definition: the walk loop over a list of records, in order |
| Builder.LeafNames | codebase_consolidator.py:71-73 | a file is a leaf exactly when it is listed and its path is not ignored, and distinct files stay distinct |
| Builder.LeafNamesSnoc | codebase_consolidator.py:71-73 | each further file is added at the end unless it is ignored |
| Builder.KeptFiles | codebase_consolidator.py:71-73 | the inner loop yields exactly the non-ignored files in listing order |
| Builder.GenerateTree | codebase_consolidator.py:51-75 | the walk-and-insert loop builds exactly the tree of the non-pruned directories and non-ignored files |
| Builder.WalkBuildsTree | codebase_consolidator.py:55-73 | running the insertion over the top-down, pruned walk from an empty tree builds that tree |
| Builder.RunConcat | codebase_consolidator.py:55-73 | inserting two runs of records in a row is inserting their concatenation |
| Builder.RunFirst | codebase_consolidator.py:55-73 | the first record is inserted before the rest |
| Builder.RunSnoc | codebase_consolidator.py:55-73 | one more record is inserted into the tree built so far |
| Builder.WalkSubsBuild | codebase_consolidator.py:55-73 | walking the subdirectories of a directory appends, in order, one subtree per kept subdirectory and nothing for a pruned one |
| Builder.WalkSubsKept | codebase_consolidator.py:60-68 | a kept subdirectory is walked and its subtree appended before the later subdirectories |
| Builder.SubdirBuild | codebase_consolidator.py:60-73 | walking a kept subdirectory creates its node at the end of its parent and fills it with its own tree |
| Builder.SubdirRecord | codebase_consolidator.py:62-73 | a subdirectory's own record creates its node, holding its files, before its subdirectories are walked |
| Builder.GetLastChild | codebase_consolidator.py:65-68 | a directory just created is found under its name |
| Builder.SetLastChild | codebase_consolidator.py:65-68 | storing into a directory just created replaces only that entry |
| Builder.LeavesAreNotSubdirs | codebase_consolidator.py:62-73 | no file leaf of a directory has the name of one of its subdirectories |
| Builder.SubTreesEntry | codebase_consolidator.py:60 | every subtree entry comes from a subdirectory that is not ignored, and holds that subdirectory's tree |
| Builder.SubTreesHas | codebase_consolidator.py:60 | every subdirectory that is not ignored has an entry holding its tree |
| Builder.SubTreesKeysDistinct | codebase_consolidator.py:60-68 | subtree entries have distinct names |
| Builder.TreeKeysDistinct | codebase_consolidator.py:62-73 | the children of every built directory have distinct names, as dictionary keys do |
| Builder.TreeChild | codebase_consolidator.py:60-73 | every child of a built directory is not ignored, and is a file or the tree of the subdirectory of that name |
| Builder.NodeNotIgnored | codebase_consolidator.py:60-73 | every node in the tree, file or directory, has a relative path that is not ignored |
| Builder.TreeNodesNotIgnored | codebase_consolidator.py:60-73 | no ancestor directory of a node in the tree is ignored |
| Builder.PrunedSubtreeAbsent | codebase_consolidator.py:60 | when a directory's path is ignored, neither it nor anything below it appears, even paths that match no pattern |
| Builder.FsGetWellFormed | codebase_consolidator.py:55 | every folder reached in the walk has unique names |
| Builder.KeptFolderPresent | codebase_consolidator.py:60-68 | every directory whose path and ancestors are not ignored has a directory node holding its own tree, even when that tree is empty |
| Builder.ShiftedNotIgnored | codebase_consolidator.py:60 | the paths below a kept first component stay not ignored when read from that directory |
| Builder.KeptSubdirIndex | codebase_consolidator.py:60-68 | a kept subdirectory is a child of its parent's node, holding its own tree |
| Builder.KeptFilePresent | codebase_consolidator.py:70-73 | a non-ignored file in a non-pruned directory is a file leaf, whatever its ignored siblings |
| Builder.KeptLeaf | codebase_consolidator.py:71-73 | a non-ignored file of a folder is a leaf of that folder's tree |
| Render.Render | codebase_consolidator.py:77-92 | definition: `print_tree(node, prefix)`, the title when the prefix is empty, then the lines of all children |
| Render.RenderItems | codebase_consolidator.py:84-91 | definition: the lines the loop has produced after the first k children |
| Render.Flatten | codebase_consolidator.py:84-91 | definition: the nodes below a directory in pre-order, each with its last flag and its ancestors' last flags |
| Render.Connector | codebase_consolidator.py:86 | definition: `└── ` for the last child, `├── ` otherwise |
| Render.Extension | codebase_consolidator.py:90 | definition: `    ` below the last child, `│   ` otherwise |
| Render.RenderTitle | codebase_consolidator.py:80-81 | only the top-level call starts with `Project Tree:`; a nested call, whose prefix is not empty, lists only its items |
| Render.PrintTree | codebase_consolidator.py:77-92 | the loop over the children yields exactly the lines the recursive rendering defines |
| Render.RenderLayout | codebase_consolidator.py:77-92 | the rendering is the title, at top level, followed by one line per node in pre-order |
| Render.RenderItemsLayout | codebase_consolidator.py:84-91 | the lines of the first k children are the lines of their entries in pre-order |
| Render.LayoutStep | codebase_consolidator.py:84-91 | each child adds its own line and then its subtree's lines |
| Render.LineTop | codebase_consolidator.py:86-87 | a child's own line is the prefix, its connector and its name |
| Render.Nest | codebase_consolidator.py:89-91 | definition: a subtree's entries seen from its parent, each with one more ancestor |
| Render.Lines | codebase_consolidator.py:87 | definition: one line per entry, each the prefix, the indentation, the connector and the name |
| Render.LinesAppend | codebase_consolidator.py:91 | the lines of consecutive entries are concatenated |
| Render.LinesNest | codebase_consolidator.py:90-91 | a subtree's lines carry the parent prefix followed by `    ` under a last child and `│   ` otherwise |
| Render.LineNest | codebase_consolidator.py:90-91 | one more ancestor is one more indentation block after the prefix |
| Render.Indent | codebase_consolidator.py:90 | each level of depth adds four characters of indentation |
| Render.FlattenSize | codebase_consolidator.py:84-91 | the pre-order has exactly one entry per node (`Size`) |
| Render.FlattenItemsSize | codebase_consolidator.py:84-91 | the first k children and their subtrees contribute one entry per node |
| Render.RenderLineCount | codebase_consolidator.py:80-91 | at top level the output is the title plus exactly one line per node; nested calls emit one line per node |
| Render.RenderLineShape | codebase_consolidator.py:84-91 | the line of a node at depth d is the prefix, 4·d characters of indentation, its connector and its name |
| Render.TopAppend | codebase_consolidator.py:84-91 | the top-level entries of consecutive lists are concatenated |
| Render.TopNest | codebase_consolidator.py:89-91 | a nested subtree contributes no top-level entry |
| Render.TopStep | codebase_consolidator.py:84-87 | each child adds exactly its own entry to the top level, marked last exactly when it is the final child |
| Render.TopPrefixStep | codebase_consolidator.py:84-87 | if the first k - 1 children head the top level in order, so do the first k |
| Render.ChildrenConnectors | codebase_consolidator.py:84-87 | the top-level entries are the children in order, and only the final one takes `└── ` |
| Render.TopEntries | codebase_consolidator.py:85-86 | definition: one entry per child, carrying its name and whether it is the final child |
| Consolidator.Rule | codebase_consolidator.py:105 | definition: a line of the requested number of `=` characters |
| Consolidator.Header | codebase_consolidator.py:116 | definition: `[FILE: path]` followed by a blank line |
| Consolidator.TreeText | codebase_consolidator.py:100 | definition: the rendered lines joined by newlines |
| Consolidator.Layout | codebase_consolidator.py:104-129 | definition: the tree text, `\n\n`, the separator, `\n\n`, then the blocks |
| Consolidator.Contents | codebase_consolidator.py:119-126 | definition: what the `try` block writes, nothing when reading fails |
| Consolidator.Block | codebase_consolidator.py:108-129 | definition: nothing for a missing path, otherwise header, contents and separator line |
| Consolidator.Blocks | codebase_consolidator.py:108-129 | definition: the blocks of the included paths, in manifest order |
| Consolidator.Document | codebase_consolidator.py:94-129 | definition: the tree text of the parsed patterns, the separator, then the blocks of the parsed included paths |
| Consolidator.EnsureNewline | codebase_consolidator.py:121-124 | the content is kept as a prefix and ends in a newline; exactly one is added, and only when missing |
| Consolidator.Consolidate | codebase_consolidator.py:94-129 | the loop writes exactly the document the manifest, tree and files define, and it opens with `Project Tree:` |
| Consolidator.BlocksConcat | codebase_consolidator.py:108-129 | the blocks of consecutive path lists are concatenated in manifest order |
| Consolidator.BlocksSnoc | codebase_consolidator.py:108-129 | each further path adds its block at the end |
| Consolidator.MissingFileSkipped | codebase_consolidator.py:110-112 | a path that does not exist can be deleted from the list without changing the document |
| Consolidator.ExistingFileBlock | codebase_consolidator.py:114-129 | an existing file's block starts with its `[FILE: path]` header and ends with the separator and a blank line |
| Consolidator.ReadableBlock | codebase_consolidator.py:116-129 | between header and separator a readable file's block has its content verbatim, then at most two characters ending in a newline and a blank line |
| Consolidator.ReadContents | codebase_consolidator.py:121-124 | the written content starts with the file text, ends in `\n\n` and adds at most two characters |
| Consolidator.UnreadableBlock | codebase_consolidator.py:116-129 | an unreadable file's block is its header directly followed by the separator, 92 characters plus the path |
| Consolidator.TreeTextStartsWithTitle | codebase_consolidator.py:100 | the tree text opens with the title |
| Consolidator.DocumentStartsWithTitle | codebase_consolidator.py:100-104 | the document opens with `Project Tree:` |
| Consolidator.LayoutSplit | codebase_consolidator.py:104-105 | the document is the tree text, a blank line, the separator and a blank line, then the blocks |
| Consolidator.DocumentSplit | codebase_consolidator.py:104-129 | after the separator the document is exactly the blocks of the included paths, in order |
| Scenario.ExampleParses | codebase_consolidator.py:8-34 | the example manifest includes `foo.txt` and ignores `*.tmp` |
| Scenario.ExampleSections | codebase_consolidator.py:15-32 | the example's one entry per section falls into that section |
| Scenario.ExampleStripped | codebase_consolidator.py:16 | the example's lines are already stripped |
| Scenario.PatternHasNoBackslash | codebase_consolidator.py:32 | the example pattern is kept as written |
| Scenario.ExampleIgnored | codebase_consolidator.py:36-49 | the manifest name and `bar.tmp` are ignored, and `foo.txt` is not |
| Scenario.ExampleKept | codebase_consolidator.py:42-49 | `foo.txt` is neither a built-in name nor a match of `*.tmp` |
| Scenario.FooNotTmp | codebase_consolidator.py:47 | `foo.txt` does not match `*.tmp` |
| Scenario.ExampleMatched | codebase_consolidator.py:46-48 | `bar.tmp` matches `*.tmp` |
| Scenario.RootLeafStep | codebase_consolidator.py:71-73 | in the root folder, each further file is kept at the end unless ignored |
| Scenario.ExampleLeavesPrefix | codebase_consolidator.py:71-73 | of the example's first two files, only `foo.txt` is kept |
| Scenario.ExampleLeaves | codebase_consolidator.py:71-73 | of the example's files, only `foo.txt` is kept |
| Scenario.ExampleTree | codebase_consolidator.py:51-75 | the example tree holds only `foo.txt` |
| Scenario.ExampleTreeText | codebase_consolidator.py:77-100 | the example tree renders as the title and one `└── foo.txt` line |
| Scenario.FooBlock | codebase_consolidator.py:114-129 | the block of `foo.txt` is its header, `hi` with a newline added, a blank line and the separator |
| Scenario.ExampleBlocks | codebase_consolidator.py:108-129 | `foo.txt` gets its header, `hi` with a newline added, a blank line and the separator |
| Scenario.ExampleDocument | codebase_consolidator.py:94-129 | the whole example document, character for character |

## Left out

- Reading `.codebase_filenames`, reading included files and writing `.codebase_content` (lines 14, 102, 120) are not performed. The manifest's lines, the directory contents and the file contents are inputs, and the document is returned as a string.
- `os.walk` and its in-place `dirs[:]` filter become the recursive `Walk` over a `Folder` value. It lists subdirectories and files in a fixed order and enters only the kept subdirectories. Symbolic links and walk errors are not modelled.
- `fnmatch`: character classes (`[...]`, `[!...]`) are not modelled. The host's `os.path.normcase` is taken to be the identity, as on POSIX.
- `str(Path(line))` becomes the function parameter `norm`, with no property assumed about it. Paths are taken to use `/` as the separator, so the `replace(os.sep, '/')` on lines 39 and 115 changes nothing. The displayed path is the included string itself.
- `Path.exists` and `Path.relative_to` are not modelled. The path given to `should_ignore` is its list of components, and its string form joins them with `/`.
- An included path that is a directory, or a file that is not valid UTF-8, is an unreadable entry (`None`) in the file map. The exception text is not modelled.
- The newline translation of text-mode reading (lines 14 and 120) is not modelled. File contents and manifest lines are taken after it.
- `disk` is a fixed snapshot taken before the document is written. The source truncates `.codebase_content` (line 102) before it reads the included files (line 120). So an included path that normalises to `.codebase_content` (such as `./.codebase_content`, which passes line 29) reads the half-written output. The model reads the snapshot instead, and this read-after-truncate effect is not modelled.
- Console output (the warnings on lines 111 and 126) and the `__main__` block's `try`/`exit(1)` (lines 131-137) are not modelled.
- `print_tree`'s `is_last` parameter is never read, so it is not modelled.
- Builder.GenerateTree: the nested dictionary is updated in place through the moving `current` reference in the source. The model rebuilds the tree as a value along the record's path (`Tree.Insert`). Aliasing between `tree` and `current` is therefore not modelled.
- Builder.WellFormed excludes a folder holding a file and a subdirectory with the same name. A real file system never produces one; in the source it may raise a `TypeError`.
- `line.strip()` strips the whitespace characters Python recognises (`Text.IsSpace`). Surrogates and encodings are not modelled.
