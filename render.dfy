/**
 * `print_tree`: the box-drawing text of a directory tree, one line per node
 * in pre-order, below the title line that only the top-level call (empty
 * prefix) emits.
 *
 * `Render` is the recursive function `print_tree` computes and `PrintTree`
 * the loop that computes it. `Flatten` is an independent, text-free account
 * of the same tree: the nodes in pre-order, each with whether it is the last
 * of its siblings and, for each directory above it, whether that directory
 * was the last of its siblings. `RenderLayout` proves that every line is the
 * prefix, one indentation block per ancestor, a connector and the name.
 */
module Render {
  import opened Tree
  import opened Seqs

  const Title: string := "Project Tree:"
  /** Connector of a child that has later siblings. */
  const Tee: string := "├── "
  /** Connector of the last child. */
  const Elbow: string := "└── "
  /** Indentation below a directory that has later siblings. */
  const Pipe: string := "│   "
  /** Indentation below the last directory. */
  const Blank: string := "    "

  function Connector(last: bool): string {
    if last then Elbow else Tee
  }

  function Extension(last: bool): string {
    if last then Blank else Pipe
  }

  /** `print_tree(node, prefix)` (lines 77-92). */
  function Render(n: Node, prefix: string): seq<string>
    requires n.Dir?
    decreases n, 1, 0
  {
    (if prefix == "" then [Title] else []) + RenderItems(n, prefix, |n.children|)
  }

  /** The lines the loop of lines 84-91 has produced after the first `k` children. */
  function RenderItems(n: Node, prefix: string, k: nat): seq<string>
    requires n.Dir? && k <= |n.children|
    decreases n, 0, k
  {
    if k == 0 then []
    else
      var i := k - 1;
      var name := n.children[i].0;
      var sub := n.children[i].1;
      var last := i == |n.children| - 1;
      RenderItems(n, prefix, i) + [prefix + Connector(last) + name]
      + (if sub.Dir? then Render(sub, prefix + Extension(last)) else [])
  }

  /** The top-level call, with an empty prefix, opens with the title line; a nested call never does. */
  lemma RenderTitle(n: Node, prefix: string)
    requires n.Dir?
    ensures prefix == "" ==> Render(n, prefix) != [] && Render(n, prefix)[0] == Title
    ensures prefix != "" ==> Render(n, prefix) == RenderItems(n, prefix, |n.children|)
  {
  }

  /** `print_tree(node, prefix)` as the source runs it: a loop over the children, recursing into directories. */
  method PrintTree(node: Node, prefix: string) returns (lines: seq<string>)
    requires node.Dir?
    ensures lines == Render(node, prefix)
    decreases node
  {
    lines := [];
    if prefix == "" {
      lines := lines + [Title];
    }
    var items := node.children;
    ghost var head := lines;
    for i := 0 to |items|
      invariant head == (if prefix == "" then [Title] else [])
      invariant lines == head + RenderItems(node, prefix, i)
    {
      var name := items[i].0;
      var subtree := items[i].1;
      var isLastItem := i == |items| - 1;
      var connector := if isLastItem then Elbow else Tee;
      ghost var done := RenderItems(node, prefix, i);
      lines := lines + [prefix + connector + name];
      var sublines := [];
      if subtree.Dir? {
        var extension := if isLastItem then Blank else Pipe;
        sublines := PrintTree(subtree, prefix + extension);
        lines := lines + sublines;
      } else {
        assert lines == lines + sublines;
      }
      Regroup(head, done, [prefix + connector + name], sublines);
    }
  }

  /** A node as the pre-order listing sees it. */
  datatype Entry = Entry(name: string, last: bool, ancestors: seq<bool>)

  /** The nodes below `n`, in pre-order. */
  function Flatten(n: Node): seq<Entry>
    requires n.Dir?
    decreases n, 1, 0
  {
    FlattenItems(n, |n.children|)
  }

  /** The pre-order listing of the first `k` children of `n` and their descendants. */
  function FlattenItems(n: Node, k: nat): seq<Entry>
    requires n.Dir? && k <= |n.children|
    decreases n, 0, k
  {
    if k == 0 then []
    else
      var i := k - 1;
      var sub := n.children[i].1;
      var last := i == |n.children| - 1;
      FlattenItems(n, i) + [Entry(n.children[i].0, last, [])]
      + (if sub.Dir? then Nest(last, Flatten(sub)) else [])
  }

  /** The entries of a subtree seen from its parent: one more ancestor, outermost first. */
  function Nest(last: bool, es: seq<Entry>): seq<Entry> {
    seq(|es|, i requires 0 <= i < |es| => es[i].(ancestors := [last] + es[i].ancestors))
  }

  /** One indentation block per ancestor. */
  function Indent(ancestors: seq<bool>): (r: string)
    ensures |r| == 4 * |ancestors|
  {
    if ancestors == [] then "" else Extension(ancestors[0]) + Indent(ancestors[1..])
  }

  /** The text line of one entry under `prefix`. */
  function Line(prefix: string, e: Entry): string {
    prefix + Indent(e.ancestors) + Connector(e.last) + e.name
  }

  /** The text lines of the entries `es` under `prefix`, one per entry. */
  function Lines(prefix: string, es: seq<Entry>): seq<string> {
    seq(|es|, i requires 0 <= i < |es| => Line(prefix, es[i]))
  }

  lemma LinesAppend(prefix: string, a: seq<Entry>, b: seq<Entry>)
    ensures Lines(prefix, a + b) == Lines(prefix, a) + Lines(prefix, b)
  {
  }

  /** The lines of a nested subtree are its own lines under the extended prefix. */
  lemma LinesNest(prefix: string, last: bool, es: seq<Entry>)
    ensures Lines(prefix, Nest(last, es)) == Lines(prefix + Extension(last), es)
  {
    forall i | 0 <= i < |es|
      ensures Lines(prefix, Nest(last, es))[i] == Lines(prefix + Extension(last), es)[i]
    {
      LineNest(prefix, last, es[i]);
    }
  }

  /** One more ancestor block is the same as a longer prefix. */
  lemma LineNest(prefix: string, last: bool, e: Entry)
    ensures Line(prefix, e.(ancestors := [last] + e.ancestors)) == Line(prefix + Extension(last), e)
  {
    var tail := Connector(e.last) + e.name;
    assert Indent([last] + e.ancestors) == Extension(last) + Indent(e.ancestors) by {
      assert ([last] + e.ancestors)[1..] == e.ancestors;
    }
    AppendAssoc(prefix, Extension(last), Indent(e.ancestors));
  }

  /**
   * The layout theorem: `print_tree` emits the title only when the prefix is
   * empty, then exactly one line per node in pre-order, made of the prefix,
   * one indentation block per ancestor directory (blank below a last sibling,
   * a vertical bar otherwise), the connector (`└── ` for a last sibling,
   * `├── ` otherwise) and the node's name.
   */
  lemma {:induction false} RenderLayout(n: Node, prefix: string)
    requires n.Dir?
    ensures Render(n, prefix) == (if prefix == "" then [Title] else []) + Lines(prefix, Flatten(n))
    decreases n, 1
  {
    RenderItemsLayout(n, prefix, |n.children|);
  }

  lemma {:induction false} RenderItemsLayout(n: Node, prefix: string, k: nat)
    requires n.Dir? && k <= |n.children|
    ensures RenderItems(n, prefix, k) == Lines(prefix, FlattenItems(n, k))
    decreases n, 0, k
  {
    if k > 0 {
      var i := k - 1;
      var name := n.children[i].0;
      var sub := n.children[i].1;
      var last := i == |n.children| - 1;
      var e := Entry(name, last, []);
      var nested := if sub.Dir? then Nest(last, Flatten(sub)) else [];
      var R := if sub.Dir? then Render(sub, prefix + Extension(last)) else [];
      RenderItemsLayout(n, prefix, i);
      assert R == Lines(prefix, nested) by {
        if sub.Dir? {
          RenderLayout(sub, prefix + Extension(last));
          LinesNest(prefix, last, Flatten(sub));
        }
      }
      LayoutStep(n, prefix, k);
    }
  }

  /** One step of `RenderItemsLayout`: the `k`-th child's own line, then its subtree's lines. */
  lemma LayoutStep(n: Node, prefix: string, k: nat)
    requires n.Dir? && 0 < k <= |n.children|
    requires RenderItems(n, prefix, k - 1) == Lines(prefix, FlattenItems(n, k - 1))
    requires var sub := n.children[k - 1].1;
             var last := k - 1 == |n.children| - 1;
             (if sub.Dir? then Render(sub, prefix + Extension(last)) else [])
             == Lines(prefix, if sub.Dir? then Nest(last, Flatten(sub)) else [])
    ensures RenderItems(n, prefix, k) == Lines(prefix, FlattenItems(n, k))
  {
    var i := k - 1;
    var name := n.children[i].0;
    var sub := n.children[i].1;
    var last := i == |n.children| - 1;
    var e := Entry(name, last, []);
    var A := FlattenItems(n, i);
    var nested := if sub.Dir? then Nest(last, Flatten(sub)) else [];
    LineTop(prefix, e);
    LinesAppend(prefix, A, [e]);
    LinesAppend(prefix, A + [e], nested);
  }

  /** A top-level entry has no indentation: its line is the prefix, the connector and the name. */
  lemma LineTop(prefix: string, e: Entry)
    requires e.ancestors == []
    ensures Lines(prefix, [e]) == [prefix + Connector(e.last) + e.name]
  {
    assert prefix + Indent([]) == prefix;
  }

  /** The number of nodes below `n`. */
  function Size(n: Node): nat
    requires n.Dir?
    decreases n, 1, 0
  {
    SizeItems(n, |n.children|)
  }

  function SizeItems(n: Node, k: nat): nat
    requires n.Dir? && k <= |n.children|
    decreases n, 0, k
  {
    if k == 0 then 0
    else
      var sub := n.children[k - 1].1;
      SizeItems(n, k - 1) + 1 + (if sub.Dir? then Size(sub) else 0)
  }

  lemma {:induction false} FlattenSize(n: Node)
    requires n.Dir?
    ensures |Flatten(n)| == Size(n)
    decreases n, 1
  {
    FlattenItemsSize(n, |n.children|);
  }

  lemma {:induction false} FlattenItemsSize(n: Node, k: nat)
    requires n.Dir? && k <= |n.children|
    ensures |FlattenItems(n, k)| == SizeItems(n, k)
    decreases n, 0, k
  {
    if k > 0 {
      FlattenItemsSize(n, k - 1);
      if n.children[k - 1].1.Dir? {
        FlattenSize(n.children[k - 1].1);
      }
    }
  }

  /** The top-level call emits the title and then exactly one line per node; a nested call emits no title. */
  lemma RenderLineCount(n: Node, prefix: string)
    requires n.Dir?
    ensures |Render(n, prefix)| == (if prefix == "" then 1 else 0) + Size(n)
    ensures prefix == "" ==> Render(n, prefix)[0] == Title
  {
    RenderLayout(n, prefix);
    FlattenSize(n);
  }

  /**
   * Every line after the title starts with the prefix, and a node with `d`
   * directories above it is indented by exactly `4 * d` characters before
   * its four-character connector and its name.
   */
  lemma RenderLineShape(n: Node, prefix: string, k: nat)
    requires n.Dir? && k < |Flatten(n)|
    ensures |Render(n, prefix)| == (if prefix == "" then 1 else 0) + |Flatten(n)|
    ensures var t := if prefix == "" then 1 else 0;
            var line := Render(n, prefix)[t + k];
            var e := Flatten(n)[k];
            |line| == |prefix| + 4 * |e.ancestors| + 4 + |e.name|
            && line[..|prefix|] == prefix
            && line[|prefix| + 4 * |e.ancestors|..|prefix| + 4 * |e.ancestors| + 4] == Connector(e.last)
            && line[|line| - |e.name|..] == e.name
  {
    RenderLayout(n, prefix);
    var e := Flatten(n)[k];
    var line := Line(prefix, e);
    assert line == prefix + Indent(e.ancestors) + Connector(e.last) + e.name;
  }

  /** The entries of the children themselves (no ancestor), in order. */
  function Top(es: seq<Entry>): seq<Entry>
    decreases |es|
  {
    if es == [] then []
    else Top(es[..|es| - 1]) + (if es[|es| - 1].ancestors == [] then [es[|es| - 1]] else [])
  }

  lemma {:induction false} TopAppend(a: seq<Entry>, b: seq<Entry>)
    ensures Top(a + b) == Top(a) + Top(b)
    decreases |b|
  {
    if b == [] {
      assert a + b == a;
    } else {
      assert (a + b)[..|a + b| - 1] == a + b[..|b| - 1];
      TopAppend(a, b[..|b| - 1]);
    }
  }

  lemma {:induction false} TopNest(last: bool, es: seq<Entry>)
    ensures Top(Nest(last, es)) == []
    decreases |es|
  {
    if es != [] {
      assert Nest(last, es)[..|es| - 1] == Nest(last, es[..|es| - 1]);
      TopNest(last, es[..|es| - 1]);
    }
  }

  /**
   * Within a directory, its children are listed in order, and exactly the
   * last one carries the last-sibling connector.
   */
  lemma {:induction false} ChildrenConnectors(n: Node, k: nat)
    requires n.Dir? && k <= |n.children|
    ensures Top(FlattenItems(n, k)) == TopEntries(n)[..k]
    decreases k
  {
    if k == 0 {
      assert TopEntries(n)[..0] == [];
    } else {
      ChildrenConnectors(n, k - 1);
      TopPrefixStep(n, k);
    }
  }

  /** If the first `k - 1` children head the top level, the first `k` do. */
  lemma TopPrefixStep(n: Node, k: nat)
    requires n.Dir? && 0 < k <= |n.children|
    requires Top(FlattenItems(n, k - 1)) == TopEntries(n)[..k - 1]
    ensures Top(FlattenItems(n, k)) == TopEntries(n)[..k]
  {
    TopStep(n, k);
    TakeSnoc(TopEntries(n), k - 1);
  }

  /** The top-level entry of each child: its name, and whether it is the last child. */
  function TopEntries(n: Node): seq<Entry>
    requires n.Dir?
  {
    seq(|n.children|, i requires 0 <= i < |n.children| => Entry(n.children[i].0, i == |n.children| - 1, []))
  }

  /** The `k`-th child adds exactly its own entry to the top level. */
  lemma TopStep(n: Node, k: nat)
    requires n.Dir? && 0 < k <= |n.children|
    ensures Top(FlattenItems(n, k))
            == Top(FlattenItems(n, k - 1)) + [Entry(n.children[k - 1].0, k - 1 == |n.children| - 1, [])]
  {
    var i := k - 1;
    var sub := n.children[i].1;
    var last := i == |n.children| - 1;
    var e := Entry(n.children[i].0, last, []);
    var A := FlattenItems(n, i);
    var nested := if sub.Dir? then Nest(last, Flatten(sub)) else [];
    assert FlattenItems(n, k) == A + [e] + nested;
    assert Top(nested) == [] by {
      if sub.Dir? {
        TopNest(last, Flatten(sub));
      }
    }
    assert Top([e]) == [e] by {
      assert [e][..0] == [];
    }
    TopAppend(A, [e]);
    TopAppend(A + [e], nested);
  }

}
