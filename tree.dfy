/**
 * The nested ordered dictionary that `generate_tree` fills in: a directory maps
 * child names to child nodes in insertion order, and a file is a leaf (`None`
 * in the source). The dictionary operations the builder uses — membership,
 * `d[k] = v`, and the walk down a path creating missing directories — are
 * modelled on values.
 */
module Tree {
  import opened Wrappers
  import opened Seqs

  datatype Node = Dir(children: seq<(string, Node)>) | File

  /** No key occurs twice, as in a Python dictionary. */
  predicate KeysDistinct<V>(c: seq<(string, V)>) {
    forall a, b :: 0 <= a < b < |c| ==> c[a].0 != c[b].0
  }

  /** Where `k` sits among the entries: the first index holding it, or `None` when `k not in d`. */
  function Find<V>(c: seq<(string, V)>, k: string): (r: Option<nat>)
    ensures r.Some? ==> r.value < |c| && c[r.value].0 == k
                        && forall j :: 0 <= j < r.value ==> c[j].0 != k
    ensures r.None? <==> forall j :: 0 <= j < |c| ==> c[j].0 != k
  {
    if c == [] then None
    else if c[0].0 == k then Some(0)
    else match Find(c[1..], k)
      case None => None
      case Some(i) => Some(i + 1)
  }

  /** In a dictionary without repeated keys, the entry holding `k` is the one `Find` returns. */
  lemma FindDistinct<V>(c: seq<(string, V)>, i: nat)
    requires KeysDistinct(c) && i < |c|
    ensures Find(c, c[i].0) == Some(i)
  {
  }

  /** Entries with the same keys in the same order are searched alike. */
  lemma FindSameKeys<V, W>(c: seq<(string, V)>, d: seq<(string, W)>, k: string)
    requires |c| == |d| && forall j :: 0 <= j < |c| ==> c[j].0 == d[j].0
    ensures Find(c, k) == Find(d, k)
  {
    if Find(c, k).Some? {
      assert d[Find(c, k).value].0 == k;
    }
  }

  /** `d[k] = v` on an ordered dictionary: an existing key keeps its place, a new key goes last. */
  function Put<V>(c: seq<(string, V)>, k: string, v: V): (r: seq<(string, V)>)
    ensures Find(r, k).Some? && r[Find(r, k).value].1 == v
    ensures |c| <= |r| <= |c| + 1
    ensures forall j :: 0 <= j < |c| && c[j].0 != k ==> r[j] == c[j]
    ensures forall j :: 0 <= j < |c| ==> r[j].0 == c[j].0
  {
    match Find(c, k)
    case Some(i) =>
      var r := c[i := (k, v)];
      FindSameKeys(c, r, k);
      r
    case None =>
      var r := c + [(k, v)];
      assert r[|c|].0 == k;
      r
  }

  /** The file leaves for `names`, in order. */
  function FileEntries(names: seq<string>): seq<(string, Node)> {
    seq(|names|, i requires 0 <= i < |names| => (names[i], File))
  }

  /** `for file in names: d[file] = None`. */
  function PutFiles(c: seq<(string, Node)>, names: seq<string>): (r: seq<(string, Node)>)
    ensures |c| <= |r| <= |c| + |names|
    ensures forall j :: 0 <= j < |c| ==> r[j].0 == c[j].0
    ensures forall j :: 0 <= j < |c| && c[j].0 !in names ==> r[j] == c[j]
    decreases |names|
  {
    if names == [] then c
    else PutFiles(Put(c, names[0], File), names[1..])
  }

  /** Putting fresh, distinct names appends one leaf per name, in order. */
  lemma {:induction false} PutFilesFresh(c: seq<(string, Node)>, names: seq<string>)
    requires Distinct(names)
    requires forall f :: f in names ==> Find(c, f).None?
    ensures PutFiles(c, names) == c + FileEntries(names)
    decreases |names|
  {
    if names != [] {
      var n0 := names[0];
      var rest := names[1..];
      var c1 := c + [(n0, File)];
      PutFresh(c, n0, File);
      forall f | f in rest ensures Find(c1, f).None? {
        FreshStaysFresh(c, names, f);
      }
      DistinctTail(names);
      PutFilesFresh(c1, rest);
      FileEntriesCons(names);
      AppendAssoc(c, [(n0, File)], FileEntries(rest));
    }
  }

  /** Appending an entry under another key leaves a missing key missing. */
  lemma FindAppendNone<V>(c: seq<(string, V)>, k: string, v: V, x: string)
    requires Find(c, x).None? && x != k
    ensures Find(c + [(k, v)], x).None?
  {
    var c1 := c + [(k, v)];
    assert forall j :: 0 <= j < |c1| ==> c1[j].0 != x;
  }

  /** A new key goes last. */
  lemma PutFresh<V>(c: seq<(string, V)>, k: string, v: V)
    requires Find(c, k).None?
    ensures Put(c, k, v) == c + [(k, v)]
  {
  }

  lemma FileEntriesCons(names: seq<string>)
    requires names != []
    ensures FileEntries(names) == [(names[0], File)] + FileEntries(names[1..])
  {
  }

  /** Helper for `PutFilesFresh`: after the first name is appended, the others are still absent. */
  lemma FreshStaysFresh(c: seq<(string, Node)>, names: seq<string>, f: string)
    requires names != [] && Distinct(names) && f in names[1..]
    requires forall g :: g in names ==> Find(c, g).None?
    ensures Find(c + [(names[0], File)], f).None?
  {
    var x :| 0 <= x < |names[1..]| && names[1..][x] == f;
    assert names[x + 1] == f;
    assert Find(c, f).None?;
    var c1 := c + [(names[0], File)];
    assert forall j :: 0 <= j < |c1| ==> c1[j].0 != f;
  }

  /**
   * The walk of `generate_tree` (lines 62-73): go down `path` from `n`, creating
   * each missing directory, then record every name of `leaves` as a file in the
   * directory reached. A file standing where the path needs a directory makes
   * the source fail; a filesystem never has one (see `Builder.WellFormed`), and
   * the node is then returned unchanged.
   */
  function Insert(n: Node, path: seq<string>, leaves: seq<string>): (r: Node)
    ensures n.Dir? ==> r.Dir?
    ensures n.Dir? && path != [] ==>
              |n.children| <= |r.children| <= |n.children| + 1
              && forall j :: 0 <= j < |n.children| && n.children[j].0 != path[0] ==> r.children[j] == n.children[j]
    decreases path
  {
    match n
    case File => n
    case Dir(c) =>
      if path == [] then Dir(PutFiles(c, leaves))
      else match Find(c, path[0])
        case Some(i) => Dir(c[i := (path[0], Insert(c[i].1, path[1..], leaves))])
        case None => Dir(c + [(path[0], Insert(Dir([]), path[1..], leaves))])
  }

  /** The node reached by following `path` from `n`, if there is one. */
  function Get(n: Node, path: seq<string>): Option<Node>
    decreases path
  {
    if path == [] then Some(n)
    else match n
      case File => None
      case Dir(c) =>
        match Find(c, path[0])
        case None => None
        case Some(i) => Get(c[i].1, path[1..])
  }

  /** `n` with the node at `path` replaced by `v`; unchanged when `path` leads nowhere. */
  function Set(n: Node, path: seq<string>, v: Node): Node
    decreases path
  {
    if path == [] then v
    else match n
      case File => n
      case Dir(c) =>
        match Find(c, path[0])
        case None => n
        case Some(i) => Dir(c[i := (path[0], Set(c[i].1, path[1..], v))])
  }

  /** What was stored at a path is what is read back there. */
  lemma {:induction false} GetSet(n: Node, path: seq<string>, v: Node)
    requires Get(n, path).Some?
    ensures Get(Set(n, path, v), path) == Some(v)
    decreases path
  {
    if path != [] {
      var c := n.children;
      var i := Find(c, path[0]).value;
      var c' := c[i := (path[0], Set(c[i].1, path[1..], v))];
      FindSameKeys(c, c', path[0]);
      GetSet(c[i].1, path[1..], v);
    }
  }

  /** A second store at the same path overrides the first. */
  lemma {:induction false} SetSet(n: Node, path: seq<string>, a: Node, b: Node)
    ensures Set(Set(n, path, a), path, b) == Set(n, path, b)
    decreases path
  {
    if path != [] && n.Dir? && Find(n.children, path[0]).Some? {
      var c := n.children;
      var i := Find(c, path[0]).value;
      var c' := c[i := (path[0], Set(c[i].1, path[1..], a))];
      FindSameKeys(c, c', path[0]);
      SetSet(c[i].1, path[1..], a, b);
      var x := (path[0], Set(c[i].1, path[1..], b));
      assert c'[i := x] == c[i := x];
    }
  }

  /** Storing back what is already there changes nothing. */
  lemma {:induction false} SetGet(n: Node, path: seq<string>)
    requires Get(n, path).Some?
    ensures Set(n, path, Get(n, path).value) == n
    decreases path
  {
    if path != [] {
      var c := n.children;
      var i := Find(c, path[0]).value;
      SetGet(c[i].1, path[1..]);
      assert c[i := (path[0], c[i].1)] == c;
    }
  }

  /** In a dictionary without repeated keys, a path starting with a child's name continues in that child. */
  lemma GetChild(c: seq<(string, Node)>, i: nat, rest: seq<string>)
    requires KeysDistinct(c) && i < |c|
    ensures Get(Dir(c), [c[i].0] + rest) == Get(c[i].1, rest)
  {
    FindDistinct(c, i);
    assert ([c[i].0] + rest)[1..] == rest;
  }

  /** Following `p + q` is following `p`, then `q`. */
  lemma {:induction false} GetAppend(n: Node, p: seq<string>, q: seq<string>)
    ensures Get(n, p).Some? ==> Get(n, p + q) == Get(Get(n, p).value, q)
    ensures Get(n, p).None? ==> Get(n, p + q).None?
    decreases p
  {
    if p == [] {
      assert p + q == q;
    } else {
      assert (p + q)[0] == p[0] && (p + q)[1..] == p[1..] + q;
      if n.Dir? && Find(n.children, p[0]).Some? {
        GetAppend(n.children[Find(n.children, p[0]).value].1, p[1..], q);
      }
    }
  }

  /** Every prefix of a path that leads somewhere leads somewhere: the tree has no orphans. */
  lemma PrefixClosed(n: Node, q: seq<string>, k: nat)
    requires Get(n, q).Some? && k <= |q|
    ensures Get(n, q[..k]).Some?
  {
    assert q == q[..k] + q[k..];
    GetAppend(n, q[..k], q[k..]);
  }

  /** Storing below an existing node is storing into that node. */
  lemma {:induction false} SetAppend(n: Node, p: seq<string>, q: seq<string>, v: Node)
    requires Get(n, p).Some?
    ensures Set(n, p + q, v) == Set(n, p, Set(Get(n, p).value, q, v))
    decreases p
  {
    if p == [] {
      assert p + q == q;
    } else {
      assert (p + q)[0] == p[0] && (p + q)[1..] == p[1..] + q;
      SetAppend(n.children[Find(n.children, p[0]).value].1, p[1..], q, v);
    }
  }

  /**
   * When every directory on `path` already exists, inserting creates nothing:
   * only the directory at the end of the path gets its file leaves.
   */
  lemma {:induction false} InsertExisting(n: Node, path: seq<string>, c: seq<(string, Node)>, leaves: seq<string>)
    requires Get(n, path) == Some(Dir(c))
    ensures Insert(n, path, leaves) == Set(n, path, Dir(PutFiles(c, leaves)))
    decreases path
  {
    if path != [] {
      var i := Find(n.children, path[0]).value;
      InsertExisting(n.children[i].1, path[1..], c, leaves);
    }
  }

  /**
   * When only the last directory of `path + [d]` is missing, inserting creates
   * exactly that one, appended after its existing siblings, and puts the leaves in it.
   */
  lemma {:induction false} InsertMissingLast(n: Node, path: seq<string>, c: seq<(string, Node)>, d: string, leaves: seq<string>)
    requires Get(n, path) == Some(Dir(c)) && Find(c, d).None?
    ensures Insert(n, path + [d], leaves) == Set(n, path, Dir(c + [(d, Dir(PutFiles([], leaves)))]))
    decreases path
  {
    if path == [] {
      assert path + [d] == [d];
    } else {
      assert (path + [d])[0] == path[0] && (path + [d])[1..] == path[1..] + [d];
      var i := Find(n.children, path[0]).value;
      InsertMissingLast(n.children[i].1, path[1..], c, d, leaves);
    }
  }
}
