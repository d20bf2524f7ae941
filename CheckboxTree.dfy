/** The dialog's CheckboxTree model: CheckedTreeNode objects whose check mark
    is the one piece of state the dialog changes, the recursive construction
    from the project directory, the bulk select/deselect and the two
    collectors. Each method is proved against the functions of TreeModel. */
module CheckboxTree {
  import opened Vfs
  import opened TreeModel

  /** A CheckedTreeNode. Its user object and children are fixed once the tree
      is built; only `checked` changes afterwards. `Repr` is the node and
      every node below it; distinct children own disjoint subtrees. */
  class Node {
    var checked: bool
    const file: Option<VFile>
    const children: seq<Node>
    ghost const Repr: set<Node>

    ghost predicate Valid()
      decreases Repr
    {
      this in Repr &&
      (forall i :: 0 <= i < |children| ==>
        children[i] in Repr && children[i].Repr <= Repr && this !in children[i].Repr &&
        children[i].Valid()) &&
      Disjoint(children)
    }

    /** The value of the subtree in the current state. */
    ghost function Model(): Tree
      requires Valid()
      reads Repr
      decreases Repr, 1
    {
      Tree(checked, file, ChildModels(|children|))
    }

    /** The values of the first `k` children's subtrees. */
    ghost function ChildModels(k: nat): (r: seq<Tree>)
      requires Valid() && k <= |children|
      reads Repr
      ensures |r| == k && forall i :: 0 <= i < k ==> r[i] == children[i].Model()
      decreases Repr, 0, k
    {
      if k == 0 then [] else ChildModels(k - 1) + [children[k - 1].Model()]
    }

    /** The value of the subtree with every mark cleared; it reads no state,
        because the shape never changes. */
    ghost function Skeleton(): Tree
      requires Valid()
      decreases Repr
    {
      Tree(false, file, seq(|children|, i requires 0 <= i < |children| => children[i].Skeleton()))
    }

    /** new CheckedTreeNode(file) followed by setChecked(false), with its
        children already attached. */
    constructor (file: Option<VFile>, children: seq<Node>)
      requires forall i :: 0 <= i < |children| ==> children[i].Valid()
      requires Disjoint(children)
      ensures Valid()
      ensures this.file == file && this.children == children
      ensures !checked && Repr == {this} + ReprOf(children)
    {
      this.checked := false;
      this.file := file;
      this.children := children;
      this.Repr := {this} + ReprOf(children);
      new;
      ReprOfCovers(children);
      ReprOfWithin(children);
    }
  }

  /** Distinct nodes of `ns` own disjoint subtrees. */
  ghost predicate Disjoint(ns: seq<Node>) {
    forall i, j :: 0 <= i < j < |ns| ==> ns[i].Repr !! ns[j].Repr
  }

  /** A valid node whose unmarked value is `t`. */
  ghost predicate Mirrors(n: Node, t: Tree) {
    n.Valid() && n.Skeleton() == t
  }

  lemma AppendNode(ns: seq<Node>, n: Node)
    requires Disjoint(ns) && forall k :: 0 <= k < |ns| ==> ns[k].Repr !! n.Repr
    ensures Disjoint(ns + [n])
    ensures ReprOf(ns + [n]) == ReprOf(ns) + n.Repr
  {
    assert (ns + [n])[..|ns|] == ns;
  }

  ghost function ReprOf(ns: seq<Node>): set<Node> {
    if ns == [] then {} else ReprOf(ns[..|ns| - 1]) + ns[|ns| - 1].Repr
  }

  /** ReprOf(ns) holds the nodes of every subtree rooted at `ns`... */
  lemma {:induction false} ReprOfCovers(ns: seq<Node>)
    ensures forall i :: 0 <= i < |ns| ==> ns[i].Repr <= ReprOf(ns)
  {
    if ns != [] {
      ReprOfCovers(ns[..|ns| - 1]);
    }
  }

  /** ...and no other node. */
  lemma {:induction false} ReprOfWithin(ns: seq<Node>)
    ensures forall m :: m in ReprOf(ns) ==> exists i :: 0 <= i < |ns| && m in ns[i].Repr
  {
    if ns != [] {
      ReprOfWithin(ns[..|ns| - 1]);
    }
  }

  // ---------------------------------------------------------------------------
  // Building the tree

  /** addFilesRecursively: one fresh, unchecked node per listed child of
      `directory` (in listing order), each holding the mirror of that child's
      own listing. A listing that fails contributes no children. The nodes are
      returned for the caller to attach. */
  method AddFilesRecursively(dirLoc: seq<string>, directory: Entry) returns (kids: seq<Node>)
    ensures |kids| == |Children(directory)|
    ensures forall i :: 0 <= i < |kids| ==> Mirrors(kids[i], Mirror(dirLoc, Children(directory)[i]))
    ensures Disjoint(kids)
    ensures fresh(ReprOf(kids))
    ensures forall m :: m in ReprOf(kids) ==> allocated(m) && !m.checked
    decreases directory, 0
  {
    kids := [];
    var entries := Children(directory);
    for i := 0 to |entries|
      invariant |kids| == i
      invariant forall k :: 0 <= k < i ==> Mirrors(kids[k], Mirror(dirLoc, entries[k]))
      invariant Disjoint(kids)
      invariant fresh(ReprOf(kids))
      invariant forall m :: m in ReprOf(kids) ==> allocated(m) && !m.checked
    {
      var node := NewChildNode(dirLoc, entries[i]);
      ReprOfCovers(kids);
      assert forall k :: 0 <= k < i ==> kids[k].Repr !! node.Repr;
      AppendNode(kids, node);
      kids := kids + [node];
    }
  }

  /** The loop body of addFilesRecursively for one child: a fresh unchecked
      node for it, with its own listing below it when it is a directory. */
  method NewChildNode(dirLoc: seq<string>, child: Entry) returns (node: Node)
    ensures Mirrors(node, Mirror(dirLoc, child))
    ensures fresh(node.Repr)
    ensures forall m :: m in node.Repr ==> allocated(m) && !m.checked
    decreases child, 1
  {
    var loc := dirLoc + [child.name];
    var grandchildren: seq<Node> := [];
    if child.Dir? {
      grandchildren := AddFilesRecursively(loc, child);
    }
    node := new Node(Some(VFile(loc, child)), grandchildren);
    assert node.Skeleton().children == Mirror(dirLoc, child).children;
  }

  /** createCenterPanel's tree: an unchecked "Project Files" root over the
      base directory's listing, or a bare root when the project has none. */
  method BuildTree(baseDir: Option<Entry>) returns (root: Node)
    ensures root.Valid() && fresh(root.Repr)
    ensures root.Model() == RootTree(baseDir)
  {
    var kids: seq<Node> := [];
    if baseDir.Some? {
      kids := AddFilesRecursively([], baseDir.value);
    }
    root := new Node(None, kids);
    assert root.Skeleton().children == RootTree(baseDir).children;
    assert forall m :: m in root.Repr ==> !m.checked;
    ModelOfUniformMarks(root, false);
    SetAllOfSkeleton(root);
  }

  /** A subtree whose nodes all carry `v` is the all-`v` version of its shape. */
  lemma {:induction false} ModelOfUniformMarks(n: Node, v: bool)
    requires n.Valid()
    requires forall m :: m in n.Repr ==> m.checked == v
    ensures n.Model() == SetAll(n.Skeleton(), v)
    decreases n.Repr
  {
    var a, b := n.Model(), SetAll(n.Skeleton(), v);
    forall i | 0 <= i < |n.children| ensures a.children[i] == b.children[i] {
      ModelOfUniformMarks(n.children[i], v);
    }
    assert a.children == b.children;
  }

  /** Clearing every mark of a skeleton changes nothing. */
  lemma {:induction false} SetAllOfSkeleton(n: Node)
    requires n.Valid()
    ensures SetAll(n.Skeleton(), false) == n.Skeleton()
    decreases n.Repr
  {
    var a, b := SetAll(n.Skeleton(), false), n.Skeleton();
    forall i | 0 <= i < |n.children| ensures a.children[i] == b.children[i] {
      SetAllOfSkeleton(n.children[i]);
    }
    assert a.children == b.children;
  }

  // ---------------------------------------------------------------------------
  // Select all / deselect all

  /** setNodeCheckedRecursively: writes `checked` into `node` and every node
      below it; the shape and user objects stay as they were. */
  method SetNodeCheckedRecursively(node: Node, checked: bool)
    requires node.Valid()
    modifies node.Repr
    ensures node.Model() == SetAll(old(node.Model()), checked)
    decreases node.Repr
  {
    SetAllIgnoresMarks(node, checked);
    node.checked := checked;
    for i := 0 to |node.children|
      invariant node.checked == checked
      invariant forall k :: 0 <= k < i ==> AllMarked(node.children[k], checked)
    {
      var child := node.children[i];
      SetAllIgnoresMarks(child, checked);
      SetNodeCheckedRecursively(child, checked);
      assert AllMarked(child, checked);
    }
    ModelOfMarkedChildren(node, checked);
  }

  /** Overwriting every mark forgets the old marks. */
  lemma {:induction false} SetAllIgnoresMarks(n: Node, v: bool)
    requires n.Valid()
    ensures SetAll(n.Model(), v) == SetAll(n.Skeleton(), v)
    decreases n.Repr
  {
    var a, b := SetAll(n.Model(), v), SetAll(n.Skeleton(), v);
    forall i | 0 <= i < |n.children| ensures a.children[i] == b.children[i] {
      SetAllIgnoresMarks(n.children[i], v);
    }
    assert a.children == b.children;
  }

  /** Every node of `n`'s subtree is marked `v`. */
  ghost predicate AllMarked(n: Node, v: bool)
    reads n.Repr
  {
    n.Valid() && n.Model() == SetAll(n.Skeleton(), v)
  }

  /** A node marked `v` whose children's subtrees are all-`v` is all-`v`. */
  lemma ModelOfMarkedChildren(n: Node, v: bool)
    requires n.Valid() && n.checked == v
    requires forall k :: 0 <= k < |n.children| ==> AllMarked(n.children[k], v)
    ensures n.Model() == SetAll(n.Skeleton(), v)
  {
    assert n.Model().children == SetAll(n.Skeleton(), v).children;
  }

  // ---------------------------------------------------------------------------
  // Collectors

  /** What a walk needs to know about the `i`-th child of a valid node. */
  lemma ChildOf(node: Node, i: int)
    requires node.Valid() && 0 <= i < |node.children|
    ensures |node.Model().children| == |node.children|
    ensures node.children[i].Valid() && node.children[i].Repr < node.Repr
    ensures node.Model().children[i] == node.children[i].Model()
    ensures node.Model().children[i].checked == node.children[i].checked
    ensures node.Model().children[i].file == node.children[i].file
  {
  }

  /** collectSelectedFiles: appends to `selectedFiles` the handle of every
      checked file node below `node`, in pre-order, testing each node's own
      mark only. `t` is the subtree's current value. */
  method CollectSelectedFiles(node: Node, ghost t: Tree, selectedFiles: seq<VFile>) returns (out: seq<VFile>)
    requires node.Valid() && t == node.Model()
    ensures out == selectedFiles + SelectedFiles(t)
    decreases node.Repr
  {
    out := selectedFiles;
    for i := 0 to |node.children|
      invariant out == selectedFiles + FilesIn(DescendantsBefore(t, i))
    {
      var childNode := node.children[i];
      ChildOf(node, i);
      ghost var c, before := t.children[i], out;
      if childNode.checked && childNode.file.Some? && !childNode.file.value.IsDirectory() {
        out := out + [childNode.file.value];
      }
      assert out == before + FileOf(c);
      ghost var mid := out;
      out := CollectSelectedFiles(childNode, c, out);
      CollectFilesStep(t, i, selectedFiles, before, mid, out);
    }
  }

  /** collectSelectedFilesAndDirectories: the same walk, appending checked
      directories to one list and checked files to the other. */
  method CollectSelectedFilesAndDirectories(node: Node, ghost t: Tree, selectedFiles: seq<VFile>, selectedDirectories: seq<VFile>)
    returns (files: seq<VFile>, directories: seq<VFile>)
    requires node.Valid() && t == node.Model()
    ensures files == selectedFiles + SelectedFiles(t)
    ensures directories == selectedDirectories + SelectedDirectories(t)
    decreases node.Repr
  {
    files, directories := selectedFiles, selectedDirectories;
    for i := 0 to |node.children|
      invariant files == selectedFiles + FilesIn(DescendantsBefore(t, i))
      invariant directories == selectedDirectories + DirectoriesIn(DescendantsBefore(t, i))
    {
      var childNode := node.children[i];
      ChildOf(node, i);
      ghost var c, filesBefore, directoriesBefore := t.children[i], files, directories;
      if childNode.checked && childNode.file.Some? {
        if childNode.file.value.IsDirectory() {
          directories := directories + [childNode.file.value];
        } else {
          files := files + [childNode.file.value];
        }
      }
      assert files == filesBefore + FileOf(c) && directories == directoriesBefore + DirectoryOf(c);
      ghost var filesMid, directoriesMid := files, directories;
      files, directories := CollectSelectedFilesAndDirectories(childNode, c, files, directories);
      CollectFilesStep(t, i, selectedFiles, filesBefore, filesMid, files);
      CollectDirectoriesStep(t, i, selectedDirectories, directoriesBefore, directoriesMid, directories);
    }
  }
}
