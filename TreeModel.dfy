/** The value a CheckedTreeNode subtree stands for, and the specifications of
    the operations the dialog performs on the tree: building it from the
    project directory, the bulk select/deselect, and the two collectors. */
module TreeModel {
  import opened Vfs
  import opened Text

  /** A node's check mark, its user object (None for the synthetic
      "Project Files" root, a file handle otherwise) and its children in order. */
  datatype Tree = Tree(checked: bool, file: Option<VFile>, children: seq<Tree>)

  // ---------------------------------------------------------------------------
  // Building the tree

  /** The subtree addFilesRecursively creates for the entry `e` found in the
      directory at `parentLoc`: an unchecked node for `e`, and, for a
      directory, one subtree per listed child in listing order. */
  function Mirror(parentLoc: seq<string>, e: Entry): Tree
    decreases e
  {
    var loc := parentLoc + [e.name];
    var ch := Children(e);
    Tree(false, Some(VFile(loc, e)),
      if e.Dir? then seq(|ch|, i requires 0 <= i < |ch| => Mirror(loc, ch[i])) else [])
  }

  /** The tree createCenterPanel builds: an unchecked root whose children
      mirror the project's base directory, if the project has one. */
  function RootTree(baseDir: Option<Entry>): Tree {
    var ch := if baseDir.Some? then Children(baseDir.value) else [];
    Tree(false, None, seq(|ch|, i requires 0 <= i < |ch| => Mirror([], ch[i])))
  }

  // ---------------------------------------------------------------------------
  // Select all / deselect all

  /** The tree after setNodeCheckedRecursively(t, v). */
  function SetAll(t: Tree, v: bool): Tree {
    Tree(v, t.file, seq(|t.children|, i requires 0 <= i < |t.children| => SetAll(t.children[i], v)))
  }

  predicate AllChecked(t: Tree, v: bool) {
    t.checked == v && forall i :: 0 <= i < |t.children| ==> AllChecked(t.children[i], v)
  }

  /** Same user objects and the same arrangement, whatever the check marks. */
  predicate SameShape(a: Tree, b: Tree) {
    a.file == b.file && |a.children| == |b.children| &&
    forall i :: 0 <= i < |a.children| ==> SameShape(a.children[i], b.children[i])
  }

  // ---------------------------------------------------------------------------
  // Pre-order traversal and the collectors

  /** Every node strictly below `t`, in the order the collectors visit them:
      each child, then everything below that child. */
  function Descendants(t: Tree): seq<Tree>
    decreases t, 1
  {
    DescendantsBefore(t, |t.children|)
  }

  /** The pre-order walk of the first `i` children of `t`. */
  function DescendantsBefore(t: Tree, i: nat): seq<Tree>
    requires i <= |t.children|
    decreases t, 0, i
  {
    if i == 0 then []
    else DescendantsBefore(t, i - 1) + [t.children[i - 1]] + Descendants(t.children[i - 1])
  }

  predicate IsSelectedFile(n: Tree) {
    n.checked && n.file.Some? && !n.file.value.IsDirectory()
  }

  predicate IsSelectedDirectory(n: Tree) {
    n.checked && n.file.Some? && n.file.value.IsDirectory()
  }

  /** What one node adds to the file list: its handle if it is a checked file. */
  function FileOf(n: Tree): seq<VFile> {
    if IsSelectedFile(n) then [n.file.value] else []
  }

  /** What one node adds to the directory list. */
  function DirectoryOf(n: Tree): seq<VFile> {
    if IsSelectedDirectory(n) then [n.file.value] else []
  }

  /** The handles of the checked file nodes among `ns`, in order. */
  function FilesIn(ns: seq<Tree>): seq<VFile> {
    if ns == [] then [] else FilesIn(ns[..|ns| - 1]) + FileOf(ns[|ns| - 1])
  }

  /** The handles of the checked directory nodes among `ns`, in order. */
  function DirectoriesIn(ns: seq<Tree>): seq<VFile> {
    if ns == [] then [] else DirectoriesIn(ns[..|ns| - 1]) + DirectoryOf(ns[|ns| - 1])
  }

  /** What collectSelectedFiles gathers below `t`. */
  function SelectedFiles(t: Tree): seq<VFile> {
    FilesIn(Descendants(t))
  }

  /** What collectSelectedFilesAndDirectories gathers below `t` as directories. */
  function SelectedDirectories(t: Tree): seq<VFile> {
    DirectoriesIn(Descendants(t))
  }

  // ---------------------------------------------------------------------------
  // Lemmas: select all / deselect all

  /** After the bulk operation every node carries `v` and nothing else moved. */
  lemma {:induction false} SetAllMarksEveryNode(t: Tree, v: bool)
    ensures AllChecked(SetAll(t, v), v)
    ensures SameShape(SetAll(t, v), t)
  {
    forall i | 0 <= i < |t.children|
      ensures AllChecked(SetAll(t, v).children[i], v) && SameShape(SetAll(t, v).children[i], t.children[i])
    {
      SetAllMarksEveryNode(t.children[i], v);
    }
  }

  /** The last bulk operation wins; in particular applying it twice is
      applying it once. */
  lemma {:induction false} SetAllLastWins(t: Tree, u: bool, v: bool)
    ensures SetAll(SetAll(t, u), v) == SetAll(t, v)
  {
    var a, b := SetAll(SetAll(t, u), v), SetAll(t, v);
    forall i | 0 <= i < |t.children| ensures a.children[i] == b.children[i] {
      SetAllLastWins(t.children[i], u, v);
    }
    assert a.children == b.children;
  }

  lemma SetAllIdempotent(t: Tree, v: bool)
    ensures SetAll(SetAll(t, v), v) == SetAll(t, v)
  {
    SetAllLastWins(t, v, v);
  }

  // ---------------------------------------------------------------------------
  // Lemmas: the pre-order walk

  /** A node is below `t` exactly when it is a child of `t` or below one. */
  lemma {:induction false} DescendantsBeforeCases(t: Tree, i: nat, n: Tree)
    requires i <= |t.children|
    ensures n in DescendantsBefore(t, i) <==>
      exists k :: 0 <= k < i && (n == t.children[k] || n in Descendants(t.children[k]))
  {
    if i > 0 {
      DescendantsBeforeCases(t, i - 1, n);
    }
  }

  lemma DescendantsCases(t: Tree, n: Tree)
    ensures n in Descendants(t) <==>
      exists k :: 0 <= k < |t.children| && (n == t.children[k] || n in Descendants(t.children[k]))
  {
    DescendantsBeforeCases(t, |t.children|, n);
  }

  lemma {:induction false} AllCheckedDescendants(t: Tree, v: bool)
    requires AllChecked(t, v)
    ensures forall n :: n in Descendants(t) ==> n.checked == v
  {
    forall n | n in Descendants(t) ensures n.checked == v {
      DescendantsCases(t, n);
      var k :| 0 <= k < |t.children| && (n == t.children[k] || n in Descendants(t.children[k]));
      if n != t.children[k] {
        AllCheckedDescendants(t.children[k], v);
      }
    }
  }

  lemma {:induction false} FilesInAppend(a: seq<Tree>, b: seq<Tree>)
    ensures FilesIn(a + b) == FilesIn(a) + FilesIn(b)
    ensures DirectoriesIn(a + b) == DirectoriesIn(a) + DirectoriesIn(b)
    decreases |b|
  {
    if b == [] {
      assert a + b == a;
    } else {
      var init, last := b[..|b| - 1], b[|b| - 1];
      assert (a + b)[..|a + b| - 1] == a + init && (a + b)[|a + b| - 1] == last;
      FilesInAppend(a, init);
      ConcatAssoc(FilesIn(a), FilesIn(init), FileOf(last));
      ConcatAssoc(DirectoriesIn(a), DirectoriesIn(init), DirectoryOf(last));
    }
  }

  /** One step of the collectors' loop: after what `files` and `dirs` already
      hold, the `i`-th child, then its subtree. */
  lemma CollectStep(t: Tree, i: nat, files: seq<VFile>, dirs: seq<VFile>)
    requires i < |t.children|
    ensures files + FilesIn(DescendantsBefore(t, i + 1)) ==
      files + FilesIn(DescendantsBefore(t, i)) + FileOf(t.children[i]) + SelectedFiles(t.children[i])
    ensures dirs + DirectoriesIn(DescendantsBefore(t, i + 1)) ==
      dirs + DirectoriesIn(DescendantsBefore(t, i)) + DirectoryOf(t.children[i]) + SelectedDirectories(t.children[i])
  {
    var before, c := DescendantsBefore(t, i), t.children[i];
    assert DescendantsBefore(t, i + 1) == before + [c] + Descendants(c);
    FilesInAppend(before, [c]);
    FilesInAppend(before + [c], Descendants(c));
    FilesInSingle(c);
    ConcatAssoc(files, FilesIn(before) + FileOf(c), SelectedFiles(c));
    ConcatAssoc(files, FilesIn(before), FileOf(c));
    ConcatAssoc(dirs, DirectoriesIn(before) + DirectoryOf(c), SelectedDirectories(c));
    ConcatAssoc(dirs, DirectoriesIn(before), DirectoryOf(c));
  }

  /** One round of the files collector's loop: what stood for the first `i`
      children, then the `i`-th child's own entry, then its subtree's. */
  lemma CollectFilesStep(t: Tree, i: nat, acc: seq<VFile>, before: seq<VFile>, mid: seq<VFile>, after: seq<VFile>)
    requires i < |t.children|
    requires before == acc + FilesIn(DescendantsBefore(t, i))
    requires mid == before + FileOf(t.children[i])
    requires after == mid + SelectedFiles(t.children[i])
    ensures after == acc + FilesIn(DescendantsBefore(t, i + 1))
  {
    CollectStep(t, i, acc, []);
  }

  /** The same round for the directories list. */
  lemma CollectDirectoriesStep(t: Tree, i: nat, acc: seq<VFile>, before: seq<VFile>, mid: seq<VFile>, after: seq<VFile>)
    requires i < |t.children|
    requires before == acc + DirectoriesIn(DescendantsBefore(t, i))
    requires mid == before + DirectoryOf(t.children[i])
    requires after == mid + SelectedDirectories(t.children[i])
    ensures after == acc + DirectoriesIn(DescendantsBefore(t, i + 1))
  {
    CollectStep(t, i, [], acc);
  }

  lemma FilesInSingle(n: Tree)
    ensures FilesIn([n]) == FileOf(n) && DirectoriesIn([n]) == DirectoryOf(n)
  {
    assert [n][..0] == [];
  }

  /** A handle is collected as a file exactly when some checked file node in
      the walk carries it; ancestors' marks play no part. */
  lemma {:induction false} FilesInMembership(ns: seq<Tree>, f: VFile)
    ensures f in FilesIn(ns) <==> exists n :: n in ns && IsSelectedFile(n) && n.file.value == f
    ensures f in DirectoriesIn(ns) <==> exists n :: n in ns && IsSelectedDirectory(n) && n.file.value == f
  {
    if ns != [] {
      var init, last := ns[..|ns| - 1], ns[|ns| - 1];
      assert ns == init + [last];
      FilesInMembership(init, f);
      forall n | n in ns ensures n in init || n == last {}
    }
  }

  lemma {:induction false} FilesInUnchecked(ns: seq<Tree>)
    requires forall n :: n in ns ==> !n.checked
    ensures FilesIn(ns) == [] && DirectoriesIn(ns) == []
  {
    if ns != [] {
      FilesInUnchecked(ns[..|ns| - 1]);
    }
  }

  /** With every node checked and carrying a handle, each node lands in
      exactly one of the two lists: directories in one, files in the other. */
  lemma {:induction false} FilesInAllChecked(ns: seq<Tree>)
    requires forall n :: n in ns ==> n.checked && n.file.Some?
    ensures |FilesIn(ns)| + |DirectoriesIn(ns)| == |ns|
  {
    if ns != [] {
      FilesInAllChecked(ns[..|ns| - 1]);
    }
  }

  // ---------------------------------------------------------------------------
  // Lemmas: the collectors

  /** collectSelectedFiles finds a checked file wherever it sits, under
      checked or unchecked directories alike, and finds nothing else. */
  lemma SelectedFilesMembership(t: Tree, f: VFile)
    ensures f in SelectedFiles(t) <==>
      exists n :: n in Descendants(t) && IsSelectedFile(n) && n.file.value == f
    ensures f in SelectedDirectories(t) <==>
      exists n :: n in Descendants(t) && IsSelectedDirectory(n) && n.file.value == f
  {
    FilesInMembership(Descendants(t), f);
  }

  /** Nothing is collected from a tree with no check marks. */
  lemma UncheckedTreeSelectsNothing(t: Tree)
    requires AllChecked(t, false)
    ensures SelectedFiles(t) == [] && SelectedDirectories(t) == []
  {
    AllCheckedDescendants(t, false);
    FilesInUnchecked(Descendants(t));
  }

  /** After select all, each node below the root is collected once: every
      directory in the directory list and every file in the file list. */
  lemma SelectAllCollectsEveryNode(t: Tree)
    requires forall n :: n in Descendants(t) ==> n.file.Some?
    ensures |SelectedFiles(SetAll(t, true))| + |SelectedDirectories(SetAll(t, true))| == |Descendants(t)|
  {
    var s := SetAll(t, true);
    SetAllMarksEveryNode(t, true);
    AllCheckedDescendants(s, true);
    SameShapeDescendants(s, t);
    FilesInAllChecked(Descendants(s));
  }

  /** After select all, every file below the root is in the file list... */
  lemma SelectAllFindsFile(t: Tree, n: Tree)
    requires n in Descendants(t) && n.file.Some? && !n.file.value.IsDirectory()
    ensures n.file.value in SelectedFiles(SetAll(t, true))
  {
    var s := SetAll(t, true);
    var k :| 0 <= k < |Descendants(t)| && Descendants(t)[k] == n;
    SetAllMarksEveryNode(t, true);
    AllCheckedDescendants(s, true);
    SameShapeDescendants(s, t);
    var m := Descendants(s)[k];
    assert m in Descendants(s) && IsSelectedFile(m) && m.file == n.file;
    SelectedFilesMembership(s, n.file.value);
  }

  /** ...and everything in it is a file below the root. */
  lemma SelectAllFileFound(t: Tree, f: VFile)
    requires f in SelectedFiles(SetAll(t, true))
    ensures exists n :: n in Descendants(t) && n.file == Some(f) && !f.IsDirectory()
  {
    var s := SetAll(t, true);
    SelectedFilesMembership(s, f);
    var m :| m in Descendants(s) && IsSelectedFile(m) && m.file.value == f;
    var k :| 0 <= k < |Descendants(s)| && Descendants(s)[k] == m;
    SetAllMarksEveryNode(t, true);
    SameShapeDescendants(s, t);
    assert Descendants(t)[k] in Descendants(t);
  }

  /** The handles held by the nodes `ns`, marks aside: those of files
      (`!dirs`) or of directories (`dirs`), in order. */
  function Handles(ns: seq<Tree>, dirs: bool): seq<VFile> {
    if ns == [] then []
    else
      var n := ns[|ns| - 1];
      Handles(ns[..|ns| - 1], dirs) + (if n.file.Some? && n.file.value.IsDirectory() == dirs then [n.file.value] else [])
  }

  /** A handle is listed exactly when some node holds it and it is of the
      kind asked for. */
  lemma {:induction false} HandlesMembership(ns: seq<Tree>, dirs: bool, f: VFile)
    ensures f in Handles(ns, dirs) <==> exists n :: n in ns && n.file == Some(f) && f.IsDirectory() == dirs
  {
    if ns != [] {
      var init, last := ns[..|ns| - 1], ns[|ns| - 1];
      HandlesMembership(init, dirs, f);
      assert forall n :: n in ns <==> n in init || n == last;
    }
  }

  /** Nodes that all hold a handle give one entry each, in one list or the
      other. */
  lemma {:induction false} HandlesCount(ns: seq<Tree>)
    requires forall k :: 0 <= k < |ns| ==> ns[k].file.Some?
    ensures |Handles(ns, false)| + |Handles(ns, true)| == |ns|
  {
    if ns != [] {
      HandlesCount(ns[..|ns| - 1]);
    }
  }

  /** When every node of `ns` is checked and carries the handle of the node
      of `ms` at the same position, the collectors list exactly the handles
      of `ms`. */
  lemma {:induction false} FilesInAllMarked(ns: seq<Tree>, ms: seq<Tree>)
    requires |ns| == |ms|
    requires forall k :: 0 <= k < |ns| ==> ns[k].checked && ns[k].file == ms[k].file
    ensures FilesIn(ns) == Handles(ms, false) && DirectoriesIn(ns) == Handles(ms, true)
  {
    if ns != [] {
      FilesInAllMarked(ns[..|ns| - 1], ms[..|ms| - 1]);
    }
  }

  /** After select all, the file list is the handle of every file node below
      the root and the directory list that of every directory node, each
      once and in the collectors' pre-order. */
  lemma SelectAllCollectsInOrder(t: Tree)
    ensures SelectedFiles(SetAll(t, true)) == Handles(Descendants(t), false)
    ensures SelectedDirectories(SetAll(t, true)) == Handles(Descendants(t), true)
  {
    var s := SetAll(t, true);
    SetAllMarksEveryNode(t, true);
    AllCheckedDescendants(s, true);
    SameShapeDescendants(s, t);
    FilesInAllMarked(Descendants(s), Descendants(t));
  }

  /** After select all, a directory is in the directory list exactly when it
      is the handle of a directory node below the root. */
  lemma SelectAllDirectoryMembership(t: Tree, f: VFile)
    ensures f in SelectedDirectories(SetAll(t, true)) <==>
      exists n :: n in Descendants(t) && n.file == Some(f) && f.IsDirectory()
  {
    SelectAllCollectsInOrder(t);
    HandlesMembership(Descendants(t), true, f);
  }

  /** Trees of the same shape have walks of the same length whose nodes carry
      the same handles, position by position. */
  lemma {:induction false} SameShapeDescendants(a: Tree, b: Tree)
    requires SameShape(a, b)
    ensures |Descendants(a)| == |Descendants(b)|
    ensures forall k :: 0 <= k < |Descendants(a)| ==> Descendants(a)[k].file == Descendants(b)[k].file
    decreases a, 1
  {
    SameShapeDescendantsBefore(a, b, |a.children|);
  }

  lemma {:induction false} SameShapeDescendantsBefore(a: Tree, b: Tree, i: nat)
    requires SameShape(a, b) && i <= |a.children|
    ensures |DescendantsBefore(a, i)| == |DescendantsBefore(b, i)|
    ensures forall k :: 0 <= k < |DescendantsBefore(a, i)| ==>
      DescendantsBefore(a, i)[k].file == DescendantsBefore(b, i)[k].file
    decreases a, 0, i
  {
    if i > 0 {
      SameShapeDescendantsBefore(a, b, i - 1);
      SameShapeDescendants(a.children[i - 1], b.children[i - 1]);
    }
  }

  /** The freshly built tree selects nothing. */
  lemma {:induction false} MirrorUnchecked(parentLoc: seq<string>, e: Entry)
    ensures AllChecked(Mirror(parentLoc, e), false)
    decreases e
  {
    var t := Mirror(parentLoc, e);
    forall i | 0 <= i < |t.children| ensures AllChecked(t.children[i], false) {
      MirrorUnchecked(parentLoc + [e.name], Children(e)[i]);
    }
  }

  lemma FreshTreeSelectsNothing(baseDir: Option<Entry>)
    ensures AllChecked(RootTree(baseDir), false)
    ensures SelectedFiles(RootTree(baseDir)) == [] && SelectedDirectories(RootTree(baseDir)) == []
  {
    var t := RootTree(baseDir);
    var ch := if baseDir.Some? then Children(baseDir.value) else [];
    forall i | 0 <= i < |t.children| ensures AllChecked(t.children[i], false) {
      MirrorUnchecked([], ch[i]);
    }
    UncheckedTreeSelectsNothing(t);
  }

  // ---------------------------------------------------------------------------
  // Locations in a built tree

  /** Where `t` sits: its handle's location, or the base directory (the
      empty location) for the "Project Files" root. */
  function LocOf(t: Tree): seq<string> {
    if t.file.Some? then t.file.value.loc else []
  }

  /** Every node below `t` has a handle, located at its parent's location
      followed by its own name. */
  predicate WellLocated(t: Tree) {
    forall i :: 0 <= i < |t.children| ==>
      t.children[i].file.Some? &&
      t.children[i].file.value.loc == LocOf(t) + [t.children[i].file.value.Name()] &&
      WellLocated(t.children[i])
  }

  lemma {:induction false} MirrorWellLocated(parentLoc: seq<string>, e: Entry)
    ensures WellLocated(Mirror(parentLoc, e))
    ensures Mirror(parentLoc, e).file.value.loc == parentLoc + [e.name]
    decreases e
  {
    var t := Mirror(parentLoc, e);
    forall i | 0 <= i < |t.children|
      ensures t.children[i].file.Some? && t.children[i].file.value.loc == LocOf(t) + [t.children[i].file.value.Name()]
      ensures WellLocated(t.children[i])
    {
      MirrorWellLocated(parentLoc + [e.name], Children(e)[i]);
    }
  }

  lemma RootTreeWellLocated(baseDir: Option<Entry>)
    ensures WellLocated(RootTree(baseDir))
  {
    var t := RootTree(baseDir);
    var ch := if baseDir.Some? then Children(baseDir.value) else [];
    forall i | 0 <= i < |t.children|
      ensures t.children[i].file.Some? && t.children[i].file.value.loc == LocOf(t) + [t.children[i].file.value.Name()]
      ensures WellLocated(t.children[i])
    {
      MirrorWellLocated([], ch[i]);
    }
  }

  /** In a well-located tree, every node below a node with a handle sits at a
      location that strictly extends that node's, and is well located itself. */
  lemma {:induction false} WellLocatedDescendants(t: Tree)
    requires WellLocated(t)
    ensures forall n :: n in Descendants(t) ==> n.file.Some? && WellLocated(n)
    ensures t.file.Some? ==> forall n :: n in Descendants(t) ==> t.file.value.loc < n.file.value.loc
  {
    forall n | n in Descendants(t)
      ensures n.file.Some? && WellLocated(n)
      ensures t.file.Some? ==> t.file.value.loc < n.file.value.loc
    {
      DescendantsCases(t, n);
      var k :| 0 <= k < |t.children| && (n == t.children[k] || n in Descendants(t.children[k]));
      var c := t.children[k];
      assert LocOf(t) < c.file.value.loc by {
        assert c.file.value.loc == LocOf(t) + [c.file.value.Name()];
      }
      if n != c {
        WellLocatedDescendants(c);
        assert c.file.value.loc < n.file.value.loc;
      }
    }
  }
}
