/** The "Copy Structure" renderer: the indented outline of a directory
    (generateDirectoryStructure), the ancestry test on the parent chain
    (isChildOf, isChildOfAnyDirectory) and the text the button assembles
    from the selected directories and files. */
module Structure {
  import opened Vfs
  import opened Text

  // ---------------------------------------------------------------------------
  // The outline of one directory

  /** "  ".repeat(level). */
  function Indent(level: nat): (r: string)
    ensures |r| == 2 * level && forall k :: 0 <= k < |r| ==> r[k] == ' '
  {
    if level == 0 then "" else Indent(level - 1) + "  "
  }

  /** generateDirectoryStructure(directory, level): the directory's own line,
      then, for each listed child in order, its piece. */
  function Render(d: Entry, level: nat): string
    decreases d, 1
  {
    Indent(level) + d.name + "/\n" + RenderChildren(d, level, |Children(d)|)
  }

  /** What the loop of generateDirectoryStructure has appended after the
      first `k` children. */
  function RenderChildren(d: Entry, level: nat, k: nat): string
    requires k <= |Children(d)|
    decreases d, 0, k
  {
    if k == 0 then "" else RenderChildren(d, level, k - 1) + Piece(Children(d)[k - 1], level)
  }

  /** A child's part of its parent's outline: a subdirectory's outline one
      level deeper, or a file's name one step further in than the parent. */
  function Piece(c: Entry, level: nat): string
    decreases c, 2
  {
    if c.Dir? then Render(c, level + 1) else Indent(level) + "  " + c.name + "\n"
  }

  /** generateDirectoryStructure, appending to a builder child by child. */
  method GenerateDirectoryStructure(directory: Entry, level: nat) returns (result: string)
    ensures result == Render(directory, level)
    decreases directory
  {
    var indent := Indent(level);
    result := indent + directory.name + "/\n";
    ghost var header := result;
    var entries := Children(directory);
    for i := 0 to |entries|
      invariant result == header + RenderChildren(directory, level, i)
    {
      var child := entries[i];
      var piece: string;
      if child.Dir? {
        piece := GenerateDirectoryStructure(child, level + 1);
      } else {
        piece := indent + "  " + child.name + "\n";
      }
      assert piece == Piece(child, level);
      ConcatAssoc(header, RenderChildren(directory, level, i), piece);
      result := result + piece;
    }
  }

  // ---------------------------------------------------------------------------
  // The outline as one line per node

  /** The nodes below and including `e` in pre-order, each with its depth. */
  function Walk(e: Entry, depth: nat): seq<(nat, Entry)>
    decreases e, 1
  {
    [(depth, e)] + WalkChildren(e, depth + 1, |Children(e)|)
  }

  function WalkChildren(e: Entry, depth: nat, k: nat): seq<(nat, Entry)>
    requires k <= |Children(e)|
    decreases e, 0, k
  {
    if k == 0 then [] else WalkChildren(e, depth, k - 1) + Walk(Children(e)[k - 1], depth)
  }

  /** A node's line: indented two spaces per level, a directory's name
      followed by "/". */
  function Line(depth: nat, e: Entry): string {
    Indent(depth) + e.name + (if e.Dir? then "/" else "")
  }

  /** The lines of `ws`, each ended by a line feed. */
  function Listing(ws: seq<(nat, Entry)>): string {
    if ws == [] then "" else Listing(ws[..|ws| - 1]) + LineOf(ws[|ws| - 1])
  }

  function LineOf(w: (nat, Entry)): string {
    Line(w.0, w.1) + "\n"
  }

  lemma {:induction false} ListingAppend(a: seq<(nat, Entry)>, b: seq<(nat, Entry)>)
    ensures Listing(a + b) == Listing(a) + Listing(b)
    decreases |b|
  {
    if b == [] {
      assert a + b == a;
    } else {
      var b', w := b[..|b| - 1], b[|b| - 1];
      assert (a + b)[..|a + b| - 1] == a + b' && (a + b)[|a + b| - 1] == w;
      ListingAppend(a, b');
      ConcatAssoc(Listing(a), Listing(b'), LineOf(w));
    }
  }

  /** The outline of a directory holds exactly one line per node of its
      subtree, in pre-order, each indented by its depth. */
  lemma {:induction false} RenderIsWalk(d: Entry, level: nat)
    requires d.Dir?
    ensures Render(d, level) == Listing(Walk(d, level))
    decreases d, 1
  {
    RenderChildrenIsWalk(d, level, |Children(d)|);
    ListingAppend([(level, d)], WalkChildren(d, level + 1, |Children(d)|));
    assert [(level, d)][..0] == [];
  }

  lemma {:induction false} RenderChildrenIsWalk(d: Entry, level: nat, k: nat)
    requires k <= |Children(d)|
    ensures RenderChildren(d, level, k) == Listing(WalkChildren(d, level + 1, k))
    decreases d, 0, k
  {
    if k > 0 {
      var c := Children(d)[k - 1];
      RenderChildrenIsWalk(d, level, k - 1);
      ListingAppend(WalkChildren(d, level + 1, k - 1), Walk(c, level + 1));
      PieceIsWalk(c, level);
    }
  }

  lemma {:induction false} PieceIsWalk(c: Entry, level: nat)
    ensures Piece(c, level) == Listing(Walk(c, level + 1))
    decreases c, 2
  {
    if c.Dir? {
      RenderIsWalk(c, level + 1);
    } else {
      var w := (level + 1, c);
      assert Walk(c, level + 1) == [w];
      assert [w][..0] == [];
      assert Listing([w]) == LineOf(w);
      assert Line(level + 1, c) == Indent(level) + "  " + c.name;
    }
  }

  /** The number of nodes in the subtree of `e`. */
  function Size(e: Entry): nat
    decreases e, 1
  {
    1 + SizeOfChildren(e, |Children(e)|)
  }

  function SizeOfChildren(e: Entry, k: nat): nat
    requires k <= |Children(e)|
    decreases e, 0, k
  {
    if k == 0 then 0 else SizeOfChildren(e, k - 1) + Size(Children(e)[k - 1])
  }

  /** The walk visits every node of the subtree once. */
  lemma {:induction false} WalkSize(e: Entry, depth: nat)
    ensures |Walk(e, depth)| == Size(e)
    decreases e, 1
  {
    WalkChildrenSize(e, depth + 1, |Children(e)|);
  }

  lemma {:induction false} WalkChildrenSize(e: Entry, depth: nat, k: nat)
    requires k <= |Children(e)|
    ensures |WalkChildren(e, depth, k)| == SizeOfChildren(e, k)
    decreases e, 0, k
  {
    if k > 0 {
      var c := Children(e)[k - 1];
      WalkChildrenSize(e, depth, k - 1);
      WalkSize(c, depth);
      assert WalkChildren(e, depth, k) == WalkChildren(e, depth, k - 1) + Walk(c, depth);
    }
  }

  /** A directory holding `sub/a.txt` and `b.txt`: one line per node, two
      spaces deeper per level. */
  lemma RenderExample()
    ensures Render(Dir("dirname", Listed([Dir("sub", Listed([File("a.txt")])), File("b.txt")])), 0)
      == "dirname/\n" + "  sub/\n" + "    a.txt\n" + "  b.txt\n"
  {
    var sub, b := Dir("sub", Listed([File("a.txt")])), File("b.txt");
    var d := Dir("dirname", Listed([sub, b]));
    RenderExampleSub();
    assert Children(d) == [sub, b];
    assert Indent(1) == "  ";
    assert Piece(b, 0) == "  b.txt\n";
    assert RenderChildren(d, 0, 1) == Piece(sub, 0);
    assert RenderChildren(d, 0, 2) == RenderChildren(d, 0, 1) + Piece(b, 0);
    assert Indent(0) + d.name + "/\n" == "dirname/\n";
  }

  /** The nested directory of the example, one level down. */
  lemma RenderExampleSub()
    ensures Piece(Dir("sub", Listed([File("a.txt")])), 0) == "  sub/\n" + "    a.txt\n"
  {
    var a := File("a.txt");
    var sub := Dir("sub", Listed([a]));
    assert Indent(1) == "  " && Indent(2) == "    ";
    assert RenderChildren(sub, 1, 1) == Piece(a, 1) == "    a.txt\n";
  }

  // ---------------------------------------------------------------------------
  // Ancestry

  /** VirtualFile.getParent() inside the project: the location one name up;
      the base directory's own parent lies outside the tree and can never be
      a selected node, so the chain stops there. */
  function Parent(loc: seq<string>): Option<seq<string>> {
    if loc == [] then None else Some(loc[..|loc| - 1])
  }

  /** The locations isChildOf visits, nearest first. */
  function ParentChain(loc: seq<string>): seq<seq<string>>
    decreases |loc|
  {
    if loc == [] then [] else [loc[..|loc| - 1]] + ParentChain(loc[..|loc| - 1])
  }

  /** The parent chain of a location is exactly its proper prefixes; so no
      file is its own child. */
  lemma {:induction false} ParentChainIsPrefixes(loc: seq<string>, p: seq<string>)
    ensures p in ParentChain(loc) <==> p < loc
    decreases |loc|
  {
    if loc != [] {
      var up := loc[..|loc| - 1];
      ParentChainIsPrefixes(up, p);
      if p < loc && p != up {
        assert |p| < |up| && p == up[..|p|];
      }
    }
  }

  /** isChildOf(child, parent): walks `current` up from the child's parent
      and answers whether it meets `parent`. */
  method IsChildOf(child: VFile, parent: VFile) returns (r: bool)
    ensures r <==> parent.loc in ParentChain(child.loc)
  {
    var current := Parent(child.loc);
    ghost var rest := ParentChain(child.loc);
    while current.Some?
      invariant current.Some? ==> rest == [current.value] + ParentChain(current.value)
      invariant current.None? ==> rest == []
      invariant parent.loc in ParentChain(child.loc) <==> parent.loc in rest
      decreases if current.Some? then |current.value| + 1 else 0
    {
      if current.value == parent.loc {
        return true;
      }
      rest := ParentChain(current.value);
      current := Parent(current.value);
    }
    return false;
  }

  /** isChildOfAnyDirectory: whether some directory of the list lies on the
      file's parent chain. */
  method IsChildOfAnyDirectory(file: VFile, directories: seq<VFile>) returns (r: bool)
    ensures r <==> HasSelectedAncestor(file, directories)
  {
    for i := 0 to |directories|
      invariant forall k :: 0 <= k < i ==> directories[k].loc !in ParentChain(file.loc)
    {
      var b := IsChildOf(file, directories[i]);
      if b {
        return true;
      }
    }
    return false;
  }

  predicate HasSelectedAncestor(file: VFile, directories: seq<VFile>) {
    exists k :: 0 <= k < |directories| && directories[k].loc in ParentChain(file.loc)
  }

  /** Having a selected ancestor means some listed directory's location is a
      proper prefix of the file's. */
  lemma SelectedAncestorIsPrefix(file: VFile, directories: seq<VFile>)
    ensures HasSelectedAncestor(file, directories) <==>
      exists k :: 0 <= k < |directories| && directories[k].loc < file.loc
  {
    forall k | 0 <= k < |directories| {
      ParentChainIsPrefixes(file.loc, directories[k].loc);
    }
  }

  // ---------------------------------------------------------------------------
  // The structure payload

  /** The outlines of the selected directories, in order. */
  function Outlines(directories: seq<VFile>): string {
    if directories == [] then ""
    else Outlines(directories[..|directories| - 1]) + Render(directories[|directories| - 1].entry, 0)
  }

  /** The names of the selected files that no selected directory contains,
      one per line, in order. */
  function LooseFiles(files: seq<VFile>, directories: seq<VFile>): string {
    if files == [] then ""
    else
      var f := files[|files| - 1];
      LooseFiles(files[..|files| - 1], directories) +
        (if HasSelectedAncestor(f, directories) then "" else f.Name() + "\n")
  }

  /** The text copyFileStructure places on the clipboard. */
  function StructurePayload(files: seq<VFile>, directories: seq<VFile>): string {
    Outlines(directories) + LooseFiles(files, directories)
  }

  /** A selected file inside a selected directory adds no line of its own;
      one outside every selected directory adds exactly its name. */
  lemma LooseFilesAppend(files: seq<VFile>, f: VFile, directories: seq<VFile>)
    ensures HasSelectedAncestor(f, directories) ==>
      LooseFiles(files + [f], directories) == LooseFiles(files, directories)
    ensures !HasSelectedAncestor(f, directories) ==>
      LooseFiles(files + [f], directories) == LooseFiles(files, directories) + f.Name() + "\n"
  {
    assert (files + [f])[..|files|] == files;
  }

  /** Files all lying inside selected directories contribute nothing beyond
      the directories' outlines. */
  lemma {:induction false} CoveredFilesAddNothing(files: seq<VFile>, directories: seq<VFile>)
    requires forall k :: 0 <= k < |files| ==> HasSelectedAncestor(files[k], directories)
    ensures StructurePayload(files, directories) == Outlines(directories)
    decreases |files|
  {
    if files != [] {
      CoveredFilesAddNothing(files[..|files| - 1], directories);
    }
  }

  /** The assembly loops of copyFileStructure: directories first, then the
      files no selected directory contains. */
  method AssembleStructure(files: seq<VFile>, directories: seq<VFile>) returns (s: string)
    ensures s == StructurePayload(files, directories)
  {
    s := "";
    for i := 0 to |directories|
      invariant s == Outlines(directories[..i])
    {
      var part := GenerateDirectoryStructure(directories[i].entry, 0);
      assert directories[..i + 1][..i] == directories[..i];
      s := s + part;
    }
    assert directories[..|directories|] == directories;
    ghost var outlines := s;
    for i := 0 to |files|
      invariant s == outlines + LooseFiles(files[..i], directories)
    {
      var inside := IsChildOfAnyDirectory(files[i], directories);
      assert files[..i + 1] == files[..i] + [files[i]];
      LooseFilesAppend(files[..i], files[i], directories);
      if !inside {
        s := s + files[i].Name() + "\n";
      }
    }
    assert files[..|files|] == files;
  }
}
