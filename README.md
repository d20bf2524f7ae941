# CopyMate file selection dialog, in Dafny

CopyMate is an IntelliJ plugin action. It opens a dialog (`FileSelectionDialog`)
that shows the project's files as a tree of check boxes. It has four buttons:

- **Select All** / **Deselect All** set every check mark in the tree.
- **Copy Content** puts on the clipboard, for every checked file, a `File Path:`
  line followed by either the file's text or, for a Java file whose "Copy
  Methods Only" box is ticked, a digest of its type and method declarations.
- **Copy Structure** puts on the clipboard an indented outline of every checked
  directory, followed by the names of the checked files that no checked
  directory contains.

This project models that dialog. Its parts are:

- `Vfs`: the project directory as a finite value. Each directory's listing
  succeeds or fails. A `VFile` handle is its location together with the entry
  found there.
- `TreeModel`: the value of the check-box tree (`Tree`). It also holds the
  functions that specify the builder (`Mirror`, `RootTree`), the bulk marking
  (`SetAll`), and the two collectors (`SelectedFiles`, `SelectedDirectories`
  over the pre-order walk `Descendants`).
- `CheckboxTree`: the tree as it lives in the dialog. This is a class `Node`
  whose `checked` field is updated in place, with a `Repr` footprint. Its
  methods are `addFilesRecursively`, `setNodeCheckedRecursively` and the two
  collectors, each proved against `TreeModel` through `Node.Model()`.
- `Structure`: `generateDirectoryStructure`, the parent-chain tests `isChildOf`
  and `isChildOfAnyDirectory`, and the assembly loops of `copyFileStructure`.
- `Text` and `Signatures`: the Java string operations used (`trim`,
  `split("\n")`, `indexOf`), the three regular expressions as predicates on a
  line, and `extractMethodSignatures`.
- `Dialog`: the dialog object and its buttons. A message box or clipboard
  write becomes an `Outcome`: either `Copied(text)` or `Informed(message)`.
  Reading a file becomes a function from a path to `Read(text)` or
  `ReadFailed(message)`.

## Model

Every row cites lines of `CopyMateFileExplorerAction.java`, where the dialog
is a nested class.

| member | source | states |
|---|---|---|
| Text.Trim | src/main/java/com/integer/copymate/CopyMateFileExplorerAction.java:382 | String.trim: the result is a contiguous slice of the input, every character cut from either end is at most U+0020, and the result neither starts nor ends with such a character |
| Text.TrimIdempotent | src/main/java/com/integer/copymate/CopyMateFileExplorerAction.java:404 | trimming an already trimmed line changes nothing, which is what makes the prefix before `{` the only thing a method header keeps |
| Text.IndexOf | src/main/java/com/integer/copymate/CopyMateFileExplorerAction.java:404 | indexOf of a character that occurs finds an occurrence with no earlier one |
| Text.Before | src/main/java/com/integer/copymate/CopyMateFileExplorerAction.java:403-404 | the text before the first `{` is a prefix of the line without `{`, followed in the line by `{` when the line has one, and is the whole line when it has none |
| Text.Split | src/main/java/com/integer/copymate/CopyMateFileExplorerAction.java:377 | splitting on a separator yields at least one piece, no piece holds the separator, and there is exactly one piece iff the text has no separator |
| Text.SplitJoin | src/main/java/com/integer/copymate/CopyMateFileExplorerAction.java:377 | joining the pieces with the separator gives the text back (nothing is lost by splitting) |
| Text.DropTrailingEmpty | src/main/java/com/integer/copymate/CopyMateFileExplorerAction.java:377 | The result is a prefix of the pieces that leaves out only empty pieces and whose last piece, if any, is not empty. |
| Text.SplitLines | src/main/java/com/integer/copymate/CopyMateFileExplorerAction.java:377 | content.split("\n"): no line holds a line feed, a text without a line feed is that one line, and otherwise the lines are the split pieces with every empty piece at the end dropped, so that the last line, if any, is not empty |
| Vfs.Children | src/main/java/com/integer/copymate/CopyMateFileExplorerAction.java:173-188 | getChildren with the exception caught: a file or a directory whose listing fails has no children, otherwise the listing in order, each child smaller than its parent |
| Vfs.LastDot | src/main/java/com/integer/copymate/CopyMateFileExplorerAction.java:262 | the last dot of a name: absent iff the name has no dot, otherwise a dot with none after it |
| Vfs.IsJavaIffSuffix | src/main/java/com/integer/copymate/CopyMateFileExplorerAction.java:262 | getExtension() equals "java" exactly when the name ends in ".java" |
| TreeModel.SetAllMarksEveryNode | src/main/java/com/integer/copymate/CopyMateFileExplorerAction.java:236-242 | after setNodeCheckedRecursively(n, v) every node of the subtree is marked v and the shape and user objects are unchanged |
| TreeModel.SetAllLastWins | src/main/java/com/integer/copymate/CopyMateFileExplorerAction.java:231-242 | two bulk markings in a row equal the last one alone |
| TreeModel.SetAllIdempotent | src/main/java/com/integer/copymate/CopyMateFileExplorerAction.java:231-242 | applying Select All (or Deselect All) twice equals applying it once |
| TreeModel.DescendantsCases | src/main/java/com/integer/copymate/CopyMateFileExplorerAction.java:424-438 | the collectors' walk visits exactly the children of a node and the nodes below them |
| TreeModel.AllCheckedDescendants | src/main/java/com/integer/copymate/CopyMateFileExplorerAction.java:236-242 | in a uniformly marked tree every node the walk visits carries that mark |
| TreeModel.FilesInAppend | src/main/java/com/integer/copymate/CopyMateFileExplorerAction.java:423-463 | collecting from two consecutive stretches of the walk appends their results, for files and for directories |
| TreeModel.FilesInMembership | src/main/java/com/integer/copymate/CopyMateFileExplorerAction.java:442-463 | a handle is collected as a file (directory) iff some visited node is checked and holds that non-directory (directory) |
| TreeModel.FilesInUnchecked | src/main/java/com/integer/copymate/CopyMateFileExplorerAction.java:423-463 | nodes none of which is checked contribute nothing to either list |
| TreeModel.FilesInAllChecked | src/main/java/com/integer/copymate/CopyMateFileExplorerAction.java:448-456 | when every visited node is checked and holds a file, each lands in exactly one of the two lists |
| TreeModel.SelectedFilesMembership | src/main/java/com/integer/copymate/CopyMateFileExplorerAction.java:423-463 | a checked file is collected wherever it sits, even below an unchecked directory, and nothing unchecked is collected |
| TreeModel.UncheckedTreeSelectsNothing | src/main/java/com/integer/copymate/CopyMateFileExplorerAction.java:423-463 | a tree without check marks yields two empty lists |
| TreeModel.SelectAllCollectsEveryNode | src/main/java/com/integer/copymate/CopyMateFileExplorerAction.java:442-463 | after Select All the two lists together hold one entry per node below the root |
| TreeModel.SelectAllFindsFile | src/main/java/com/integer/copymate/CopyMateFileExplorerAction.java:423-440 | after Select All every file below the root is in the file list |
| TreeModel.SelectAllFileFound | src/main/java/com/integer/copymate/CopyMateFileExplorerAction.java:423-440 | after Select All everything in the file list is a non-directory below the root |
| TreeModel.HandlesMembership | src/main/java/com/integer/copymate/CopyMateFileExplorerAction.java:448-456 | a handle is among the file (directory) handles of some nodes iff one of them holds it and it is a non-directory (directory) |
| TreeModel.HandlesCount | src/main/java/com/integer/copymate/CopyMateFileExplorerAction.java:448-456 | nodes that all hold a handle give exactly one handle each, to the file list or to the directory list |
| TreeModel.FilesInAllMarked | src/main/java/com/integer/copymate/CopyMateFileExplorerAction.java:442-463 | on nodes that are all checked, the collectors list exactly the handles of the nodes, files and directories apart, in order |
| TreeModel.SelectAllCollectsInOrder | src/main/java/com/integer/copymate/CopyMateFileExplorerAction.java:423-463 | after Select All the file list is the handle of every file node below the root and the directory list that of every directory node, each once, in pre-order |
| TreeModel.SelectAllDirectoryMembership | src/main/java/com/integer/copymate/CopyMateFileExplorerAction.java:442-463 | after Select All a handle is in the directory list iff it belongs to a directory node below the root |
| TreeModel.SameShapeDescendants | src/main/java/com/integer/copymate/CopyMateFileExplorerAction.java:236-242 | trees of the same shape are walked in step, visiting the same user objects in the same order |
| TreeModel.MirrorUnchecked | src/main/java/com/integer/copymate/CopyMateFileExplorerAction.java:176-177 | every node built for a directory entry starts unchecked |
| TreeModel.FreshTreeSelectsNothing | src/main/java/com/integer/copymate/CopyMateFileExplorerAction.java:173-188 | the freshly built tree is unchecked everywhere and both collectors return empty lists |
| TreeModel.MirrorWellLocated | src/main/java/com/integer/copymate/CopyMateFileExplorerAction.java:175-181 | each node built for an entry holds a handle at its parent's location plus its own name, and so does every node below it |
| TreeModel.RootTreeWellLocated | src/main/java/com/integer/copymate/CopyMateFileExplorerAction.java:67-73 | below the "Project Files" root every node holds a handle at its parent's location (the base directory for the top level) plus its own name |
| TreeModel.WellLocatedDescendants | src/main/java/com/integer/copymate/CopyMateFileExplorerAction.java:173-188 | every node below a node sits at a location that strictly extends that node's |
| CheckboxTree.Node.constructor | src/main/java/com/integer/copymate/CopyMateFileExplorerAction.java:176-178 | a new CheckedTreeNode holds its user object and children, is unchecked, and its footprint is itself plus its children's |
| CheckboxTree.AddFilesRecursively | src/main/java/com/integer/copymate/CopyMateFileExplorerAction.java:173-188 | one fresh, unchecked node per child of the directory, in listing order, each mirroring that child's subtree, with disjoint footprints |
| CheckboxTree.NewChildNode | src/main/java/com/integer/copymate/CopyMateFileExplorerAction.java:176-181 | the node built for one child mirrors the child's subtree, recursing into directories only |
| CheckboxTree.BuildTree | src/main/java/com/integer/copymate/CopyMateFileExplorerAction.java:67-73 | the dialog's root node, when first built, has the value RootTree of the base directory: no base directory gives an empty root |
| CheckboxTree.ModelOfUniformMarks | src/main/java/com/integer/copymate/CopyMateFileExplorerAction.java:177 | a subtree whose nodes all carry the same mark has the value of its skeleton with that mark everywhere |
| CheckboxTree.SetNodeCheckedRecursively | src/main/java/com/integer/copymate/CopyMateFileExplorerAction.java:236-242 | the subtree's new value is SetAll of its old value: every node marked with the argument, the shape and user objects kept |
| CheckboxTree.SetAllIgnoresMarks | src/main/java/com/integer/copymate/CopyMateFileExplorerAction.java:236-242 | the result of bulk marking does not depend on the marks the tree had |
| CheckboxTree.CollectSelectedFiles | src/main/java/com/integer/copymate/CopyMateFileExplorerAction.java:423-440 | the list comes back extended by the checked non-directory handles below the node, in pre-order |
| CheckboxTree.CollectSelectedFilesAndDirectories | src/main/java/com/integer/copymate/CopyMateFileExplorerAction.java:442-463 | the two lists come back extended by the checked files and checked directories below the node, in pre-order; the file list is what collectSelectedFiles gathers |
| Structure.Indent | src/main/java/com/integer/copymate/CopyMateFileExplorerAction.java:348 | the indent of a level is two spaces per level |
| Structure.GenerateDirectoryStructure | src/main/java/com/integer/copymate/CopyMateFileExplorerAction.java:346-367 | the outline returned is Render: the directory's name and "/" at its indent, then each child in order, subdirectories recursively one level deeper, files by name one level deeper |
| Structure.ListingAppend | src/main/java/com/integer/copymate/CopyMateFileExplorerAction.java:346-367 | the text of two consecutive stretches of outline lines is the two texts joined |
| Structure.RenderIsWalk | src/main/java/com/integer/copymate/CopyMateFileExplorerAction.java:346-367 | a directory's outline is one line per node of its subtree, in pre-order, each indented by its depth, directories suffixed "/" |
| Structure.RenderChildrenIsWalk | src/main/java/com/integer/copymate/CopyMateFileExplorerAction.java:355-361 | the children's part of the outline is the pre-order listing of the children's subtrees one level deeper |
| Structure.PieceIsWalk | src/main/java/com/integer/copymate/CopyMateFileExplorerAction.java:356-360 | what one child adds is the listing of that child's subtree one level deeper |
| Structure.WalkSize | src/main/java/com/integer/copymate/CopyMateFileExplorerAction.java:346-367 | the outline has exactly as many lines as the subtree has nodes |
| Structure.WalkChildrenSize | src/main/java/com/integer/copymate/CopyMateFileExplorerAction.java:355-361 | the children's part has as many lines as the children's subtrees have nodes |
| Structure.RenderExample | src/main/java/com/integer/copymate/CopyMateFileExplorerAction.java:346-367 | a directory "dirname" holding sub/a.txt and b.txt renders as "dirname/\n  sub/\n    a.txt\n  b.txt\n" |
| Structure.ParentChainIsPrefixes | src/main/java/com/integer/copymate/CopyMateFileExplorerAction.java:335-344 | the parent chain of a location holds exactly its strict prefixes: a file is never its own parent |
| Structure.IsChildOf | src/main/java/com/integer/copymate/CopyMateFileExplorerAction.java:335-344 | true iff the candidate lies on the child's parent chain |
| Structure.IsChildOfAnyDirectory | src/main/java/com/integer/copymate/CopyMateFileExplorerAction.java:326-333 | true iff one of the listed directories lies on the file's parent chain |
| Structure.SelectedAncestorIsPrefix | src/main/java/com/integer/copymate/CopyMateFileExplorerAction.java:326-344 | a file has a selected ancestor iff some selected directory's location is a strict prefix of its own |
| Structure.LooseFilesAppend | src/main/java/com/integer/copymate/CopyMateFileExplorerAction.java:316-320 | a file inside a selected directory adds no line; one outside adds exactly its name and a line feed |
| Structure.CoveredFilesAddNothing | src/main/java/com/integer/copymate/CopyMateFileExplorerAction.java:310-320 | when every selected file lies inside a selected directory the structure is the directories' outlines alone |
| Structure.AssembleStructure | src/main/java/com/integer/copymate/CopyMateFileExplorerAction.java:309-320 | the text built is every selected directory's outline in order, then the name of each selected file without a selected ancestor |
| Signatures.ProcessLine | src/main/java/com/integer/copymate/CopyMateFileExplorerAction.java:381-410 | one pass of the loop body is one scan step: the type line then the method line the trimmed line yields, and the flag set once a type line is seen |
| Signatures.ExtractMethodSignatures | src/main/java/com/integer/copymate/CopyMateFileExplorerAction.java:369-422 | the result is the scan of the text's lines plus "}\n" when a type line was seen, or exactly "Error extracting methods: " and the message when the read fails |
| Signatures.ScanFlag | src/main/java/com/integer/copymate/CopyMateFileExplorerAction.java:385-395 | inClass is set after the scan iff some trimmed line passed the type test; it is never reset |
| Signatures.ScanIsEmissions | src/main/java/com/integer/copymate/CopyMateFileExplorerAction.java:381-411 | the output is each input line's emission in input order, where a line's method part depends on whether a type line came before it or is the line itself |
| Signatures.NoTypeLineNoOutput | src/main/java/com/integer/copymate/CopyMateFileExplorerAction.java:385-411 | with no line passing the type test nothing at all is emitted, not even method lines |
| Signatures.SignaturesClose | src/main/java/com/integer/copymate/CopyMateFileExplorerAction.java:413-415 | the output ends with "}\n" iff a line passed the type test; otherwise it is empty |
| Signatures.EmissionsWithin | src/main/java/com/integer/copymate/CopyMateFileExplorerAction.java:381-411 | the output of all lines starts with the output of the lines before any line, followed by that line's emission |
| Signatures.TypeLineEmitted | src/main/java/com/integer/copymate/CopyMateFileExplorerAction.java:385-392 | a line passing the type test appears in the output right after the earlier lines' output, as the trimmed line, then " {" exactly when it has no "{", then a line feed |
| Signatures.TypeLineExample | src/main/java/com/integer/copymate/CopyMateFileExplorerAction.java:385-386 | the class header `public class Foo {` passes the type test |
| Signatures.MethodLineExample | src/main/java/com/integer/copymate/CopyMateFileExplorerAction.java:398-399 | the method header `public void bar() {` passes the method test |
| Signatures.MethodSigForm | src/main/java/com/integer/copymate/CopyMateFileExplorerAction.java:402-407 | every method header is the trimmed text before the first "{" followed by " {}" |
| Signatures.MethodLineGuards | src/main/java/com/integer/copymate/CopyMateFileExplorerAction.java:398-399 | a line holding ";" or "//", or one with no type line at or before it, emits no method line |
| Signatures.TypeOutOneLine | src/main/java/com/integer/copymate/CopyMateFileExplorerAction.java:392 | a type line emits exactly one output line |
| Signatures.MethodOutOneLine | src/main/java/com/integer/copymate/CopyMateFileExplorerAction.java:409 | a method line emits exactly one output line |
| Signatures.EmitAtMostTwoLines | src/main/java/com/integer/copymate/CopyMateFileExplorerAction.java:385-410 | one input line emits at most two output lines |
| Signatures.AtMostTwoLinesPerLine | src/main/java/com/integer/copymate/CopyMateFileExplorerAction.java:381-411 | the output has at most two lines per input line |
| Dialog.FileSelectionDialog.constructor | src/main/java/com/integer/copymate/CopyMateFileExplorerAction.java:53-152 | the new dialog's tree is RootTree of the base directory, nothing is checked, the files the renderer met before the panel was filled have unticked boxes, and the File Options panel holds exactly those boxes |
| Dialog.FileSelectionDialog.RegisterMethodCheckbox | src/main/java/com/integer/copymate/CopyMateFileExplorerAction.java:102-107 | a Java file not seen before gets an unticked box that stays out of the panel, and nothing else changes; only Java files ever have boxes |
| Dialog.FileSelectionDialog.RegisterShownMethodCheckbox | src/main/java/com/integer/copymate/CopyMateFileExplorerAction.java:102-107 | the corrected renderer: a Java file drawn gets a box that is also in the File Options panel, so it can be ticked |
| Dialog.FileSelectionDialog.SetMethodsOnly | src/main/java/com/integer/copymate/CopyMateFileExplorerAction.java:143-150 | stands in for the user ticking or clearing a box shown in the File Options panel (only those can be ticked); that box alone changes |
| Dialog.LateBoxCopiesWhole | src/main/java/com/integer/copymate/CopyMateFileExplorerAction.java:255-258 | a Java file whose box is not in the panel is never ticked, so Copy Content copies it whole |
| Dialog.FileSelectionDialog.SelectAllFiles | src/main/java/com/integer/copymate/CopyMateFileExplorerAction.java:231-234 | the tree's new value is SetAll of its old value with the button's flag |
| Dialog.FileSelectionDialog.CopySelectedContent | src/main/java/com/integer/copymate/CopyMateFileExplorerAction.java:245-288 | "No files selected" when no file is collected, otherwise the sections of the collected files in collection order |
| Dialog.FileSelectionDialog.CopyFiles | src/main/java/com/integer/copymate/CopyMateFileExplorerAction.java:254-276 | the text built is the section of each file in turn, whether or not earlier reads failed |
| Dialog.FileSelectionDialog.CopyOneFile | src/main/java/com/integer/copymate/CopyMateFileExplorerAction.java:255-275 | one file's section: path line, then signatures if its box is ticked and it is a Java file, else its content, then a blank line; a failed content read stops after the path line |
| Dialog.FileSelectionDialog.CopyFileStructure | src/main/java/com/integer/copymate/CopyMateFileExplorerAction.java:291-324 | "No files or directories selected" when both lists are empty, otherwise the structure text of the collected lists |
| Dialog.ContentNothingSelected | src/main/java/com/integer/copymate/CopyMateFileExplorerAction.java:245-288 | Copy Content reports "No files selected" iff no file node is checked, however many directories are |
| Dialog.StructureNothingSelected | src/main/java/com/integer/copymate/CopyMateFileExplorerAction.java:296-305 | Copy Structure reports "No files or directories selected" iff no node below the root is checked |
| Dialog.DeselectedTreeCopiesNothing | src/main/java/com/integer/copymate/CopyMateFileExplorerAction.java:245-305 | with no check marks both copy buttons only inform |
| Dialog.FreshDialogCopiesNothing | src/main/java/com/integer/copymate/CopyMateFileExplorerAction.java:245-305 | in a dialog that has just opened both copy buttons only inform |
| Dialog.DeselectAllCopiesNothing | src/main/java/com/integer/copymate/CopyMateFileExplorerAction.java:231-305 | after Deselect All both copy buttons only inform |
| Dialog.SelectAllCopiesStructure | src/main/java/com/integer/copymate/CopyMateFileExplorerAction.java:291-324 | after Select All, Copy Structure copies as soon as the base directory lists an entry |
| Dialog.SelectAllCopiesContent | src/main/java/com/integer/copymate/CopyMateFileExplorerAction.java:245-288 | after Select All, Copy Content copies iff the project holds a file that is not a directory |
| Dialog.ContentPayloadAppend | src/main/java/com/integer/copymate/CopyMateFileExplorerAction.java:254-276 | the text for a list of files is the texts for its parts joined: each file's section stands on its own |
| Dialog.ContentPayloadReadsOnlyListed | src/main/java/com/integer/copymate/CopyMateFileExplorerAction.java:264-269 | the copied text depends on the contents of the selected files only |
| Dialog.SectionShape | src/main/java/com/integer/copymate/CopyMateFileExplorerAction.java:258-275 | each section opens with its path line; it is that line alone iff the whole-content read failed, and otherwise ends with a blank line |
| Dialog.MethodsOnlyOnlyForJava | src/main/java/com/integer/copymate/CopyMateFileExplorerAction.java:262 | the methods-only box of a file that is not Java makes no difference |
| Dialog.MethodsOnlyWithoutTypes | src/main/java/com/integer/copymate/CopyMateFileExplorerAction.java:262-265 | a ticked Java file with no line passing the type test yields an empty list of signatures |

## Findings

| source | as written | input that shows it | evidently intended | confidence | as-written member | corrected member |
|---|---|---|---|---|---|---|
| src/main/java/com/integer/copymate/CopyMateFileExplorerAction.java:102-107 | the renderer puts a new "Copy Methods Only" box into the map but never into the File Options panel, which was filled once at 145-150; `updateMethodCheckboxVisibility` (163-170) only shows a box that has a parent | a Java file the renderer first draws after createCenterPanel has filled the panel: its box is never shown, so it can never be ticked and Copy Content always copies the whole file | every Java file shown in the tree has a box the user can tick | not executed; medium, since which files are drawn before line 145 depends on Swing's painting | Dialog.LateBoxCopiesWhole | Dialog.FileSelectionDialog.RegisterShownMethodCheckbox |

## Left out

- The Swing and IntelliJ user interface is not modelled: the dialog window, the
  cell renderer's icons and fonts, the visibility of the method-box panel, and
  button styling. A method box is registered when the renderer meets a Java file
  (`RegisterMethodCheckbox`). Ticking a box shown in the File Options panel is
  `SetMethodsOnly`. Which files the renderer meets before the panel is filled
  depends on Swing's painting; the constructor takes them as a parameter.
- The system clipboard and the message boxes are not modelled. A clipboard
  write, including its success message, is `Copied(text)`. A clipboard failure
  and its error box are not modelled.
- Decoding file bytes with the platform charset (`new String(bytes)`) is not
  modelled. The read oracle returns text.
- `Paths.get` throwing InvalidPathException is not modelled. A null exception
  message is also not modelled; every failure carries a string.
- The file system is assumed not to change while the dialog is open. The tree,
  the outlines and the reads all see the same directory value.
- getParent above the project's base directory is not modelled. The parent
  chain stops at the base directory, which is never a node of the tree, so no
  selected directory can lie above it.
- Regular expressions are modelled only as the three patterns used, stated as
  predicates on one line (`IsTypeLine`, `IsMethodLine`).
- Signatures.IsTypeLine and Signatures.IsMethodLine: `\b` is modelled as a
  boundary between an ASCII letter, digit or `_` and any other character.
  java.util.regex differs in two ways. In every JDK, a non-spacing mark that
  follows a letter or digit counts as a word character, so in
  `x\u0301class A {` there is no boundary before `class` and Java rejects the
  line, while the model accepts it. JDKs before 19 also count non-ASCII
  letters and digits as word characters. Neither is modelled.
- There is no worked example of extractMethodSignatures on a whole Java text,
  such as a class with one method. Deciding a single line is cheap
  (`TypeLineExample`, `MethodLineExample`), but splitting a multi-line literal
  with `SplitLines` is beyond what the verifier settles cheaply. The parts of
  such an example are proved in general instead: `TypeLineEmitted`,
  `MethodSigForm`, `SignaturesClose` and `ScanIsEmissions`.
- The stack traces printed by `printStackTrace` (lines 186, 274 and 363) are
  not modelled. They are diagnostics that change no result.
- The user clicking check boxes in the tree is not modelled as an operation,
  nor is the platform check-box tree's propagation of such a click to
  children and parents. The collector lemmas (`SelectedFilesMembership`,
  `FilesInMembership`, `CollectSelectedFiles`) hold for every marking of the
  tree, whichever way it was reached.
- Build order differs from the source. The source adds a node to its parent
  before filling it. The model builds each child's subtree first and then
  adds it. Nothing observes the tree in between, so the resulting tree is the
  same.
- The `actionPerformed` entry point is left out, since it only opens the dialog.
- Lone surrogates are not modelled. Strings are sequences of Unicode scalar
  values, so a Java string holding a lone surrogate code unit has no counterpart in the model.
