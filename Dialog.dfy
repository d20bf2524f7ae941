/** FileSelectionDialog: the check-box tree over the project, the "Copy
    Methods Only" boxes of Java files, and the four buttons of the dialog.
    What the dialog shows in a message box or places on the clipboard is the
    `Outcome` a button returns; reading a file goes through an oracle from a
    path to what Files.readAllBytes yields for it. */
module Dialog {
  import opened Vfs
  import opened Text
  import opened TreeModel
  import opened CheckboxTree
  import opened Structure
  import opened Signatures

  /** The clipboard receives `text`, or an information box shows `message`. */
  datatype Outcome = Copied(text: string) | Informed(message: string)

  // ---------------------------------------------------------------------------
  // Copy Content

  /** The line that opens every file's section. */
  function Header(basePath: string, file: VFile): string {
    "File Path: " + PathOf(basePath, file.loc) + "\n"
  }

  /** What copySelectedContent appends for one file: its path line, then its
      method signatures or its whole content, then a blank line. A failed read
      of the whole content aborts the section after the path line. */
  function Section(basePath: string, methodsOnly: bool, read: string -> ReadResult, file: VFile): string {
    var path := PathOf(basePath, file.loc);
    if methodsOnly && IsJava(file.Name()) then
      Header(basePath, file) + "Method Signatures:\n" + Extracted(read(path)) + "\n\n"
    else
      match read(path)
      case Read(text) => Header(basePath, file) + "Content:\n" + text + "\n\n"
      case ReadFailed(_) => Header(basePath, file)
  }

  /** Whether the file's "Copy Methods Only" box exists and is ticked. */
  predicate Ticked(boxes: map<VFile, bool>, file: VFile) {
    file in boxes && boxes[file]
  }

  /** The sections of `files`, in order. */
  function ContentPayload(basePath: string, boxes: map<VFile, bool>, read: string -> ReadResult, files: seq<VFile>): string {
    if files == [] then ""
    else
      var last := files[|files| - 1];
      ContentPayload(basePath, boxes, read, files[..|files| - 1]) + Section(basePath, Ticked(boxes, last), read, last)
  }

  /** What the Copy Content button does to a tree `t`. */
  function ContentOutcome(basePath: string, boxes: map<VFile, bool>, read: string -> ReadResult, t: Tree): Outcome {
    var files := SelectedFiles(t);
    if files == [] then Informed("No files selected") else Copied(ContentPayload(basePath, boxes, read, files))
  }

  // ---------------------------------------------------------------------------
  // Copy Structure

  /** What the Copy Structure button does to a tree `t`. */
  function StructureOutcome(t: Tree): Outcome {
    var files, directories := SelectedFiles(t), SelectedDirectories(t);
    if files == [] && directories == [] then Informed("No files or directories selected")
    else Copied(StructurePayload(files, directories))
  }

  // ---------------------------------------------------------------------------
  // The dialog

  class FileSelectionDialog {
    const basePath: string
    const rootNode: Node
    /** The "Copy Methods Only" boxes, by file, with whether each is ticked. */
    var methodSignatureCheckboxes: map<VFile, bool>
    /** The files whose box sits in the File Options panel, the only boxes
        the user can see and tick. */
    var panelBoxes: set<VFile>

    /** The tree is well formed, only Java files have a box, the panel holds
        registered boxes only, and a box outside the panel is never ticked. */
    ghost predicate Valid()
      reads this
    {
      rootNode.Valid() &&
      (forall f :: f in methodSignatureCheckboxes ==> !f.IsDirectory() && IsJava(f.Name())) &&
      panelBoxes <= methodSignatureCheckboxes.Keys &&
      forall f :: f in methodSignatureCheckboxes && f !in panelBoxes ==> !methodSignatureCheckboxes[f]
    }

    /** The dialog as created for a project whose base directory lies at
        `basePath`: createCenterPanel builds the tree, the cell renderer meets
        the files `drawnEarly` before the File Options panel is filled, and
        the panel then receives exactly the boxes registered so far. */
    constructor (basePath: string, baseDir: Option<Entry>, drawnEarly: set<VFile>)
      ensures Valid() && fresh(rootNode.Repr)
      ensures this.basePath == basePath && rootNode.Model() == RootTree(baseDir)
      ensures forall f :: f in methodSignatureCheckboxes <==> f in drawnEarly && !f.IsDirectory() && IsJava(f.Name())
      ensures forall f :: f in methodSignatureCheckboxes ==> !methodSignatureCheckboxes[f]
      ensures panelBoxes == methodSignatureCheckboxes.Keys
    {
      this.basePath := basePath;
      var root := BuildTree(baseDir);
      rootNode := root;
      var boxes := map f | f in drawnEarly && !f.IsDirectory() && IsJava(f.Name()) :: false;
      methodSignatureCheckboxes := boxes;
      panelBoxes := boxes.Keys;
    }

    /** The cell renderer meeting `file` once the dialog is shown: a Java file
        gets an unticked box the first time it is drawn, but the box is not
        added to the File Options panel; nothing else changes. */
    method RegisterMethodCheckbox(file: VFile)
      requires Valid()
      modifies this
      ensures Valid() && panelBoxes == old(panelBoxes)
      ensures methodSignatureCheckboxes ==
        if !file.IsDirectory() && IsJava(file.Name()) && file !in old(methodSignatureCheckboxes)
        then old(methodSignatureCheckboxes)[file := false]
        else old(methodSignatureCheckboxes)
    {
      if !file.IsDirectory() && IsJava(file.Name()) {
        if file !in methodSignatureCheckboxes {
          methodSignatureCheckboxes := methodSignatureCheckboxes[file := false];
        }
      }
    }

    /** The renderer as evidently intended: the new box is also placed in the
        File Options panel, so every Java file drawn can be copied as method
        signatures. */
    method RegisterShownMethodCheckbox(file: VFile)
      requires Valid()
      modifies this
      ensures Valid()
      ensures !file.IsDirectory() && IsJava(file.Name()) ==> file in panelBoxes
      ensures methodSignatureCheckboxes ==
        if !file.IsDirectory() && IsJava(file.Name()) && file !in old(methodSignatureCheckboxes)
        then old(methodSignatureCheckboxes)[file := false]
        else old(methodSignatureCheckboxes)
      ensures panelBoxes ==
        if !file.IsDirectory() && IsJava(file.Name()) then old(panelBoxes) + {file} else old(panelBoxes)
    {
      RegisterMethodCheckbox(file);
      if !file.IsDirectory() && IsJava(file.Name()) {
        panelBoxes := panelBoxes + {file};
      }
    }

    /** The user ticking or clearing a box shown in the File Options panel. */
    method SetMethodsOnly(file: VFile, ticked: bool)
      requires Valid() && file in panelBoxes
      modifies this
      ensures Valid() && panelBoxes == old(panelBoxes)
      ensures methodSignatureCheckboxes == old(methodSignatureCheckboxes)[file := ticked]
    {
      methodSignatureCheckboxes := methodSignatureCheckboxes[file := ticked];
    }

    /** The Select All (`select`) and Deselect All (`!select`) buttons. */
    method SelectAllFiles(select: bool)
      requires Valid()
      modifies rootNode.Repr
      ensures Valid()
      ensures rootNode.Model() == SetAll(old(rootNode.Model()), select)
    {
      SetNodeCheckedRecursively(rootNode, select);
    }

    /** The Copy Content button. */
    method CopySelectedContent(read: string -> ReadResult) returns (outcome: Outcome)
      requires Valid()
      ensures outcome == ContentOutcome(basePath, methodSignatureCheckboxes, read, rootNode.Model())
    {
      ghost var t := rootNode.Model();
      var selectedFiles := CollectSelectedFiles(rootNode, t, []);
      assert selectedFiles == SelectedFiles(t);
      if selectedFiles == [] {
        return Informed("No files selected");
      }
      var contentToCopy := CopyFiles(read, selectedFiles);
      return Copied(contentToCopy);
    }

    /** copySelectedContent's loop over the selected files. */
    method CopyFiles(read: string -> ReadResult, selectedFiles: seq<VFile>) returns (contentToCopy: string)
      ensures contentToCopy == ContentPayload(basePath, methodSignatureCheckboxes, read, selectedFiles)
    {
      contentToCopy := "";
      for i := 0 to |selectedFiles|
        invariant contentToCopy == ContentPayload(basePath, methodSignatureCheckboxes, read, selectedFiles[..i])
      {
        var file := selectedFiles[i];
        var copyMethodsOnly := file in methodSignatureCheckboxes && methodSignatureCheckboxes[file];
        var section := CopyOneFile(copyMethodsOnly, read, file);
        assert selectedFiles[..i + 1][..i] == selectedFiles[..i];
        contentToCopy := contentToCopy + section;
      }
      assert selectedFiles[..|selectedFiles|] == selectedFiles;
    }

    /** The body of copySelectedContent's loop for one file. */
    method CopyOneFile(copyMethodsOnly: bool, read: string -> ReadResult, file: VFile) returns (section: string)
      ensures section == Section(basePath, copyMethodsOnly, read, file)
    {
      var path := PathOf(basePath, file.loc);
      section := "File Path: " + path + "\n";
      var extension := Extension(file.Name());
      if copyMethodsOnly && extension.Some? && extension.value == "java" {
        var methodSignatures := ExtractMethodSignatures(read(path));
        section := section + "Method Signatures:\n" + methodSignatures;
      } else {
        match read(path)
        case ReadFailed(_) =>
          return;
        case Read(content) =>
          section := section + "Content:\n" + content;
      }
      section := section + "\n\n";
    }

    /** The Copy Structure button. */
    method CopyFileStructure() returns (outcome: Outcome)
      requires Valid()
      ensures outcome == StructureOutcome(rootNode.Model())
    {
      ghost var t := rootNode.Model();
      var selectedFiles, selectedDirectories := CollectSelectedFilesAndDirectories(rootNode, t, [], []);
      assert selectedFiles == SelectedFiles(t) && selectedDirectories == SelectedDirectories(t);
      if selectedFiles == [] && selectedDirectories == [] {
        return Informed("No files or directories selected");
      }
      var structure := AssembleStructure(selectedFiles, selectedDirectories);
      return Copied(structure);
    }
  }

  // ---------------------------------------------------------------------------
  // Properties of the buttons

  /** Copy Content reports "No files selected" exactly when no file node is
      checked, whatever directories are. */
  lemma ContentNothingSelected(basePath: string, boxes: map<VFile, bool>, read: string -> ReadResult, t: Tree)
    ensures ContentOutcome(basePath, boxes, read, t) == Informed("No files selected") <==>
      forall n :: n in Descendants(t) ==> !IsSelectedFile(n)
  {
    var files := SelectedFiles(t);
    if files != [] {
      SelectedFilesMembership(t, files[0]);
    } else {
      forall n | n in Descendants(t) ensures !IsSelectedFile(n) {
        if IsSelectedFile(n) {
          SelectedFilesMembership(t, n.file.value);
        }
      }
    }
  }

  /** Copy Structure reports "No files or directories selected" exactly when
      no node of the tree is checked. */
  lemma StructureNothingSelected(t: Tree)
    ensures StructureOutcome(t) == Informed("No files or directories selected") <==>
      forall n :: n in Descendants(t) && n.file.Some? ==> !n.checked
  {
    var files, directories := SelectedFiles(t), SelectedDirectories(t);
    if files != [] {
      SelectedFilesMembership(t, files[0]);
    } else if directories != [] {
      SelectedFilesMembership(t, directories[0]);
    } else {
      forall n | n in Descendants(t) && n.file.Some? ensures !n.checked {
        SelectedFilesMembership(t, n.file.value);
      }
    }
  }

  /** A dialog that has just opened, or whose Deselect All button was just
      pressed, copies nothing from either copy button. */
  lemma DeselectedTreeCopiesNothing(basePath: string, boxes: map<VFile, bool>, read: string -> ReadResult, t: Tree)
    requires AllChecked(t, false)
    ensures ContentOutcome(basePath, boxes, read, t) == Informed("No files selected")
    ensures StructureOutcome(t) == Informed("No files or directories selected")
  {
    UncheckedTreeSelectsNothing(t);
  }

  lemma FreshDialogCopiesNothing(basePath: string, boxes: map<VFile, bool>, read: string -> ReadResult, baseDir: Option<Entry>)
    ensures ContentOutcome(basePath, boxes, read, RootTree(baseDir)) == Informed("No files selected")
    ensures StructureOutcome(RootTree(baseDir)) == Informed("No files or directories selected")
  {
    FreshTreeSelectsNothing(baseDir);
  }

  lemma DeselectAllCopiesNothing(basePath: string, boxes: map<VFile, bool>, read: string -> ReadResult, t: Tree)
    ensures ContentOutcome(basePath, boxes, read, SetAll(t, false)) == Informed("No files selected")
    ensures StructureOutcome(SetAll(t, false)) == Informed("No files or directories selected")
  {
    SetAllMarksEveryNode(t, false);
    DeselectedTreeCopiesNothing(basePath, boxes, read, SetAll(t, false));
  }

  /** After Select All, Copy Structure copies something as soon as the base
      directory lists at least one entry. */
  lemma SelectAllCopiesStructure(baseDir: Option<Entry>)
    requires RootTree(baseDir).children != []
    ensures StructureOutcome(SetAll(RootTree(baseDir), true)).Copied?
  {
    var t := RootTree(baseDir);
    RootTreeWellLocated(baseDir);
    WellLocatedDescendants(t);
    SelectAllCollectsEveryNode(t);
    DescendantsCases(t, t.children[0]);
  }

  /** After Select All, Copy Content copies something exactly when the
      project holds at least one file that is not a directory. */
  lemma SelectAllCopiesContent(basePath: string, boxes: map<VFile, bool>, read: string -> ReadResult, baseDir: Option<Entry>)
    ensures ContentOutcome(basePath, boxes, read, SetAll(RootTree(baseDir), true)).Copied? <==>
      exists n :: n in Descendants(RootTree(baseDir)) && n.file.Some? && !n.file.value.IsDirectory()
  {
    var t := RootTree(baseDir);
    var files := SelectedFiles(SetAll(t, true));
    if files != [] {
      SelectAllFileFound(t, files[0]);
    } else {
      forall n | n in Descendants(t) && n.file.Some? ensures n.file.value.IsDirectory() {
        if !n.file.value.IsDirectory() {
          SelectAllFindsFile(t, n);
        }
      }
    }
  }

  // Lemmas about the content payload

  /** The payload of a list is the payloads of its parts, joined. */
  lemma {:induction false} ContentPayloadAppend(basePath: string, boxes: map<VFile, bool>, read: string -> ReadResult, a: seq<VFile>, b: seq<VFile>)
    ensures ContentPayload(basePath, boxes, read, a + b) ==
      ContentPayload(basePath, boxes, read, a) + ContentPayload(basePath, boxes, read, b)
    decreases |b|
  {
    if b == [] {
      assert a + b == a;
    } else {
      var init := b[..|b| - 1];
      var last := b[|b| - 1];
      assert (a + b)[..|a + b| - 1] == a + init && (a + b)[|a + b| - 1] == last;
      ContentPayloadAppend(basePath, boxes, read, a, init);
      ConcatAssoc(ContentPayload(basePath, boxes, read, a), ContentPayload(basePath, boxes, read, init),
        Section(basePath, Ticked(boxes, last), read, last));
    }
  }

  /** The payload depends on the contents of the listed files only. */
  lemma {:induction false} ContentPayloadReadsOnlyListed(basePath: string, boxes: map<VFile, bool>,
      read: string -> ReadResult, read': string -> ReadResult, files: seq<VFile>)
    requires forall k :: 0 <= k < |files| ==> read(PathOf(basePath, files[k].loc)) == read'(PathOf(basePath, files[k].loc))
    ensures ContentPayload(basePath, boxes, read, files) == ContentPayload(basePath, boxes, read', files)
    decreases |files|
  {
    if files != [] {
      ContentPayloadReadsOnlyListed(basePath, boxes, read, read', files[..|files| - 1]);
    }
  }

  /** Each section opens with its file's path line. Signatures or content
      follow, closed by a blank line, unless the content could not be read,
      in which case the path line stands alone. */
  /** As written, a box that missed the File Options panel is never ticked,
      so its Java file is copied whole even with methods-only in mind. */
  lemma LateBoxCopiesWhole(basePath: string, boxes: map<VFile, bool>, panel: set<VFile>,
                           read: string -> ReadResult, file: VFile)
    requires forall f :: f in boxes && f !in panel ==> !boxes[f]
    requires file !in panel
    ensures !Ticked(boxes, file)
    ensures Section(basePath, Ticked(boxes, file), read, file) == Section(basePath, false, read, file)
  {
  }

  lemma SectionShape(basePath: string, methodsOnly: bool, read: string -> ReadResult, file: VFile)
    ensures var s, h := Section(basePath, methodsOnly, read, file), Header(basePath, file);
      |h| <= |s| && s[..|h|] == h &&
      (s == h <==> !(methodsOnly && IsJava(file.Name())) && read(PathOf(basePath, file.loc)).ReadFailed?) &&
      (s != h ==> |s| >= |h| + 2 && s[|s| - 2..] == "\n\n")
  {
    var s, h := Section(basePath, methodsOnly, read, file), Header(basePath, file);
    if s != h {
      assert s[|s| - 2..] == "\n\n";
    }
  }

  /** The box of a file that is not Java makes no difference. */
  lemma MethodsOnlyOnlyForJava(basePath: string, read: string -> ReadResult, file: VFile)
    requires !IsJava(file.Name())
    ensures Section(basePath, true, read, file) == Section(basePath, false, read, file)
  {
  }

  /** A ticked Java file with no line passing the type test yields an empty
      list of signatures. */
  lemma MethodsOnlyWithoutTypes(basePath: string, read: string -> ReadResult, file: VFile, text: string)
    requires IsJava(file.Name()) && read(PathOf(basePath, file.loc)) == Read(text)
    requires !SomeTypeLine(SplitLines(text))
    ensures Section(basePath, true, read, file) == Header(basePath, file) + "Method Signatures:\n" + "\n\n"
  {
    SignaturesClose(text);
  }
}
