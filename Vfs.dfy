/** The part of IntelliJ's virtual file system the dialog talks to, as a
    finite value: a directory's listing either succeeds with its entries in
    the provider's order or fails with a message. Reading a file's bytes is a
    separate oracle (`ReadResult`), passed to the operations that read. */
module Vfs {

  datatype Option<T> = None | Some(value: T)

  datatype Entry =
    | File(name: string)
    | Dir(name: string, listing: Listing)

  datatype Listing = Listed(entries: seq<Entry>) | ListingFailed(error: string)

  /** The outcome of Files.readAllBytes on a path, decoded to text. */
  datatype ReadResult = Read(text: string) | ReadFailed(message: string)

  /** VirtualFile.getChildren(), with a failed listing read as no children
      (both callers catch the exception and carry on). Every child is smaller
      than its directory, which is what lets the walks over it terminate. */
  function Children(e: Entry): (r: seq<Entry>)
    ensures e.File? || e.listing.ListingFailed? ==> r == []
    ensures e.Dir? && e.listing.Listed? ==> r == e.listing.entries
    ensures forall i :: 0 <= i < |r| ==> r[i] < e
  {
    match e
    case File(_) => []
    case Dir(_, listing) =>
      match listing
      case Listed(entries) => entries
      case ListingFailed(_) => []
  }

  /** A VirtualFile handle: its location (the names leading to it from the
      project's base directory, its own name last) and the entry found there.
      Handles are compared as values, location and entry together. */
  datatype VFile = VFile(loc: seq<string>, entry: Entry) {
    predicate IsDirectory() {
      entry.Dir?
    }
    function Name(): string {
      entry.name
    }
  }

  /** VirtualFile.getPath(): the base directory's path, then "/" and each name. */
  function PathOf(basePath: string, loc: seq<string>): string {
    if loc == [] then basePath
    else PathOf(basePath, loc[..|loc| - 1]) + "/" + loc[|loc| - 1]
  }

  /** The index of the last '.' in a name, if any. */
  function LastDot(name: string): (r: Option<nat>)
    ensures r.None? <==> '.' !in name
    ensures r.Some? ==> r.value < |name| && name[r.value] == '.' && '.' !in name[r.value + 1..]
  {
    if name == [] then None
    else if name[|name| - 1] == '.' then Some(|name| - 1)
    else
      var r := LastDot(name[..|name| - 1]);
      assert name == name[..|name| - 1] + [name[|name| - 1]];
      assert r.Some? ==> name[r.value + 1..] == name[..|name| - 1][r.value + 1..] + [name[|name| - 1]];
      r
  }

  /** VirtualFile.getExtension(): the text after the last '.', or null. */
  function Extension(name: string): Option<string> {
    match LastDot(name)
    case None => None
    case Some(i) => Some(name[i + 1..])
  }

  /** The test the dialog applies before extracting signatures. */
  predicate IsJava(name: string) {
    Extension(name) == Some("java")
  }

  /** A name has extension "java" exactly when it ends in ".java". */
  lemma IsJavaIffSuffix(name: string)
    ensures IsJava(name) <==> |name| >= 5 && name[|name| - 5..] == ".java"
  {
    if |name| >= 5 && name[|name| - 5..] == ".java" {
      var tail := name[|name| - 5..];
      assert name[|name| - 5] == '.' && '.' !in name[|name| - 4..] by {
        assert forall k :: |name| - 4 <= k < |name| ==> name[k] == tail[k - (|name| - 5)];
      }
      var r := LastDot(name);
      assert r.Some? && r.value == |name| - 5;
      assert name[r.value + 1..] == "java";
    }
  }
}
