/**
 * `DynamicClasspathContainer`: the classpath container that a container path
 * describes. Its constructor decodes the configuration from the path's
 * segments; on demand it lists the library folder, and for every library it
 * finds looks for a matching source and javadoc archive.
 */
module DynamicClasspathContainer {
  import opened JavaLang
  import opened Files
  import opened Listing
  import opened Eclipse
  import opened EclipsePath
  import PathEncoder
  import LibraryRegexFilter
  import AttachmentRegexFilter

  /** The container id, the first segment of every container path. */
  const ID: Str := "ch.arktos.dcc.DYNAMIC_CLASSPATH_CONTAINER"

  /** The container's configuration, fixed at construction. */
  datatype Container = Container(
    path: Path,
    projectName: Str,
    libDir: Str,
    libRegex: Str,
    srcRegex: Str,
    docRegex: Str,
    isExported: bool)

  /** `path.segment(k)`: `null` past the last segment. */
  function Segment(path: Path, k: nat): Option<Str>
  {
    if k < |path| then Some(path[k]) else None
  }

  /** `PathEncoder.decode(path.segment(k))`. */
  function DecodedSegment(path: Path, k: nat): (r: Str)
    ensures '@' !in r
    ensures |path| <= k ==> r == []
  {
    PathEncoder.Decode(Segment(path, k))
  }

  /**
   * The constructor: project, library folder and the three expressions are
   * segments 1, 3, 4, 5 and 6 decoded, the export flag is segment 7 read as a
   * boolean; segment 2, the output folder, is not read. A missing segment
   * decodes to "" and a missing flag to false.
   */
  function FromPath(path: Path): (c: Container)
    ensures c.path == path
    ensures '@' !in c.projectName && '@' !in c.libDir && '@' !in c.libRegex
    ensures '@' !in c.srcRegex && '@' !in c.docRegex
    ensures |path| <= 7 ==> !c.isExported
    ensures |path| <= 3 ==> c.libDir == [] && c.libRegex == [] && c.srcRegex == [] && c.docRegex == []
  {
    Container(
      path,
      DecodedSegment(path, 1),
      DecodedSegment(path, 3),
      DecodedSegment(path, 4),
      DecodedSegment(path, 5),
      DecodedSegment(path, 6),
      ParseBoolean(DecodedSegment(path, 7)))
  }

  /** `getDescription`: the project and the library folder as one portable path. */
  function Description(c: Container): (r: Str)
    ensures IsPlainSegment(c.projectName) && IsPlainSegment(c.libDir) ==> r == c.projectName + "/" + c.libDir
    ensures IsPlainSegment(c.projectName) && c.libDir == [] ==> r == c.projectName
  {
    JoinedPath(c.projectName, c.libDir)
  }

  /** `name.substring(0, name.lastIndexOf("."))`: the name before its last dot. */
  function FilePrefix(name: Str): (prefix: Str)
    requires '.' in name
    ensures |prefix| < |name| && prefix == name[..|prefix|]
    ensures name[|prefix|] == '.' && '.' !in name[|prefix| + 1..]
  {
    name[..LastIndexOf(name, '.')]
  }

  /** The expression an attachment of library `name` must match. */
  function AttachmentPattern(name: Str, part: Str): (r: Str)
    requires '.' in name
    ensures |r| == 2 + |FilePrefix(name)| + |part|
    ensures r[..2] == ".*" && r[2..|r| - |part|] == FilePrefix(name) && r[|r| - |part|..] == part
  {
    ".*" + FilePrefix(name) + part
  }

  /** The directories searched for an attachment: the library's own, then its immediate subdirectories. */
  function SearchDirectories(fs: FileSystem, matches: Matcher, root: Str): (dirs: seq<Str>)
    requires IsDirectory(fs, root)
    ensures |dirs| >= 1 && dirs[0] == root
  {
    var subdirs := ListFiles(fs, matches, root, Directories).value;
    [root] + seq(|subdirs|, i requires 0 <= i < |subdirs| => PathOf(subdirs[i]))
  }

  /**
   * The directories searched after the library's own are exactly its entries
   * that are directories, one search per subdirectory.
   */
  lemma SearchDirectoriesAreSubdirectories(fs: FileSystem, matches: Matcher, root: Str)
    requires IsDirectory(fs, root)
    ensures var dirs := SearchDirectories(fs, matches, root);
      forall k :: 1 <= k < |dirs| ==>
        exists n :: n in fs.listings[root] && dirs[k] == Child(root, n) && IsDirectory(fs, dirs[k])
    ensures var dirs := SearchDirectories(fs, matches, root);
      forall n :: n in fs.listings[root] && IsDirectory(fs, Child(root, n)) ==> Child(root, n) in dirs[1..]
    ensures |SearchDirectories(fs, matches, root)| == 1 + |ListFiles(fs, matches, root, Directories).value|
  {
    var dirs := SearchDirectories(fs, matches, root);
    var subdirs := ListFiles(fs, matches, root, Directories).value;
    ListFilesContents(fs, matches, root, Directories);
    forall n | n in fs.listings[root] && IsDirectory(fs, Child(root, n))
      ensures Child(root, n) in dirs[1..]
    {
      assert JFile(root, n) in subdirs;
      var i :| 0 <= i < |subdirs| && subdirs[i] == JFile(root, n);
      assert dirs[1..][i] == Child(root, n);
    }
    forall k | 1 <= k < |dirs|
      ensures exists n :: n in fs.listings[root] && dirs[k] == Child(root, n) && IsDirectory(fs, dirs[k])
    {
      var f := subdirs[k - 1];
      assert f in subdirs;
      assert f == JFile(root, f.name);
      assert dirs[k] == Child(root, f.name);
    }
  }

  /** The first entry of `dir` the attachment filter accepts, if any. */
  function FirstMatch(fs: FileSystem, matches: Matcher, dir: Str, filter: AttachmentRegexFilter.Filter): Option<Str>
  {
    var found := ListFiles(fs, matches, dir, Attachment(filter));
    if found.Some? && |found.value| > 0 then Some(PathOf(found.value[0])) else None
  }

  /** The first match of each of `dirs`, in their order. */
  function FirstMatches(fs: FileSystem, matches: Matcher, dirs: seq<Str>, filter: AttachmentRegexFilter.Filter): seq<Option<Str>>
  {
    seq(|dirs|, k requires 0 <= k < |dirs| => FirstMatch(fs, matches, dirs[k], filter))
  }

  /** The last value present in `found`: a later directory's match overrides an earlier one. */
  function LastPresent(found: seq<Option<Str>>): Option<Str>
    decreases |found|
  {
    if found == [] then None
    else if found[|found| - 1].Some? then found[|found| - 1]
    else LastPresent(found[..|found| - 1])
  }

  /** What `getPathWithPart(library, part)` returns: nothing for a null or empty part. */
  function AttachmentFor(fs: FileSystem, matches: Matcher, library: JFile, part: Option<Str>): (r: Option<Str>)
    requires IsDirectory(fs, library.parent)
    requires part.Some? && part.value != [] ==> '.' in library.name
    ensures part.None? || part.value == [] ==> r.None?
  {
    if part.None? || part.value == [] then None
    else
      var filter := AttachmentRegexFilter.Filter(AttachmentPattern(library.name, part.value));
      LastPresent(FirstMatches(fs, matches, SearchDirectories(fs, matches, library.parent), filter))
  }

  /**
   * `LastPresent` is the value of the last directory that has a match, and
   * nothing exactly when no directory has a match.
   */
  lemma {:induction false} LastPresentIsLastMatch(found: seq<Option<Str>>)
    ensures LastPresent(found).None? <==> forall k :: 0 <= k < |found| ==> found[k].None?
    ensures LastPresent(found).Some? ==>
      exists j :: 0 <= j < |found| && LastPresent(found) == found[j]
        && forall k :: j < k < |found| ==> found[k].None?
    decreases |found|
  {
    if found != [] {
      var last := |found| - 1;
      if found[last].Some? {
        assert LastPresent(found) == found[last];
      } else {
        var front := found[..last];
        assert LastPresent(found) == LastPresent(front);
        LastPresentIsLastMatch(front);
        assert forall k :: 0 <= k < last ==> front[k] == found[k];
        if LastPresent(front).Some? {
          var j :| 0 <= j < |front| && LastPresent(front) == front[j]
            && forall k :: j < k < |front| ==> front[k].None?;
          assert LastPresent(found) == found[j];
        }
      }
    }
  }

  /**
   * `getPathWithPart`: returns at once for a null or empty part; otherwise
   * scans the library's directory and then each of its subdirectories and
   * keeps the first match of every directory that has one, so the last such
   * directory decides.
   */
  method GetPathWithPart(fs: FileSystem, matches: Matcher, library: JFile, part: Option<Str>)
    returns (resultPath: Option<Str>)
    requires IsDirectory(fs, library.parent)
    requires part.Some? && part.value != [] ==> '.' in library.name
    ensures resultPath == AttachmentFor(fs, matches, library, part)
  {
    if part.None? || part.value == [] {
      return None;
    }
    var filePrefix := library.name[..LastIndexOf(library.name, '.')];
    var regexFilter := AttachmentRegexFilter.Filter(".*" + filePrefix + part.value);
    var libRoot := library.parent;
    var subdirs := ListFiles(fs, matches, libRoot, Directories).value;
    var dirs := [libRoot] + seq(|subdirs|, i requires 0 <= i < |subdirs| => PathOf(subdirs[i]));
    assert dirs == SearchDirectories(fs, matches, libRoot);
    ghost var found := FirstMatches(fs, matches, dirs, regexFilter);
    resultPath := None;
    for i := 0 to |dirs|
      invariant resultPath == LastPresent(found[..i])
    {
      var matched := ListFiles(fs, matches, dirs[i], Attachment(regexFilter));
      if matched.Some? && |matched.value| > 0 {
        resultPath := Some(PathOf(matched.value[0]));
      }
      assert found[..i + 1][..i] == found[..i];
    }
    assert found[..|dirs|] == found;
  }

  /** `getJavadocAttibute`: null for a null path, otherwise the one `javadoc_location` attribute. */
  function JavadocAttribute(path: Option<Str>): (r: Option<seq<ClasspathAttribute>>)
    ensures r.None? <==> path.None?
    ensures r.Some? ==> |r.value| == 1 && r.value[0] == ClasspathAttribute("javadoc_location", path.value)
  {
    match path
    case None => None
    case Some(p) => Some([ClasspathAttribute("javadoc_location", p)])
  }

  /** `JavaCore.newLibraryEntry(path, sourceAttachment, sourceRoot, accessRules, attributes, exported)`, without access rules. */
  datatype LibraryEntry = LibraryEntry(
    path: Str,
    sourceAttachment: Option<Str>,
    sourceRoot: Str,
    attributes: Option<seq<ClasspathAttribute>>,
    exported: bool)

  /** A library whose name has no dot makes `getPathWithPart` fail in `substring(0, -1)`, unless both parts are empty. */
  predicate LibraryThrows(c: Container, library: JFile)
  {
    '.' !in library.name && (c.srcRegex != [] || c.docRegex != [])
  }

  /** The entry made for one library. */
  function EntryFor(c: Container, fs: FileSystem, matches: Matcher, library: JFile): LibraryEntry
    requires IsDirectory(fs, library.parent) && !LibraryThrows(c, library)
  {
    LibraryEntry(
      PathOf(library),
      AttachmentFor(fs, matches, library, Some(c.srcRegex)),
      "/",
      JavadocAttribute(AttachmentFor(fs, matches, library, Some(c.docRegex))),
      c.isExported)
  }

  /**
   * The entries for the listed libraries: one per library, in listing order,
   * unless some library makes `getPathWithPart` throw.
   */
  function EntriesFor(c: Container, fs: FileSystem, matches: Matcher, libraries: seq<JFile>): Result<seq<LibraryEntry>>
    requires forall l :: l in libraries ==> IsDirectory(fs, l.parent)
  {
    if forall k :: 0 <= k < |libraries| ==> !LibraryThrows(c, libraries[k]) then
      Ok(seq(|libraries|, k requires 0 <= k < |libraries| => EntryFor(c, fs, matches, libraries[k])))
    else
      Thrown(StringIndexOutOfBounds)
  }

  /** The libraries `getClasspathEntries` works on: `null` when the project or the folder is missing or the listing fails. */
  function Libraries(c: Container, ws: Workspace, fs: FileSystem, matches: Matcher): (r: Option<seq<JFile>>)
    ensures r.Some? ==> forall l :: l in r.value ==> IsDirectory(fs, l.parent)
  {
    if c.projectName !in ws.projects || (c.projectName, c.libDir) !in ws.folders then None
    else
      var libFile := FolderLocation(ws, c.projectName, c.libDir);
      ListFiles(fs, matches, libFile, Library(LibraryRegexFilter.Filter(c.libRegex)))
  }

  /** What `getClasspathEntries` returns. */
  function ClasspathEntries(c: Container, ws: Workspace, fs: FileSystem, matches: Matcher): Result<seq<LibraryEntry>>
  {
    match Libraries(c, ws, fs, matches)
    case None => Ok([])
    case Some(libraries) => EntriesFor(c, fs, matches, libraries)
  }

  /**
   * `getClasspathEntries` gives no entry when the project or the library
   * folder does not exist or cannot be listed, and otherwise exactly one
   * entry per listed library, in listing order, whose source and javadoc
   * attachments are the library's search results.
   */
  lemma ClasspathEntriesShape(c: Container, ws: Workspace, fs: FileSystem, matches: Matcher)
    ensures c.projectName !in ws.projects ==> ClasspathEntries(c, ws, fs, matches) == Ok([])
    ensures (c.projectName, c.libDir) !in ws.folders ==> ClasspathEntries(c, ws, fs, matches) == Ok([])
    ensures Libraries(c, ws, fs, matches).None? ==> ClasspathEntries(c, ws, fs, matches) == Ok([])
    ensures Libraries(c, ws, fs, matches).Some? ==>
      var libraries := Libraries(c, ws, fs, matches).value;
      && (ClasspathEntries(c, ws, fs, matches).Ok? <==> forall k :: 0 <= k < |libraries| ==> !LibraryThrows(c, libraries[k]))
      && (ClasspathEntries(c, ws, fs, matches).Ok? ==>
        var entries := ClasspathEntries(c, ws, fs, matches).value;
        && |entries| == |libraries|
        && forall k :: 0 <= k < |libraries| ==>
          && entries[k].path == PathOf(libraries[k])
          && entries[k].exported == c.isExported
          && entries[k].sourceAttachment == AttachmentFor(fs, matches, libraries[k], Some(c.srcRegex))
          && entries[k].attributes == JavadocAttribute(AttachmentFor(fs, matches, libraries[k], Some(c.docRegex))))
  {
  }

  /** The body of the loop in `getClasspathEntries`: the two searches and the entry built from them. */
  method NewLibraryEntry(c: Container, fs: FileSystem, matches: Matcher, library: JFile) returns (entry: LibraryEntry)
    requires IsDirectory(fs, library.parent) && !LibraryThrows(c, library)
    ensures entry == EntryFor(c, fs, matches, library)
  {
    var src := GetPathWithPart(fs, matches, library, Some(c.srcRegex));
    var javadocPath := GetPathWithPart(fs, matches, library, Some(c.docRegex));
    var attribs := JavadocAttribute(javadocPath);
    entry := LibraryEntry(PathOf(library), src, "/", attribs, c.isExported);
  }

  /** `getClasspathEntries`: one library entry per listed library, added in a loop. */
  method GetClasspathEntries(c: Container, ws: Workspace, fs: FileSystem, matches: Matcher)
    returns (r: Result<seq<LibraryEntry>>)
    ensures r == ClasspathEntries(c, ws, fs, matches)
  {
    var entryList: seq<LibraryEntry> := [];
    if c.projectName in ws.projects && (c.projectName, c.libDir) in ws.folders {
      var libFile := FolderLocation(ws, c.projectName, c.libDir);
      var libraries := ListFiles(fs, matches, libFile, Library(LibraryRegexFilter.Filter(c.libRegex)));
      if libraries.Some? {
        var libs := libraries.value;
        for i := 0 to |libs|
          invariant |entryList| == i
          invariant forall k :: 0 <= k < i ==>
            !LibraryThrows(c, libs[k]) && entryList[k] == EntryFor(c, fs, matches, libs[k])
        {
          var library := libs[i];
          assert library in libs;
          if LibraryThrows(c, library) {
            // `substring(0, -1)` inside `getPathWithPart`
            return Thrown(StringIndexOutOfBounds);
          }
          var entry := NewLibraryEntry(c, fs, matches, library);
          entryList := entryList + [entry];
        }
        assert entryList == seq(|libs|, k requires 0 <= k < |libs| => EntryFor(c, fs, matches, libs[k]));
      }
    }
    return Ok(entryList);
  }
}
