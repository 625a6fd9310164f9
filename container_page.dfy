/**
 * `DynamicClasspathContainerPage`: the wizard page on which a user configures
 * a container. It shows seven fields, each filled from the entry being edited
 * or from a default; `finish` trims them and validates them in a fixed order,
 * creating the output and library folders on the way; `getSelection` writes
 * them into a container path of eight encoded segments.
 *
 * The workspace is a value that `finish` hands back changed, and
 * `Pattern.compile` is an oracle: `compiles(regex)` is what `isRegexValid`
 * answers, false exactly when compiling throws.
 */
module DynamicClasspathContainerPage {
  import opened JavaLang
  import opened Eclipse
  import opened EclipsePath
  import PathEncoder
  import DynamicClasspathContainer

  const PREFIX_BINARY_PATH: Str := "org.eclipse.jdt.launching." + "CLASSPATH_ATTR_LIBRARY_PATH_ENTRY"

  const DEFAULT_PROJECT: Str := ""
  const DEFAULT_BIN_DIR: Str := "bin"
  const DEFAULT_LIB_DIR: Str := "lib"
  const DEFAULT_LIB_REGEX: Str := "(?!.*(-javadoc|-doc|-sources|-src)" + ".*).*\\.jar"
  const DEFAULT_SRC_REGEX: Str := ".*(-sources|-src)\\.(jar|zip)"
  const DEFAULT_DOC_REGEX: Str := ".*(-javadoc|-doc)\\.(jar|zip)"
  const DEFAULT_IS_EXPORTED: bool := true

  /** `JavaCore.newContainerEntry(path, accessRules, attributes, exported)`, with no access rules. */
  datatype ContainerEntry = ContainerEntry(path: Path, attributes: seq<ClasspathAttribute>, exported: bool)

  /** What the page's seven controls hold. */
  datatype PageFields = PageFields(
    project: Str,
    binDir: Str,
    libDir: Str,
    libRegex: Str,
    srcRegex: Str,
    docRegex: Str,
    exported: bool)

  /** The error message `finish` sets, one per check. */
  datatype PageError = ProjectErr | BinDirErr | LibDirErr | LibRegexErr | SrcRegexErr | DocRegexErr

  /** `isRegexValid`: whether `Pattern.compile` accepts the expression. */
  type RegexCompiler = Str -> bool

  // ---------------------------------------------------------------- finish

  /** The folder exists, or `IFolder.create` would make it without a `CoreException`. */
  predicate FolderAvailable(ws: Workspace, project: Str, folder: Str)
  {
    (project, folder) in ws.folders || (project, folder) in ws.creatable
  }

  /**
   * `createProjectFolder`: creates the folder when it is missing and answers
   * whether it exists afterwards; a failed creation leaves the workspace as
   * it was.
   */
  function CreateProjectFolder(ws: Workspace, project: Str, folder: Str): (r: (bool, Workspace))
    ensures r.0 <==> FolderAvailable(ws, project, folder)
    ensures r.0 ==> r.1 == ws.(folders := ws.folders + {(project, folder)})
    ensures !r.0 ==> r.1 == ws
  {
    if (project, folder) in ws.folders then (true, ws)
    else if (project, folder) in ws.creatable then (true, ws.(folders := ws.folders + {(project, folder)}))
    else (false, ws)
  }

  /** The fields after `finish` has trimmed the six texts. */
  function TrimFields(f: PageFields): PageFields
  {
    PageFields(Trim(f.project), Trim(f.binDir), Trim(f.libDir), Trim(f.libRegex), Trim(f.srcRegex), Trim(f.docRegex), f.exported)
  }

  /** The error `finish` reports, if any, and the workspace it leaves. */
  datatype Outcome = Outcome(error: Option<PageError>, workspace: Workspace)

  /** The project exists and both of its folders exist or can be made. */
  predicate FoldersReady(f: PageFields, ws: Workspace)
  {
    f.project in ws.projects && FolderAvailable(ws, f.project, f.binDir) && FolderAvailable(ws, f.project, f.libDir)
  }

  /**
   * The checks of `finish` on (already trimmed) fields, in their order:
   * project, output folder, library folder, then the three expressions. The
   * first check that fails names the error; nothing after it is attempted,
   * so no folder is created once an earlier check failed.
   */
  function Validate(f: PageFields, ws: Workspace, compiles: RegexCompiler): (r: Outcome)
    ensures r.error.None? <==>
      FoldersReady(f, ws) && compiles(f.libRegex) && compiles(f.srcRegex) && compiles(f.docRegex)
    ensures r.error == Some(ProjectErr) <==> f.project !in ws.projects
    ensures r.error == Some(BinDirErr) <==>
      f.project in ws.projects && !FolderAvailable(ws, f.project, f.binDir)
    ensures r.error == Some(LibDirErr) <==>
      f.project in ws.projects && FolderAvailable(ws, f.project, f.binDir) && !FolderAvailable(ws, f.project, f.libDir)
    ensures r.error == Some(LibRegexErr) <==> FoldersReady(f, ws) && !compiles(f.libRegex)
    ensures r.error == Some(SrcRegexErr) <==>
      FoldersReady(f, ws) && compiles(f.libRegex) && !compiles(f.srcRegex)
    ensures r.error == Some(DocRegexErr) <==>
      FoldersReady(f, ws) && compiles(f.libRegex) && compiles(f.srcRegex) && !compiles(f.docRegex)
    ensures r.workspace.root == ws.root && r.workspace.projects == ws.projects && r.workspace.creatable == ws.creatable
    ensures ws.folders <= r.workspace.folders <= ws.folders + {(f.project, f.binDir), (f.project, f.libDir)}
    ensures f.project !in ws.projects || !FolderAvailable(ws, f.project, f.binDir) ==> r.workspace == ws
    ensures FoldersReady(f, ws) ==>
      (f.project, f.binDir) in r.workspace.folders && (f.project, f.libDir) in r.workspace.folders
  {
    if f.project !in ws.projects then Outcome(Some(ProjectErr), ws)
    else
      var (binOk, ws1) := CreateProjectFolder(ws, f.project, f.binDir);
      if !binOk then Outcome(Some(BinDirErr), ws1)
      else
        var (libOk, ws2) := CreateProjectFolder(ws1, f.project, f.libDir);
        if !libOk then Outcome(Some(LibDirErr), ws2)
        else if !compiles(f.libRegex) then Outcome(Some(LibRegexErr), ws2)
        else if !compiles(f.srcRegex) then Outcome(Some(SrcRegexErr), ws2)
        else if !compiles(f.docRegex) then Outcome(Some(DocRegexErr), ws2)
        else Outcome(None, ws2)
  }

  /**
   * Pressing Finish again on the same fields gives the same answer and
   * creates nothing more: the folders the first run made are now there.
   */
  lemma ValidateIdempotent(f: PageFields, ws: Workspace, compiles: RegexCompiler)
    ensures var r := Validate(f, ws, compiles);
      Validate(f, r.workspace, compiles) == r
  {
    var r := Validate(f, ws, compiles);
    var w := r.workspace;
    if f.project in ws.projects && FolderAvailable(ws, f.project, f.binDir) {
      assert (f.project, f.binDir) in w.folders;
      assert FolderAvailable(w, f.project, f.libDir) <==> FolderAvailable(ws, f.project, f.libDir);
    }
  }

  /** A second `finish` sees the fields the first one left: trimming twice changes nothing. */
  lemma TrimFieldsIdempotent(f: PageFields)
    ensures TrimFields(TrimFields(f)) == TrimFields(f)
  {
    TrimIdempotent(f.project);
    TrimIdempotent(f.binDir);
    TrimIdempotent(f.libDir);
    TrimIdempotent(f.libRegex);
    TrimIdempotent(f.srcRegex);
    TrimIdempotent(f.docRegex);
  }

  // ---------------------------------------------------------- getSelection

  /**
   * `path.append(PathEncoder.encode(value))`: the encoding holds no `/`, so it
   * is appended as one segment (`AppendEncodedIsAppend`).
   */
  function AppendEncoded(p: Path, value: Str): Path
  {
    AppendSegment(p, PathEncoder.Encode(Some(value)))
  }

  lemma AppendEncodedIsAppend(p: Path, value: Str)
    ensures AppendEncoded(p, value) == Append(p, PathEncoder.Encode(Some(value)))
  {
  }

  /** The seven fields appended to `p`, each encoded, in their order. */
  function AppendFields(p: Path, f: PageFields): Path
  {
    var p1 := AppendEncoded(p, f.project);
    var p2 := AppendEncoded(p1, f.binDir);
    var p3 := AppendEncoded(p2, f.libDir);
    var p4 := AppendEncoded(p3, f.libRegex);
    var p5 := AppendEncoded(p4, f.srcRegex);
    var p6 := AppendEncoded(p5, f.docRegex);
    AppendEncoded(p6, BooleanToString(f.exported))
  }

  /**
   * The container path `getSelection` writes: `new Path(ID)`, which is the
   * one segment `ID` (`IdIsOneSegment`), then the seven fields encoded, in
   * their order.
   */
  function SelectionPath(f: PageFields): Path
  {
    AppendFields([DynamicClasspathContainer.ID], f)
  }

  /** The entry `getSelection` returns: the path, the output folder as the one attribute, and the export flag. */
  function SelectionEntry(f: PageFields): ContainerEntry
  {
    ContainerEntry(
      SelectionPath(f),
      [ClasspathAttribute(PREFIX_BINARY_PATH, JoinedPath(f.project, f.binDir))],
      f.exported)
  }

  /** A value whose encoding `append` adds as one segment: not empty, not `.` or `..`. */
  predicate Appendable(s: Str)
  {
    s != [] && s != "." && s != ".."
  }

  /** Every text field is `Appendable`. */
  predicate NonDegenerate(f: PageFields)
  {
    && Appendable(f.project) && Appendable(f.binDir) && Appendable(f.libDir)
    && Appendable(f.libRegex) && Appendable(f.srcRegex) && Appendable(f.docRegex)
  }

  /** No text field holds an `@`, which the codec would bring back as `/`. */
  predicate WithoutAt(f: PageFields)
  {
    && '@' !in f.project && '@' !in f.binDir && '@' !in f.libDir
    && '@' !in f.libRegex && '@' !in f.srcRegex && '@' !in f.docRegex
  }

  /** An appendable value becomes exactly one new segment, its encoding. */
  lemma AppendEncodedAdds(p: Path, value: Str)
    requires Appendable(value)
    ensures AppendEncoded(p, value) == p + [PathEncoder.Encode(Some(value))]
  {
    PathEncoder.EncodeDegenerate(value);
  }

  /** An empty value adds no segment at all. */
  lemma AppendEncodedEmpty(p: Path)
    ensures AppendEncoded(p, []) == p
  {
    assert PathEncoder.Encode(Some([])) == [];
  }

  /** Decoding the encoding of a value without `@` gives the value. */
  lemma DecodesBack(value: Str)
    requires '@' !in value
    ensures PathEncoder.Decode(Some(PathEncoder.Encode(Some(value)))) == value
  {
    PathEncoder.DecodeEncode(value);
  }

  lemma BooleanDecodesBack(b: bool)
    ensures PathEncoder.Decode(Some(PathEncoder.Encode(Some(BooleanToString(b))))) == BooleanToString(b)
  {
    DecodesBack(BooleanToString(b));
  }

  /** The path starts as the one segment of the container id. */
  lemma IdIsOneSegment()
    ensures FromString(DynamicClasspathContainer.ID) == [DynamicClasspathContainer.ID]
  {
    FromPlainSegment(DynamicClasspathContainer.ID);
  }

  /** `path.append(PathEncoder.encode(v))` for each of `values` in turn. */
  function AppendEncodedAll(p: Path, values: seq<Str>): Path
    decreases |values|
  {
    if values == [] then p else AppendEncodedAll(AppendEncoded(p, values[0]), values[1..])
  }

  /** The encodings of `values`, one for one. */
  function EncodedAll(values: seq<Str>): seq<Str>
  {
    seq(|values|, i requires 0 <= i < |values| => PathEncoder.Encode(Some(values[i])))
  }

  /** The texts `getSelection` encodes after the id, in their order. */
  function FieldTexts(f: PageFields): seq<Str>
  {
    [f.project, f.binDir, f.libDir, f.libRegex, f.srcRegex, f.docRegex, BooleanToString(f.exported)]
  }

  /** Appending appendable values adds exactly their encodings, one segment each. */
  lemma {:induction false} AppendEncodedAllLayout(p: Path, values: seq<Str>)
    requires forall i :: 0 <= i < |values| ==> Appendable(values[i])
    ensures AppendEncodedAll(p, values) == p + EncodedAll(values)
    decreases |values|
  {
    if values != [] {
      AppendEncodedAdds(p, values[0]);
      AppendEncodedAllLayout(p + [PathEncoder.Encode(Some(values[0]))], values[1..]);
      assert EncodedAll(values) == [PathEncoder.Encode(Some(values[0]))] + EncodedAll(values[1..]);
    }
  }

  /** The seven appends of `getSelection` are the appends of the field texts in order. */
  lemma AppendFieldsInOrder(p: Path, f: PageFields)
    ensures AppendFields(p, f) == AppendEncodedAll(p, FieldTexts(f))
  {
    var t := FieldTexts(f);
    var p1 := AppendEncoded(p, f.project);
    var p2 := AppendEncoded(p1, f.binDir);
    var p3 := AppendEncoded(p2, f.libDir);
    var p4 := AppendEncoded(p3, f.libRegex);
    var p5 := AppendEncoded(p4, f.srcRegex);
    var p6 := AppendEncoded(p5, f.docRegex);
    assert AppendEncodedAll(p, t) == AppendEncodedAll(p1, t[1..]);
    assert AppendEncodedAll(p1, t[1..]) == AppendEncodedAll(p2, t[2..]);
    assert AppendEncodedAll(p2, t[2..]) == AppendEncodedAll(p3, t[3..]);
    assert AppendEncodedAll(p3, t[3..]) == AppendEncodedAll(p4, t[4..]);
    assert AppendEncodedAll(p4, t[4..]) == AppendEncodedAll(p5, t[5..]);
    assert AppendEncodedAll(p5, t[5..]) == AppendEncodedAll(p6, t[6..]);
    assert AppendEncodedAll(p6, t[6..]) == AppendEncodedAll(AppendEncoded(p6, t[6]), []);
  }

  /** With no degenerate field, each field adds exactly its own encoded segment. */
  lemma AppendFieldsLayout(p: Path, f: PageFields)
    requires NonDegenerate(f)
    ensures AppendFields(p, f) == p + EncodedAll(FieldTexts(f))
  {
    AppendFieldsInOrder(p, f);
    AppendEncodedAllLayout(p, FieldTexts(f));
  }

  /** With no degenerate field, the selection path is the id followed by the seven encoded fields. */
  lemma SelectionLayout(f: PageFields)
    requires NonDegenerate(f)
    ensures SelectionPath(f) == [DynamicClasspathContainer.ID] + EncodedAll(FieldTexts(f))
    ensures |SelectionPath(f)| == 8
  {
    AppendFieldsLayout([DynamicClasspathContainer.ID], f);
  }

  /**
   * The round trip between the page and the container: for fields that are
   * not degenerate and hold no `@`, the container built from the selection
   * path reads back the project, the library folder, the three expressions
   * and the export flag the page wrote.
   */
  lemma ContainerReadsSelection(f: PageFields)
    requires NonDegenerate(f) && WithoutAt(f)
    ensures DynamicClasspathContainer.FromPath(SelectionPath(f)) == DynamicClasspathContainer.Container(
      SelectionPath(f), f.project, f.libDir, f.libRegex, f.srcRegex, f.docRegex, f.exported)
  {
    SelectionLayout(f);
    DecodesBack(f.project);
    DecodesBack(f.libDir);
    DecodesBack(f.libRegex);
    DecodesBack(f.srcRegex);
    DecodesBack(f.docRegex);
    BooleanDecodesBack(f.exported);
  }

  /**
   * Segments shift when a field is empty: with an empty source expression
   * the path has seven segments, so the container reads the javadoc
   * expression as the source expression, the export flag's text as the
   * javadoc expression, and no export flag at all.
   */
  lemma EmptySourceRegexShiftsSegments(f: PageFields)
    requires Appendable(f.project) && Appendable(f.binDir) && Appendable(f.libDir)
    requires Appendable(f.libRegex) && f.srcRegex == [] && Appendable(f.docRegex)
    requires '@' !in f.docRegex
    ensures |SelectionPath(f)| == 7
    ensures var c := DynamicClasspathContainer.FromPath(SelectionPath(f));
      && c.srcRegex == f.docRegex
      && c.docRegex == BooleanToString(f.exported)
      && !c.isExported
  {
    EmptySourceRegexLayout(f);
    DecodesBack(f.docRegex);
    BooleanDecodesBack(f.exported);
    assert !ParseBoolean([]);
  }

  /** The path of `EmptySourceRegexShiftsSegments`: the empty expression adds no segment. */
  lemma EmptySourceRegexLayout(f: PageFields)
    requires Appendable(f.project) && Appendable(f.binDir) && Appendable(f.libDir)
    requires Appendable(f.libRegex) && f.srcRegex == [] && Appendable(f.docRegex)
    ensures var path := SelectionPath(f);
      && |path| == 7
      && path[5] == PathEncoder.Encode(Some(f.docRegex))
      && path[6] == PathEncoder.Encode(Some(BooleanToString(f.exported)))
  {
    var p0: Path := [DynamicClasspathContainer.ID];
    var p1 := AppendEncoded(p0, f.project);
    AppendEncodedAdds(p0, f.project);
    var p2 := AppendEncoded(p1, f.binDir);
    AppendEncodedAdds(p1, f.binDir);
    var p3 := AppendEncoded(p2, f.libDir);
    AppendEncodedAdds(p2, f.libDir);
    var p4 := AppendEncoded(p3, f.libRegex);
    AppendEncodedAdds(p3, f.libRegex);
    AppendEncodedEmpty(p4);
    var p6 := AppendEncoded(p4, f.docRegex);
    AppendEncodedAdds(p4, f.docRegex);
    AppendEncodedAdds(p6, BooleanToString(f.exported));
  }

  // ------------------------------------------------------- create*Group

  /** The project label's initial text: the project's name, or the default when there is none. */
  function InitialProject(project: Option<Str>): Str
  {
    if project.Some? then project.value else DEFAULT_PROJECT
  }

  /** A text field's initial text: decoded segment `k` of the edited entry's path when it has one, else the default. */
  function InitialText(entry: Option<ContainerEntry>, k: nat, default: Str): (r: Str)
    ensures entry.None? || |entry.value.path| <= k ==> r == default
    ensures entry.Some? && |entry.value.path| > k ==> '@' !in r && |r| <= |entry.value.path[k]|
  {
    if entry.Some? && |entry.value.path| > k then PathEncoder.Decode(Some(entry.value.path[k])) else default
  }

  /** What `createControl` puts in the seven controls; the export box follows the entry's own flag, not segment 7. */
  function InitialFields(project: Option<Str>, entry: Option<ContainerEntry>): PageFields
  {
    PageFields(
      InitialProject(project),
      InitialText(entry, 2, DEFAULT_BIN_DIR),
      InitialText(entry, 3, DEFAULT_LIB_DIR),
      InitialText(entry, 4, DEFAULT_LIB_REGEX),
      InitialText(entry, 5, DEFAULT_SRC_REGEX),
      InitialText(entry, 6, DEFAULT_DOC_REGEX),
      if entry.Some? then entry.value.exported else DEFAULT_IS_EXPORTED)
  }

  /**
   * Reopening the page on the entry it produced shows the same output
   * folder, library folder, expressions and export flag; the project label
   * shows the project being edited, whatever the entry says.
   */
  lemma ReopenShowsSelection(project: Option<Str>, f: PageFields)
    requires NonDegenerate(f) && WithoutAt(f)
    ensures InitialFields(project, Some(SelectionEntry(f))) == f.(project := InitialProject(project))
  {
    var e := SelectionEntry(f);
    SelectionLayout(f);
    ShowsEncodedFields(project, e, f);
  }

  /** An entry whose path holds the encoded fields shows them again, and its own export flag. */
  lemma ShowsEncodedFields(project: Option<Str>, e: ContainerEntry, f: PageFields)
    requires WithoutAt(f)
    requires e.path == [DynamicClasspathContainer.ID] + EncodedAll(FieldTexts(f))
    ensures InitialFields(project, Some(e)) == f.(project := InitialProject(project), exported := e.exported)
  {
    DecodesBack(f.binDir);
    DecodesBack(f.libDir);
    DecodesBack(f.libRegex);
    DecodesBack(f.srcRegex);
    DecodesBack(f.docRegex);
  }

  /** A new page, or an entry too short to hold them, shows the defaults; the export box still follows the entry. */
  lemma ShortEntryShowsDefaults(project: Option<Str>, entry: Option<ContainerEntry>)
    requires entry.None? || |entry.value.path| <= 2
    ensures var f := InitialFields(project, entry);
      && f.binDir == "bin" && f.libDir == "lib"
      && f.libRegex == DEFAULT_LIB_REGEX && f.srcRegex == DEFAULT_SRC_REGEX && f.docRegex == DEFAULT_DOC_REGEX
      && f.exported == (entry.None? || entry.value.exported)
  {
  }

  // ------------------------------------------------------------- the page

  /**
   * The page object. The controls are modelled by their contents; before
   * `createControl` they do not exist, and the wizard calls `finish` and
   * `getSelection` only after it.
   */
  class Page {
    /** The project passed to `initialize`, by name. */
    var project: Option<Str>
    /** The entry passed to `setSelection`. */
    var classpathEntry: Option<ContainerEntry>
    var controlsCreated: bool
    var projectLabel: Str
    var binDirText: Str
    var libDirText: Str
    var libRegexText: Str
    var srcRegexText: Str
    var docRegexText: Str
    var exportedBox: bool
    var errorMessage: Option<PageError>

    /** What the controls currently hold. */
    function Current(): PageFields
      reads this`projectLabel, this`binDirText, this`libDirText, this`libRegexText
      reads this`srcRegexText, this`docRegexText, this`exportedBox
    {
      PageFields(projectLabel, binDirText, libDirText, libRegexText, srcRegexText, docRegexText, exportedBox)
    }

    constructor ()
      ensures project.None? && classpathEntry.None? && !controlsCreated && errorMessage.None?
    {
      project := None;
      classpathEntry := None;
      controlsCreated := false;
      projectLabel := [];
      binDirText := [];
      libDirText := [];
      libRegexText := [];
      srcRegexText := [];
      docRegexText := [];
      exportedBox := false;
      errorMessage := None;
    }

    /** `initialize`: remembers the project; the current entries are ignored. */
    method Initialize(project: Option<Str>)
      modifies this
      ensures this.project == project
      ensures classpathEntry == old(classpathEntry) && controlsCreated == old(controlsCreated)
      ensures Current() == old(Current()) && errorMessage == old(errorMessage)
    {
      this.project := project;
    }

    /** `setSelection`: remembers the entry being edited. */
    method SetSelection(entry: Option<ContainerEntry>)
      modifies this
      ensures classpathEntry == entry
      ensures project == old(project) && controlsCreated == old(controlsCreated)
      ensures Current() == old(Current()) && errorMessage == old(errorMessage)
    {
      classpathEntry := entry;
    }

    /** `createControl`: the seven `create*Group` steps, each filling its control from the entry or the default. */
    method CreateControl()
      modifies this`projectLabel, this`binDirText, this`libDirText, this`libRegexText
      modifies this`srcRegexText, this`docRegexText, this`exportedBox, this`controlsCreated
      ensures controlsCreated && Current() == InitialFields(project, classpathEntry)
    {
      CreateProjectGroup();
      CreateBinDirGroup();
      CreateLibDirGroup();
      CreateLibRegexGroup();
      CreateSrcRegexGroup();
      CreateDocRegexGroup();
      CreateExportedGroup();
      controlsCreated := true;
    }

    /** `createProjectGroup`: the label shows the project's name, or the default without a project. */
    method CreateProjectGroup()
      modifies this`projectLabel
      ensures projectLabel == InitialProject(project)
    {
      var projectString := DEFAULT_PROJECT;
      if project.Some? {
        projectString := project.value;
      }
      projectLabel := projectString;
    }

    /** `createBinDirGroup`: segment 2 of the entry's path, decoded, or the default. */
    method CreateBinDirGroup()
      modifies this`binDirText
      ensures binDirText == InitialText(classpathEntry, 2, DEFAULT_BIN_DIR)
    {
      var binDir := DEFAULT_BIN_DIR;
      if classpathEntry.Some? && |classpathEntry.value.path| > 2 {
        binDir := PathEncoder.Decode(Some(classpathEntry.value.path[2]));
      }
      binDirText := binDir;
    }

    /** `createLibDirGroup`: segment 3, decoded, or the default. */
    method CreateLibDirGroup()
      modifies this`libDirText
      ensures libDirText == InitialText(classpathEntry, 3, DEFAULT_LIB_DIR)
    {
      var libDir := DEFAULT_LIB_DIR;
      if classpathEntry.Some? && |classpathEntry.value.path| > 3 {
        libDir := PathEncoder.Decode(Some(classpathEntry.value.path[3]));
      }
      libDirText := libDir;
    }

    /** `createLibRegexGroup`: segment 4, decoded, or the default. */
    method CreateLibRegexGroup()
      modifies this`libRegexText
      ensures libRegexText == InitialText(classpathEntry, 4, DEFAULT_LIB_REGEX)
    {
      var libRegex := DEFAULT_LIB_REGEX;
      if classpathEntry.Some? && |classpathEntry.value.path| > 4 {
        libRegex := PathEncoder.Decode(Some(classpathEntry.value.path[4]));
      }
      libRegexText := libRegex;
    }

    /** `createSrcRegexGroup`: segment 5, decoded, or the default. */
    method CreateSrcRegexGroup()
      modifies this`srcRegexText
      ensures srcRegexText == InitialText(classpathEntry, 5, DEFAULT_SRC_REGEX)
    {
      var srcRegex := DEFAULT_SRC_REGEX;
      if classpathEntry.Some? && |classpathEntry.value.path| > 5 {
        srcRegex := PathEncoder.Decode(Some(classpathEntry.value.path[5]));
      }
      srcRegexText := srcRegex;
    }

    /** `createDocRegexGroup`: segment 6, decoded, or the default. */
    method CreateDocRegexGroup()
      modifies this`docRegexText
      ensures docRegexText == InitialText(classpathEntry, 6, DEFAULT_DOC_REGEX)
    {
      var docRegex := DEFAULT_DOC_REGEX;
      if classpathEntry.Some? && |classpathEntry.value.path| > 6 {
        docRegex := PathEncoder.Decode(Some(classpathEntry.value.path[6]));
      }
      docRegexText := docRegex;
    }

    /** `createExportedGroup`: the entry's own export flag, or the default (exported) for a new container. */
    method CreateExportedGroup()
      modifies this`exportedBox
      ensures exportedBox == if classpathEntry.Some? then classpathEntry.value.exported else DEFAULT_IS_EXPORTED
    {
      var isExported := DEFAULT_IS_EXPORTED;
      if classpathEntry.Some? {
        isExported := classpathEntry.value.exported;
      }
      exportedBox := isExported;
    }

    /**
     * The Select button, which exists only when no project was given: the
     * label takes the name of the project chosen in the dialog, if any.
     */
    method SelectProject(chosen: Option<Str>)
      requires controlsCreated && project.None?
      modifies this
      ensures projectLabel == if chosen.Some? then chosen.value else old(projectLabel)
      ensures Current().(project := []) == old(Current()).(project := [])
      ensures project == old(project) && classpathEntry == old(classpathEntry)
      ensures controlsCreated && errorMessage == old(errorMessage)
    {
      if chosen.Some? {
        projectLabel := chosen.value;
      }
    }

    /** The first part of `finish`: each of the six texts is replaced by its trimmed form. */
    method TrimTexts()
      modifies this
      ensures projectLabel == Trim(old(projectLabel)) && binDirText == Trim(old(binDirText))
      ensures libDirText == Trim(old(libDirText)) && libRegexText == Trim(old(libRegexText))
      ensures srcRegexText == Trim(old(srcRegexText)) && docRegexText == Trim(old(docRegexText))
      ensures exportedBox == old(exportedBox) && errorMessage == old(errorMessage)
      ensures project == old(project) && classpathEntry == old(classpathEntry) && controlsCreated == old(controlsCreated)
    {
      projectLabel := Trim(projectLabel);
      binDirText := Trim(binDirText);
      libDirText := Trim(libDirText);
      libRegexText := Trim(libRegexText);
      srcRegexText := Trim(srcRegexText);
      docRegexText := Trim(docRegexText);
    }

    /**
     * The rest of `finish`: the checks in order, each returning at once
     * with its error message when it fails.
     */
    method Check(ws: Workspace, compiles: RegexCompiler) returns (ok: bool, ws': Workspace)
      modifies this`errorMessage
      ensures ok <==> Validate(Current(), ws, compiles).error.None?
      ensures ws' == Validate(Current(), ws, compiles).workspace
      ensures errorMessage == if ok then old(errorMessage) else Validate(Current(), ws, compiles).error
    {
      if projectLabel !in ws.projects {
        errorMessage := Some(ProjectErr);
        return false, ws;
      }
      var (binOk, ws1) := CreateProjectFolder(ws, projectLabel, binDirText);
      if !binOk {
        errorMessage := Some(BinDirErr);
        return false, ws1;
      }
      var (libOk, ws2) := CreateProjectFolder(ws1, projectLabel, libDirText);
      if !libOk {
        errorMessage := Some(LibDirErr);
        return false, ws2;
      }
      if !compiles(libRegexText) {
        errorMessage := Some(LibRegexErr);
        return false, ws2;
      }
      if !compiles(srcRegexText) {
        errorMessage := Some(SrcRegexErr);
        return false, ws2;
      }
      if !compiles(docRegexText) {
        errorMessage := Some(DocRegexErr);
        return false, ws2;
      }
      return true, ws2;
    }

    /**
     * `finish`: trims the six texts, then runs the checks in order; the first
     * that fails sets its error message and the answer is false. A success
     * leaves the error message as it was.
     */
    method Finish(ws: Workspace, compiles: RegexCompiler) returns (ok: bool, ws': Workspace)
      requires controlsCreated
      modifies this
      ensures Current() == TrimFields(old(Current()))
      ensures ok <==> Validate(Current(), ws, compiles).error.None?
      ensures ws' == Validate(Current(), ws, compiles).workspace
      ensures errorMessage == if ok then old(errorMessage) else Validate(Current(), ws, compiles).error
      ensures project == old(project) && classpathEntry == old(classpathEntry) && controlsCreated
    {
      TrimTexts();
      ok, ws' := Check(ws, compiles);
    }

    /** `getSelection`: builds the container path one appended segment at a time. */
    method GetSelection() returns (e: ContainerEntry)
      requires controlsCreated
      ensures e == SelectionEntry(Current())
    {
      var path := FromString(DynamicClasspathContainer.ID);
      IdIsOneSegment();
      path := AppendEncoded(path, projectLabel);
      path := AppendEncoded(path, binDirText);
      path := AppendEncoded(path, libDirText);
      path := AppendEncoded(path, libRegexText);
      path := AppendEncoded(path, srcRegexText);
      path := AppendEncoded(path, docRegexText);
      path := AppendEncoded(path, BooleanToString(exportedBox));
      var binPath := JoinedPath(projectLabel, binDirText);
      e := ContainerEntry(path, [ClasspathAttribute(PREFIX_BINARY_PATH, binPath)], exportedBox);
    }
  }
}
