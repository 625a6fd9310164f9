# Dynamic Classpath Container, modelled in Dafny

The Eclipse plugin `ch.arktos.dcc` adds a classpath container to a Java
project. The container holds every jar in one project folder that a regular
expression selects. Each jar gets its source and javadoc archives attached,
again found by regular expression.

The container's whole configuration travels inside its container path. This
path is written by the wizard page and read back by the container. This
project models that logic:

- **The segment codec** (`PathEncoder`, in `path_encoder.dfy`). `/` becomes
  `@`, then the application/x-www-form-urlencoded escaping of HTML 4.01,
  section 17.13.4.1, is applied. Its escapes are the upper-case `%XY` of
  RFC 3986, section 2.1. Decoding reverses both steps. Any failure gives the
  empty string. Strings are handled as their UTF-8 bytes (`JavaLang.Str`).
- **The container** (`DynamicClasspathContainer`, in `container.dfy`):
  - the constructor decodes the path segments;
  - `getDescription`;
  - `getPathWithPart`, the attachment search: the library's directory, then
    its subdirectories, and the last directory with a match wins;
  - `getJavadocAttibute`;
  - the loop in `getClasspathEntries`.

  `getPathWithPart` and `getClasspathEntries` are methods with loops. Each is
  proved against a function that specifies it.
- **The two file-name filters** (`LibraryRegexFilter`, `AttachmentRegexFilter`),
  and `File.listFiles` over a file-system snapshot (`Listing`, `Files`).
- **The wizard page** (`DynamicClasspathContainerPage`), as a class whose
  fields are the contents of its controls:
  - `createControl` and its seven `create*Group` steps: each field takes its
    default or the decoded segment of the entry being edited;
  - `finish`: trims the texts, then runs the ordered validation, creating
    the folders on the way;
  - `createProjectFolder`;
  - `getSelection`: builds the eight-segment container path.

Several things are parameters rather than parts of the model:

- The Eclipse workspace is a value, `Eclipse.Workspace`. It records which
  projects and folders exist and which folders could be created.
- The file system is a snapshot, `Files.FileSystem`, mapping each directory
  to its listing.
- The regular-expression engine is two oracles:
  - `matches(name, regex)` is `String.matches`, a whole-name match;
  - `compiles(regex)` is what `isRegexValid` answers, `Pattern.compile` not
    throwing.

The central property is the writer/reader round trip. The page writes a
path from seven fields that are not degenerate and hold no `@`; the
container reads back the project, the library folder, the three
expressions and the export flag (`ContainerReadsSelection`). A page
reopened on that entry shows the same fields (`ReopenShowsSelection`). An
empty field shifts the later segments (`EmptySourceRegexShiftsSegments`).

The project label is not read back from segment 1 when the page is
reopened. As the code does, it shows the project passed to `initialize`
(`DynamicClasspathContainerPage.java:209-213`).

## Model

All source paths are under `DynamicClasspathContainer/src/ch/arktos/dcc/`;
the table spells them out in full.

| member | source | states |
|---|---|---|
| PathEncoder.FormEncode | DynamicClasspathContainer/src/ch/arktos/dcc/PathEncoder.java:35 | the form encoding is at least as long as its input and at most three times as long |
| PathEncoder.FormEncodeIsFormEncoded | DynamicClasspathContainer/src/ch/arktos/dcc/PathEncoder.java:35 | the form encoding uses only `A-Z a-z 0-9 . - * _ + %`, and every `%` is followed by two upper-case hex digits |
| PathEncoder.FormDecode | DynamicClasspathContainer/src/ch/arktos/dcc/PathEncoder.java:52 | decoding succeeds exactly when every `%` starts an escape `URLDecoder` can read (sign quirks of `parseInt` included); the result is no longer than the input |
| PathEncoder.Encode | DynamicClasspathContainer/src/ch/arktos/dcc/PathEncoder.java:31-40 | null encodes to ""; otherwise the result is between one and three times the input's length, so "" stays ""; it never holds `/` or `@`, so it is one path segment |
| PathEncoder.EncodeIsFormEncoded | DynamicClasspathContainer/src/ch/arktos/dcc/PathEncoder.java:35 | every output of `encode` is in the form-encoded shape above |
| PathEncoder.Decode | DynamicClasspathContainer/src/ch/arktos/dcc/PathEncoder.java:49-59 | the result never holds `@`; null or an input with a malformed escape gives ""; the result is no longer than the input, so "" gives "" |
| PathEncoder.FormDecodeEncode | DynamicClasspathContainer/src/ch/arktos/dcc/PathEncoder.java:31-59 | form decoding inverts form encoding on every byte string |
| PathEncoder.DecodeEncode | DynamicClasspathContainer/src/ch/arktos/dcc/PathEncoder.java:31-59 | `decode(encode(s))` is `s` with every `@` turned into `/`, and it is `s` itself when `s` holds no `@` |
| PathEncoder.AtComesBackAsSlash | DynamicClasspathContainer/src/ch/arktos/dcc/PathEncoder.java:31-59 | the lossy case: `a@b` comes back as `a/b` |
| PathEncoder.EncodeDegenerate | DynamicClasspathContainer/src/ch/arktos/dcc/PathEncoder.java:35 | an encoding is empty, `.` or `..` exactly when the string itself is |
| PathEncoder.DecodeRejectsMalformedEscape | DynamicClasspathContainer/src/ch/arktos/dcc/PathEncoder.java:50-58 | a `%` that is truncated or not followed by a readable escape makes `decode` give "" |
| JavaLang.LastIndexOf | DynamicClasspathContainer/src/ch/arktos/dcc/DynamicClasspathContainer.java:104 | -1 exactly when the character is absent; otherwise the position holds it and no later position does |
| JavaLang.Trim | DynamicClasspathContainer/src/ch/arktos/dcc/DynamicClasspathContainerPage.java:122-127 | the result is a contiguous middle part of the string; the parts cut off at both ends consist of characters up to the space, and the result does not start or end with one |
| JavaLang.ReplaceAll | DynamicClasspathContainer/src/ch/arktos/dcc/PathEncoder.java:35 | `s.replace(from, to)` (also at line 54) keeps the length and leaves no `from` behind when `to` differs |
| JavaLang.ParseBoolean | DynamicClasspathContainer/src/ch/arktos/dcc/DynamicClasspathContainer.java:67 | `Boolean.valueOf` is true only for a four-letter text starting with `t` and ending with `e` in either case; `BooleanToString` is its partner |
| JavaLang.TrimIdempotent | DynamicClasspathContainer/src/ch/arktos/dcc/DynamicClasspathContainerPage.java:122-127 | trimming a trimmed string changes nothing |
| JavaLang.BooleanToString | DynamicClasspathContainer/src/ch/arktos/dcc/DynamicClasspathContainerPage.java:184 | `Boolean.valueOf` reads the flag's text back as the flag; the text is never empty, `.` or `..` |
| EclipsePath.Split | DynamicClasspathContainer/src/ch/arktos/dcc/DynamicClasspathContainer.java:136-137 | a string is cut into at least one piece, none of them holding `/`; a string without `/` is one piece |
| EclipsePath.JoinSplit | DynamicClasspathContainer/src/ch/arktos/dcc/DynamicClasspathContainer.java:136-137 | joining the pieces with `/` gives the string back |
| EclipsePath.Append | DynamicClasspathContainer/src/ch/arktos/dcc/DynamicClasspathContainerPage.java:178-184 | a tail without `/` is appended by the one-segment rule |
| EclipsePath.FromPlainSegment | DynamicClasspathContainer/src/ch/arktos/dcc/DynamicClasspathContainerPage.java:177 | `new Path(s)` of a plain segment is that one segment |
| EclipsePath.JoinedPath | DynamicClasspathContainer/src/ch/arktos/dcc/DynamicClasspathContainerPage.java:186-187 | `new Path(a).append(b)` as a string is `a/b` for two plain segments, and `a` when `b` is empty |
| Listing.Accepted | DynamicClasspathContainer/src/ch/arktos/dcc/DynamicClasspathContainer.java:80 | a name is kept exactly when it is listed and the filter accepts it |
| Listing.ListFiles | DynamicClasspathContainer/src/ch/arktos/dcc/DynamicClasspathContainer.java:80 | `listFiles` is null exactly when the path is not a directory; every file it returns lies in that directory |
| Listing.ListFilesContents | DynamicClasspathContainer/src/ch/arktos/dcc/DynamicClasspathContainer.java:80 | a directory's listing holds exactly its entries that the filter accepts |
| LibraryRegexFilter.AcceptCases | DynamicClasspathContainer/src/ch/arktos/dcc/LibraryRegexFilter.java:46-57 | a null name is refused; so is a name for which `dir + name` is a directory; otherwise the name is accepted exactly when it wholly matches |
| LibraryRegexFilter.Accept | DynamicClasspathContainer/src/ch/arktos/dcc/LibraryRegexFilter.java:46-57 | an accepted name is not null and wholly matches the filter's expression; `AcceptCases` gives each branch |
| LibraryRegexFilter.AcceptsMatchingSubdirectory | DynamicClasspathContainer/src/ch/arktos/dcc/LibraryRegexFilter.java:51-54 | the directory test uses `dir + name` with no separator, so the matching subdirectory `lib/x.jar` is accepted |
| AttachmentRegexFilter.Accept | DynamicClasspathContainer/src/ch/arktos/dcc/AttachmentRegexFilter.java:46-53 | an accepted name is not null, wholly matches, and `File(dir, name)` is not a directory |
| AttachmentRegexFilter.AcceptExactly | DynamicClasspathContainer/src/ch/arktos/dcc/AttachmentRegexFilter.java:46-53 | a name is accepted exactly when it is not null, `File(dir, name)` is not a directory and the name wholly matches |
| DynamicClasspathContainer.DecodedSegment | DynamicClasspathContainer/src/ch/arktos/dcc/DynamicClasspathContainer.java:62-67 | a decoded segment never holds `@`; a segment past the end decodes to "" |
| DynamicClasspathContainer.FromPath | DynamicClasspathContainer/src/ch/arktos/dcc/DynamicClasspathContainer.java:59-68 | the container keeps its path; no decoded field holds `@`; a path of at most seven segments is not exported; at most three segments leave the library folder and the expressions empty |
| DynamicClasspathContainer.Description | DynamicClasspathContainer/src/ch/arktos/dcc/DynamicClasspathContainer.java:135-138 | the description is `project/libDir` for plain names, and the project alone when the library folder is empty |
| DynamicClasspathContainer.FilePrefix | DynamicClasspathContainer/src/ch/arktos/dcc/DynamicClasspathContainer.java:104 | the prefix is the part of the name before its last dot |
| DynamicClasspathContainer.AttachmentPattern | DynamicClasspathContainer/src/ch/arktos/dcc/DynamicClasspathContainer.java:105 | the attachment expression is `.*`, then the library name before its last dot, then the part |
| DynamicClasspathContainer.SearchDirectories | DynamicClasspathContainer/src/ch/arktos/dcc/DynamicClasspathContainer.java:106-110 | the library's own directory is searched first |
| DynamicClasspathContainer.SearchDirectoriesAreSubdirectories | DynamicClasspathContainer/src/ch/arktos/dcc/DynamicClasspathContainer.java:108-110 | the directories searched after the library's own are exactly its entries that are directories: every searched one is such an entry, every such entry is searched, and there is one search per listed subdirectory |
| DynamicClasspathContainer.AttachmentFor | DynamicClasspathContainer/src/ch/arktos/dcc/DynamicClasspathContainer.java:99-102 | a null or empty part finds nothing |
| DynamicClasspathContainer.LastPresentIsLastMatch | DynamicClasspathContainer/src/ch/arktos/dcc/DynamicClasspathContainer.java:112-119 | the search finds nothing exactly when no directory has a match; otherwise it finds the first match of a directory after which no directory has one |
| DynamicClasspathContainer.GetPathWithPart | DynamicClasspathContainer/src/ch/arktos/dcc/DynamicClasspathContainer.java:99-120 | the loop that overwrites its result for every directory with a match returns `AttachmentFor`: the last directory with a match wins |
| DynamicClasspathContainer.JavadocAttribute | DynamicClasspathContainer/src/ch/arktos/dcc/DynamicClasspathContainer.java:122-127 | null exactly for a null path; otherwise exactly one `javadoc_location` attribute holding the path |
| DynamicClasspathContainer.Libraries | DynamicClasspathContainer/src/ch/arktos/dcc/DynamicClasspathContainer.java:75-81 | every listed library lies in a directory |
| DynamicClasspathContainer.ClasspathEntriesShape | DynamicClasspathContainer/src/ch/arktos/dcc/DynamicClasspathContainer.java:71-97 | no entries without the project or the library folder, or when the folder cannot be listed; otherwise the call succeeds exactly when no library name lacks a dot while a part is non-empty; then one entry per library, in listing order, with its path, the export flag and the two attachment searches |
| DynamicClasspathContainer.NewLibraryEntry | DynamicClasspathContainer/src/ch/arktos/dcc/DynamicClasspathContainer.java:84-91 | the loop body builds the entry that `EntryFor` specifies |
| DynamicClasspathContainer.GetClasspathEntries | DynamicClasspathContainer/src/ch/arktos/dcc/DynamicClasspathContainer.java:71-97 | the loop returns what `ClasspathEntries` specifies, including the `StringIndexOutOfBoundsException` of a name without a dot |
| DynamicClasspathContainerPage.CreateProjectFolder | DynamicClasspathContainer/src/ch/arktos/dcc/DynamicClasspathContainerPage.java:157-168 | true exactly when the folder exists or can be created; then it exists afterwards; a failed creation changes nothing |
| DynamicClasspathContainerPage.Validate | DynamicClasspathContainer/src/ch/arktos/dcc/DynamicClasspathContainerPage.java:129-154 | each error holds exactly when every earlier check passes and its own fails; no error exactly when all pass; only the two folders can be created, and none once the project or output-folder check fails |
| DynamicClasspathContainerPage.ValidateIdempotent | DynamicClasspathContainer/src/ch/arktos/dcc/DynamicClasspathContainerPage.java:129-168 | validating again in the workspace the first run left gives the same answer and creates nothing more |
| DynamicClasspathContainerPage.TrimFieldsIdempotent | DynamicClasspathContainer/src/ch/arktos/dcc/DynamicClasspathContainerPage.java:122-127 | a second `finish` trims nothing more |
| DynamicClasspathContainerPage.AppendEncodedIsAppend | DynamicClasspathContainer/src/ch/arktos/dcc/DynamicClasspathContainerPage.java:178 | appending an encoded value is `path.append` of the encoding |
| DynamicClasspathContainerPage.AppendEncodedAdds | DynamicClasspathContainer/src/ch/arktos/dcc/DynamicClasspathContainerPage.java:178-184 | a value that is not empty, `.` or `..` adds exactly one segment, its encoding |
| DynamicClasspathContainerPage.AppendEncodedEmpty | DynamicClasspathContainer/src/ch/arktos/dcc/DynamicClasspathContainerPage.java:182 | an empty value adds no segment |
| DynamicClasspathContainerPage.IdIsOneSegment | DynamicClasspathContainer/src/ch/arktos/dcc/DynamicClasspathContainerPage.java:177 | `new Path(ID)` is the one segment `ID` |
| DynamicClasspathContainerPage.AppendFieldsInOrder | DynamicClasspathContainer/src/ch/arktos/dcc/DynamicClasspathContainerPage.java:177-184 | the seven appends are the appends of the field texts, in their order |
| DynamicClasspathContainerPage.SelectionLayout | DynamicClasspathContainer/src/ch/arktos/dcc/DynamicClasspathContainerPage.java:177-184 | with no degenerate field the path is `[ID, enc(project), enc(bin), enc(lib), enc(libRx), enc(srcRx), enc(docRx), enc(exported)]`, eight segments |
| DynamicClasspathContainerPage.ContainerReadsSelection | DynamicClasspathContainer/src/ch/arktos/dcc/DynamicClasspathContainerPage.java:177-184 | the container built from the page's path reads back the project, library folder, expressions and export flag the page wrote |
| DynamicClasspathContainerPage.EmptySourceRegexShiftsSegments | DynamicClasspathContainer/src/ch/arktos/dcc/DynamicClasspathContainerPage.java:182 | an empty source expression leaves seven segments; the container reads the javadoc expression as the source expression and the flag's text as the javadoc expression, and is not exported |
| DynamicClasspathContainerPage.EmptySourceRegexLayout | DynamicClasspathContainer/src/ch/arktos/dcc/DynamicClasspathContainerPage.java:177-184 | with an empty source expression, segments 5 and 6 hold the encoded javadoc expression and flag |
| DynamicClasspathContainerPage.InitialText | DynamicClasspathContainer/src/ch/arktos/dcc/DynamicClasspathContainerPage.java:279-282 | the default when there is no entry or it has at most k segments (the same choice at lines 300-303, 321-324, 342-345 and 363-366); otherwise a decoded segment, which holds no `@` and is no longer than the segment |
| DynamicClasspathContainerPage.ReopenShowsSelection | DynamicClasspathContainer/src/ch/arktos/dcc/DynamicClasspathContainerPage.java:278-387 | a page reopened on the entry it produced shows the same fields; the project label shows the project being edited |
| DynamicClasspathContainerPage.ShowsEncodedFields | DynamicClasspathContainer/src/ch/arktos/dcc/DynamicClasspathContainerPage.java:278-366 | an entry whose segments 2 to 6 are the encoded fields shows those fields again, and its own export flag |
| DynamicClasspathContainerPage.ShortEntryShowsDefaults | DynamicClasspathContainer/src/ch/arktos/dcc/DynamicClasspathContainerPage.java:278-387 | without an entry, or with one of at most two segments, the texts are `bin`, `lib` and the three default expressions; the export box is true, or the entry's flag |
| DynamicClasspathContainerPage.Page.constructor | DynamicClasspathContainer/src/ch/arktos/dcc/DynamicClasspathContainerPage.java:66-71 | a new page has no project, no entry, no controls and no error message |
| DynamicClasspathContainerPage.Page.Initialize | DynamicClasspathContainer/src/ch/arktos/dcc/DynamicClasspathContainerPage.java:82-84 | the project is remembered and nothing else changes |
| DynamicClasspathContainerPage.Page.SetSelection | DynamicClasspathContainer/src/ch/arktos/dcc/DynamicClasspathContainerPage.java:199-201 | the entry is remembered and nothing else changes |
| DynamicClasspathContainerPage.Page.CreateControl | DynamicClasspathContainer/src/ch/arktos/dcc/DynamicClasspathContainerPage.java:93-108 | after the seven group steps the controls hold `InitialFields` of the project and the entry |
| DynamicClasspathContainerPage.Page.CreateProjectGroup | DynamicClasspathContainer/src/ch/arktos/dcc/DynamicClasspathContainerPage.java:209-225 | the label shows the project's name, or "" without a project |
| DynamicClasspathContainerPage.Page.CreateBinDirGroup | DynamicClasspathContainer/src/ch/arktos/dcc/DynamicClasspathContainerPage.java:278-291 | the text is decoded segment 2 when the entry has more than two segments, else `bin` |
| DynamicClasspathContainerPage.Page.CreateLibDirGroup | DynamicClasspathContainer/src/ch/arktos/dcc/DynamicClasspathContainerPage.java:299-312 | decoded segment 3 when the entry has more than three segments, else `lib` |
| DynamicClasspathContainerPage.Page.CreateLibRegexGroup | DynamicClasspathContainer/src/ch/arktos/dcc/DynamicClasspathContainerPage.java:320-333 | decoded segment 4 when there is one, else the default library expression |
| DynamicClasspathContainerPage.Page.CreateSrcRegexGroup | DynamicClasspathContainer/src/ch/arktos/dcc/DynamicClasspathContainerPage.java:341-354 | decoded segment 5 when there is one, else the default source expression |
| DynamicClasspathContainerPage.Page.CreateDocRegexGroup | DynamicClasspathContainer/src/ch/arktos/dcc/DynamicClasspathContainerPage.java:362-375 | decoded segment 6 when there is one, else the default javadoc expression |
| DynamicClasspathContainerPage.Page.CreateExportedGroup | DynamicClasspathContainer/src/ch/arktos/dcc/DynamicClasspathContainerPage.java:383-396 | the box follows the entry's own export flag, and is true without an entry |
| DynamicClasspathContainerPage.Page.SelectProject | DynamicClasspathContainer/src/ch/arktos/dcc/DynamicClasspathContainerPage.java:227-242 | a chosen project's name replaces the label; no choice leaves it; the other controls are unchanged |
| DynamicClasspathContainerPage.Page.TrimTexts | DynamicClasspathContainer/src/ch/arktos/dcc/DynamicClasspathContainerPage.java:122-127 | each of the six texts becomes its trimmed form; the export box and error message are unchanged |
| DynamicClasspathContainerPage.Page.Check | DynamicClasspathContainer/src/ch/arktos/dcc/DynamicClasspathContainerPage.java:129-154 | the early-return checks answer, set the error message and leave the workspace as `Validate` of the current texts says |
| DynamicClasspathContainerPage.Page.Finish | DynamicClasspathContainer/src/ch/arktos/dcc/DynamicClasspathContainerPage.java:121-155 | the texts are trimmed before any check; the answer, error message and workspace are those of `Validate` on the trimmed texts |
| DynamicClasspathContainerPage.Page.GetSelection | DynamicClasspathContainer/src/ch/arktos/dcc/DynamicClasspathContainerPage.java:176-189 | the entry has the path built by the seven appends, the output folder `project/binDir` as its one attribute, and the export flag |

## Left out

- Character encoding: strings are their UTF-8 bytes, taken as given. Charset
  lookup, U+FFFD replacement of invalid byte runs and decoded bytes that are
  not valid UTF-8 are not modelled.
- `Character.digit` accepts non-ASCII digits in an escape. This model reads
  only ASCII hex digits and `+`/`-` signs.
- Eclipse's `Path` class is not part of this model. Appending follows its
  documented one-segment rule, piece by piece. Other canonicalisation is not
  modelled: device ids, leading or trailing separators, `\` on Windows.
- `DirectoryFilter` is not part of this model. It is taken to accept exactly
  the entries that are directories.
- `java.io.File` path normalisation and absolute paths: a file's path is its
  directory and name joined by `/`.
- The value of `javadoc_location` is the plain path. Its rendering as a
  `file:` URI is not modelled.
- The regular-expression engine is an oracle (`matches`, `compiles`). A
  `PatternSyntaxException` thrown inside `String.matches` while listing is
  not modelled.
- Other Eclipse exceptions are not modelled: `JavaModelException`, and an
  invalid folder name that `getFolder` rejects with an unchecked exception.
- The set of creatable folders is fixed: creating one folder does not make
  another one creatable.
- SWT widgets, layouts, labels, titles, `setPageComplete` and `setControl`
  are not modelled. The controls are modelled by their contents.
- The project-selection dialog (`getJavaProject`) is a parameter of
  `SelectProject`.
- `Messages`, `DynamicClasspathContainerInitializer` and
  `DynamicClasspathContainerViewerFilter` are not modelled. They hold no
  logic beyond the glue.
- `getKind` and `getPath` return a constant and a field, and have no
  members of their own.
- `isRegexValid` is the `compiles` oracle. It has no member of its own.
- DynamicClasspathContainerPage.Page.Finish: requires `controlsCreated`.
  Before `createControl` the controls are null, and the exception the
  source then throws is not modelled.
- DynamicClasspathContainerPage.Page.GetSelection: requires
  `controlsCreated`, for the same reason.
- DynamicClasspathContainer.GetPathWithPart: requires a dot in the library
  name when the part is non-empty. The `StringIndexOutOfBoundsException`
  for a name without one is modelled one level up, in `GetClasspathEntries`.
- DynamicClasspathContainer.GetClasspathEntries: access rules and
  `IClasspathEntry` objects are not modelled. An entry is its path,
  attachments, source root, attributes and export flag.
