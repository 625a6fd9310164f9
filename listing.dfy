/**
 * `File.listFiles(filter)`: the entries of a directory that a filter accepts,
 * as `File` objects, in listing order; `null` when the path is not a
 * directory. The filters the plugin passes are the two regular-expression
 * filters and `DirectoryFilter`, which is not part of this model and is taken
 * to accept exactly the entries that are directories.
 */
module Listing {
  import opened JavaLang
  import opened Files
  import LibraryRegexFilter
  import AttachmentRegexFilter

  datatype FilenameFilter =
    | Library(library: LibraryRegexFilter.Filter)
    | Attachment(attachment: AttachmentRegexFilter.Filter)
    | Directories

  predicate Accepts(filter: FilenameFilter, fs: FileSystem, matches: Matcher, dir: Str, name: Str)
  {
    match filter
    case Library(f) => LibraryRegexFilter.Accept(f, fs, matches, dir, Some(name))
    case Attachment(f) => AttachmentRegexFilter.Accept(f, fs, matches, dir, Some(name))
    case Directories => IsDirectory(fs, Child(dir, name))
  }

  /** The names in `names` that the filter accepts, in their order. */
  function Accepted(filter: FilenameFilter, fs: FileSystem, matches: Matcher, dir: Str, names: seq<Str>): (r: seq<Str>)
    ensures |r| <= |names|
    ensures forall n :: n in r <==> n in names && Accepts(filter, fs, matches, dir, n)
    decreases |names|
  {
    if names == [] then []
    else
      var rest := Accepted(filter, fs, matches, dir, names[1..]);
      assert names == [names[0]] + names[1..];
      if Accepts(filter, fs, matches, dir, names[0]) then [names[0]] + rest else rest
  }

  /** `new File(dir).listFiles(filter)`. */
  function ListFiles(fs: FileSystem, matches: Matcher, dir: Str, filter: FilenameFilter): (r: Option<seq<JFile>>)
    ensures r.None? <==> !IsDirectory(fs, dir)
    ensures r.Some? ==> forall f :: f in r.value ==> f.parent == dir
  {
    if !IsDirectory(fs, dir) then None
    else
      var names := Accepted(filter, fs, matches, dir, fs.listings[dir]);
      Some(seq(|names|, i requires 0 <= i < |names| => JFile(dir, names[i])))
  }

  /** A directory's listing holds exactly its entries that the filter accepts. */
  lemma ListFilesContents(fs: FileSystem, matches: Matcher, dir: Str, filter: FilenameFilter)
    requires IsDirectory(fs, dir)
    ensures forall n :: JFile(dir, n) in ListFiles(fs, matches, dir, filter).value <==>
      n in fs.listings[dir] && Accepts(filter, fs, matches, dir, n)
  {
    var names := Accepted(filter, fs, matches, dir, fs.listings[dir]);
    var files := ListFiles(fs, matches, dir, filter).value;
    forall n | n in names ensures JFile(dir, n) in files {
      var i :| 0 <= i < |names| && names[i] == n;
      assert files[i] == JFile(dir, n);
    }
  }
}
