/**
 * `java.io.File` as far as the plugin uses it. The file system is a given
 * snapshot: each directory's path mapped to the names `File.list` returns for
 * it, in that order; a path that is not a key is not a directory. Regular
 * expressions are an oracle: `Matcher(name, regex)` is `name.matches(regex)`,
 * which holds when the WHOLE name matches.
 */
module Files {
  import opened JavaLang

  datatype FileSystem = FileSystem(listings: map<Str, seq<Str>>)

  /** `new File(path).isDirectory()`. */
  predicate IsDirectory(fs: FileSystem, path: Str)
  {
    path in fs.listings
  }

  /** The path of `new File(dir, name)`: the two joined by the separator. */
  function Child(dir: Str, name: Str): Str
  {
    dir + "/" + name
  }

  /** A `File` made by `listFiles`: its parent directory and its name. */
  datatype JFile = JFile(parent: Str, name: Str)

  function PathOf(f: JFile): Str
  {
    Child(f.parent, f.name)
  }

  /** `String.matches`: whether the whole first argument matches the regular expression in the second. */
  type Matcher = (Str, Str) -> bool
}
