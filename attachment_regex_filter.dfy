/**
 * `AttachmentRegexFilter`: the `FilenameFilter` that looks for a library's
 * source or javadoc archive. Its regular expression is fixed when it is made.
 */
module AttachmentRegexFilter {
  import opened JavaLang
  import opened Files

  datatype Filter = Filter(regex: Str)

  /**
   * `accept(dir, name)`: a null name is refused; otherwise the entry
   * `new File(dir, name)` must not be a directory and the whole name must
   * match the expression.
   */
  predicate Accept(f: Filter, fs: FileSystem, matches: Matcher, dir: Str, name: Option<Str>)
    ensures Accept(f, fs, matches, dir, name) ==>
      name.Some? && matches(name.value, f.regex) && !IsDirectory(fs, Child(dir, name.value))
  {
    if name.None? then false
    else !IsDirectory(fs, Child(dir, name.value)) && matches(name.value, f.regex)
  }

  /** `accept` holds exactly for a non-null name of a non-directory entry that matches. */
  lemma AcceptExactly(f: Filter, fs: FileSystem, matches: Matcher, dir: Str, name: Option<Str>)
    ensures Accept(f, fs, matches, dir, name) <==>
      name.Some? && !IsDirectory(fs, Child(dir, name.value)) && matches(name.value, f.regex)
  {
  }
}
