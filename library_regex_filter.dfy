/**
 * `LibraryRegexFilter`: the `FilenameFilter` that picks the library jars out
 * of the library folder. Its regular expression is fixed when it is made.
 */
module LibraryRegexFilter {
  import opened JavaLang
  import opened Files

  datatype Filter = Filter(regex: Str)

  /**
   * `accept(dir, name)`: a null name is refused, so is a name for which
   * `dir.toString() + name` is a directory (no separator is put between the
   * two), and otherwise the whole name must match the expression.
   */
  predicate Accept(f: Filter, fs: FileSystem, matches: Matcher, dir: Str, name: Option<Str>)
    ensures Accept(f, fs, matches, dir, name) ==> name.Some? && matches(name.value, f.regex)
  {
    if name.None? then false
    else if IsDirectory(fs, dir + name.value) then false
    else matches(name.value, f.regex)
  }

  /** The three outcomes of `accept`, one per branch. */
  lemma AcceptCases(f: Filter, fs: FileSystem, matches: Matcher, dir: Str, name: Option<Str>)
    ensures name.None? ==> !Accept(f, fs, matches, dir, name)
    ensures name.Some? && IsDirectory(fs, dir + name.value) ==> !Accept(f, fs, matches, dir, name)
    ensures name.Some? && !IsDirectory(fs, dir + name.value) ==>
      (Accept(f, fs, matches, dir, name) <==> matches(name.value, f.regex))
  {
  }

  /**
   * Because the directory test looks at `dir + name` and not at `dir/name`, a
   * subdirectory whose name matches is accepted: here `lib/x.jar` is a
   * directory, `libx.jar` is not, and `x.jar` is let through.
   */
  lemma AcceptsMatchingSubdirectory()
    ensures var fs := FileSystem(map["lib" := ["x.jar"], "lib/x.jar" := []]);
      && IsDirectory(fs, Child("lib", "x.jar"))
      && Accept(Filter(".*\\.jar"), fs, (n: Str, r: Str) => true, "lib", Some("x.jar"))
  {
    var fs := FileSystem(map["lib" := ["x.jar"], "lib/x.jar" := []]);
    assert Child("lib", "x.jar") == "lib/x.jar";
    var joined: Str := "lib" + "x.jar";
    assert |joined| == 8;
    assert joined !in fs.listings;
  }
}
