/**
 * Eclipse's `IPath`, reduced to what the plugin relies on: a relative path is
 * its sequence of segments. Eclipse's `Path` class is not part of this model;
 * `AppendSegment` follows its documented rule for appending one segment
 * (an empty or `.` segment leaves the path as it is, `..` removes the last
 * segment), and a longer tail is appended piece by piece.
 */
module EclipsePath {
  import opened JavaLang

  type Path = seq<Str>

  /** A segment that `append` adds as it is: not empty, not `.` or `..`, no separator. */
  predicate IsPlainSegment(seg: Str)
  {
    seg != [] && seg != "." && seg != ".." && '/' !in seg
  }

  /** `path.append(seg)` for a `seg` without separator. */
  function AppendSegment(p: Path, seg: Str): Path
  {
    if seg == [] || seg == "." then p
    else if seg == ".." then (if p == [] then [] else p[..|p| - 1])
    else p + [seg]
  }

  /** The pieces of `s` between its `/` separators. */
  function Split(s: Str): (r: seq<Str>)
    ensures |r| >= 1
    ensures '/' !in s ==> r == [s]
    ensures forall i :: 0 <= i < |r| ==> '/' !in r[i]
    decreases |s|
  {
    if s == [] then [[]]
    else
      var rest := Split(s[1..]);
      assert s == [s[0]] + s[1..];
      if s[0] == '/' then [[]] + rest
      else [[s[0]] + rest[0]] + rest[1..]
  }

  /** The segments joined with `/`, as `toPortableString` writes a relative path. */
  function Join(p: Path): Str
  {
    if p == [] then [] else if |p| == 1 then p[0] else p[0] + "/" + Join(p[1..])
  }

  lemma JoinFirst(p: Path)
    requires p != []
    ensures |p[0]| <= |Join(p)| && Join(p)[..|p[0]|] == p[0]
    ensures Join(p) == p[0] + Join(p)[|p[0]|..]
    ensures |p| > 1 ==> Join(p)[|p[0]|..] == "/" + Join(p[1..])
    ensures |p| == 1 ==> Join(p)[|p[0]|..] == []
  {
  }

  /** Splitting at the separators and joining again gives the string back. */
  lemma {:induction false} JoinSplit(s: Str)
    ensures Join(Split(s)) == s
    decreases |s|
  {
    if s != [] {
      var rest := Split(s[1..]);
      JoinSplit(s[1..]);
      JoinFirst(rest);
      assert s == [s[0]] + s[1..];
      if s[0] != '/' {
        JoinFirst([[s[0]] + rest[0]] + rest[1..]);
      }
    }
  }

  function AppendAll(p: Path, segs: seq<Str>): Path
    decreases |segs|
  {
    if segs == [] then p else AppendAll(AppendSegment(p, segs[0]), segs[1..])
  }

  /** `path.append(tail)`: each `/`-separated piece of `tail` in turn. */
  function Append(p: Path, tail: Str): (r: Path)
    ensures '/' !in tail ==> r == AppendSegment(p, tail)
  {
    assert '/' !in tail ==> Split(tail)[1..] == [] && AppendAll(AppendSegment(p, tail), []) == AppendSegment(p, tail);
    AppendAll(p, Split(tail))
  }

  /** `new Path(s)`. */
  function FromString(s: Str): Path
  {
    Append([], s)
  }

  /** A plain segment makes a path of that one segment. */
  lemma FromPlainSegment(s: Str)
    requires IsPlainSegment(s)
    ensures FromString(s) == [s]
  {
  }

  /**
   * `new Path(a).append(b).toPortableString()`: for two plain segments it is
   * `a/b`, and an empty `b` leaves `a`.
   */
  function JoinedPath(a: Str, b: Str): (r: Str)
    ensures IsPlainSegment(a) && IsPlainSegment(b) ==> r == a + "/" + b
    ensures IsPlainSegment(a) && b == [] ==> r == a
  {
    var p := Append(FromString(a), b);
    assert IsPlainSegment(a) && IsPlainSegment(b) ==> p == [a, b] && p[1..] == [b] && Join(p) == a + "/" + Join([b]);
    Join(p)
  }
}
