/**
 * The pieces of `java.lang` the plugin leans on, as this model sees them.
 *
 * A Java `String` is represented by its UTF-8 bytes, one `char` per byte
 * (`Str`), so that the form codec can be stated byte by byte. A reference
 * that may be `null` is an `Option`, and an exception that escapes a call is
 * the `Thrown` case of a `Result`.
 */
module JavaLang {

  /** One byte of the UTF-8 form of a string. */
  type Byte = c: char | c as int < 256 witness ' '

  type Str = seq<Byte>

  /** A reference that may be `null`. */
  datatype Option<+T> = None | Some(value: T)

  /** The exceptions the modelled code lets escape. */
  datatype JavaException = StringIndexOutOfBounds

  /** What a call that may throw hands back. */
  datatype Result<+T> = Ok(value: T) | Thrown(exception: JavaException)

  /** `s.replace(from, to)` with one-character arguments: every occurrence is replaced. */
  function ReplaceAll(s: Str, from: Byte, to: Byte): (r: Str)
    ensures |r| == |s|
    ensures from != to ==> from !in r
  {
    seq(|s|, i requires 0 <= i < |s| => if s[i] == from then to else s[i])
  }

  /** `s.lastIndexOf(c)`: the position of the last `c`, or -1 when there is none. */
  function LastIndexOf(s: Str, c: Byte): (r: int)
    ensures -1 <= r < |s|
    ensures r == -1 <==> c !in s
    ensures 0 <= r ==> s[r] == c && c !in s[r + 1..]
    decreases |s|
  {
    if s == [] then -1
    else if s[|s| - 1] == c then |s| - 1
    else
      assert s == s[..|s| - 1] + [s[|s| - 1]];
      LastIndexOf(s[..|s| - 1], c)
  }

  /** Characters `String.trim` removes from both ends: the space and every control character. */
  predicate IsTrimmed(c: Byte) { c <= ' ' }

  predicate AllTrimmed(s: Str) { forall i :: 0 <= i < |s| ==> IsTrimmed(s[i]) }

  /** Where `trim` starts: the number of leading trimmed characters. */
  function TrimStart(s: Str): (st: nat)
    ensures st <= |s| && AllTrimmed(s[..st])
    ensures st == |s| || !IsTrimmed(s[st])
    decreases |s|
  {
    if s == [] || !IsTrimmed(s[0]) then 0 else 1 + TrimStart(s[1..])
  }

  /** Where `trim` ends: it never moves back past `st`. */
  function TrimEnd(s: Str, st: nat): (len: nat)
    requires st <= |s|
    ensures st <= len <= |s| && AllTrimmed(s[len..])
    ensures len == st || !IsTrimmed(s[len - 1])
    decreases |s|
  {
    if |s| == st || !IsTrimmed(s[|s| - 1]) then |s|
    else TrimEnd(s[..|s| - 1], st)
  }

  /**
   * `s.trim()`: the string between its leading and trailing runs of
   * characters up to the space.
   */
  function Trim(s: Str): (r: Str)
    ensures var st := TrimStart(s);
      st + |r| <= |s| && r == s[st..st + |r|] && AllTrimmed(s[..st]) && AllTrimmed(s[st + |r|..])
    ensures r == [] || (!IsTrimmed(r[0]) && !IsTrimmed(r[|r| - 1]))
  {
    var st := TrimStart(s);
    s[st..TrimEnd(s, st)]
  }

  /** A trimmed string has nothing left to trim. */
  lemma TrimIdempotent(s: Str)
    ensures Trim(Trim(s)) == Trim(s)
  {
    var r := Trim(s);
    if r != [] {
      assert TrimStart(r) == 0;
      assert TrimEnd(r, 0) == |r|;
    }
  }

  /** `Character.toLowerCase` on an ASCII byte. */
  function ToLowerAscii(c: Byte): Byte
  {
    if 'A' <= c <= 'Z' then (c as int + 32) as char else c
  }

  /** `a.equalsIgnoreCase(b)` for strings whose letters are ASCII. */
  predicate EqualsIgnoreCase(a: Str, b: Str)
  {
    |a| == |b| && forall i :: 0 <= i < |a| ==> ToLowerAscii(a[i]) == ToLowerAscii(b[i])
  }

  /** `Boolean.valueOf(s)`: true exactly for "true" in any letter case. */
  predicate ParseBoolean(s: Str)
    ensures ParseBoolean(s) ==> |s| == 4 && s[0] in "tT" && s[3] in "eE"
  {
    EqualsIgnoreCase(s, "true")
  }

  /** `Boolean.toString(b)`, which `ParseBoolean` reads back. */
  function BooleanToString(b: bool): (r: Str)
    ensures ParseBoolean(r) == b
    ensures r != [] && r != "." && r != ".."
  {
    if b then "true" else "false"
  }
}
