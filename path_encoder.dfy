/**
 * `PathEncoder`: fits any configuration string into one segment of a
 * slash-separated container path. `Encode` turns `/` into `@` and then applies
 * the application/x-www-form-urlencoded escaping of `URLEncoder` (HTML 4.01,
 * section 17.13.4.1, with the `%XY` upper-case percent-encoding of RFC 3986,
 * section 2.1); `Decode` undoes the escaping with `URLDecoder` and turns every
 * `@` into `/`. Any exception inside either (a null input, a malformed `%`
 * escape) makes the result the empty string.
 */
module PathEncoder {
  import opened JavaLang

  /** The bytes `URLEncoder` copies unchanged: ASCII letters and digits and `. - * _`. */
  predicate Unreserved(b: Byte)
  {
    ('a' <= b <= 'z') || ('A' <= b <= 'Z') || ('0' <= b <= '9') || b == '.' || b == '-' || b == '*' || b == '_'
  }

  predicate IsUpperHexDigit(c: Byte) { ('0' <= c <= '9') || ('A' <= c <= 'F') }

  /** The upper-case hexadecimal digit `URLEncoder` writes for `n`. */
  function HexDigit(n: nat): (c: Byte)
    requires n < 16
    ensures IsUpperHexDigit(c)
  {
    if n < 10 then (48 + n) as char else (55 + n) as char
  }

  /** `Character.digit(c, 16)` for a byte: `None` stands for -1. */
  function HexValue(c: Byte): (r: Option<nat>)
    ensures r.Some? ==> r.value < 16
  {
    if '0' <= c <= '9' then Some(c as int - 48)
    else if 'a' <= c <= 'f' then Some(c as int - 87)
    else if 'A' <= c <= 'F' then Some(c as int - 55)
    else None
  }

  /**
   * The byte that the escape `%ab` stands for. `URLDecoder` reads the two
   * characters with `Integer.parseInt(ab, 16)`, which also takes a sign: `+d`
   * is the digit `d`, `-0` is zero, and any other negative value or a
   * `NumberFormatException` makes the decoder throw (`None`).
   */
  function EscapeValue(a: Byte, b: Byte): (r: Option<Byte>)
    ensures r.Some? ==> a != '%' && b != '%'
  {
    match HexValue(b)
    case None => None
    case Some(lo) =>
      if a == '+' then Some(lo as char)
      else if a == '-' then (if lo == 0 then Some(0 as char) else None)
      else
        match HexValue(a)
        case None => None
        case Some(hi) => Some((16 * hi + lo) as char)
  }

  /** What `URLEncoder` writes for one byte. */
  function EncodeByte(b: Byte): (r: Str)
    ensures |r| == 1 || |r| == 3
  {
    if Unreserved(b) then [b]
    else if b == ' ' then ['+']
    else ['%', HexDigit(b as int / 16), HexDigit(b as int % 16)]
  }

  /** The bytes `URLEncoder` can write. */
  predicate InEncodedAlphabet(c: Byte) { Unreserved(c) || c == '+' || c == '%' }

  /** A string in the shape `URLEncoder` produces: its alphabet only, and every `%` starts an upper-case hex escape. */
  predicate IsFormEncoded(s: Str)
  {
    && (forall i :: 0 <= i < |s| ==> InEncodedAlphabet(s[i]))
    && (forall i :: 0 <= i < |s| && s[i] == '%' ==> i + 2 < |s| && IsUpperHexDigit(s[i + 1]) && IsUpperHexDigit(s[i + 2]))
  }

  /** `URLEncoder.encode(s, "UTF-8")` on the UTF-8 bytes of `s`. */
  function FormEncode(s: Str): (r: Str)
    ensures |s| <= |r| <= 3 * |s|
    decreases |s|
  {
    if s == [] then [] else EncodeByte(s[0]) + FormEncode(s[1..])
  }

  /** `URLEncoder` writes only its alphabet, and every `%` it writes starts an upper-case hex escape. */
  lemma {:induction false} FormEncodeIsFormEncoded(s: Str)
    ensures IsFormEncoded(FormEncode(s))
    decreases |s|
  {
    if s != [] {
      FormEncodeIsFormEncoded(s[1..]);
      var e := EncodeByte(s[0]);
      var rest := FormEncode(s[1..]);
      var r := e + rest;
      forall i | 0 <= i < |r| ensures InEncodedAlphabet(r[i]) {
        if i >= |e| {
          assert r[i] == rest[i - |e|];
        }
      }
      forall i | 0 <= i < |r| && r[i] == '%'
        ensures i + 2 < |r| && IsUpperHexDigit(r[i + 1]) && IsUpperHexDigit(r[i + 2])
      {
        if i >= |e| {
          assert r[i] == rest[i - |e|];
          assert r[i + 1] == rest[i - |e| + 1] && r[i + 2] == rest[i - |e| + 2];
        }
      }
    }
  }

  /** The inputs `URLDecoder` accepts: every `%` is followed by two characters that `EscapeValue` reads. */
  predicate WellFormedEscapes(s: Str)
  {
    forall i :: 0 <= i < |s| && s[i] == '%' ==> i + 2 < |s| && EscapeValue(s[i + 1], s[i + 2]).Some?
  }

  /** Dropping a first character that starts no escape, or a first escape, keeps well-formedness as it was. */
  lemma WellFormedAfter(s: Str, k: nat)
    requires 1 <= k <= |s|
    requires forall j :: 1 <= j < k ==> s[j] != '%'
    requires s[0] == '%' ==> k == 3 && EscapeValue(s[1], s[2]).Some?
    ensures WellFormedEscapes(s) <==> WellFormedEscapes(s[k..])
  {
    if WellFormedEscapes(s) {
      forall i | 0 <= i < |s[k..]| && s[k..][i] == '%'
        ensures i + 2 < |s[k..]| && EscapeValue(s[k..][i + 1], s[k..][i + 2]).Some?
      {
        assert s[k + i] == '%';
      }
    }
    if WellFormedEscapes(s[k..]) {
      forall i | 0 <= i < |s| && s[i] == '%'
        ensures i + 2 < |s| && EscapeValue(s[i + 1], s[i + 2]).Some?
      {
        if k <= i {
          assert s[k..][i - k] == '%';
        }
      }
    }
  }

  function Prepend(b: Byte, rest: Option<Str>): (r: Option<Str>)
    ensures r.Some? <==> rest.Some?
    ensures r.Some? ==> r.value == [b] + rest.value
  {
    match rest
    case None => None
    case Some(t) => Some([b] + t)
  }

  /**
   * `URLDecoder.decode(s, "UTF-8")` on the UTF-8 bytes of `s`: `+` is a space,
   * `%ab` is one byte, anything else is copied. `None` is the
   * `IllegalArgumentException` it throws for a malformed or truncated escape.
   */
  function FormDecode(s: Str): (r: Option<Str>)
    ensures r.Some? <==> WellFormedEscapes(s)
    ensures r.Some? ==> |r.value| <= |s|
    decreases |s|
  {
    if s == [] then Some([])
    else if s[0] == '%' then
      if |s| < 3 then None
      else
        match EscapeValue(s[1], s[2])
        case None => None
        case Some(b) =>
          WellFormedAfter(s, 3);
          Prepend(b, FormDecode(s[3..]))
    else
      WellFormedAfter(s, 1);
      Prepend(if s[0] == '+' then ' ' else s[0], FormDecode(s[1..]))
  }

  /** `PathEncoder.encode`: `/` becomes `@`, then the form encoding; `null` gives "". */
  function Encode(input: Option<Str>): (r: Str)
    ensures input.None? ==> r == []
    ensures input.Some? ==> |input.value| <= |r| <= 3 * |input.value|
    ensures forall i :: 0 <= i < |r| ==> r[i] != '/' && r[i] != '@'
  {
    match input
    case None => []
    case Some(s) =>
      FormEncodeIsFormEncoded(ReplaceAll(s, '/', '@'));
      FormEncode(ReplaceAll(s, '/', '@'))
  }

  /** `encode` writes only `URLEncoder`'s alphabet, and every `%` it writes starts an upper-case hex escape. */
  lemma EncodeIsFormEncoded(input: Option<Str>)
    ensures IsFormEncoded(Encode(input))
  {
    if input.Some? {
      FormEncodeIsFormEncoded(ReplaceAll(input.value, '/', '@'));
    }
  }

  /** `PathEncoder.decode`: the form decoding, then `@` becomes `/`; `null` or a malformed escape gives "". */
  function Decode(input: Option<Str>): (r: Str)
    ensures forall i :: 0 <= i < |r| ==> r[i] != '@'
    ensures input.Some? ==> |r| <= |input.value|
    ensures input.None? || !WellFormedEscapes(input.value) ==> r == []
  {
    match input
    case None => []
    case Some(s) =>
      match FormDecode(s)
      case None => []
      case Some(t) => ReplaceAll(t, '@', '/')
  }

  lemma HexDigitValue(n: nat)
    requires n < 16
    ensures HexValue(HexDigit(n)) == Some(n)
  {
  }

  /** Decoding the escape of one byte gives that byte back. */
  lemma DecodeEncodeByte(b: Byte, rest: Str)
    ensures FormDecode(EncodeByte(b) + rest) == Prepend(b, FormDecode(rest))
  {
    var e := EncodeByte(b);
    if Unreserved(b) || b == ' ' {
      assert (e + rest)[1..] == rest;
    } else {
      HexDigitValue(b as int / 16);
      HexDigitValue(b as int % 16);
      assert EscapeValue(e[1], e[2]) == Some(b);
      assert (e + rest)[3..] == rest;
    }
  }

  /** `URLDecoder` inverts `URLEncoder`. */
  lemma {:induction false} FormDecodeEncode(s: Str)
    ensures FormDecode(FormEncode(s)) == Some(s)
    decreases |s|
  {
    if s != [] {
      FormDecodeEncode(s[1..]);
      DecodeEncodeByte(s[0], FormEncode(s[1..]));
      assert [s[0]] + s[1..] == s;
    }
  }

  /**
   * The codec's round trip: decoding an encoded string gives it back except
   * that every `@` in it comes back as `/`; so it is the identity on strings
   * without `@`.
   */
  lemma DecodeEncode(s: Str)
    ensures Decode(Some(Encode(Some(s)))) == ReplaceAll(s, '@', '/')
    ensures '@' !in s ==> Decode(Some(Encode(Some(s)))) == s
  {
    var t := ReplaceAll(s, '/', '@');
    FormDecodeEncode(t);
    assert ReplaceAll(t, '@', '/') == ReplaceAll(s, '@', '/');
    if '@' !in s {
      assert ReplaceAll(s, '@', '/') == s;
    }
  }

  /** The lossy case: an original `@` does not survive the round trip. */
  lemma AtComesBackAsSlash()
    ensures Decode(Some(Encode(Some("a@b")))) == "a/b"
  {
    DecodeEncode("a@b");
    assert ReplaceAll("a@b", '@', '/') == "a/b";
  }

  lemma EncodeByteDot(b: Byte)
    ensures EncodeByte(b) == "." <==> b == '.'
  {
    if EncodeByte(b) == "." {
      assert EncodeByte(b)[0] == '.';
    }
  }

  /** The encoding of a string is empty, `.` or `..` exactly when the string itself is. */
  lemma EncodeDegenerate(s: Str)
    ensures var e := Encode(Some(s));
      && (e == [] <==> s == [])
      && (e == "." <==> s == ".")
      && (e == ".." <==> s == "..")
  {
    var t := ReplaceAll(s, '/', '@');
    var e := Encode(Some(s));
    assert e == FormEncode(t);
    if |s| == 1 {
      assert e == EncodeByte(t[0]) + FormEncode(t[1..]);
      assert t[1..] == [];
      if e == "." {
        EncodeByteDot(t[0]);
      }
      if s == "." {
        assert t == ".";
      }
    } else if |s| == 2 {
      var e0 := EncodeByte(t[0]);
      assert e == e0 + FormEncode(t[1..]);
      assert FormEncode(t[1..]) == EncodeByte(t[1]) + FormEncode(t[2..]);
      assert t[2..] == [];
      if e == ".." {
        assert |e0| == 1;
        assert e0 == [e[0]] && EncodeByte(t[1]) == [e[1]];
        EncodeByteDot(t[0]);
        EncodeByteDot(t[1]);
        assert s == "..";
      }
      if s == ".." {
        assert t == "..";
      }
    }
  }

  /** A malformed or truncated escape makes `Decode` give "". */
  lemma DecodeRejectsMalformedEscape(s: Str, i: nat)
    requires i < |s| && s[i] == '%'
    requires i + 2 >= |s| || EscapeValue(s[i + 1], s[i + 2]).None?
    ensures Decode(Some(s)) == []
  {
  }
}
