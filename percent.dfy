/**
 * Percent-encoding as JavaScript does it: `encodeURIComponent` and its inverse
 * `decodeURIComponent` (UTF-8 bytes written as upper-case `%XX`), and the
 * application/x-www-form-urlencoded serializer that `URLSearchParams` uses
 * when it rewrites a query.
 */
module Percent {
  import opened Wrappers

  type Byte = b: int | 0 <= b < 256

  /** The characters `encodeURIComponent` leaves as they are. */
  predicate UriUnreserved(c: char)
  {
    ('A' <= c <= 'Z') || ('a' <= c <= 'z') || ('0' <= c <= '9')
    || c == '-' || c == '_' || c == '.' || c == '!' || c == '~' || c == '*' || c == '\'' || c == '(' || c == ')'
  }

  /** The characters the form-urlencoded serializer leaves as they are. */
  predicate FormSafe(c: char)
  {
    ('A' <= c <= 'Z') || ('a' <= c <= 'z') || ('0' <= c <= '9') || c == '*' || c == '-' || c == '.' || c == '_'
  }

  /** The UTF-8 encoding of one code point. */
  function Utf8(c: char): (r: seq<Byte>)
    ensures 1 <= |r| <= 4
    ensures |r| == 1 <==> c as int < 0x80
    ensures |r| == 1 ==> r[0] == c as int
    ensures |r| > 1 ==> 0xC0 <= r[0] < 0xF8 && forall i :: 1 <= i < |r| ==> 0x80 <= r[i] < 0xC0
  {
    var n := c as int;
    var a := n / 64;
    var b := a / 64;
    if n < 0x80 then [n]
    else if n < 0x800 then [0xC0 + a, 0x80 + n % 64]
    else if n < 0x10000 then [0xE0 + b, 0x80 + a % 64, 0x80 + n % 64]
    else [0xF0 + b / 64, 0x80 + b % 64, 0x80 + a % 64, 0x80 + n % 64]
  }

  /** An upper-case hexadecimal digit. */
  function HexDigit(d: nat): (c: char)
    requires d < 16
    ensures ('0' <= c <= '9') || ('A' <= c <= 'F')
  {
    if d < 10 then (d + '0' as int) as char else (d - 10 + 'A' as int) as char
  }

  /** The value of a hexadecimal digit of either case. */
  function HexValue(c: char): (r: Option<nat>)
    ensures r.Some? ==> r.value < 16
    ensures r.Some? <==> ('0' <= c <= '9') || ('A' <= c <= 'F') || ('a' <= c <= 'f')
  {
    if '0' <= c <= '9' then Some(c as int - '0' as int)
    else if 'A' <= c <= 'F' then Some(c as int - 'A' as int + 10)
    else if 'a' <= c <= 'f' then Some(c as int - 'a' as int + 10)
    else None
  }

  lemma HexRoundTrip(d: nat)
    requires d < 16
    ensures HexValue(HexDigit(d)) == Some(d)
  {
  }

  /** `%XX` for one byte. */
  function PercentByte(b: Byte): (r: string)
    ensures |r| == 3 && r[0] == '%'
  {
    ['%', HexDigit(b / 16), HexDigit(b % 16)]
  }

  function PercentBytes(bs: seq<Byte>): (r: string)
    ensures |r| == 3 * |bs|
  {
    if bs == [] then "" else PercentByte(bs[0]) + PercentBytes(bs[1..])
  }

  /** One character as `encodeURIComponent` writes it. */
  function EncodeChar(c: char): (r: string)
    ensures r != []
    ensures UriUnreserved(c) ==> r == [c]
    ensures !UriUnreserved(c) ==> r == PercentBytes(Utf8(c))
    ensures forall i :: 0 <= i < |r| ==> UriUnreserved(r[i]) || r[i] == '%'
  {
    if UriUnreserved(c) then [c] else PercentBytesAlphabet(Utf8(c)); PercentBytes(Utf8(c))
  }

  lemma {:induction false} PercentBytesAlphabet(bs: seq<Byte>)
    ensures forall i :: 0 <= i < |PercentBytes(bs)| ==> UriUnreserved(PercentBytes(bs)[i]) || PercentBytes(bs)[i] == '%'
    ensures forall i :: 0 <= i < |PercentBytes(bs)| ==> FormSafe(PercentBytes(bs)[i]) || PercentBytes(bs)[i] == '%'
  {
    if bs != [] {
      PercentBytesAlphabet(bs[1..]);
      var r := PercentBytes(bs);
      assert r == PercentByte(bs[0]) + PercentBytes(bs[1..]);
      forall i | 0 <= i < |r|
        ensures (UriUnreserved(r[i]) || r[i] == '%') && (FormSafe(r[i]) || r[i] == '%')
      {
        if i >= 3 {
          assert r[i] == PercentBytes(bs[1..])[i - 3];
        }
      }
    }
  }

  /**
   * `encodeURIComponent(s)`. Characters are Unicode scalar values here, so the
   * lone surrogates for which JavaScript throws a URIError cannot occur. Every
   * character of the result is unreserved or `%`: in particular none of
   * `& = ? # +` or a space appears raw.
   */
  function EncodeUriComponent(s: string): (r: string)
    ensures |r| >= |s|
    ensures forall i :: 0 <= i < |r| ==> UriUnreserved(r[i]) || r[i] == '%'
  {
    if s == [] then "" else EncodeChar(s[0]) + EncodeUriComponent(s[1..])
  }

  /** A string of unreserved characters is its own encoding. */
  lemma {:induction false} EncodeUnreservedIsIdentity(s: string)
    requires forall i :: 0 <= i < |s| ==> UriUnreserved(s[i])
    ensures EncodeUriComponent(s) == s
  {
    if s != [] {
      EncodeUnreservedIsIdentity(s[1..]);
    }
  }

  /** The byte written as `%XX` at position `i`, if there is one. */
  function ByteAt(t: string, i: nat): (r: Option<Byte>)
  {
    if i + 3 <= |t| && t[i] == '%' && HexValue(t[i + 1]).Some? && HexValue(t[i + 2]).Some? then
      Some(HexValue(t[i + 1]).value * 16 + HexValue(t[i + 2]).value)
    else None
  }

  /** The low six bits of a continuation byte (10xxxxxx) written at position `i`. */
  function ContinuationAt(t: string, i: nat): (r: Option<nat>)
    ensures r.Some? ==> r.value < 64
  {
    match ByteAt(t, i)
    case Some(b) => if 0x80 <= b < 0xC0 then Some(b - 0x80) else None
    case None => None
  }

  /**
   * The first character of `t` under `decodeURIComponent` and how many
   * characters of `t` it takes; None is the URIError thrown for a `%` not
   * followed by two hex digits, a byte that cannot start a UTF-8 sequence, a
   * missing continuation byte, and an overlong, surrogate or out-of-range
   * code point.
   */
  function DecodeOne(t: string): (r: Option<(char, nat)>)
    requires t != []
    ensures r.Some? ==> 1 <= r.value.1 <= |t|
  {
    if t[0] != '%' then Some((t[0], 1))
    else match ByteAt(t, 0)
      case None => None
      case Some(b0) =>
        if b0 < 0x80 then Some((b0 as char, 3))
        else if 0xC0 <= b0 < 0xE0 then
          match ContinuationAt(t, 3)
          case None => None
          case Some(c1) =>
            var cp := (b0 - 0xC0) * 64 + c1;
            if cp < 0x80 then None else Some((cp as char, 6))
        else if 0xE0 <= b0 < 0xF0 then
          match (ContinuationAt(t, 3), ContinuationAt(t, 6))
          case (Some(c1), Some(c2)) =>
            var cp := ((b0 - 0xE0) * 64 + c1) * 64 + c2;
            if cp < 0x800 || (0xD800 <= cp <= 0xDFFF) then None else Some((cp as char, 9))
          case _ => None
        else if 0xF0 <= b0 < 0xF8 then
          match (ContinuationAt(t, 3), ContinuationAt(t, 6), ContinuationAt(t, 9))
          case (Some(c1), Some(c2), Some(c3)) =>
            var cp := (((b0 - 0xF0) * 64 + c1) * 64 + c2) * 64 + c3;
            if cp < 0x10000 || cp > 0x10FFFF then None else Some((cp as char, 12))
          case _ => None
        else None
  }

  /** `decodeURIComponent(t)`; None is the URIError. */
  function DecodeUriComponent(t: string): (r: Option<string>)
    decreases |t|
  {
    if t == [] then Some("")
    else match DecodeOne(t)
      case None => None
      case Some((c, k)) =>
        match DecodeUriComponent(t[k..])
        case None => None
        case Some(rest) => Some([c] + rest)
  }

  lemma ByteAtPercentByte(b: Byte, rest: string)
    ensures ByteAt(PercentByte(b) + rest, 0) == Some(b)
  {
    HexRoundTrip(b / 16);
    HexRoundTrip(b % 16);
  }

  /** The `j`-th `%XX` group of an encoded byte string reads back as the `j`-th byte. */
  lemma {:induction false} ByteAtPercentBytes(bs: seq<Byte>, rest: string, j: nat)
    requires j < |bs|
    ensures ByteAt(PercentBytes(bs) + rest, 3 * j) == Some(bs[j])
  {
    var t := PercentBytes(bs) + rest;
    assert t == PercentByte(bs[0]) + (PercentBytes(bs[1..]) + rest);
    if j == 0 {
      ByteAtPercentByte(bs[0], PercentBytes(bs[1..]) + rest);
    } else {
      ByteAtPercentBytes(bs[1..], rest, j - 1);
      var u := PercentBytes(bs[1..]) + rest;
      assert t[3..] == u;
      assert t[3 * j..3 * j + 3] == u[3 * (j - 1)..3 * (j - 1) + 3];
    }
  }

  lemma DivMod64(x: nat)
    ensures x == (x / 64) * 64 + x % 64
  {
  }

  /** Decoding the `%XX` form of a character's UTF-8 bytes gives the character back and consumes exactly that form. */
  lemma DecodeOnePercentUtf8(c: char, rest: string)
    ensures DecodeOne(PercentBytes(Utf8(c)) + rest) == Some((c, |PercentBytes(Utf8(c))|))
  {
    var bs := Utf8(c);
    var t := PercentBytes(bs) + rest;
    assert t[0] == '%';
    ByteAtPercentBytes(bs, rest, 0);
    if |bs| == 2 {
      ByteAtPercentBytes(bs, rest, 1);
      DecodeTwo(c, t);
    } else if |bs| == 3 {
      ByteAtPercentBytes(bs, rest, 1);
      ByteAtPercentBytes(bs, rest, 2);
      DecodeThree(c, t);
    } else if |bs| == 4 {
      ByteAtPercentBytes(bs, rest, 1);
      ByteAtPercentBytes(bs, rest, 2);
      ByteAtPercentBytes(bs, rest, 3);
      DecodeFour(c, t);
    }
  }

  /** Decoding the encoding of one character gives that character back and consumes exactly it. */
  lemma DecodeOneEncodeChar(c: char, rest: string)
    ensures DecodeOne(EncodeChar(c) + rest) == Some((c, |EncodeChar(c)|))
  {
    if !UriUnreserved(c) {
      DecodeOnePercentUtf8(c, rest);
    }
  }

  lemma DecodeTwo(c: char, t: string)
    requires |Utf8(c)| == 2 && t != [] && t[0] == '%'
    requires ByteAt(t, 0) == Some(Utf8(c)[0]) && ByteAt(t, 3) == Some(Utf8(c)[1])
    ensures DecodeOne(t) == Some((c, 6))
  {
    var n := c as int;
    DivMod64(n);
    assert ContinuationAt(t, 3) == Some(n % 64);
  }

  lemma DecodeThree(c: char, t: string)
    requires |Utf8(c)| == 3 && t != [] && t[0] == '%'
    requires ByteAt(t, 0) == Some(Utf8(c)[0]) && ByteAt(t, 3) == Some(Utf8(c)[1])
    requires ByteAt(t, 6) == Some(Utf8(c)[2])
    ensures DecodeOne(t) == Some((c, 9))
  {
    var n := c as int;
    var a := n / 64;
    DivMod64(n);
    DivMod64(a);
    assert ContinuationAt(t, 3) == Some(a % 64);
    assert ContinuationAt(t, 6) == Some(n % 64);
  }

  lemma DecodeFour(c: char, t: string)
    requires |Utf8(c)| == 4 && t != [] && t[0] == '%'
    requires ByteAt(t, 0) == Some(Utf8(c)[0]) && ByteAt(t, 3) == Some(Utf8(c)[1])
    requires ByteAt(t, 6) == Some(Utf8(c)[2]) && ByteAt(t, 9) == Some(Utf8(c)[3])
    ensures DecodeOne(t) == Some((c, 12))
  {
    var n := c as int;
    var a := n / 64;
    var b := a / 64;
    DivMod64(n);
    DivMod64(a);
    DivMod64(b);
    assert ContinuationAt(t, 3) == Some(b % 64);
    assert ContinuationAt(t, 6) == Some(a % 64);
    assert ContinuationAt(t, 9) == Some(n % 64);
  }

  /** `decodeURIComponent(encodeURIComponent(s)) === s` for every string. */
  lemma {:induction false} UriComponentRoundTrip(s: string)
    ensures DecodeUriComponent(EncodeUriComponent(s)) == Some(s)
  {
    if s != [] {
      var e := EncodeChar(s[0]);
      var rest := EncodeUriComponent(s[1..]);
      DecodeOneEncodeChar(s[0], rest);
      assert (e + rest)[|e|..] == rest;
      UriComponentRoundTrip(s[1..]);
      assert [s[0]] + s[1..] == s;
    }
  }

  /** One character as the form-urlencoded serializer writes it: a space as `+`. */
  function FormEncodeChar(c: char): (r: string)
    ensures r != []
    ensures forall i :: 0 <= i < |r| ==> FormSafe(r[i]) || r[i] == '%' || r[i] == '+'
    ensures c == ' ' <==> r == "+"
    ensures FormSafe(c) ==> r == [c]
    ensures !FormSafe(c) && c != ' ' ==> r == PercentBytes(Utf8(c))
  {
    if FormSafe(c) then [c]
    else if c == ' ' then "+"
    else PercentBytesAlphabet(Utf8(c)); PercentBytes(Utf8(c))
  }

  /**
   * The form-urlencoded serialization of one name or value. The result holds
   * no raw `&`, `=` or `#`, so serialized pairs cannot run into each other.
   */
  function FormEncode(s: string): (r: string)
    ensures forall i :: 0 <= i < |r| ==> FormSafe(r[i]) || r[i] == '%' || r[i] == '+'
    ensures s == [] <==> r == []
  {
    if s == [] then "" else FormEncodeChar(s[0]) + FormEncode(s[1..])
  }

  /** One character of a form-urlencoded name or value: `+` is a space, anything else as `decodeURIComponent` reads it. */
  function FormDecodeOne(t: string): (r: Option<(char, nat)>)
    requires t != []
    ensures r.Some? ==> 1 <= r.value.1 <= |t|
  {
    if t[0] == '+' then Some((' ', 1)) else DecodeOne(t)
  }

  /**
   * The application/x-www-form-urlencoded parser's reading of a name or value.
   * That parser puts U+FFFD in place of bytes that are not UTF-8, where this
   * function gives None; the two agree on every text `FormEncode` writes.
   */
  function FormDecode(t: string): (r: Option<string>)
    decreases |t|
  {
    if t == [] then Some("")
    else match FormDecodeOne(t)
      case None => None
      case Some((c, k)) =>
        match FormDecode(t[k..])
        case None => None
        case Some(rest) => Some([c] + rest)
  }

  lemma FormDecodeOneEncodeChar(c: char, rest: string)
    ensures FormDecodeOne(FormEncodeChar(c) + rest) == Some((c, |FormEncodeChar(c)|))
  {
    if !FormSafe(c) && c != ' ' {
      DecodeOnePercentUtf8(c, rest);
    }
  }

  /** Reading a form-encoded text back gives the original, so distinct names stay distinct once encoded. */
  lemma {:induction false} FormRoundTrip(s: string)
    ensures FormDecode(FormEncode(s)) == Some(s)
  {
    if s != [] {
      var e := FormEncodeChar(s[0]);
      var rest := FormEncode(s[1..]);
      FormDecodeOneEncodeChar(s[0], rest);
      assert (e + rest)[|e|..] == rest;
      FormRoundTrip(s[1..]);
      assert [s[0]] + s[1..] == s;
    }
  }

  lemma FormEncodeInjective(a: string, b: string)
    requires FormEncode(a) == FormEncode(b)
    ensures a == b
  {
    FormRoundTrip(a);
    FormRoundTrip(b);
  }

  /**
   * The percent-encode sets of the WHATWG URL standard used for the path, the
   * query of a special-scheme URL and the fragment. Each holds the C0 controls
   * and every code point above U+007E.
   */
  datatype EncodeSet = PathSet | QuerySet | FragmentSet

  predicate InEncodeSet(c: char, which: EncodeSet)
  {
    || c as int < 0x20 || c as int > 0x7E || c == ' ' || c == '"' || c == '<' || c == '>'
    || (which.PathSet? && (c == '#' || c == '?' || c == '`' || c == '{' || c == '}'))
    || (which.QuerySet? && (c == '#' || c == '\''))
    || (which.FragmentSet? && c == '`')
  }

  predicate FreeOf(s: string, which: EncodeSet)
  {
    forall i :: 0 <= i < |s| ==> !InEncodeSet(s[i], which)
  }

  /** Percent-encodes the characters of `s` that are in `which` and keeps the others. */
  function EncodeWith(s: string, which: EncodeSet): (r: string)
    ensures FreeOf(r, which)
    ensures FreeOf(s, which) ==> r == s
  {
    if s == [] then ""
    else
      var head := if InEncodeSet(s[0], which) then PercentBytes(Utf8(s[0])) else [s[0]];
      assert FreeOf(head, which) by { PercentBytesAlphabet(Utf8(s[0])); }
      head + EncodeWith(s[1..], which)
  }

  /**
   * Encoding works character by character: a character of the set becomes the
   * `%XX` form of its UTF-8 bytes, any other character stays, and the encoding
   * of a join is the join of the encodings.
   */
  lemma {:induction false} EncodeWithConcat(a: string, b: string, which: EncodeSet)
    ensures EncodeWith(a + b, which) == EncodeWith(a, which) + EncodeWith(b, which)
    ensures |a| == 1 ==> EncodeWith(a, which) == if InEncodeSet(a[0], which) then PercentBytes(Utf8(a[0])) else a
    decreases |a|
  {
    if a == [] {
      assert a + b == b;
    } else {
      assert (a + b)[1..] == a[1..] + b;
      EncodeWithConcat(a[1..], b, which);
    }
  }

  /** Percent-decoding an encoded text without `%` gives it back: encoding loses nothing. */
  lemma {:induction false} EncodeWithDecodes(s: string, which: EncodeSet)
    requires '%' !in s
    ensures DecodeUriComponent(EncodeWith(s, which)) == Some(s)
  {
    if s != [] {
      var head := if InEncodeSet(s[0], which) then PercentBytes(Utf8(s[0])) else [s[0]];
      var rest := EncodeWith(s[1..], which);
      assert EncodeWith(s, which) == head + rest;
      if InEncodeSet(s[0], which) {
        DecodeOnePercentUtf8(s[0], rest);
      }
      assert (head + rest)[|head|..] == rest;
      assert '%' !in s[1..];
      EncodeWithDecodes(s[1..], which);
      assert [s[0]] + s[1..] == s;
    }
  }

  /** Encoding an already encoded string changes nothing. */
  lemma EncodeWithIdempotent(s: string, which: EncodeSet)
    ensures EncodeWith(EncodeWith(s, which), which) == EncodeWith(s, which)
  {
  }
}
