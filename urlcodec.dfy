/** Text encodings the payment code relies on: UTF-8 (RFC 3629), JavaScript's
    encodeURIComponent and decodeURIComponent (percent-encoding as in section
    2.1 of RFC 3986), the `%20` to `+` rewrite applied to parameter values, the
    lower-case hex digest, and the query a URL object reports in `search`. */
module UrlCodec {
  import opened Js

  type byte = x: int | 0 <= x < 256

  // ---------------------------------------------------------------- UTF-8

  /** The UTF-8 encoding of one code point (section 3 of RFC 3629). */
  function Utf8Char(c: char): (bs: seq<byte>)
    ensures 1 <= |bs| <= 4
    ensures |bs| == 1 <==> c as int < 0x80
    ensures bs[0] == 0x20 <==> c == ' '
    ensures forall k :: 1 <= k < |bs| ==> 0x80 <= bs[k] < 0xC0
  {
    var cp := c as int;
    if cp < 0x80 then [cp]
    else if cp < 0x800 then [0xC0 + cp / 64, 0x80 + cp % 64]
    else if cp < 0x10000 then [0xE0 + cp / 4096, 0x80 + cp / 64 % 64, 0x80 + cp % 64]
    else [0xF0 + cp / 262144, 0x80 + cp / 4096 % 64, 0x80 + cp / 64 % 64, 0x80 + cp % 64]
  }

  /** The UTF-8 encoding of a string, as `Buffer.from(s, 'utf-8')` gives it. */
  function Utf8(s: string): seq<byte> {
    if s == [] then [] else Utf8Char(s[0]) + Utf8(s[1..])
  }

  /** How many bytes a sequence starting with this lead byte has; 0 when the
      byte cannot start one. */
  function Utf8Length(lead: byte): nat {
    if lead < 0x80 then 1
    else if 0xC0 <= lead < 0xE0 then 2
    else if 0xE0 <= lead < 0xF0 then 3
    else if 0xF0 <= lead < 0xF8 then 4
    else 0
  }

  predicate Continuation(b: byte) {
    0x80 <= b < 0xC0
  }

  /** The code point one complete byte sequence encodes, or None when the
      sequence is malformed, overlong, a surrogate or beyond U+10FFFF. */
  function Utf8DecodeChar(bs: seq<byte>): (r: Option<char>)
    ensures r.Some? ==> |bs| >= 1 && |bs| == Utf8Length(bs[0])
  {
    if |bs| == 0 || |bs| != Utf8Length(bs[0]) then None
    else if |bs| == 1 then Some(bs[0] as char)
    else if |bs| == 2 then
      if !Continuation(bs[1]) then None
      else
        var cp := (bs[0] as int - 0xC0) * 64 + (bs[1] as int - 0x80);
        if cp < 0x80 then None else Some(cp as char)
    else if |bs| == 3 then
      if !Continuation(bs[1]) || !Continuation(bs[2]) then None
      else
        var cp := (bs[0] as int - 0xE0) * 4096 + (bs[1] as int - 0x80) * 64 + (bs[2] as int - 0x80);
        if cp < 0x800 || 0xD800 <= cp < 0xE000 then None else Some(cp as char)
    else
      if !Continuation(bs[1]) || !Continuation(bs[2]) || !Continuation(bs[3]) then None
      else
        var cp := (bs[0] as int - 0xF0) * 262144 + (bs[1] as int - 0x80) * 4096 + (bs[2] as int - 0x80) * 64
                  + (bs[3] as int - 0x80);
        if cp < 0x10000 || cp > 0x10FFFF then None else Some(cp as char)
  }

  lemma Split64(cp: int)
    requires cp >= 0
    ensures cp == cp / 64 * 64 + cp % 64
    ensures cp / 64 == cp / 4096 * 64 + cp / 64 % 64
    ensures cp / 4096 == cp / 262144 * 64 + cp / 4096 % 64
  {
  }

  /** Decoding undoes the encoding of every code point. */
  lemma Utf8CharRoundTrip(c: char)
    ensures |Utf8Char(c)| == Utf8Length(Utf8Char(c)[0])
    ensures Utf8DecodeChar(Utf8Char(c)) == Some(c)
  {
    var cp := c as int;
    Split64(cp);
    if cp >= 0x10000 {
      assert cp == (cp / 262144 * 64 + cp / 4096 % 64) * 4096 + cp / 64 % 64 * 64 + cp % 64;
    } else if cp >= 0x800 {
      assert cp == cp / 4096 * 4096 + cp / 64 % 64 * 64 + cp % 64;
    }
  }

  // ---------------------------------------------------------------- hex

  function HexUpper(d: int): (c: char)
    requires 0 <= d < 16
  {
    if d < 10 then ('0' as int + d) as char else ('A' as int + d - 10) as char
  }

  function HexLower(d: int): (c: char)
    requires 0 <= d < 16
  {
    if d < 10 then ('0' as int + d) as char else ('a' as int + d - 10) as char
  }

  /** The value of a hex digit of either case. */
  function HexValue(c: char): Option<int> {
    if '0' <= c <= '9' then Some(c as int - '0' as int)
    else if 'A' <= c <= 'F' then Some(c as int - 'A' as int + 10)
    else if 'a' <= c <= 'f' then Some(c as int - 'a' as int + 10)
    else None
  }

  lemma HexDigits(d: int)
    requires 0 <= d < 16
    ensures HexValue(HexUpper(d)) == Some(d) && HexValue(HexLower(d)) == Some(d)
  {
  }

  /** `digest('hex')`: two lower-case hex digits per byte. */
  function HexDigest(bs: seq<byte>): (s: string)
    ensures |s| == 2 * |bs|
  {
    if bs == [] then "" else [HexLower(bs[0] / 16), HexLower(bs[0] % 16)] + HexDigest(bs[1..])
  }

  /** Reading a digest back gives its bytes: distinct digests come from
      distinct byte strings. */
  function ReadHex(s: string): Option<seq<byte>>
    decreases |s|
  {
    if |s| < 2 then (if s == [] then Some([]) else None)
    else match (HexValue(s[0]), HexValue(s[1]), ReadHex(s[2..]))
      case (Some(h), Some(l), Some(rest)) => Some([h * 16 + l] + rest)
      case _ => None
  }

  lemma {:induction false} HexDigestRoundTrip(bs: seq<byte>)
    ensures ReadHex(HexDigest(bs)) == Some(bs)
  {
    if bs != [] {
      HexDigestRoundTrip(bs[1..]);
      HexDigits(bs[0] / 16);
      HexDigits(bs[0] % 16);
      assert HexDigest(bs)[2..] == HexDigest(bs[1..]);
      assert [bs[0]] + bs[1..] == bs;
    }
  }

  // ---------------------------------------------------------------- percent-encoding

  /** The characters encodeURIComponent leaves as they are. */
  predicate Unreserved(c: char) {
    || 'A' <= c <= 'Z' || 'a' <= c <= 'z' || '0' <= c <= '9'
    || c == '-' || c == '_' || c == '.' || c == '!' || c == '~' || c == '*' || c == '\'' || c == '(' || c == ')'
  }

  /** `%XY` for each byte, upper-case hex. */
  function PercentBytes(bs: seq<byte>): (s: string)
    ensures |s| == 3 * |bs|
  {
    if bs == [] then "" else ['%', HexUpper(bs[0] / 16), HexUpper(bs[0] % 16)] + PercentBytes(bs[1..])
  }

  function EncodeChar(c: char): string {
    if Unreserved(c) then [c] else PercentBytes(Utf8Char(c))
  }

  /** encodeURIComponent. (A lone surrogate, on which it throws, is not a
      `char` here.) */
  function EncodeURIComponent(s: string): string {
    if s == [] then "" else EncodeChar(s[0]) + EncodeURIComponent(s[1..])
  }

  /** The byte the escape `%XY` at position i stands for. */
  function EscapedByte(s: string, i: nat): Option<byte> {
    if i + 3 <= |s| && s[i] == '%' then
      match (HexValue(s[i + 1]), HexValue(s[i + 2]))
      case (Some(h), Some(l)) => Some(h * 16 + l)
      case _ => None
    else None
  }

  /** The bytes of the first n escapes of s, when s starts with n of them. */
  function EscapedBytes(s: string, n: nat): (r: Option<seq<byte>>)
    ensures r.Some? ==> |r.value| == n && 3 * n <= |s|
    decreases n
  {
    if n == 0 then Some([])
    else match EscapedByte(s, 0)
      case None => None
      case Some(b) =>
        match EscapedBytes(s[3..], n - 1)
        case None => None
        case Some(rest) => Some([b] + rest)
  }

  function Prepend(c: char, r: Option<string>): Option<string> {
    match r
    case None => None
    case Some(s) => Some([c] + s)
  }

  /** decodeURIComponent; None where it throws URIError (a malformed escape or
      byte sequence). */
  function DecodeURIComponent(s: string): Option<string>
    decreases |s|
  {
    if s == [] then Some("")
    else if s[0] != '%' then Prepend(s[0], DecodeURIComponent(s[1..]))
    else match EscapedByte(s, 0)
      case None => None
      case Some(lead) =>
        var n := Utf8Length(lead);
        if n == 0 then None
        else match EscapedBytes(s, n)
          case None => None
          case Some(bs) =>
            match Utf8DecodeChar(bs)
            case None => None
            case Some(c) => Prepend(c, DecodeURIComponent(s[3 * n..]))
  }

  lemma {:induction false} EscapedPercentBytes(bs: seq<byte>, rest: string)
    ensures EscapedBytes(PercentBytes(bs) + rest, |bs|) == Some(bs)
  {
    if bs != [] {
      var s := PercentBytes(bs) + rest;
      HexDigits(bs[0] / 16);
      HexDigits(bs[0] % 16);
      assert s[3..] == PercentBytes(bs[1..]) + rest;
      EscapedPercentBytes(bs[1..], rest);
      assert [bs[0]] + bs[1..] == bs;
    }
  }

  lemma DecodeEncodedChar(c: char, rest: string)
    ensures DecodeURIComponent(EncodeChar(c) + rest) == Prepend(c, DecodeURIComponent(rest))
  {
    var s := EncodeChar(c) + rest;
    if Unreserved(c) {
      assert s[1..] == rest;
    } else {
      var bs := Utf8Char(c);
      Utf8CharRoundTrip(c);
      EscapedPercentBytes(bs, rest);
      HexDigits(bs[0] / 16);
      HexDigits(bs[0] % 16);
      assert EscapedByte(s, 0) == Some(bs[0]);
      assert s[3 * |bs|..] == rest;
    }
  }

  /** decodeURIComponent undoes encodeURIComponent. */
  lemma {:induction false} UriComponentRoundTrip(s: string)
    ensures DecodeURIComponent(EncodeURIComponent(s)) == Some(s)
  {
    if s != [] {
      UriComponentRoundTrip(s[1..]);
      DecodeEncodedChar(s[0], EncodeURIComponent(s[1..]));
      assert [s[0]] + s[1..] == s;
    }
  }

  // ---------------------------------------------------------------- form values

  /** `s.replace(/%20/g, '+')`. */
  function ReplaceSpaceCode(s: string): string {
    if |s| >= 3 && s[..3] == "%20" then "+" + ReplaceSpaceCode(s[3..])
    else if s == [] then ""
    else [s[0]] + ReplaceSpaceCode(s[1..])
  }

  /** What sortObject stores for a value: `encodeURIComponent(v).replace(/%20/g, '+')`. */
  function FormEncode(s: string): string {
    ReplaceSpaceCode(EncodeURIComponent(s))
  }

  /** The reference reading of FormEncode: each space becomes `+`, every other
      character is encoded as encodeURIComponent encodes it. */
  function FormChar(c: char): string {
    if c == ' ' then "+" else EncodeChar(c)
  }

  function FormChars(s: string): string {
    if s == [] then "" else FormChar(s[0]) + FormChars(s[1..])
  }

  lemma Associative(a: string, b: string, c: string)
    ensures a + (b + c) == (a + b) + c
  {
  }

  /** An escape other than `%20` passes through the rewrite unchanged. */
  lemma ReplaceSkipsTriple(h: char, l: char, tail: string)
    requires h != '%' && l != '%' && !(h == '2' && l == '0')
    ensures ReplaceSpaceCode(['%', h, l] + tail) == ['%', h, l] + ReplaceSpaceCode(tail)
  {
    var s := ['%', h, l] + tail;
    assert s[..3] != "%20" by {
      assert s[..3][1] == h && s[..3][2] == l;
      assert "%20"[1] == '2' && "%20"[2] == '0';
    }
    var s1, s2 := [h, l] + tail, [l] + tail;
    assert s[1..] == s1 && s1[1..] == s2 && s2[1..] == tail;
    assert s1[0] != '%' && s2[0] != '%';
    assert ReplaceSpaceCode(s2) == [l] + ReplaceSpaceCode(tail);
    assert ReplaceSpaceCode(s1) == [h] + ReplaceSpaceCode(s2);
    assert ReplaceSpaceCode(s) == ['%'] + ReplaceSpaceCode(s1);
  }

  lemma EscapeOfSpace(b: byte)
    requires HexUpper(b / 16) == '2' && HexUpper(b % 16) == '0'
    ensures b == 0x20
  {
  }

  lemma {:induction false} ReplaceSkipsEscapes(bs: seq<byte>, rest: string)
    requires forall k :: 0 <= k < |bs| ==> bs[k] != 0x20
    ensures ReplaceSpaceCode(PercentBytes(bs) + rest) == PercentBytes(bs) + ReplaceSpaceCode(rest)
  {
    if bs != [] {
      var h, l := HexUpper(bs[0] / 16), HexUpper(bs[0] % 16);
      var head, more := ['%', h, l], PercentBytes(bs[1..]);
      assert PercentBytes(bs) == head + more;
      assert PercentBytes(bs) + rest == head + (more + rest);
      if h == '2' && l == '0' {
        EscapeOfSpace(bs[0]);
      }
      ReplaceSkipsTriple(h, l, more + rest);
      assert forall k :: 0 <= k < |bs[1..]| ==> bs[1..][k] == bs[k + 1];
      ReplaceSkipsEscapes(bs[1..], rest);
      Associative(head, more, ReplaceSpaceCode(rest));
    } else {
      assert PercentBytes(bs) + rest == rest;
    }
  }

  lemma ReplaceAfterChar(c: char, rest: string)
    ensures ReplaceSpaceCode(EncodeChar(c) + rest) == FormChar(c) + ReplaceSpaceCode(rest)
  {
    var s := EncodeChar(c) + rest;
    if c == ' ' {
      assert EncodeChar(c) == "%20";
      assert s[3..] == rest;
    } else if Unreserved(c) {
      assert s[1..] == rest;
    } else {
      ReplaceSkipsEscapes(Utf8Char(c), rest);
    }
  }

  /** FormEncode agrees with its character-by-character reading. */
  lemma {:induction false} FormEncodeByChar(s: string)
    ensures FormEncode(s) == FormChars(s)
  {
    if s != [] {
      FormEncodeByChar(s[1..]);
      ReplaceAfterChar(s[0], EncodeURIComponent(s[1..]));
    }
  }

  /** The characters an encoded value can hold. */
  predicate FormSafe(t: string) {
    forall i :: 0 <= i < |t| ==> Unreserved(t[i]) || t[i] == '%' || t[i] == '+'
  }

  lemma {:induction false} PercentBytesSafe(bs: seq<byte>)
    ensures FormSafe(PercentBytes(bs))
  {
    if bs != [] {
      PercentBytesSafe(bs[1..]);
      var head := ['%', HexUpper(bs[0] / 16), HexUpper(bs[0] % 16)];
      assert FormSafe(head);
      assert PercentBytes(bs) == head + PercentBytes(bs[1..]);
    }
  }

  lemma {:induction false} FormCharsSafe(s: string)
    ensures FormSafe(FormChars(s))
  {
    if s != [] {
      FormCharsSafe(s[1..]);
      if !(s[0] == ' ' || Unreserved(s[0])) {
        PercentBytesSafe(Utf8Char(s[0]));
      }
    }
  }

  /** An encoded value holds only unreserved characters, `%` and `+`: in
      particular no `&`, `=`, `?` or `#`, so it cannot split a query. */
  lemma FormEncodeSafe(s: string)
    ensures FormSafe(FormEncode(s))
    ensures '&' !in FormEncode(s) && '=' !in FormEncode(s) && '?' !in FormEncode(s) && '#' !in FormEncode(s)
  {
    FormEncodeByChar(s);
    FormCharsSafe(s);
  }

  lemma {:induction false} PercentBytesNoApostrophe(bs: seq<byte>)
    ensures '\'' !in PercentBytes(bs)
  {
    if bs != [] {
      PercentBytesNoApostrophe(bs[1..]);
      var head := ['%', HexUpper(bs[0] / 16), HexUpper(bs[0] % 16)];
      assert PercentBytes(bs) == head + PercentBytes(bs[1..]);
    }
  }

  lemma {:induction false} FormCharsNoApostrophe(s: string)
    requires '\'' !in s
    ensures '\'' !in FormChars(s)
  {
    if s != [] {
      FormCharsNoApostrophe(s[1..]);
      PercentBytesNoApostrophe(Utf8Char(s[0]));
    }
  }

  // ---------------------------------------------------------------- URL search

  /** The special-query percent-encode set of the WHATWG URL parser: controls,
      space, `"`, `#`, `<`, `>`, `'` and everything beyond U+007E. */
  predicate QueryEscaped(c: char) {
    c as int < 0x21 || c as int > 0x7E || c == '"' || c == '#' || c == '<' || c == '>' || c == '\''
  }

  function QueryEncode(s: string): string {
    if s == [] then ""
    else (if QueryEscaped(s[0]) then PercentBytes(Utf8Char(s[0])) else [s[0]]) + QueryEncode(s[1..])
  }

  /** `new URL(url).search.slice(1)`: the text after the first `?` up to any
      `#`, with the special-query set percent-encoded. The URL parser also
      removes leading and trailing C0 controls and spaces, and every ASCII tab
      and newline, before this. That step is not modelled: a serialized request
      URL holds none of these characters. */
  function SearchOf(url: string): string {
    var base := match IndexOf(url, '#') case None => url case Some(h) => url[..h];
    match IndexOf(base, '?')
    case None => ""
    case Some(q) => QueryEncode(base[q + 1..])
  }

  /** The parser leaves a query with no character of the set as it is. */
  lemma {:induction false} QueryEncodeKeeps(s: string)
    requires forall i :: 0 <= i < |s| ==> !QueryEscaped(s[i])
    ensures QueryEncode(s) == s
  {
    if s != [] {
      QueryEncodeKeeps(s[1..]);
    }
  }

  /** An apostrophe, which encodeURIComponent keeps, is escaped by the parser. */
  lemma ApostropheEscaped()
    ensures QueryEncode("'") == "%27"
  {
    assert Utf8Char('\'') == [0x27];
    assert PercentBytes([0x27]) == ['%', HexUpper(2), HexUpper(7)];
  }

  /** A value without an apostrophe encodes to text the URL parser keeps as it
      is, with no `&` or `=` to split on. */
  lemma FormEncodeQuerySafe(s: string)
    requires '\'' !in s
    ensures forall i :: 0 <= i < |FormEncode(s)| ==>
      !QueryEscaped(FormEncode(s)[i]) && FormEncode(s)[i] != '&' && FormEncode(s)[i] != '='
  {
    FormEncodeSafe(s);
    FormEncodeByChar(s);
    FormCharsNoApostrophe(s);
  }
}
