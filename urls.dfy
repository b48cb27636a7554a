/**
 * `encodeURIComponent`, which the dashboard applies to the search term,
 * and the way a route reads a query parameter back
 * (`new URL(url).searchParams.get(name)`): the query is cut into
 * `&`-separated pairs, each pair at its first `=`, and each part is
 * percent-decoded to bytes and decoded as UTF-8. Encoding and decoding are
 * inverse, so the route receives the term the page sent.
 */
module Urls {
  import opened Wrappers
  import opened Strings
  import Sequences

  type Byte = b: int | 0 <= b < 256

  /** The characters `encodeURIComponent` leaves as they are. */
  predicate Unreserved(c: char) {
    || ('A' <= c <= 'Z') || ('a' <= c <= 'z') || ('0' <= c <= '9')
    || c == '-' || c == '_' || c == '.' || c == '!' || c == '~' || c == '*' || c == '\'' || c == '(' || c == ')'
  }

  /** The UTF-8 encoding of one Unicode scalar value. */
  function Utf8(c: char): (bs: seq<Byte>)
    ensures 1 <= |bs| <= 4
  {
    var n := c as int;
    if n < 0x80 then [n]
    else if n < 0x800 then [0xC0 + n / 64, 0x80 + n % 64]
    else if n < 0x10000 then [0xE0 + n / 4096, 0x80 + (n / 64) % 64, 0x80 + n % 64]
    else [0xF0 + n / 262144, 0x80 + (n / 4096) % 64, 0x80 + (n / 64) % 64, 0x80 + n % 64]
  }

  /** An upper-case hexadecimal digit. */
  function HexDigit(d: nat): char
    requires d < 16
  {
    "0123456789ABCDEF"[d]
  }

  predicate IsHex(c: char) {
    ('0' <= c <= '9') || ('A' <= c <= 'F') || ('a' <= c <= 'f')
  }

  function HexValue(c: char): (d: nat)
    requires IsHex(c)
    ensures d < 16
  {
    if '0' <= c <= '9' then c as int - '0' as int
    else if 'A' <= c <= 'F' then c as int - 'A' as int + 10
    else c as int - 'a' as int + 10
  }

  /** `%XY` for each byte. */
  function PercentBytes(bs: seq<Byte>): (s: string)
    ensures |s| == 3 * |bs|
  {
    if bs == [] then [] else ['%', HexDigit(bs[0] / 16), HexDigit(bs[0] % 16)] + PercentBytes(bs[1..])
  }

  function EncodeChar(c: char): string {
    if Unreserved(c) then [c] else PercentBytes(Utf8(c))
  }

  /** `encodeURIComponent(s)`. */
  function EncodeURIComponent(s: string): string {
    if s == [] then [] else EncodeChar(s[0]) + EncodeURIComponent(s[1..])
  }

  /** A character that can appear in the output of `encodeURIComponent`. */
  predicate Encoded(c: char) {
    Unreserved(c) || c == '%'
  }

  /** The encoding is made of unreserved characters and `%` escapes only. */
  lemma {:induction false} EncodedCharacters(s: string)
    ensures forall i | 0 <= i < |EncodeURIComponent(s)| :: Encoded(EncodeURIComponent(s)[i])
  {
    if s != [] {
      EncodedCharacters(s[1..]);
      if !Unreserved(s[0]) {
        PercentBytesCharacters(Utf8(s[0]));
      }
      AllOfConcat(EncodeChar(s[0]), EncodeURIComponent(s[1..]), Encoded);
    }
  }

  lemma {:induction false} PercentBytesCharacters(bs: seq<Byte>)
    ensures forall i | 0 <= i < |PercentBytes(bs)| :: Encoded(PercentBytes(bs)[i])
  {
    if bs != [] {
      PercentBytesCharacters(bs[1..]);
      var escape := ['%', HexDigit(bs[0] / 16), HexDigit(bs[0] % 16)];
      HexDigitValue(bs[0] / 16);
      HexDigitValue(bs[0] % 16);
      assert forall i | 0 <= i < 3 :: Encoded(escape[i]);
      AllOfConcat(escape, PercentBytes(bs[1..]), Encoded);
    }
  }

  /** A property of every element of two sequences holds of every element of their concatenation. */
  lemma AllOfConcat<T>(a: seq<T>, b: seq<T>, p: T -> bool)
    requires forall i | 0 <= i < |a| :: p(a[i])
    requires forall i | 0 <= i < |b| :: p(b[i])
    ensures forall i | 0 <= i < |a + b| :: p((a + b)[i])
  {
    forall i | 0 <= i < |a + b| ensures p((a + b)[i]) {
      if i >= |a| {
        assert (a + b)[i] == b[i - |a|];
      }
    }
  }

  /** The UTF-8 encoding of a whole string. */
  function Utf8String(s: string): seq<Byte> {
    if s == [] then [] else Utf8(s[0]) + Utf8String(s[1..])
  }

  /** A byte that is the ASCII code of a hexadecimal digit. */
  predicate IsHexByte(b: Byte) {
    IsHex(b as char)
  }
  function HexByteValue(b: Byte): nat
    requires IsHexByte(b)
    ensures HexByteValue(b) < 16
  {
    HexValue(b as char)
  }

  /** `bs` starts with `%` and two hex digits. */
  predicate EscapeAt(bs: seq<Byte>) {
    |bs| >= 3 && bs[0] == '%' as int && IsHexByte(bs[1]) && IsHexByte(bs[2])
  }

  /** The byte an escape at the start of `bs` stands for. */
  function EscapeValue(bs: seq<Byte>): Byte
    requires EscapeAt(bs)
  {
    HexByteValue(bs[1]) * 16 + HexByteValue(bs[2])
  }

  /** Percent-decoding of bytes: `%` and two hex digits give one byte, every other byte stays. */
  function DecodeEscapes(bs: seq<Byte>): seq<Byte> {
    if bs == [] then []
    else if EscapeAt(bs) then [EscapeValue(bs)] + DecodeEscapes(bs[3..])
    else [bs[0]] + DecodeEscapes(bs[1..])
  }

  /** WHATWG percent-decoding of a string: its UTF-8 bytes, with the escapes decoded. */
  function PercentDecode(s: string): seq<Byte> {
    DecodeEscapes(Utf8String(s))
  }

  /** The number of bytes a UTF-8 sequence with this first byte has, 0 if none. */
  function SequenceLength(b: Byte): nat {
    if b < 0x80 then 1
    else if 0xC2 <= b < 0xE0 then 2
    else if 0xE0 <= b < 0xF0 then 3
    else if 0xF0 <= b < 0xF5 then 4
    else 0
  }

  /** The code point a lead byte and its continuation bytes stand for. */
  function Assemble(bs: seq<Byte>): int
    requires 1 <= |bs| <= 4
  {
    match |bs|
    case 1 => bs[0] as int
    case 2 => (bs[0] as int - 0xC0) * 64 + (bs[1] as int - 0x80)
    case 3 => (bs[0] as int - 0xE0) * 4096 + (bs[1] as int - 0x80) * 64 + (bs[2] as int - 0x80)
    case 4 => (bs[0] as int - 0xF0) * 262144 + (bs[1] as int - 0x80) * 4096 + (bs[2] as int - 0x80) * 64 + (bs[3] as int - 0x80)
  }

  predicate IsScalar(n: int) {
    (0 <= n < 0xD800) || (0xE000 <= n < 0x110000)
  }

  /** The code point needs all `n` bytes: the shortest form, as the UTF-8 decoder of the URL standard demands. */
  predicate Shortest(cp: int, n: nat) {
    (n == 3 ==> 0x800 <= cp) && (n == 4 ==> 0x10000 <= cp)
  }

  /** UTF-8 decoding; `None` for a malformed sequence, an overlong form or a surrogate. */
  function DecodeUtf8(bs: seq<Byte>): Option<string>
    decreases |bs|
  {
    if bs == [] then Some([])
    else
      var n := SequenceLength(bs[0]);
      if n == 0 || |bs| < n then None
      else if exists k | 1 <= k < n :: !(0x80 <= bs[k] < 0xC0) then None
      else
        var cp := Assemble(bs[..n]);
        if !IsScalar(cp) || !Shortest(cp, n) then None
        else
          match DecodeUtf8(bs[n..])
          case None => None
          case Some(rest) => Some([cp as char] + rest)
  }

  /** The value a query parser makes of an encoded component (`+` aside). */
  function DecodeURIComponent(s: string): Option<string> {
    DecodeUtf8(PercentDecode(s))
  }

  /** Decoding gives back the encoded string. */
  lemma {:induction false} RoundTrip(s: string)
    ensures DecodeURIComponent(EncodeURIComponent(s)) == Some(s)
  {
    PercentDecodeOfEncoding(s);
    Utf8RoundTrip(s);
  }

  lemma {:induction false} PercentDecodeOfEncoding(s: string)
    ensures PercentDecode(EncodeURIComponent(s)) == Utf8String(s)
  {
    if s != [] {
      var c, rest := s[0], EncodeURIComponent(s[1..]);
      PercentDecodeOfEncoding(s[1..]);
      Utf8StringConcat(EncodeChar(c), rest);
      if Unreserved(c) {
        assert Utf8String([c]) == [c as int];
        assert ([c as int] + Utf8String(rest))[1..] == Utf8String(rest);
      } else {
        EscapesOfBytes(Utf8(c), Utf8String(rest));
      }
    }
  }

  lemma {:induction false} Utf8StringConcat(s: string, t: string)
    ensures Utf8String(s + t) == Utf8String(s) + Utf8String(t)
  {
    if s == [] {
      assert s + t == t;
    } else {
      calc {
        Utf8String(s + t);
        { assert (s + t)[0] == s[0] && (s + t)[1..] == s[1..] + t; }
        Utf8(s[0]) + Utf8String(s[1..] + t);
        { Utf8StringConcat(s[1..], t); }
        Utf8(s[0]) + (Utf8String(s[1..]) + Utf8String(t));
        (Utf8(s[0]) + Utf8String(s[1..])) + Utf8String(t);
      }
    }
  }

  /** An ASCII character is its own single byte. */
  lemma Utf8Ascii(c: char)
    requires c as int < 0x80
    ensures Utf8(c) == [c as int]
  {
  }

  /** The three bytes of the escape `%XY` of `b`. */
  function EscapeBytes(b: Byte): seq<Byte> {
    ['%' as int, HexDigit(b / 16) as int, HexDigit(b % 16) as int]
  }

  /** The bytes of the escapes of `bs`. */
  function EscapesOf(bs: seq<Byte>): seq<Byte> {
    if bs == [] then [] else EscapeBytes(bs[0]) + EscapesOf(bs[1..])
  }

  /** The bytes of the `%XY` escapes of `bs`, followed by anything, decode to `bs` first. */
  lemma {:induction false} EscapesOfBytes(bs: seq<Byte>, rest: seq<Byte>)
    ensures DecodeEscapes(Utf8String(PercentBytes(bs)) + rest) == bs + DecodeEscapes(rest)
  {
    Utf8OfPercentBytes(bs);
    DecodeEscapesOf(bs, rest);
  }

  lemma {:induction false} DecodeEscapesOf(bs: seq<Byte>, rest: seq<Byte>)
    ensures DecodeEscapes(EscapesOf(bs) + rest) == bs + DecodeEscapes(rest)
  {
    if bs == [] {
      assert EscapesOf(bs) + rest == rest;
    } else {
      DecodeFirstEscape(bs, rest);
      DecodeEscapesOf(bs[1..], rest);
      Uncons(bs, DecodeEscapes(rest));
    }
  }

  lemma DecodeFirstEscape(bs: seq<Byte>, rest: seq<Byte>)
    requires bs != []
    ensures DecodeEscapes(EscapesOf(bs) + rest) == [bs[0]] + DecodeEscapes(EscapesOf(bs[1..]) + rest)
  {
    var tail := EscapesOf(bs[1..]) + rest;
    Associative(EscapeBytes(bs[0]), EscapesOf(bs[1..]), rest);
    DecodeEscape(bs[0], tail);
  }

  lemma Uncons<T>(s: seq<T>, u: seq<T>)
    requires s != []
    ensures [s[0]] + (s[1..] + u) == s + u
  {
    assert s == [s[0]] + s[1..];
  }

  lemma Associative<T>(a: seq<T>, b: seq<T>, c: seq<T>)
    ensures (a + b) + c == a + (b + c)
  {
  }

  lemma {:induction false} Utf8OfPercentBytes(bs: seq<Byte>)
    ensures Utf8String(PercentBytes(bs)) == EscapesOf(bs)
  {
    if bs != [] {
      var b := bs[0];
      var escape := ['%', HexDigit(b / 16), HexDigit(b % 16)];
      assert PercentBytes(bs) == escape + PercentBytes(bs[1..]);
      Utf8StringConcat(escape, PercentBytes(bs[1..]));
      Utf8OfEscape(b);
      Utf8OfPercentBytes(bs[1..]);
    }
  }

  lemma Utf8OfEscape(b: Byte)
    ensures Utf8String(['%', HexDigit(b / 16), HexDigit(b % 16)]) == EscapeBytes(b)
  {
    var hi, lo := HexDigit(b / 16), HexDigit(b % 16);
    HexDigitValue(b / 16);
    HexDigitValue(b % 16);
    Utf8Ascii('%');
    Utf8Ascii(hi);
    Utf8Ascii(lo);
    assert ['%', hi, lo][1..] == [hi, lo];
    assert [hi, lo][1..] == [lo];
    assert Utf8String([lo]) == [lo as int];
    assert Utf8String([hi, lo]) == [hi as int, lo as int];
  }

  lemma DecodeEscape(b: Byte, tail: seq<Byte>)
    ensures DecodeEscapes(EscapeBytes(b) + tail) == [b] + DecodeEscapes(tail)
  {
    var e := EscapeBytes(b) + tail;
    HexDigitValue(b / 16);
    HexDigitValue(b % 16);
    assert e[1] as char == HexDigit(b / 16) && e[2] as char == HexDigit(b % 16);
    assert e[3..] == tail;
  }

  lemma HexDigitValue(d: nat)
    requires d < 16
    ensures IsHex(HexDigit(d)) && HexValue(HexDigit(d)) == d && HexDigit(d) as int < 0x80
  {
  }

  lemma {:induction false} Utf8RoundTrip(s: string)
    ensures DecodeUtf8(Utf8String(s)) == Some(s)
  {
    if s != [] {
      Utf8RoundTrip(s[1..]);
      DecodeOneChar(s[0], Utf8String(s[1..]));
      assert s == [s[0]] + s[1..];
    }
  }

  /** Decoding the bytes of one character reads exactly that character. */
  lemma DecodeOneChar(c: char, rest: seq<Byte>)
    ensures DecodeUtf8(Utf8(c) + rest) ==
      match DecodeUtf8(rest) case None => None case Some(r) => Some([c] + r)
  {
    var bs := Utf8(c) + rest;
    var n := |Utf8(c)|;
    Utf8Shape(c);
    assert bs[..n] == Utf8(c);
    assert bs[n..] == rest;
  }

  /** The lead byte announces the length, the others are continuation bytes, and they assemble to `c`. */
  lemma Utf8Shape(c: char)
    ensures SequenceLength(Utf8(c)[0]) == |Utf8(c)|
    ensures forall k | 1 <= k < |Utf8(c)| :: 0x80 <= Utf8(c)[k] < 0xC0
    ensures Assemble(Utf8(c)) == c as int
    ensures Shortest(c as int, |Utf8(c)|)
  {
    var n := c as int;
    if n < 0x80 {
    } else if n < 0x800 {
      assert n == 64 * (n / 64) + n % 64;
    } else if n < 0x10000 {
      var q := n / 64;
      assert n == 64 * q + n % 64;
      assert q == 64 * (q / 64) + q % 64;
      assert q / 64 == n / 4096;
    } else {
      var q := n / 64;
      var q2 := q / 64;
      assert n == 64 * q + n % 64;
      assert q == 64 * q2 + q % 64;
      assert q2 == 64 * (q2 / 64) + q2 % 64;
      assert q2 == n / 4096;
      assert q2 / 64 == n / 262144;
    }
  }

  /** A string `encodeURIComponent` leaves as it is. */
  lemma {:induction false} EncodeUnreserved(s: string)
    requires forall i | 0 <= i < |s| :: Unreserved(s[i])
    ensures EncodeURIComponent(s) == s
  {
    if s != [] {
      EncodeUnreserved(s[1..]);
      assert s == [s[0]] + s[1..];
    }
  }

  /** The part of `s` before the first `c`, and what follows that `c` if there is one. */
  function CutAt(s: string, c: char): (r: (string, Option<string>))
    ensures c !in r.0
    ensures r.1.None? ==> r.0 == s && c !in s
    ensures r.1.Some? ==> s == r.0 + [c] + r.1.value
  {
    if s == [] then ([], None)
    else if s[0] == c then ([], Some(s[1..]))
    else
      var r := CutAt(s[1..], c);
      ([s[0]] + r.0, r.1)
  }

  /** The query of a URL: after the first `?`, up to a `#`. */
  function QueryOf(url: string): string {
    match CutAt(url, '?').1
    case None => ""
    case Some(rest) => CutAt(rest, '#').0
  }

  /** `+` stands for a space in a query. */
  function PlusToSpace(s: string): string {
    if s == [] then [] else [if s[0] == '+' then ' ' else s[0]] + PlusToSpace(s[1..])
  }

  lemma {:induction false} PlusToSpaceWithoutPlus(s: string)
    requires '+' !in s
    ensures PlusToSpace(s) == s
  {
    if s != [] {
      PlusToSpaceWithoutPlus(s[1..]);
      assert s == [s[0]] + s[1..];
    }
  }

  /**
   * A decoded name or value. A component whose escapes are not well-formed
   * UTF-8 is left undecoded here, where the URL parser of the server would
   * put U+FFFD in place of each malformed sequence.
   */
  function FormDecode(s: string): string {
    match DecodeURIComponent(PlusToSpace(s))
    case Some(t) => t
    case None => s
  }

  function NonEmpty(s: string): bool {
    s != []
  }

  /** The `name=value` pairs of a query. */
  function Pairs(query: string): seq<string> {
    Sequences.Filter(Split(query, '&'), NonEmpty)
  }

  /** The value of the first pair whose decoded name is `name`. */
  function Lookup(pairs: seq<string>, name: string): Option<string> {
    if pairs == [] then None
    else
      var cut := CutAt(pairs[0], '=');
      if FormDecode(cut.0) == name then
        Some(FormDecode(match cut.1 case None => "" case Some(v) => v))
      else Lookup(pairs[1..], name)
  }

  /** `new URL(url).searchParams.get(name)`, `None` standing for `null`. */
  function SearchParam(url: string, name: string): Option<string> {
    Lookup(Pairs(QueryOf(url)), name)
  }

  /**
   * A URL made of a path without `?`, then `?name=` and an encoded value,
   * gives that value back for `name`.
   */
  lemma ReadBack(path: string, name: string, value: string)
    requires '?' !in path && name != []
    requires forall i | 0 <= i < |name| :: Unreserved(name[i])
    ensures SearchParam(path + "?" + name + "=" + EncodeURIComponent(value), name) == Some(value)
  {
    var enc := EncodeURIComponent(value);
    EncodedCharacters(value);
    assert '#' !in enc && '&' !in enc && '=' !in enc && '+' !in enc by {
      forall i | 0 <= i < |enc| ensures enc[i] != '#' && enc[i] != '&' && enc[i] != '=' && enc[i] != '+' {
        assert Encoded(enc[i]);
      }
    }
    assert '#' !in name && '&' !in name && '=' !in name && '+' !in name by {
      forall i | 0 <= i < |name| ensures name[i] != '#' && name[i] != '&' && name[i] != '=' && name[i] != '+' {
        assert Unreserved(name[i]);
      }
    }
    var pair := name + "=" + enc;
    assert path + "?" + name + "=" + enc == path + "?" + pair;
    QueryAfterPath(path, pair);
    OnePair(pair);
    CutAtFirst(name, '=', enc);
    assert pair == name + ['='] + enc;
    EncodeUnreserved(name);
    RoundTrip(name);
    PlusToSpaceWithoutPlus(name);
    RoundTrip(value);
    PlusToSpaceWithoutPlus(enc);
  }

  lemma QueryAfterPath(path: string, query: string)
    requires '?' !in path && '#' !in query
    ensures QueryOf(path + "?" + query) == query
  {
    CutAtFirst(path, '?', query);
    assert path + "?" + query == path + ['?'] + query;
    CutAtAbsent(query, '#');
  }

  lemma OnePair(pair: string)
    requires '&' !in pair && pair != []
    ensures Pairs(pair) == [pair]
  {
    SplitWithoutSeparator(pair, '&');
    assert Sequences.Filter([pair][1..], NonEmpty) == [];
  }

  /** A URL made of a path without `?` has no query parameters at all. */
  lemma NoQuery(path: string, name: string)
    requires '?' !in path
    ensures SearchParam(path, name) == None
  {
    CutAtAbsent(path, '?');
    assert Split("", '&') == [""];
  }

  lemma CutAtAbsent(s: string, c: char)
    requires c !in s
    ensures CutAt(s, c) == (s, None)
  {
  }

  lemma {:induction false} CutAtFirst(s: string, c: char, rest: string)
    requires c !in s
    ensures CutAt(s + [c] + rest, c) == (s, Some(rest))
  {
    if s == [] {
      assert s + [c] + rest == [c] + rest;
    } else {
      CutAtFirst(s[1..], c, rest);
      assert (s + [c] + rest)[0] == s[0];
      assert (s + [c] + rest)[1..] == s[1..] + [c] + rest;
      assert s == [s[0]] + s[1..];
    }
  }
}
