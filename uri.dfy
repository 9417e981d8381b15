/** `encodeURIComponent` and `decodeURIComponent` of ECMA-262 section 19.2.6
    ("URI Handling Functions"), which the forgot-password page uses to carry
    the address in the redirect's query string.

    Strings are sequences of Unicode scalar values here, so the lone
    surrogates for which `encodeURIComponent` throws cannot occur. */
module Uri {
  import opened Common

  /** An octet of a UTF-8 encoding. */
  type Byte = b: int | 0 <= b < 256

  /** The characters `encodeURIComponent` leaves alone: uriAlpha,
      DecimalDigit and uriMark. */
  predicate IsUnreserved(c: char) {
    || ('A' <= c <= 'Z') || ('a' <= c <= 'z') || ('0' <= c <= '9')
    || c == '-' || c == '_' || c == '.' || c == '!' || c == '~' || c == '*'
    || c == '\'' || c == '(' || c == ')'
  }

  /* ---------------------------------------------------------------------
     UTF-8
     --------------------------------------------------------------------- */

  /** The UTF-8 encoding of one scalar value. */
  function Utf8(c: char): (bytes: seq<Byte>)
    ensures 1 <= |bytes| <= 4
  {
    var cp := c as int;
    if cp < 0x80 then [cp]
    else if cp < 0x800 then [0xC0 + cp / 64, 0x80 + cp % 64]
    else if cp < 0x1_0000 then [0xE0 + cp / 4096, 0x80 + (cp / 64) % 64, 0x80 + cp % 64]
    else [0xF0 + cp / 262144, 0x80 + (cp / 4096) % 64, 0x80 + (cp / 64) % 64, 0x80 + cp % 64]
  }

  /** The length of the sequence a leading octet announces, 0 for an octet
      that cannot lead one. */
  function SequenceLength(b: Byte): nat {
    if b < 0x80 then 1
    else if 0xC0 <= b < 0xE0 then 2
    else if 0xE0 <= b < 0xF0 then 3
    else if 0xF0 <= b < 0xF8 then 4
    else 0
  }

  predicate IsContinuation(b: Byte) { 0x80 <= b < 0xC0 }

  /** The scalar value a well-formed sequence encodes; `None` for a broken
      sequence, an overlong form, a surrogate or a value past U+10FFFF,
      each of which makes `decodeURIComponent` throw. */
  function Utf8Decode(bytes: seq<Byte>): Option<char>
    requires 1 <= |bytes| <= 4 && SequenceLength(bytes[0]) == |bytes|
  {
    if exists k :: 1 <= k < |bytes| && !IsContinuation(bytes[k]) then None
    else
      var cp: int :=
        if |bytes| == 1 then bytes[0] as int
        else if |bytes| == 2 then (bytes[0] as int - 0xC0) * 64 + (bytes[1] as int - 0x80)
        else if |bytes| == 3 then (bytes[0] as int - 0xE0) * 4096 + (bytes[1] as int - 0x80) * 64 + (bytes[2] as int - 0x80)
        else (bytes[0] as int - 0xF0) * 262144 + (bytes[1] as int - 0x80) * 4096 + (bytes[2] as int - 0x80) * 64 + (bytes[3] as int - 0x80);
      var least: int := if |bytes| == 1 then 0 else if |bytes| == 2 then 0x80 else if |bytes| == 3 then 0x800 else 0x1_0000;
      if cp < least || (0xD800 <= cp < 0xE000) || cp >= 0x11_0000 then None
      else Some(cp as char)
  }

  lemma SplitBase64(x: int)
    requires x >= 0
    ensures x == (x / 64) * 64 + x % 64
    ensures (x / 64) / 64 == x / 4096 && (x / 4096) / 64 == x / 262144
  {
  }

  /** Decoding the UTF-8 encoding of a scalar value gives it back. */
  lemma Utf8RoundTrip(c: char)
    ensures SequenceLength(Utf8(c)[0]) == |Utf8(c)|
    ensures forall k :: 1 <= k < |Utf8(c)| ==> IsContinuation(Utf8(c)[k])
    ensures Utf8Decode(Utf8(c)) == Some(c)
  {
    var cp := c as int;
    var bytes := Utf8(c);
    SplitBase64(cp);
    SplitBase64(cp / 64);
    SplitBase64(cp / 4096);
  }

  /* ---------------------------------------------------------------------
     Percent escapes
     --------------------------------------------------------------------- */

  /** An uppercase hexadecimal digit. */
  function HexDigit(d: nat): (c: char)
    requires d < 16
  {
    if d < 10 then ('0' as int + d) as char else ('A' as int + d - 10) as char
  }

  /** The value of a hexadecimal digit of either case. */
  function HexValue(c: char): Option<nat> {
    if '0' <= c <= '9' then Some(c as int - '0' as int)
    else if 'A' <= c <= 'F' then Some(c as int - 'A' as int + 10)
    else if 'a' <= c <= 'f' then Some(c as int - 'a' as int + 10)
    else None
  }

  lemma HexRoundTrip(d: nat)
    requires d < 16
    ensures HexValue(HexDigit(d)) == Some(d)
    ensures IsUnreserved(HexDigit(d))
  {
  }

  /** `%XY` for an octet, with two uppercase hexadecimal digits. */
  function PercentEscape(b: Byte): string {
    ['%', HexDigit(b / 16), HexDigit(b % 16)]
  }

  /** The escapes of a sequence of octets, one after the other. */
  function Escapes(bytes: seq<Byte>): (s: string)
    ensures |s| == 3 * |bytes|
    ensures forall i :: 0 <= i < |s| ==> s[i] == '%' || IsUnreserved(s[i])
  {
    if bytes == [] then []
    else
      HexRoundTrip(bytes[0] / 16);
      HexRoundTrip(bytes[0] % 16);
      PercentEscape(bytes[0]) + Escapes(bytes[1..])
  }

  /** The octet escaped at the start of `s`, if `s` starts with `%` and two
      hexadecimal digits. */
  function EscapedByte(s: string): Option<Byte> {
    if |s| < 3 || s[0] != '%' then None
    else match (HexValue(s[1]), HexValue(s[2]))
      case (Some(hi), Some(lo)) => if hi < 16 && lo < 16 then Some(hi * 16 + lo) else None
      case _ => None
  }

  /** The `n` octets escaped one after another at the start of `s`. */
  function EscapedBytes(s: string, n: nat): (r: Option<seq<Byte>>)
    ensures r.Some? ==> |r.value| == n && 3 * n <= |s|
  {
    if n == 0 then Some([])
    else match EscapedByte(s)
      case None => None
      case Some(b) =>
        match EscapedBytes(s[3..], n - 1)
        case None => None
        case Some(rest) => Some([b] + rest)
  }

  lemma {:induction false} EscapedBytesOfEscapes(bytes: seq<Byte>, rest: string)
    ensures EscapedBytes(Escapes(bytes) + rest, |bytes|) == Some(bytes)
  {
    if bytes != [] {
      var b := bytes[0];
      var s := Escapes(bytes) + rest;
      HexRoundTrip(b / 16);
      HexRoundTrip(b % 16);
      assert s[..3] == PercentEscape(b);
      assert EscapedByte(s) == Some(b);
      assert s[3..] == Escapes(bytes[1..]) + rest;
      EscapedBytesOfEscapes(bytes[1..], rest);
      assert [b] + bytes[1..] == bytes;
    }
  }

  /** The character escaped at the start of `s` and the number of
      characters its escapes take, if they form one UTF-8 sequence. */
  function DecodeEscapes(s: string): (r: Option<(char, nat)>)
    ensures r.Some? ==> 3 <= r.value.1 <= |s|
  {
    match EscapedByte(s)
    case None => None
    case Some(lead) =>
      var n := SequenceLength(lead);
      if n == 0 then None
      else match EscapedBytes(s, n)
        case None => None
        case Some(bytes) =>
          match Utf8Decode(bytes)
          case None => None
          case Some(c) => Some((c, 3 * n))
  }

  /* ---------------------------------------------------------------------
     The two functions
     --------------------------------------------------------------------- */

  /** `encodeURIComponent(c)` for one character. */
  function EncodeChar(c: char): string {
    if IsUnreserved(c) then [c] else Escapes(Utf8(c))
  }

  /** `encodeURIComponent(s)`: every character outside the unreserved set
      is replaced by the percent escapes of its UTF-8 octets, so the result
      holds only unreserved characters and `%`, and no `&`, `=`, `#` or `+`
      that would end or change a query parameter. */
  function EncodeURIComponent(s: string): (r: string)
    ensures forall i :: 0 <= i < |r| ==> r[i] == '%' || IsUnreserved(r[i])
    ensures |s| <= |r| <= 12 * |s|
  {
    if s == [] then []
    else EncodeChar(s[0]) + EncodeURIComponent(s[1..])
  }

  /** `decodeURIComponent(s)`: escapes are decoded as UTF-8 sequences and
      every other character is kept; `None` where it throws `URIError`. */
  function DecodeURIComponent(s: string): Option<string>
    decreases |s|
  {
    if s == [] then Some([])
    else if s[0] != '%' then
      match DecodeURIComponent(s[1..])
      case None => None
      case Some(t) => Some([s[0]] + t)
    else
      match DecodeEscapes(s)
      case None => None
      case Some((c, n)) =>
        match DecodeURIComponent(s[n..])
        case None => None
        case Some(t) => Some([c] + t)
  }

  /** The escapes of one character decode to it and take exactly its
      encoding. */
  lemma DecodeEncodedChar(c: char, rest: string)
    requires !IsUnreserved(c)
    ensures DecodeEscapes(EncodeChar(c) + rest) == Some((c, |EncodeChar(c)|))
  {
    var bytes := Utf8(c);
    var s := EncodeChar(c) + rest;
    Utf8RoundTrip(c);
    EscapedBytesOfEscapes(bytes, rest);
    EscapedBytesOfEscapes([bytes[0]], Escapes(bytes[1..]) + rest);
    assert Escapes(bytes) == Escapes([bytes[0]]) + Escapes(bytes[1..]);
    assert EscapedByte(s) == Some(bytes[0]);
  }

  /** An unreserved character decodes to itself. */
  lemma DecodeUnreservedStep(c: char, rest: string, t: string)
    requires IsUnreserved(c) && DecodeURIComponent(rest) == Some(t)
    ensures DecodeURIComponent(EncodeChar(c) + rest) == Some([c] + t)
  {
    var e := EncodeChar(c) + rest;
    assert e[0] == c && e[1..] == rest;
  }

  /** An escaped character decodes to itself. */
  lemma DecodeEscapedStep(c: char, rest: string, t: string)
    requires !IsUnreserved(c) && DecodeURIComponent(rest) == Some(t)
    ensures DecodeURIComponent(EncodeChar(c) + rest) == Some([c] + t)
  {
    var e := EncodeChar(c) + rest;
    DecodeEncodedChar(c, rest);
    assert e[0] == '%' by { assert Escapes(Utf8(c))[0] == '%'; }
    assert e[|EncodeChar(c)|..] == rest;
  }

  /** Decoding undoes encoding, for every string. */
  lemma {:induction false} DecodeEncode(s: string)
    ensures DecodeURIComponent(EncodeURIComponent(s)) == Some(s)
  {
    if s != [] {
      var c, t := s[0], s[1..];
      var rest := EncodeURIComponent(t);
      assert EncodeURIComponent(s) == EncodeChar(c) + rest;
      assert DecodeURIComponent(EncodeChar(c) + rest) == Some([c] + t) by {
        DecodeEncode(t);
        if IsUnreserved(c) {
          DecodeUnreservedStep(c, rest, t);
        } else {
          DecodeEscapedStep(c, rest, t);
        }
      }
      assert [c] + t == s;
    }
  }
}
