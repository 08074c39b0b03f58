/** Base 64 as `window.atob` decodes it: the alphabet of section 4 of
    RFC 4648, read by the forgiving-base64 decode of the WHATWG Infra
    standard (white space skipped, up to two `=` of padding dropped, leftover
    bits discarded). The encoder of section 5 of RFC 4648 (the URL-safe
    alphabet, without padding) is given as the decoder's partner. */
module Base64 {
  import opened Wrappers
  import opened Seqs

  type Byte = x: int | 0 <= x < 256

  /** A base 64 digit: six bits. */
  type Sextet = x: int | 0 <= x < 64

  predicate IsBase64Char(c: char) {
    ('A' <= c <= 'Z') || ('a' <= c <= 'z') || ('0' <= c <= '9') || c == '+' || c == '/'
  }

  /** The alphabet of section 4 of RFC 4648. */
  function CharOf(v: Sextet): (c: char)
    ensures IsBase64Char(c)
  {
    if v < 26 then ('A' as int + v) as char
    else if v < 52 then ('a' as int + (v - 26)) as char
    else if v < 62 then ('0' as int + (v - 52)) as char
    else if v == 62 then '+'
    else '/'
  }

  /** The inverse of `CharOf` on the alphabet. */
  function ValueOf(c: char): (v: Sextet)
    requires IsBase64Char(c)
    ensures CharOf(v) == c
  {
    if 'A' <= c <= 'Z' then c as int - 'A' as int
    else if 'a' <= c <= 'z' then c as int - 'a' as int + 26
    else if '0' <= c <= '9' then c as int - '0' as int + 52
    else if c == '+' then 62
    else 63
  }

  lemma ValueOfCharOf(v: Sextet)
    ensures ValueOf(CharOf(v)) == v
  {
  }

  /** The URL and filename safe alphabet of section 5 of RFC 4648. */
  function UrlCharOf(v: Sextet): (c: char)
    ensures v == 62 ==> c == '-'
    ensures v == 63 ==> c == '_'
    ensures v < 62 ==> c == CharOf(v)
  {
    if v == 62 then '-' else if v == 63 then '_' else CharOf(v)
  }

  /** ASCII white space, which the forgiving decode skips. */
  predicate IsAsciiWhitespace(c: char) {
    c == '\t' || c == '\n' || c == '\U{000C}' || c == '\r' || c == ' '
  }

  predicate NotWhitespace(c: char) {
    !IsAsciiWhitespace(c)
  }

  function StripWhitespace(s: string): (r: string)
    ensures forall k :: 0 <= k < |r| ==> !IsAsciiWhitespace(r[k])
  {
    Filter(s, NotWhitespace)
  }

  /** When the length is a multiple of four, one or two trailing `=` go. */
  function DropPadding(s: string): (r: string)
    ensures |s| % 4 != 0 ==> r == s
    ensures |s| % 4 == 0 && |s| >= 2 && s[|s| - 2..] == "==" ==> r == s[..|s| - 2]
    ensures |s| % 4 == 0 && |s| >= 1 && s[|s| - 1] == '=' && (|s| < 2 || s[|s| - 2] != '=') ==> r == s[..|s| - 1]
    ensures |s| % 4 == 0 && (|s| == 0 || s[|s| - 1] != '=') ==> r == s
  {
    if |s| % 4 == 0 && |s| >= 2 && s[|s| - 1] == '=' && s[|s| - 2] == '=' then s[..|s| - 2]
    else if |s| % 4 == 0 && |s| >= 1 && s[|s| - 1] == '=' then s[..|s| - 1]
    else s
  }

  datatype DecodeError = InvalidCharacterError

  predicate AllBase64(s: string) {
    forall k :: 0 <= k < |s| ==> IsBase64Char(s[k])
  }

  /** Three bytes from four digits: the 24 bits read most significant
      first. */
  function DecodeGroup(c0: Sextet, c1: Sextet, c2: Sextet, c3: Sextet): (r: seq<Byte>)
    ensures |r| == 3
  {
    var x0: Byte := (c0 as int) * 4 + (c1 as int) / 16;
    var x1: Byte := ((c1 as int) % 16) * 16 + (c2 as int) / 4;
    var x2: Byte := ((c2 as int) % 4) * 64 + c3 as int;
    [x0, x1, x2]
  }

  /** Every four digits give three bytes; a final two or three digits give
      one or two bytes, their spare bits dropped. A lone final digit, which
      `Decode` rejects before getting here, gives nothing. */
  function DecodeSextets(v: seq<Sextet>): (r: seq<Byte>)
  {
    if |v| <= 1 then []
    else if |v| == 2 then DecodeGroup(v[0], v[1], 0, 0)[..1]
    else if |v| == 3 then DecodeGroup(v[0], v[1], v[2], 0)[..2]
    else DecodeGroup(v[0], v[1], v[2], v[3]) + DecodeSextets(v[4..])
  }

  /** Three bytes for every four digits, and one fewer byte than digits in
      a final short group. */
  lemma {:induction false} DecodedLength(v: seq<Sextet>)
    requires |v| % 4 != 1
    ensures |DecodeSextets(v)| == (|v| / 4) * 3 + (if |v| % 4 == 0 then 0 else |v| % 4 - 1)
  {
    if |v| >= 4 {
      DecodedLength(v[4..]);
    }
  }

  function Values(data: string): (v: seq<Sextet>)
    requires AllBase64(data)
    ensures |v| == |data|
    ensures forall k :: 0 <= k < |data| ==> CharOf(v[k]) == data[k]
  {
    seq(|data|, k requires 0 <= k < |data| => ValueOf(data[k]))
  }

  /** The forgiving-base64 decode. */
  function Decode(s: string): (r: Result<seq<Byte>, DecodeError>)
    ensures r.Failure? <==>
      |DropPadding(StripWhitespace(s))| % 4 == 1 || !AllBase64(DropPadding(StripWhitespace(s)))
    ensures r.Success? ==>
      var n := |DropPadding(StripWhitespace(s))|;
      |r.value| == (n / 4) * 3 + (if n % 4 == 0 then 0 else n % 4 - 1)
  {
    var data := DropPadding(StripWhitespace(s));
    if |data| % 4 == 1 then Failure(InvalidCharacterError)
    else if !AllBase64(data) then Failure(InvalidCharacterError)
    else
      DecodedLength(Values(data));
      Success(DecodeSextets(Values(data)))
  }

  /** Four digits from three bytes. */
  function EncodeGroup(b0: Byte, b1: Byte, b2: Byte): (v: seq<Sextet>)
    ensures |v| == 4
  {
    [b0 / 4, (b0 % 4) * 16 + b1 / 16, (b1 % 16) * 4 + b2 / 64, b2 % 64]
  }

  /** The encoder: every three bytes give four digits; a final one or two
      bytes give two or three digits, the spare bits zero. */
  function EncodeSextets(b: seq<Byte>): (v: seq<Sextet>)
  {
    if |b| == 0 then []
    else if |b| == 1 then EncodeGroup(b[0], 0, 0)[..2]
    else if |b| == 2 then EncodeGroup(b[0], b[1], 0)[..3]
    else EncodeGroup(b[0], b[1], b[2]) + EncodeSextets(b[3..])
  }

  /** Four digits for every three bytes, and one more digit than bytes in
      a final short group. */
  lemma {:induction false} EncodedLength(b: seq<Byte>)
    ensures |EncodeSextets(b)| == 4 * (|b| / 3) + (if |b| % 3 == 0 then 0 else |b| % 3 + 1)
    ensures |EncodeSextets(b)| % 4 != 1
  {
    if |b| >= 3 {
      EncodedLength(b[3..]);
    }
  }

  lemma SplitByte(x: Byte, d: int)
    requires d == 4 || d == 16 || d == 64
    ensures (x / d) * d + x % d == x
    ensures x / d < 256 / d
  {
  }

  /** One group of three bytes survives the trip through four digits. */
  lemma GroupRoundTrip(b0: Byte, b1: Byte, b2: Byte)
    ensures var v := EncodeGroup(b0, b1, b2);
            DecodeGroup(v[0], v[1], v[2], v[3]) == [b0, b1, b2]
  {
    SplitByte(b0, 4);
    SplitByte(b1, 16);
    SplitByte(b2, 64);
    var c1 := (b0 % 4) * 16 + b1 / 16;
    var c2 := (b1 % 16) * 4 + b2 / 64;
    assert c1 / 16 == b0 % 4 && c1 % 16 == b1 / 16;
    assert c2 / 4 == b1 % 16 && c2 % 4 == b2 / 64;
  }

  lemma EncodeFront(b: seq<Byte>)
    requires |b| >= 3
    ensures EncodeSextets(b) == EncodeGroup(b[0], b[1], b[2]) + EncodeSextets(b[3..])
  {
  }

  /** A whole group of three bytes comes back in front of whatever the
      following digits decode to. */
  lemma DecodeFirstGroup(b0: Byte, b1: Byte, b2: Byte, rest: seq<Sextet>)
    ensures DecodeSextets(EncodeGroup(b0, b1, b2) + rest) == [b0, b1, b2] + DecodeSextets(rest)
  {
    var e := EncodeGroup(b0, b1, b2);
    assert (e + rest)[4..] == rest;
    GroupRoundTrip(b0, b1, b2);
  }

  /** A final single byte comes back from its two digits: a byte's value
      depends only on the digits that hold its bits. */
  lemma DecodeOneByte(b0: Byte)
    ensures DecodeSextets(EncodeSextets([b0])) == [b0]
  {
    GroupRoundTrip(b0, 0, 0);
    var e := EncodeGroup(b0, 0, 0);
    assert DecodeGroup(e[0], e[1], 0, 0)[0] == DecodeGroup(e[0], e[1], e[2], e[3])[0];
  }

  /** A final pair of bytes comes back from its three digits. */
  lemma DecodeTwoBytes(b0: Byte, b1: Byte)
    ensures DecodeSextets(EncodeSextets([b0, b1])) == [b0, b1]
  {
    GroupRoundTrip(b0, b1, 0);
    var e := EncodeGroup(b0, b1, 0);
    assert DecodeGroup(e[0], e[1], e[2], 0)[..2] == DecodeGroup(e[0], e[1], e[2], e[3])[..2];
  }

  /** Decoding undoes encoding. */
  lemma {:induction false} DecodeEncode(b: seq<Byte>)
    ensures DecodeSextets(EncodeSextets(b)) == b
    decreases |b|
  {
    if |b| == 1 {
      DecodeOneByte(b[0]);
      assert b == [b[0]];
    } else if |b| == 2 {
      DecodeTwoBytes(b[0], b[1]);
      assert b == [b[0], b[1]];
    } else if |b| >= 3 {
      EncodeFront(b);
      DecodeFirstGroup(b[0], b[1], b[2], EncodeSextets(b[3..]));
      DecodeEncode(b[3..]);
      assert b == [b[0], b[1], b[2]] + b[3..];
    }
  }

  /** Section 5 of RFC 4648 without padding, the form of a VAPID public key. */
  function EncodeUrl(b: seq<Byte>): (s: string)
    ensures |s| % 4 != 1
    ensures forall k :: 0 <= k < |s| ==> s[k] != '='
  {
    EncodedLength(b);
    Map(EncodeSextets(b), UrlCharOf)
  }
}
