/** `urlBase64ToUint8Array` of the notification setup: the application
    server key arrives in the URL-safe alphabet of section 5 of RFC 4648
    without padding; it is padded with `=`, rewritten to the alphabet of
    section 4, decoded by `window.atob` and copied into a byte array. */
module PushKey {
  import opened Wrappers
  import opened Seqs
  import opened Text
  import opened Base64

  /** `(4 - (length % 4)) % 4`: the fewest `=` that make the length a
      multiple of four. */
  function PaddingLength(n: nat): (r: nat)
    ensures r <= 3
    ensures (n + r) % 4 == 0
  {
    (4 - n % 4) % 4
  }

  /** `'='.repeat(n)`. */
  function Padding(n: nat): (r: string)
    ensures |r| == n
    ensures forall k :: 0 <= k < n ==> r[k] == '='
  {
    seq(n, k => '=')
  }

  /** `.replace(/-/g, '+').replace(/_/g, '/')` on one character. */
  function StandardChar(c: char): (r: char)
    ensures c == '-' ==> r == '+'
    ensures c == '_' ==> r == '/'
    ensures c != '-' && c != '_' ==> r == c
  {
    if c == '-' then '+' else if c == '_' then '/' else c
  }

  function ToStandardAlphabet(s: string): (r: string)
    ensures |r| == |s|
    ensures forall k :: 0 <= k < |s| ==> r[k] == StandardChar(s[k])
    ensures JsLength(r) == JsLength(s)
  {
    var r := Map(s, StandardChar);
    JsLengthPointwise(r, s);
    r
  }

  /** After the rewrite no URL-safe digit is left. */
  lemma NoUrlDigitsRemain(s: string)
    ensures forall k :: 0 <= k < |s| ==> ToStandardAlphabet(s)[k] != '-' && ToStandardAlphabet(s)[k] != '_'
  {
  }

  /** The padding brings the UTF-16 length to a multiple of four. */
  lemma PaddedLength(s: string)
    ensures JsLength(s + Padding(PaddingLength(JsLength(s)))) == JsLength(s) + PaddingLength(JsLength(s))
  {
    var pad := Padding(PaddingLength(JsLength(s)));
    JsLengthAppend(s, pad);
    JsLengthBmp(pad);
  }

  /** The string handed to `atob`: padded, then rewritten. */
  function PadAndTranslate(s: string): (r: string)
    ensures |r| == |s| + PaddingLength(JsLength(s))
    ensures JsLength(r) == JsLength(s) + PaddingLength(JsLength(s))
    ensures forall k :: 0 <= k < |s| ==> r[k] == StandardChar(s[k])
    ensures forall k :: |s| <= k < |r| ==> r[k] == '='
  {
    PaddedLength(s);
    ToStandardAlphabet(s + Padding(PaddingLength(JsLength(s))))
  }

  /** A binary string: one character per byte, its code the byte. */
  function BinaryString(bytes: seq<Byte>): (r: string)
    ensures |r| == |bytes|
    ensures forall k :: 0 <= k < |r| ==> r[k] as int == bytes[k]
  {
    Map(bytes, (x: Byte) => x as char)
  }

  /** `window.atob`. */
  function Atob(s: string): (r: Result<string, DecodeError>)
    ensures r.Failure? <==> Decode(s).Failure?
    ensures r.Success? ==> r.value == BinaryString(Decode(s).value)
  {
    match Decode(s)
    case Failure(e) => Failure(e)
    case Success(bytes) => Success(BinaryString(bytes))
  }

  /** Copies character codes into a `Uint8Array`, which keeps each modulo
      256. */
  function ToUint8Array(raw: string): (r: seq<Byte>)
    ensures |r| == |raw|
    ensures forall k :: 0 <= k < |raw| ==> r[k] == (raw[k] as int) % 256
  {
    seq(|raw|, k requires 0 <= k < |raw| => (raw[k] as int) % 256)
  }

  /** The codes of a binary string all lie below 256, so the copy is
      lossless. */
  lemma CopyBinaryString(bytes: seq<Byte>)
    ensures ToUint8Array(BinaryString(bytes)) == bytes
  {
  }

  /** `urlBase64ToUint8Array`; `atob`'s exception is the `Failure`. */
  function UrlBase64ToUint8Array(s: string): (r: Result<seq<Byte>, DecodeError>)
    ensures r == Decode(PadAndTranslate(s))
  {
    var t := PadAndTranslate(s);
    match Atob(t)
    case Failure(e) => Failure(e)
    case Success(raw) =>
      CopyBinaryString(Decode(t).value);
      Success(ToUint8Array(raw))
  }

  /** A key in the URL-safe alphabet is ASCII, so its `length` counts
      characters. */
  lemma EncodeUrlLength(b: seq<Byte>)
    ensures JsLength(EncodeUrl(b)) == |EncodeUrl(b)|
  {
    var v := EncodeSextets(b);
    var s := EncodeUrl(b);
    forall k | 0 <= k < |s|
      ensures s[k] as int < 0x1_0000
    {
      assert IsBase64Char(CharOf(v[k]));
    }
    JsLengthBmp(s);
  }

  /** Padding and rewriting a URL-safe key gives the standard encoding
      followed by its `=`. */
  lemma TranslatedKey(b: seq<Byte>)
    ensures PadAndTranslate(EncodeUrl(b))
         == Map(EncodeSextets(b), CharOf) + Padding(PaddingLength(|EncodeUrl(b)|))
  {
    var v := EncodeSextets(b);
    var s := EncodeUrl(b);
    EncodeUrlLength(b);
    var t := PadAndTranslate(s);
    var std := Map(v, CharOf);
    forall k | 0 <= k < |s|
      ensures t[k] == std[k]
    {
      assert s[k] == UrlCharOf(v[k]);
    }
  }

  /** The decoder drops exactly the padding the key was given. */
  lemma DropAddedPadding(std: string)
    requires |std| % 4 != 1
    requires forall k :: 0 <= k < |std| ==> std[k] != '='
    ensures DropPadding(std + Padding(PaddingLength(|std|))) == std
  {
    var pad := PaddingLength(|std|);
    var t := std + Padding(pad);
    if pad == 2 {
      assert t[|t| - 2..] == "==";
      assert t[..|t| - 2] == std;
    } else if pad == 1 {
      assert t[|t| - 2] == std[|std| - 1];
      assert t[..|t| - 1] == std;
    } else if pad == 0 && |t| > 0 {
      assert t[|t| - 1] == std[|std| - 1];
    }
  }

  lemma ValuesOfDigits(v: seq<Sextet>)
    ensures AllBase64(Map(v, CharOf))
    ensures Values(Map(v, CharOf)) == v
  {
    var std := Map(v, CharOf);
    forall k | 0 <= k < |v|
      ensures Values(std)[k] == v[k]
    {
      ValueOfCharOf(v[k]);
    }
  }

  /** A padded standard encoding holds no white space for the decoder to
      skip. */
  lemma PaddedHasNoWhitespace(v: seq<Sextet>)
    ensures StripWhitespace(Map(v, CharOf) + Padding(PaddingLength(|v|)))
         == Map(v, CharOf) + Padding(PaddingLength(|v|))
  {
    var std := Map(v, CharOf);
    var t := std + Padding(PaddingLength(|v|));
    forall k | 0 <= k < |t|
      ensures NotWhitespace(t[k])
    {
      if k < |std| {
        assert IsBase64Char(std[k]);
      }
    }
    FilterAll(t, NotWhitespace);
  }

  /** The standard encoding of some digits, padded, decodes them. */
  lemma DecodePadded(v: seq<Sextet>)
    requires |v| % 4 != 1
    ensures Decode(Map(v, CharOf) + Padding(PaddingLength(|v|))) == Success(DecodeSextets(v))
  {
    var std := Map(v, CharOf);
    var t := std + Padding(PaddingLength(|v|));
    PaddedHasNoWhitespace(v);
    DropAddedPadding(std);
    assert DropPadding(StripWhitespace(t)) == std;
    ValuesOfDigits(v);
  }

  /** A key in the URL-safe alphabet without padding decodes to the bytes it
      encodes. */
  lemma UrlKeyRoundTrip(b: seq<Byte>)
    ensures UrlBase64ToUint8Array(EncodeUrl(b)) == Success(b)
  {
    var v := EncodeSextets(b);
    EncodedLength(b);
    TranslatedKey(b);
    DecodePadded(v);
    DecodeEncode(b);
  }
}
