/** The library routines the token code relies on without the model
    describing their internals: unpadded base64url (section 5 of RFC 4648),
    JSON encoding of the header and payload, and HMAC-SHA256 (RFC 2104)
    keyed by a secret over the UTF-8 bytes of a string. They are carried as
    function values, and `Lawful` collects the facts the token code needs
    from them. */
module JwtPrimitives {
  import opened Common
  import opened JwtToken

  type Bytes = seq<byte>

  datatype Primitives = Primitives(
    encode: Bytes -> string,
    decode: string -> Result<Bytes, Error>,
    marshalHeader: Header -> Result<Bytes, Error>,
    unmarshalHeader: Bytes -> Result<Header, Error>,
    marshalPayload: Payload -> Result<Bytes, Error>,
    unmarshalPayload: Bytes -> Result<Payload, Error>,
    hmac: (Bytes, string) -> Result<Bytes, Error>)

  /** The URL- and filename-safe alphabet of section 5 of RFC 4648. */
  predicate IsBase64UrlChar(c: char)
  {
    ('A' <= c <= 'Z') || ('a' <= c <= 'z') || ('0' <= c <= '9') || c == '-' || c == '_'
  }

  /** What the token code assumes of its libraries: decoding undoes
      encoding; the encoding is empty only for no bytes and uses only the
      base64url alphabet; JSON output is never empty and reads back as the
      value written; an HMAC-SHA256 tag is 32 bytes. */
  ghost predicate Lawful(prims: Primitives)
  {
    && (forall b: Bytes :: prims.decode(prims.encode(b)) == Ok(b))
    && (forall b: Bytes :: |prims.encode(b)| == 0 <==> |b| == 0)
    && (forall b: Bytes, i :: 0 <= i < |prims.encode(b)| ==> IsBase64UrlChar(prims.encode(b)[i]))
    && (forall h :: prims.marshalHeader(h).Ok? ==>
          |prims.marshalHeader(h).value| > 0 &&
          prims.unmarshalHeader(prims.marshalHeader(h).value) == Ok(h))
    && (forall p :: prims.marshalPayload(p).Ok? ==>
          |prims.marshalPayload(p).value| > 0 &&
          prims.unmarshalPayload(prims.marshalPayload(p).value) == Ok(p))
    && (forall key, msg :: prims.hmac(key, msg).Ok? ==> |prims.hmac(key, msg).value| == 32)
  }

  /** Under Lawful, an encoding of some bytes is a non-empty string with
      no '.' and no white space at either end. */
  lemma EncodedSegment(prims: Primitives, b: Bytes)
    requires Lawful(prims)
    requires |b| > 0
    ensures var s := prims.encode(b);
      |s| > 0 && '.' !in s && !IsSpace(s[0]) && !IsSpace(s[|s| - 1])
  {
    var s := prims.encode(b);
    forall i | 0 <= i < |s|
      ensures s[i] != '.' && !IsSpace(s[i])
    {
      assert IsBase64UrlChar(s[i]);
    }
  }

  // A concrete instance, showing that Lawful can be met: a two-letter
  // hex encoding over 'a'..'p', JSON that always fails and a constant tag.

  function HexLetter(d: int): (c: char)
    requires 0 <= d < 16
    ensures 'a' <= c <= 'p' && c as int - 'a' as int == d
  {
    ('a' as int + d) as char
  }

  function HexEncode(b: Bytes): (s: string)
    ensures |s| == 2 * |b|
    ensures forall i :: 0 <= i < |s| ==> 'a' <= s[i] <= 'p'
  {
    if |b| == 0 then "" else [HexLetter(b[0] / 16), HexLetter(b[0] % 16)] + HexEncode(b[1..])
  }

  function HexDecode(s: string): Result<Bytes, Error>
  {
    if |s| == 0 then Ok([])
    else if |s| == 1 || !('a' <= s[0] <= 'p') || !('a' <= s[1] <= 'p') then Err(Foreign("bad hex"))
    else match HexDecode(s[2..])
      case Err(e) => Err(e)
      case Ok(rest) => Ok([(s[0] as int - 'a' as int) * 16 + (s[1] as int - 'a' as int)] + rest)
  }

  lemma {:induction false} HexRoundTrip(b: Bytes)
    ensures HexDecode(HexEncode(b)) == Ok(b)
  {
    if |b| > 0 {
      HexRoundTrip(b[1..]);
      var hi, lo := HexLetter(b[0] / 16), HexLetter(b[0] % 16);
      var s := HexEncode(b);
      assert s == [hi, lo] + HexEncode(b[1..]);
      assert s[0] == hi && s[1] == lo;
      assert s[2..] == HexEncode(b[1..]);
      var v := (s[0] as int - 'a' as int) * 16 + (s[1] as int - 'a' as int);
      assert v == b[0];
      assert b == [b[0]] + b[1..];
    }
  }

  function Sample(): Primitives
  {
    Primitives(
      b => HexEncode(b),
      s => HexDecode(s),
      h => Err(Foreign("no JSON")),
      raw => Err(Foreign("no JSON")),
      p => Err(Foreign("no JSON")),
      raw => Err(Foreign("no JSON")),
      (key, msg) => Ok(seq(32, i => 0)))
  }

  lemma LawfulIsSatisfiable()
    ensures Lawful(Sample())
  {
    var prims := Sample();
    forall b: Bytes
      ensures prims.decode(prims.encode(b)) == Ok(b)
    {
      HexRoundTrip(b);
    }
    forall b: Bytes, i | 0 <= i < |prims.encode(b)|
      ensures IsBase64UrlChar(prims.encode(b)[i])
    {
      assert prims.encode(b) == HexEncode(b);
    }
    assert forall key, msg :: prims.hmac(key, msg) == Ok(seq(32, i => 0));
  }

  /** A second instance, built around one header `h` and one payload `p`:
      JSON writes `h` as [1] and `p` as [2], reads those back, and fails on
      everything else; the tag is constant. It shows that Lawful leaves
      room for issuance to succeed (JwtFactory.IssuanceCanSucceed). */
  function Issuing(h: Header, p: Payload): Primitives
  {
    Primitives(
      b => HexEncode(b),
      s => HexDecode(s),
      x => if x == h then Ok([1]) else Err(Foreign("no JSON")),
      raw => if raw == [1] then Ok(h) else Err(Foreign("no JSON")),
      x => if x == p then Ok([2]) else Err(Foreign("no JSON")),
      raw => if raw == [2] then Ok(p) else Err(Foreign("no JSON")),
      (key, msg) => Ok(seq(32, i => 0)))
  }

  lemma IssuingIsLawful(h: Header, p: Payload)
    ensures Lawful(Issuing(h, p))
  {
    var prims := Issuing(h, p);
    forall b: Bytes
      ensures prims.decode(prims.encode(b)) == Ok(b)
    {
      HexRoundTrip(b);
    }
    forall b: Bytes, i | 0 <= i < |prims.encode(b)|
      ensures IsBase64UrlChar(prims.encode(b)[i])
    {
      assert prims.encode(b) == HexEncode(b);
    }
    assert forall key, msg :: prims.hmac(key, msg) == Ok(seq(32, i => 0));
  }
}
