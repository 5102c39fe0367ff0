/** jwt/factory.go: a factory holds a signer; it issues tokens and checks
    the signature of tokens it receives. The clock is the parameter `now`
    (nanoseconds since the Unix epoch) and a time-to-live is a duration in
    nanoseconds. */
module JwtFactory {
  import opened Common
  import opened JwtToken
  import opened JwtPrimitives
  import opened JwtSigner

  /** A Factory value. Its zero value has `valid` false and no signer. The
      source's `tokenType` field is never read and is not modelled. */
  datatype Factory = Factory(valid: bool, s: HS256?)

  /** Every factory the program can hold: NewFactory's result or the zero
      value. */
  predicate WellFormed(f: Factory)
  {
    f.valid ==> f.s != null
  }

  /** The heap the factory's signature computations read. */
  function Footprint(f: Factory): set<object>
  {
    if f.s == null then {} else {f.s.secret}
  }

  /** NewFactory: a valid factory whose signer holds a private copy of the
      secret's bytes. The source takes the secret as a string and converts
      it with []byte(secret), its UTF-8 bytes; the model starts from those
      bytes. */
  method NewFactory(secret: seq<byte>) returns (f: Factory)
    ensures WellFormed(f) && f.valid && f.s != null
    ensures fresh(f.s) && fresh(f.s.secret)
    ensures f.s.secret[..] == secret
  {
    var raw := new byte[|secret|](i requires 0 <= i < |secret| => secret[i]);
    assert raw[..] == secret;
    var signer := new HS256(raw);
    f := Factory(true, signer);
  }

  /** The bytes a signature covers: the two received segments joined by
      a dot (section 7.2 of RFC 7515). */
  function SigningInput(hB64: string, pB64: string): string
  {
    hB64 + "." + pB64
  }

  /** What Validate concludes about a token: Ok(true) when its signature
      segment is the encoding of the expected tag, Ok(false) when it is
      not, and an error when the factory is unusable or signing fails. */
  function Verdict(f: Factory, t: Token, prims: Primitives): (r: Result<bool, Error>)
    requires WellFormed(f)
    reads Footprint(f)
    ensures !f.valid ==> r == Err(BadFactory)
    ensures f.valid ==> (r.Err? <==> f.s.Sign(SigningInput(t.hB64, t.pB64), prims).Err?)
    ensures r == Ok(true) ==>
      t.s == prims.encode(f.s.Sign(SigningInput(t.hB64, t.pB64), prims).value)
  {
    if !f.valid then Err(BadFactory)
    else
      match f.s.Sign(SigningInput(t.hB64, t.pB64), prims)
      case Err(e) => Err(e)
      case Ok(tag) => Ok(t.s == prims.encode(tag))
  }

  /** The signature covers the received segments only: two tokens with the
      same three segments get the same verdict, whatever their decoded
      contents. */
  lemma VerdictDependsOnSegmentsOnly(f: Factory, t1: Token, t2: Token, prims: Primitives)
    requires WellFormed(f)
    requires t1.hB64 == t2.hB64 && t1.pB64 == t2.pB64 && t1.s == t2.s
    ensures Verdict(f, t1, prims) == Verdict(f, t2, prims)
  {
  }

  /** Factory.Validate: records the outcome of the signature check in the
      token and reports a failure as an error. */
  method Validate(f: Factory, j: JWT, prims: Primitives) returns (err: Option<Error>)
    requires WellFormed(f)
    modifies j
    ensures j.tok == old(j.tok)
    ensures Verdict(f, j.tok, prims).Err? ==>
      err == Some(Verdict(f, j.tok, prims).error) && j.isSigned == old(j.isSigned)
    ensures Verdict(f, j.tok, prims).Ok? ==>
      j.isSigned == Verdict(f, j.tok, prims).value &&
      err == (if j.isSigned then None else Some(Unauthorized))
  {
    if !f.valid {
      return Some(BadFactory);
    }
    var expected := f.s.Sign(SigningInput(j.tok.hB64, j.tok.pB64), prims);
    if expected.Err? {
      return Some(expected.error);
    }
    j.isSigned := j.tok.s == prims.encode(expected.value);
    if !j.isSigned {
      return Some(Unauthorized);
    }
    return None;
  }

  // ---------------------------------------------------------------------
  // NewToken

  /** The header of an issued token. */
  function IssuedHeader(f: Factory): Header
    requires f.s != null
  {
    Header(f.s.Algorithm(), "JWT", "", "")
  }

  /** The payload of an issued token: iat is the Unix second of `now`,
      exp that of `now + ttl`, and the private block repeats the header's
      alg and typ. */
  function IssuedPayload(alg: string, now: int, ttl: int, id: int, username: string,
                         email: string, roles: seq<string>): Payload
  {
    Payload("", "", [], (now + ttl) / NanosPerSecond, 0, now / NanosPerSecond, "",
            Private(alg, "JWT", id, username, email, roles))
  }

  /** The compact serialisation: three segments joined by dots. */
  function Compact(hB64: string, pB64: string, sig: string): string
  {
    hB64 + "." + pB64 + "." + sig
  }

  /** An encoded segment, or the empty string when producing it failed. */
  function Segment(m: Result<Bytes, Error>, prims: Primitives): string
  {
    if m.Ok? then prims.encode(m.value) else ""
  }

  function HeaderSegment(f: Factory, prims: Primitives): string
    requires f.s != null
  {
    Segment(prims.marshalHeader(IssuedHeader(f)), prims)
  }

  function PayloadSegment(f: Factory, prims: Primitives, now: int, ttl: int, id: int,
                          username: string, email: string, roles: seq<string>): string
    requires f.s != null
  {
    Segment(prims.marshalPayload(IssuedPayload(f.s.Algorithm(), now, ttl, id, username, email, roles)), prims)
  }

  function SignatureSegment(f: Factory, prims: Primitives, hB64: string, pB64: string): string
    requires f.s != null
    reads f.s.secret
  {
    Segment(f.s.Sign(SigningInput(hB64, pB64), prims), prims)
  }

  /** Factory.NewToken: the compact serialisation header.payload.signature.
      A failure to marshal or sign leaves that segment empty instead of
      being reported. */
  function NewToken(f: Factory, prims: Primitives, now: int, ttl: int, id: int,
                    username: string, email: string, roles: seq<string>): string
    requires f.s != null
    reads f.s.secret
  {
    var hB64 := HeaderSegment(f, prims);
    var pB64 := PayloadSegment(f, prims, now, ttl, id, username, email, roles);
    Compact(hB64, pB64, SignatureSegment(f, prims, hB64, pB64))
  }

  /** An issued token always has exactly three dot-separated segments,
      the signature segment being computed over the other two. */
  lemma NewTokenSegments(f: Factory, prims: Primitives, now: int, ttl: int, id: int,
                         username: string, email: string, roles: seq<string>)
    requires f.s != null
    requires Lawful(prims)
    ensures
      var hB64 := HeaderSegment(f, prims);
      var pB64 := PayloadSegment(f, prims, now, ttl, id, username, email, roles);
      Split(NewToken(f, prims, now, ttl, id, username, email, roles), '.') ==
        [hB64, pB64, SignatureSegment(f, prims, hB64, pB64)]
  {
    var hB64 := HeaderSegment(f, prims);
    var pB64 := PayloadSegment(f, prims, now, ttl, id, username, email, roles);
    var sig := SignatureSegment(f, prims, hB64, pB64);
    SegmentHasNoDot(prims.marshalHeader(IssuedHeader(f)), prims);
    SegmentHasNoDot(prims.marshalPayload(IssuedPayload(f.s.Algorithm(), now, ttl, id, username, email, roles)), prims);
    SegmentHasNoDot(f.s.Sign(SigningInput(hB64, pB64), prims), prims);
    var parts := [hB64, pB64, sig];
    assert parts[1..][1..] == [sig];
    assert Join(parts[1..], '.') == pB64 + "." + sig;
    assert Join(parts, '.') == Compact(hB64, pB64, sig);
    SplitJoin([hB64, pB64, sig], '.');
  }

  lemma SegmentHasNoDot(m: Result<Bytes, Error>, prims: Primitives)
    requires Lawful(prims)
    ensures '.' !in Segment(m, prims)
  {
    if m.Ok? && |m.value| > 0 {
      EncodedSegment(prims, m.value);
    } else if m.Ok? {
      assert |prims.encode(m.value)| == 0;
    }
  }

  /** Every step of issuance succeeds. */
  predicate IssuanceSucceeds(f: Factory, prims: Primitives, now: int, ttl: int, id: int,
                             username: string, email: string, roles: seq<string>)
    requires f.s != null
    reads f.s.secret
  {
    && prims.marshalHeader(IssuedHeader(f)).Ok?
    && prims.marshalPayload(IssuedPayload(f.s.Algorithm(), now, ttl, id, username, email, roles)).Ok?
    && f.s.Sign(SigningInput(HeaderSegment(f, prims),
                             PayloadSegment(f, prims, now, ttl, id, username, email, roles)), prims).Ok?
  }

  /** Lawful primitives and a successful issuance can hold together: the
      instance Issuing, built around this factory's header and payload,
      meets both. */
  lemma IssuanceCanSucceed(f: Factory, now: int, ttl: int, id: int, username: string,
                           email: string, roles: seq<string>)
    requires f.s != null
    ensures var prims := Issuing(IssuedHeader(f), IssuedPayload(f.s.Algorithm(), now, ttl, id, username, email, roles));
      Lawful(prims) && IssuanceSucceeds(f, prims, now, ttl, id, username, email, roles)
  {
    IssuingIsLawful(IssuedHeader(f), IssuedPayload(f.s.Algorithm(), now, ttl, id, username, email, roles));
  }

  /** The claims of an issued token: header and private block agree on alg
      and typ, alg is a real algorithm, there is no nbf, iat and exp are
      the Unix seconds (rounded down) of `now` and `now + ttl`, and the
      identity is the one given. */
  lemma IssuedClaims(f: Factory, now: int, ttl: int, id: int, username: string,
                     email: string, roles: seq<string>)
    requires f.s != null
    ensures var h := IssuedHeader(f);
      var p := IssuedPayload(f.s.Algorithm(), now, ttl, id, username, email, roles);
      && h.typ == "JWT" && h.alg == p.priv.alg && h.typ == p.priv.typ
      && h.alg != "" && h.alg != "none"
      && p.nbf == 0
      && UnixNanos(p.iat) <= now < UnixNanos(p.iat + 1)
      && UnixNanos(p.exp) <= now + ttl < UnixNanos(p.exp + 1)
      && DataOf(p.priv) == Data(id, username, email, roles)
  {
  }

  /** When the header cannot be marshalled the token starts with a dot:
      its first segment is empty. */
  lemma FailedHeaderLeavesEmptySegment(f: Factory, prims: Primitives, now: int, ttl: int, id: int,
                                       username: string, email: string, roles: seq<string>)
    requires f.s != null
    requires prims.marshalHeader(IssuedHeader(f)).Err?
    ensures var w := NewToken(f, prims, now, ttl, id, username, email, roles);
      |w| > 0 && w[0] == '.'
  {
  }
}
