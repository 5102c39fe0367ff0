/** jwt/http.go: extracting a bearer token from an Authorization header
    value (section 2.1 of RFC 6750) and decoding its compact
    serialisation (section 7.2 of RFC 7515). The signature is not checked
    here; see JwtFactory.Validate. */
module JwtHttp {
  import opened Common
  import opened JwtToken
  import opened JwtPrimitives
  import opened JwtSigner
  import opened JwtFactory

  /** Three non-empty sections. */
  predicate WellFormedSections(sections: seq<string>)
  {
    |sections| == 3 && sections[0] != "" && sections[1] != "" && sections[2] != ""
  }

  /** The header decodes to `h`. */
  predicate DecodesToHeader(hB64: string, h: Header, prims: Primitives)
  {
    prims.decode(hB64).Ok? && prims.unmarshalHeader(prims.decode(hB64).value) == Ok(h)
  }

  /** The payload decodes to `p`. */
  predicate DecodesToPayload(pB64: string, p: Payload, prims: Primitives)
  {
    prims.decode(pB64).Ok? && prims.unmarshalPayload(prims.decode(pB64).value) == Ok(p)
  }

  /** FromHeader: the token carried by an Authorization header value,
      or the first check it fails, in this order: a missing header, no
      space, a scheme other than "Bearer", a credential that is not three
      non-empty dot-separated sections, a header that does not decode, a
      header naming no algorithm or "none", a payload that does not
      decode, and a private block disagreeing with the header. */
  function FromHeader(auth: string, prims: Primitives): (r: Result<Token, Error>)
    ensures auth == "" ==> r == Err(MissingAuthHeader)
    ensures auth != "" && ' ' !in auth ==> r == Err(BadRequest)
    ensures r.Ok? ==>
      && HasPrefix(auth, "Bearer ")
      && Split(TrimSpace(auth[7..]), '.') == [r.value.hB64, r.value.pB64, r.value.s]
      && WellFormedSections([r.value.hB64, r.value.pB64, r.value.s])
      && DecodesToHeader(r.value.hB64, r.value.h, prims)
      && DecodesToPayload(r.value.pB64, r.value.p, prims)
      && r.value.h.alg != "" && r.value.h.alg != "none"
      && r.value.h.alg == r.value.p.priv.alg && r.value.h.typ == r.value.p.priv.typ
  {
    if auth == "" then Err(MissingAuthHeader)
    else
      var fields := SplitN2(auth, ' ');
      if |fields| != 2 then Err(BadRequest)
      else if fields[0] != "Bearer" then Err(NotBearer)
      else
        assert auth == "Bearer " + fields[1];
        FromCredential(fields[1], prims)
  }

  /** The part of FromHeader after the scheme: the credential is trimmed
      and cut at dots. */
  function FromCredential(cred: string, prims: Primitives): (r: Result<Token, Error>)
    ensures r.Ok? ==>
      && Split(TrimSpace(cred), '.') == [r.value.hB64, r.value.pB64, r.value.s]
      && WellFormedSections([r.value.hB64, r.value.pB64, r.value.s])
      && DecodesToHeader(r.value.hB64, r.value.h, prims)
      && DecodesToPayload(r.value.pB64, r.value.p, prims)
      && r.value.h.alg != "" && r.value.h.alg != "none"
      && r.value.h.alg == r.value.p.priv.alg && r.value.h.typ == r.value.p.priv.typ
  {
    var sections := Split(TrimSpace(cred), '.');
    if !WellFormedSections(sections) then Err(NotJWT)
    else
      var r := DecodeSections(sections[0], sections[1], sections[2], prims);
      assert r.Ok? ==> sections == [r.value.hB64, r.value.pB64, r.value.s];
      r
  }

  /** After "Bearer " the rest of the value is the credential. */
  lemma BearerCredential(cred: string, prims: Primitives)
    ensures FromHeader("Bearer " + cred, prims) == FromCredential(cred, prims)
  {
    assert "Bearer " + cred == "Bearer" + [' '] + cred;
    SplitN2AfterPrefix("Bearer", cred, ' ');
  }

  /** Three plain sections joined by dots split back into themselves. */
  lemma PlainSectionsSplit(hB64: string, pB64: string, s: string)
    requires PlainSection(hB64) && PlainSection(pB64) && PlainSection(s)
    ensures var tok := Compact(hB64, pB64, s);
      TrimSpace(tok) == tok && Split(tok, '.') == [hB64, pB64, s]
  {
    var tok := Compact(hB64, pB64, s);
    assert tok[0] == hB64[0] && tok[|tok| - 1] == s[|s| - 1];
    var parts := [hB64, pB64, s];
    assert parts[1..][1..] == [s];
    assert Join(parts[1..], '.') == pB64 + "." + s;
    assert Join(parts, '.') == tok;
    SplitJoin(parts, '.');
  }

  /** The header section decoded and unmarshalled, or the first error. */
  function HeaderOf(hB64: string, prims: Primitives): (r: Result<Header, Error>)
    ensures forall h :: r == Ok(h) <==> DecodesToHeader(hB64, h, prims)
  {
    match prims.decode(hB64)
    case Err(e) => Err(e)
    case Ok(raw) => prims.unmarshalHeader(raw)
  }

  /** The payload section decoded and unmarshalled, or the first error. */
  function PayloadOf(pB64: string, prims: Primitives): (r: Result<Payload, Error>)
    ensures forall p :: r == Ok(p) <==> DecodesToPayload(pB64, p, prims)
  {
    match prims.decode(pB64)
    case Err(e) => Err(e)
    case Ok(raw) => prims.unmarshalPayload(raw)
  }

  /** The header names an algorithm, and not "none". */
  predicate RealAlg(h: Header)
  {
    h.alg != "" && h.alg != "none"
  }

  /** The header and the private block make the same claims. */
  predicate ClaimsAgree(h: Header, p: Payload)
  {
    h.alg == p.priv.alg && h.typ == p.priv.typ
  }

  /** The decoding half of FromHeader, on three well-formed sections. An
      error from decoding or unmarshalling either section is returned
      unchanged; a header without a real algorithm, and a header and
      private block that disagree, are unauthorized; and the sections are
      accepted exactly when both decode, the algorithm is real and the
      claims agree. */
  function DecodeSections(hB64: string, pB64: string, s: string, prims: Primitives): (r: Result<Token, Error>)
    ensures r.Ok? ==>
      && r.value.hB64 == hB64 && r.value.pB64 == pB64 && r.value.s == s
      && DecodesToHeader(hB64, r.value.h, prims)
      && DecodesToPayload(pB64, r.value.p, prims)
      && r.value.h.alg != "" && r.value.h.alg != "none"
      && r.value.h.alg == r.value.p.priv.alg && r.value.h.typ == r.value.p.priv.typ
    ensures var hd, pl := HeaderOf(hB64, prims), PayloadOf(pB64, prims);
      && (hd.Err? ==> r == Err(hd.error))
      && (hd.Ok? && !RealAlg(hd.value) ==> r == Err(Unauthorized))
      && (hd.Ok? && RealAlg(hd.value) && pl.Err? ==> r == Err(pl.error))
      && (hd.Ok? && RealAlg(hd.value) && pl.Ok? && !ClaimsAgree(hd.value, pl.value) ==> r == Err(Unauthorized))
      && (r.Ok? <==> hd.Ok? && pl.Ok? && RealAlg(hd.value) && ClaimsAgree(hd.value, pl.value))
  {
    match prims.decode(hB64)
    case Err(e) => Err(e)
    case Ok(rawHeader) =>
      match prims.unmarshalHeader(rawHeader)
      case Err(e) => Err(e)
      case Ok(h) =>
        if h.alg == "" || h.alg == "none" then Err(Unauthorized)
        else
          match prims.decode(pB64)
          case Err(e) => Err(e)
          case Ok(rawPayload) =>
            match prims.unmarshalPayload(rawPayload)
            case Err(e) => Err(e)
            case Ok(p) =>
              if h.typ != p.priv.typ then Err(Unauthorized)
              else if h.alg != p.priv.alg then Err(Unauthorized)
              else Ok(Token(h, hB64, p, pB64, s))
  }

  /** A section as it can appear in a credential that survives trimming
      and splitting intact. */
  predicate PlainSection(s: string)
  {
    |s| > 0 && '.' !in s && !IsSpace(s[0]) && !IsSpace(s[|s| - 1])
  }

  /** "Bearer h.p.s" reaches the decoding step with exactly those three
      sections. */
  lemma BearerReachesDecoding(hB64: string, pB64: string, s: string, prims: Primitives)
    requires PlainSection(hB64) && PlainSection(pB64) && PlainSection(s)
    ensures FromHeader("Bearer " + Compact(hB64, pB64, s), prims) == DecodeSections(hB64, pB64, s, prims)
  {
    var tok := Compact(hB64, pB64, s);
    BearerCredential(tok, prims);
    PlainSectionsSplit(hB64, pB64, s);
    CredentialSections(tok, [hB64, pB64, s], prims);
  }

  lemma CredentialSections(tok: string, sections: seq<string>, prims: Primitives)
    requires TrimSpace(tok) == tok && Split(tok, '.') == sections && WellFormedSections(sections)
    ensures FromCredential(tok, prims) == DecodeSections(sections[0], sections[1], sections[2], prims)
  {
  }

  /** Any scheme other than exactly "Bearer" is refused, whatever follows. */
  lemma SchemeMustBeBearer(scheme: string, rest: string, prims: Primitives)
    requires ' ' !in scheme && scheme != "Bearer"
    ensures FromHeader(scheme + " " + rest, prims) == Err(NotBearer)
  {
    SplitN2AfterPrefix(scheme, rest, ' ');
    assert scheme + " " + rest == scheme + [' '] + rest;
  }

  /** A header naming no algorithm, or "none", is refused before the
      payload is looked at. */
  lemma AlgNoneRejected(hB64: string, pB64: string, s: string, h: Header, prims: Primitives)
    requires PlainSection(hB64) && PlainSection(pB64) && PlainSection(s)
    requires DecodesToHeader(hB64, h, prims)
    requires h.alg == "" || h.alg == "none"
    ensures FromHeader("Bearer " + Compact(hB64, pB64, s), prims) == Err(Unauthorized)
  {
    BearerReachesDecoding(hB64, pB64, s, prims);
  }

  /** A header and a private block that disagree on the algorithm or the
      token type are unauthorized, whatever the signature section. */
  lemma CrossClaimMismatchRejected(hB64: string, pB64: string, s: string, h: Header, p: Payload, prims: Primitives)
    requires PlainSection(hB64) && PlainSection(pB64) && PlainSection(s)
    requires DecodesToHeader(hB64, h, prims) && DecodesToPayload(pB64, p, prims)
    requires h.alg != "" && h.alg != "none"
    requires h.typ != p.priv.typ || h.alg != p.priv.alg
    ensures FromHeader("Bearer " + Compact(hB64, pB64, s), prims) == Err(Unauthorized)
  {
    BearerReachesDecoding(hB64, pB64, s, prims);
  }

  /** Conversely, plain sections whose header and payload decode, with a
      real algorithm and agreeing claims, give exactly the token made of
      them. */
  lemma AgreeingSectionsAccepted(hB64: string, pB64: string, s: string, h: Header, p: Payload, prims: Primitives)
    requires PlainSection(hB64) && PlainSection(pB64) && PlainSection(s)
    requires DecodesToHeader(hB64, h, prims) && DecodesToPayload(pB64, p, prims)
    requires h.alg != "" && h.alg != "none"
    requires h.typ == p.priv.typ && h.alg == p.priv.alg
    ensures FromHeader("Bearer " + Compact(hB64, pB64, s), prims) == Ok(Token(h, hB64, p, pB64, s))
  {
    BearerReachesDecoding(hB64, pB64, s, prims);
  }

  /** A decoding or unmarshalling error of the header, or, once the header
      is acceptable, of the payload, is what FromHeader returns. */
  lemma DecodeErrorPassedThrough(hB64: string, pB64: string, s: string, prims: Primitives)
    requires PlainSection(hB64) && PlainSection(pB64) && PlainSection(s)
    ensures var r := FromHeader("Bearer " + Compact(hB64, pB64, s), prims);
      && (prims.decode(hB64).Err? ==> r == Err(prims.decode(hB64).error))
      && (prims.decode(hB64).Ok? && prims.unmarshalHeader(prims.decode(hB64).value).Err? ==>
            r == Err(prims.unmarshalHeader(prims.decode(hB64).value).error))
      && (HeaderOf(hB64, prims).Ok? && RealAlg(HeaderOf(hB64, prims).value) && prims.decode(pB64).Err? ==>
            r == Err(prims.decode(pB64).error))
      && (HeaderOf(hB64, prims).Ok? && RealAlg(HeaderOf(hB64, prims).value) && prims.decode(pB64).Ok?
          && prims.unmarshalPayload(prims.decode(pB64).value).Err? ==>
            r == Err(prims.unmarshalPayload(prims.decode(pB64).value).error))
  {
    BearerReachesDecoding(hB64, pB64, s, prims);
  }

  /** A trimmed credential that does not cut into three non-empty
      sections is not a JWT. */
  lemma MalformedCredential(cred: string, sections: seq<string>, prims: Primitives)
    requires |cred| > 0 && !IsSpace(cred[0]) && !IsSpace(cred[|cred| - 1])
    requires Join(sections, '.') == cred && |sections| >= 1
    requires forall i :: 0 <= i < |sections| ==> '.' !in sections[i]
    requires !WellFormedSections(sections)
    ensures FromHeader("Bearer " + cred, prims) == Err(NotJWT)
  {
    BearerCredential(cred, prims);
    assert TrimSpace(cred) == cred;
    SplitJoin(sections, '.');
  }

  /** Two sections are not a JWT. */
  lemma TwoSectionsRejected(prims: Primitives)
    ensures FromHeader("Bearer " + "a.b", prims) == Err(NotJWT)
  {
    var two := ["a", "b"];
    assert two[1..] == ["b"];
    assert Join(two, '.') == "a.b";
    MalformedCredential("a.b", two, prims);
  }

  /** Four sections are not a JWT. */
  lemma FourSectionsRejected(prims: Primitives)
    ensures FromHeader("Bearer " + "a.b.c.d", prims) == Err(NotJWT)
  {
    var four := ["a", "b", "c", "d"];
    assert four[1..][1..][1..] == ["d"];
    assert Join(four[1..][1..], '.') == "c.d";
    assert Join(four[1..], '.') == "b.c.d";
    assert Join(four, '.') == "a.b.c.d";
    MalformedCredential("a.b.c.d", four, prims);
  }

  /** An empty middle section is not a JWT. */
  lemma EmptySectionRejected(prims: Primitives)
    ensures FromHeader("Bearer " + "a..c", prims) == Err(NotJWT)
  {
    var gap := ["a", "", "c"];
    assert gap[1..][1..] == ["c"];
    assert Join(gap[1..], '.') == ".c";
    assert Join(gap, '.') == "a..c";
    MalformedCredential("a..c", gap, prims);
  }

  /** The scheme is compared exactly, and a value without a space is a
      bad request. */
  lemma SchemeAndSpaceRequired(prims: Primitives)
    ensures FromHeader("bearer a.b.c", prims) == Err(NotBearer)
    ensures FromHeader("Bearer", prims) == Err(BadRequest)
  {
    SchemeMustBeBearer("bearer", "a.b.c", prims);
    assert "bearer" + " " + "a.b.c" == "bearer a.b.c";
  }

  // ---------------------------------------------------------------------
  // Issuing and receiving

  /** The sections of an issued token, when issuance succeeds, are plain
      sections. */
  lemma IssuedSections(f: Factory, prims: Primitives, now: int, ttl: int, id: int,
                       username: string, email: string, roles: seq<string>)
    requires f.s != null && Lawful(prims)
    requires IssuanceSucceeds(f, prims, now, ttl, id, username, email, roles)
    ensures var hB64 := HeaderSegment(f, prims);
      var pB64 := PayloadSegment(f, prims, now, ttl, id, username, email, roles);
      PlainSection(hB64) && PlainSection(pB64) && PlainSection(SignatureSegment(f, prims, hB64, pB64))
  {
    var hB64 := HeaderSegment(f, prims);
    var pB64 := PayloadSegment(f, prims, now, ttl, id, username, email, roles);
    EncodedSegment(prims, prims.marshalHeader(IssuedHeader(f)).value);
    EncodedSegment(prims, prims.marshalPayload(IssuedPayload(f.s.Algorithm(), now, ttl, id, username, email, roles)).value);
    EncodedSegment(prims, f.s.Sign(SigningInput(hB64, pB64), prims).value);
  }

  /** A token the factory issued, presented as "Bearer <token>", is
      decoded to exactly the header and payload that were issued and its
      signature verifies with the same factory. */
  lemma IssuedTokenAccepted(f: Factory, prims: Primitives, now: int, ttl: int, id: int,
                            username: string, email: string, roles: seq<string>)
    requires WellFormed(f) && f.valid && Lawful(prims)
    requires IssuanceSucceeds(f, prims, now, ttl, id, username, email, roles)
    ensures var r := FromHeader("Bearer " + NewToken(f, prims, now, ttl, id, username, email, roles), prims);
      && r.Ok?
      && r.value.h == IssuedHeader(f)
      && r.value.p == IssuedPayload(f.s.Algorithm(), now, ttl, id, username, email, roles)
      && Verdict(f, r.value, prims) == Ok(true)
  {
    var hB64 := HeaderSegment(f, prims);
    var pB64 := PayloadSegment(f, prims, now, ttl, id, username, email, roles);
    var sig := SignatureSegment(f, prims, hB64, pB64);
    var h := IssuedHeader(f);
    var p := IssuedPayload(f.s.Algorithm(), now, ttl, id, username, email, roles);
    var rawH, rawP := prims.marshalHeader(h).value, prims.marshalPayload(p).value;
    IssuedSections(f, prims, now, ttl, id, username, email, roles);
    BearerReachesDecoding(hB64, pB64, sig, prims);
    assert prims.decode(hB64) == Ok(rawH);
    assert prims.unmarshalHeader(rawH) == Ok(h);
    assert prims.decode(pB64) == Ok(rawP);
    assert prims.unmarshalPayload(rawP) == Ok(p);
    assert DecodeSections(hB64, pB64, sig, prims) == Ok(Token(h, hB64, p, pB64, sig));
  }

  /** Replacing the signature of an issued token by any other plain
      section gives a token that still decodes but whose signature check
      fails. */
  lemma ForgedSignatureRefused(f: Factory, prims: Primitives, now: int, ttl: int, id: int,
                               username: string, email: string, roles: seq<string>, forged: string)
    requires WellFormed(f) && f.valid && Lawful(prims)
    requires IssuanceSucceeds(f, prims, now, ttl, id, username, email, roles)
    requires PlainSection(forged)
    requires var hB64 := HeaderSegment(f, prims);
      forged != SignatureSegment(f, prims, hB64, PayloadSegment(f, prims, now, ttl, id, username, email, roles))
    ensures var hB64 := HeaderSegment(f, prims);
      var pB64 := PayloadSegment(f, prims, now, ttl, id, username, email, roles);
      var r := FromHeader("Bearer " + Compact(hB64, pB64, forged), prims);
      r.Ok? && Verdict(f, r.value, prims) == Ok(false)
  {
    var hB64 := HeaderSegment(f, prims);
    var pB64 := PayloadSegment(f, prims, now, ttl, id, username, email, roles);
    IssuedSections(f, prims, now, ttl, id, username, email, roles);
    BearerReachesDecoding(hB64, pB64, forged, prims);
  }

  /** An issued token, once its signature has been checked (which
      IssuedTokenAccepted shows succeeds), is valid exactly strictly after
      the Unix second it was issued in and strictly before the Unix second
      it expires at, provided neither second is 0; the not-before reading
      plays no part, as no nbf is issued. In particular, issued after the
      first second of the epoch, it is valid at every instant after
      issuance up to one second before the requested expiry. */
  lemma IssuedTokenValid(f: Factory, prims: Primitives, now: int, ttl: int, id: int,
                         username: string, email: string, roles: seq<string>, later: int)
    requires WellFormed(f) && f.valid && Lawful(prims)
    requires IssuanceSucceeds(f, prims, now, ttl, id, username, email, roles)
    ensures var r := FromHeader("Bearer " + NewToken(f, prims, now, ttl, id, username, email, roles), prims);
      && r.Ok?
      && (ValidAt(r.value, true, later) <==>
            r.value.p.iat != 0 && r.value.p.exp != 0 && UnixNanos(r.value.p.iat) < later < UnixNanos(r.value.p.exp))
      && ValidAtPerRfc(r.value, true, later) == ValidAt(r.value, true, later)
      && (NanosPerSecond <= now < later <= now + ttl - NanosPerSecond ==> ValidAt(r.value, true, later))
  {
    IssuedTokenAccepted(f, prims, now, ttl, id, username, email, roles);
    IssuedClaims(f, now, ttl, id, username, email, roles);
  }
}
