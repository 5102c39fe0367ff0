/** The token record of jwt/jwt.go: header, payload with its private
    application block, the raw base64url segments as received, and the
    flag recording that the signature was checked in this process.
    `IsValid` is the claim and time predicate; the clock is a parameter
    measured in nanoseconds since the Unix epoch. */
module JwtToken {
  import opened Common

  /** The error kinds of package jwt, plus errors passed through unchanged
      from the base64, JSON and HMAC libraries. */
  datatype Error =
    | MissingAuthHeader
    | BadRequest
    | NotBearer
    | NotJWT
    | Unauthorized
    | BadFactory
    | Foreign(reason: string)

  datatype Header = Header(alg: string, typ: string, cty: string, kid: string)

  /** The application block, which repeats the header's alg and typ. */
  datatype Private = Private(
    alg: string, typ: string, id: int, username: string, email: string, roles: seq<string>)

  /** Registered claims; the four time values are Unix seconds. */
  datatype Payload = Payload(
    iss: string, sub: string, aud: seq<string>,
    exp: int, nbf: int, iat: int, jti: string, priv: Private)

  /** Everything a JWT holds except the verification flag. */
  datatype Token = Token(h: Header, hB64: string, p: Payload, pB64: string, s: string)

  datatype Data = Data(id: int, username: string, email: string, roles: seq<string>)

  /** A received token. Only Validate changes it, and only `isSigned`. */
  class JWT {
    var tok: Token
    var isSigned: bool

    constructor (t: Token)
      ensures tok == t && !isSigned
    {
      tok := t;
      isSigned := false;
    }

    /** The identity carried by the private block. */
    function Data(): (d: Data)
      reads this
      ensures d.id == tok.p.priv.id && d.username == tok.p.priv.username
      ensures d.email == tok.p.priv.email && d.roles == tok.p.priv.roles
    {
      DataOf(tok.p.priv)
    }
  }

  function DataOf(priv: Private): Data
  {
    Data(priv.id, priv.username, priv.email, priv.roles)
  }

  const NanosPerSecond: int := 1_000_000_000

  /** time.Unix(sec, 0) on the nanosecond clock. */
  function UnixNanos(sec: int): int
  {
    sec * NanosPerSecond
  }

  /** The body of IsValid once the token is known to be non-nil, as the
      source writes it: the not-before test rejects a token once `now` has
      REACHED nbf. */
  predicate ValidAt(t: Token, signed: bool, now: int)
  {
    if !signed || t.h.alg != t.p.priv.alg || t.h.typ != t.p.priv.typ then false
    else if t.p.nbf != 0 && !(now < UnixNanos(t.p.nbf)) then false
    else if t.p.iat == 0 then false
    else if !(now > UnixNanos(t.p.iat)) then false
    else if t.p.exp == 0 then false
    else if !(UnixNanos(t.p.exp) > now) then false
    else true
  }

  /** JWT.IsValid: false for a nil token, otherwise ValidAt. */
  predicate IsValid(j: JWT?, now: int)
    reads j
  {
    j != null && ValidAt(j.tok, j.isSigned, now)
  }

  /** The not-before test as section 4.1.5 of RFC 7519 defines it: the
      token must not be accepted BEFORE nbf. Everything else is as in
      ValidAt. */
  predicate ValidAtPerRfc(t: Token, signed: bool, now: int)
  {
    if !signed || t.h.alg != t.p.priv.alg || t.h.typ != t.p.priv.typ then false
    else if t.p.nbf != 0 && now < UnixNanos(t.p.nbf) then false
    else if t.p.iat == 0 then false
    else if !(now > UnixNanos(t.p.iat)) then false
    else if t.p.exp == 0 then false
    else if !(UnixNanos(t.p.exp) > now) then false
    else true
  }

  predicate IsValidPerRfc(j: JWT?, now: int)
    reads j
  {
    j != null && ValidAtPerRfc(j.tok, j.isSigned, now)
  }

  /** The checks of IsValid, all of which must pass. */
  lemma ValidAtMeans(t: Token, signed: bool, now: int)
    ensures ValidAt(t, signed, now) <==>
      && signed
      && t.h.alg == t.p.priv.alg && t.h.typ == t.p.priv.typ
      && (t.p.nbf == 0 || now < t.p.nbf * NanosPerSecond)
      && t.p.iat != 0 && now > t.p.iat * NanosPerSecond
      && t.p.exp != 0 && t.p.exp * NanosPerSecond > now
  {
  }

  /** A token whose exp is the current instant, or earlier, is expired;
      so is one with no exp at all. */
  lemma ExpiryBoundary(t: Token, signed: bool, now: int)
    requires t.p.exp == 0 || t.p.exp * NanosPerSecond <= now
    ensures !ValidAt(t, signed, now) && !ValidAtPerRfc(t, signed, now)
  {
  }

  /** After the epoch, a token that is usable now stays usable when its
      exp is replaced by the next whole second after `now`. (Just before
      the epoch that second is 0, which reads as "no exp".) */
  lemma ExpiryOneSecondAhead(t: Token, signed: bool, now: int)
    requires 0 <= now
    requires ValidAt(t, signed, now)
    ensures ValidAt(t.(p := t.p.(exp := now / NanosPerSecond + 1)), signed, now)
  {
    var e := now / NanosPerSecond + 1;
    assert e * NanosPerSecond > now;
  }

  /** Reading nbf as the RFC does changes only the not-before test. */
  lemma PerRfcDiffersOnlyInNotBefore(t: Token, signed: bool, now: int)
    ensures ValidAtPerRfc(t, signed, now) <==>
      ValidAt(t.(p := t.p.(nbf := 0)), signed, now) && (t.p.nbf == 0 || now >= UnixNanos(t.p.nbf))
    ensures ValidAt(t, signed, now) <==>
      ValidAt(t.(p := t.p.(nbf := 0)), signed, now) && (t.p.nbf == 0 || now < UnixNanos(t.p.nbf))
  {
  }

  /** The corrected predicate never accepts a token before its nbf, and
      an nbf already reached never counts against it. */
  lemma PerRfcHonoursNotBefore(t: Token, signed: bool, now: int)
    ensures t.p.nbf != 0 && now < UnixNanos(t.p.nbf) ==> !ValidAtPerRfc(t, signed, now)
    ensures now >= UnixNanos(t.p.nbf) ==>
      (ValidAtPerRfc(t, signed, now) <==> ValidAt(t.(p := t.p.(nbf := 0)), signed, now))
  {
  }

  /** jwt.go line 48 as written: a token whose nbf lies in the future is
      accepted, and the same token is refused once nbf has passed. */
  lemma NotBeforeInverted()
    ensures
      var priv := Private("HS256", "JWT", 1, "u", "e", []);
      var t := Token(Header("HS256", "JWT", "", ""), "h", Payload("", "", [], 300, 200, 100, "", priv), "p", "s");
      && ValidAt(t, true, 150 * NanosPerSecond)
      && !ValidAtPerRfc(t, true, 150 * NanosPerSecond)
      && !ValidAt(t, true, 250 * NanosPerSecond)
      && ValidAtPerRfc(t, true, 250 * NanosPerSecond)
  {
  }
}
