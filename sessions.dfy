/** handlers/sessions.go: the authentication middleware. It accepts a
    request whose bearer token decodes and carries a good signature, and
    passes on a session built from the token's private block under the
    context key "session". */
module Sessions {
  import opened Common
  import opened JwtToken
  import opened JwtPrimitives
  import opened JwtFactory
  import opened JwtHttp

  datatype Session = Session(authenticated: bool, speciesId: int, roles: map<string, bool>)

  /** Context keys: the middleware's own key and keys of other packages. */
  datatype ContextKey = SessionKey | OtherKey(name: string)

  /** A context value: a session, or anything else. */
  datatype ContextValue = SessionValue(session: Session) | OtherValue

  type Context = map<ContextKey, ContextValue>

  /** What the middleware does with a request: refuse it with a status and
      the error, or call the wrapped handler with a new context. */
  datatype Outcome = Refused(status: int, err: Error) | Forwarded(ctx: Context)

  const StatusUnauthorized: int := 401

  /** GetSession: the session stored under the session key, if the value
      there is a session. */
  function GetSession(ctx: Context): (r: Option<Session>)
    ensures r.Some? <==> SessionKey in ctx && ctx[SessionKey].SessionValue?
    ensures r.Some? ==> ctx[SessionKey] == SessionValue(r.value)
  {
    if SessionKey in ctx && ctx[SessionKey].SessionValue? then Some(ctx[SessionKey].session) else None
  }

  /** Every listed role maps to true; no other role is present. */
  function RoleMap(roles: seq<string>): (m: map<string, bool>)
    ensures forall r :: r in m <==> r in roles
    ensures forall r :: r in m ==> m[r]
  {
    map r | r in roles :: true
  }

  /** The session the middleware builds from a token. */
  function SessionOf(t: Token): Session
  {
    Session(true, t.p.priv.id, RoleMap(t.p.priv.roles))
  }

  /** The token a request is admitted with: it must decode and its
      signature must verify; nothing else is required of it. */
  function Admission(auth: string, f: Factory, prims: Primitives): (r: Result<Token, Error>)
    requires WellFormed(f)
    reads Footprint(f)
    ensures r.Ok? <==> FromHeader(auth, prims).Ok? && Verdict(f, FromHeader(auth, prims).value, prims) == Ok(true)
    ensures r.Ok? ==> r == FromHeader(auth, prims)
  {
    match FromHeader(auth, prims)
    case Err(e) => Err(e)
    case Ok(t) =>
      match Verdict(f, t, prims)
      case Err(e) => Err(e)
      case Ok(signed) => if signed then Ok(t) else Err(Unauthorized)
  }

  /** Authenticate, for one request with Authorization value `auth` and
      context `ctx`. */
  method Authenticate(auth: string, f: Factory, prims: Primitives, ctx: Context) returns (out: Outcome)
    requires WellFormed(f)
    ensures Admission(auth, f, prims).Err? ==>
      out == Refused(StatusUnauthorized, Admission(auth, f, prims).error)
    ensures Admission(auth, f, prims).Ok? ==>
      out == Forwarded(ctx[SessionKey := SessionValue(SessionOf(Admission(auth, f, prims).value))])
  {
    var parsed := FromHeader(auth, prims);
    if parsed.Err? {
      return Refused(StatusUnauthorized, parsed.error);
    }
    var j := new JWT(parsed.value);
    var err := Validate(f, j, prims);
    if err.Some? {
      return Refused(StatusUnauthorized, err.value);
    }
    assert Admission(auth, f, prims) == Ok(j.tok);
    var data := j.Data();
    var roles := GrantRoles(data.roles);
    var s := Session(true, data.id, roles);
    return Forwarded(ctx[SessionKey := SessionValue(s)]);
  }

  /** The loop that fills the session's role map. */
  method GrantRoles(list: seq<string>) returns (roles: map<string, bool>)
    ensures roles == RoleMap(list)
  {
    roles := map[];
    var i := 0;
    while i < |list|
      invariant 0 <= i <= |list|
      invariant forall r :: r in roles <==> r in list[..i]
      invariant forall r :: r in roles ==> roles[r]
    {
      roles := roles[list[i] := true];
      i := i + 1;
    }
    assert list[..i] == list;
  }

  /** Behind the middleware, the handler finds the session of the token
      it was admitted with: authenticated, the token's species id, and
      exactly the token's roles, each granted. The rest of the context is
      unchanged. */
  lemma HandlerSeesTokenSession(t: Token, ctx: Context)
    ensures var out := ctx[SessionKey := SessionValue(SessionOf(t))];
      && GetSession(out).Some?
      && GetSession(out).value.authenticated
      && GetSession(out).value.speciesId == t.p.priv.id
      && (forall r :: r in GetSession(out).value.roles <==> r in t.p.priv.roles)
      && (forall r :: r in GetSession(out).value.roles ==> GetSession(out).value.roles[r])
      && (forall k :: k in ctx && k != SessionKey ==> k in out && out[k] == ctx[k])
  {
  }

  /** Authenticate does not look at the time claims: a token issued with
      a non-positive time-to-live is already expired by IsValid's rules at
      every instant from issuance on, yet it is admitted. */
  lemma ExpiredTokenAdmitted(f: Factory, prims: Primitives, now: int, ttl: int, later: int, id: int,
                             username: string, email: string, roles: seq<string>)
    requires WellFormed(f) && f.valid && Lawful(prims)
    requires IssuanceSucceeds(f, prims, now, ttl, id, username, email, roles)
    requires ttl <= 0 && later >= now
    ensures var a := Admission("Bearer " + NewToken(f, prims, now, ttl, id, username, email, roles), f, prims);
      a.Ok? && !ValidAt(a.value, true, later) && !ValidAtPerRfc(a.value, true, later)
  {
    IssuedTokenAccepted(f, prims, now, ttl, id, username, email, roles);
    var p := IssuedPayload(f.s.Algorithm(), now, ttl, id, username, email, roles);
    IssuedClaims(f, now, ttl, id, username, email, roles);
    assert UnixNanos(p.exp) <= later;
  }

  /** The middleware with the claim check it is missing: after the
      signature, the token must also be valid at `now` (with nbf read as
      section 4.1.5 of RFC 7519 defines it). */
  method AuthenticateEnforcingClaims(auth: string, f: Factory, prims: Primitives, ctx: Context, now: int)
    returns (out: Outcome)
    requires WellFormed(f)
    ensures Admission(auth, f, prims).Err? ==>
      out == Refused(StatusUnauthorized, Admission(auth, f, prims).error)
    ensures Admission(auth, f, prims).Ok? && !ValidAtPerRfc(Admission(auth, f, prims).value, true, now) ==>
      out == Refused(StatusUnauthorized, Unauthorized)
    ensures Admission(auth, f, prims).Ok? && ValidAtPerRfc(Admission(auth, f, prims).value, true, now) ==>
      out == Forwarded(ctx[SessionKey := SessionValue(SessionOf(Admission(auth, f, prims).value))])
  {
    var parsed := FromHeader(auth, prims);
    if parsed.Err? {
      return Refused(StatusUnauthorized, parsed.error);
    }
    var j := new JWT(parsed.value);
    var err := Validate(f, j, prims);
    if err.Some? {
      return Refused(StatusUnauthorized, err.value);
    }
    assert Admission(auth, f, prims) == Ok(j.tok);
    if !IsValidPerRfc(j, now) {
      return Refused(StatusUnauthorized, Unauthorized);
    }
    out := Authenticate(auth, f, prims, ctx);
  }
}
