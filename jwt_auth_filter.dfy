/**
 * JwtAuthFilter.doFilterInternal: the per-request authentication step.
 * No `Authorization` header, or one that does not start with "Bearer ",
 * lets the request through anonymously; otherwise the text after the
 * prefix goes to the token verifier. A verified token binds the request
 * attribute `authPersonId` and lets the request through; a JwtException
 * sets status 401 and stops the request; any other exception from the
 * verifier leaves the filter.
 */
module JwtAuthFilter {
  import opened Wrappers
  import opened Model

  const BearerPrefix := "Bearer "
  const SC_UNAUTHORIZED := 401
  const SC_OK := 200

  /**
   * What JwtService.validateAndGetPersonId does with a token: returns the
   * subject's id, throws a JwtException (bad signature, malformed, expired),
   * or throws something else (for instance the IllegalArgumentException of
   * a subject that is not a UUID).
   */
  datatype Verification = Verified(personId: Uuid) | JwtRejected | Failed

  /** The four ways one pass through the filter can end. */
  datatype Decision =
    | Anonymous                      // chain invoked, nothing bound
    | Authenticated(personId: Uuid)  // authPersonId bound, chain invoked
    | Unauthorized                   // status 401, chain not invoked
    | Propagated                     // the verifier's exception leaves the filter

  /** String.startsWith("Bearer "): case-sensitive, trailing space included. */
  predicate HasBearerPrefix(header: string)
    ensures HasBearerPrefix(header) <==> exists token :: header == BearerPrefix + token
  {
    if |header| >= 7 && header[..7] == BearerPrefix then
      assert header == BearerPrefix + header[7..];
      true
    else
      assert forall token :: (BearerPrefix + token)[..7] == BearerPrefix;
      false
  }

  /** The decision the filter takes for a request's header and a verifier. */
  function Decide(header: Option<string>, verify: string -> Verification): (d: Decision)
    // a principal is bound only for a bearer header whose token the verifier accepted
    ensures d.Authenticated? ==>
      header.Some? && HasBearerPrefix(header.value) && verify(header.value[7..]) == Verified(d.personId)
    // a request is stopped only for a bearer header whose token raised a JwtException
    ensures d == Unauthorized <==>
      header.Some? && HasBearerPrefix(header.value) && verify(header.value[7..]) == JwtRejected
    ensures d == Anonymous <==> header.None? || !HasBearerPrefix(header.value)
    // and a verified token always binds the id it carries
    ensures header.Some? && HasBearerPrefix(header.value) && verify(header.value[7..]).Verified? ==>
      d == Authenticated(verify(header.value[7..]).personId)
    ensures d.Propagated? <==>
      header.Some? && HasBearerPrefix(header.value) && verify(header.value[7..]) == Failed
  {
    match header
    case None => Anonymous
    case Some(h) =>
      if !HasBearerPrefix(h) then Anonymous
      else
        match verify(h[7..])
        case Verified(id) => Authenticated(id)
        case JwtRejected => Unauthorized
        case Failed => Propagated
  }

  /** Whether the filter chain runs after this decision. */
  predicate ContinuesChain(d: Decision)
  {
    d.Anonymous? || d.Authenticated?
  }

  /** One HTTP exchange: the request header, the request attribute, the response status. */
  class Exchange {
    const authorization: Option<string>
    var authPersonId: Option<Uuid>
    var status: int
    var chainCalls: nat

    constructor (authorization: Option<string>)
      ensures this.authorization == authorization
      ensures authPersonId == None && status == SC_OK && chainCalls == 0
    {
      this.authorization := authorization;
      authPersonId := None;
      status := SC_OK;
      chainCalls := 0;
    }
  }

  /**
   * doFilterInternal. `chain.doFilter` is recorded by counting calls;
   * `escaped` is true when the verifier's exception leaves the filter.
   */
  method DoFilterInternal(ex: Exchange, verify: string -> Verification) returns (escaped: bool)
    modifies ex
    ensures var d := Decide(ex.authorization, verify);
      && ex.authPersonId == (if d.Authenticated? then Some(d.personId) else old(ex.authPersonId))
      && ex.status == (if d == Unauthorized then SC_UNAUTHORIZED else old(ex.status))
      && ex.chainCalls == old(ex.chainCalls) + (if ContinuesChain(d) then 1 else 0)
      && escaped == d.Propagated?
    // the chain runs and 401 is set never both in one pass
    ensures ex.chainCalls == old(ex.chainCalls) || ex.status == old(ex.status)
  {
    var header := ex.authorization;
    if header.Some? && HasBearerPrefix(header.value) {
      var token := header.value[7..];
      var v := verify(token);
      match v {
        case Verified(personId) =>
          ex.authPersonId := Some(personId);
        case JwtRejected =>
          ex.status := SC_UNAUTHORIZED;
          return false;
        case Failed =>
          return true;
      }
    }
    ex.chainCalls := ex.chainCalls + 1;
    escaped := false;
  }

  /** With no Authorization header the request goes on anonymously. */
  lemma NoHeaderIsAnonymous(verify: string -> Verification)
    ensures Decide(None, verify) == Anonymous
    ensures ContinuesChain(Decide(None, verify))
  {
  }

  /** The scheme is matched case-sensitively: "bearer " is not a bearer header. */
  lemma LowercaseSchemeIsAnonymous(token: string, verify: string -> Verification)
    ensures Decide(Some("bearer " + token), verify) == Anonymous
  {
    assert ("bearer " + token)[0] == 'b';
  }

  /** The space belongs to the prefix: "Bearer" followed by a non-space is not a bearer header. */
  lemma SchemeWithoutSpaceIsAnonymous(token: string, verify: string -> Verification)
    requires |token| > 0 && token[0] != ' '
    ensures Decide(Some("Bearer" + token), verify) == Anonymous
  {
    assert ("Bearer" + token)[6] == token[0];
  }

  /** The verifier is handed the header minus its prefix: "Bearer " + t verifies t. */
  lemma TokenIsTextAfterPrefix(token: string, verify: string -> Verification)
    ensures Decide(Some(BearerPrefix + token), verify) ==
      match verify(token)
      case Verified(id) => Authenticated(id)
      case JwtRejected => Unauthorized
      case Failed => Propagated
  {
    var h := BearerPrefix + token;
    assert h[..7] == BearerPrefix;
    assert h[7..] == token;
  }

  /**
   * The chain runs exactly when there is no bearer header or the verifier
   * accepts its token; a rejected or failing token never reaches it.
   */
  lemma ChainRunsExactlyWhen(header: Option<string>, verify: string -> Verification)
    ensures ContinuesChain(Decide(header, verify)) <==>
      header.None? || !HasBearerPrefix(header.value) || verify(header.value[7..]).Verified?
  {
  }
}
