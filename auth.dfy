/** The bearer-token gate of internal/middleware/auth.go. Token verification
    (parsing the JWT and checking its signature with the configured secret)
    is the parameter `verify`. */
module Auth {

  import opened Wrappers
  import opened Http

  const BearerPrefix: string := "Bearer "

  /** The token of an Authorization header: the header minus an exact,
      case-sensitive "Bearer " prefix; None when the header does not start with it.
      A missing header is the empty string. */
  function BearerToken(header: string): (t: Option<string>)
    ensures t.Some? ==> header == BearerPrefix + t.value
    ensures t.None? ==> forall token :: header != BearerPrefix + token
  {
    if |header| < |BearerPrefix| || header[..|BearerPrefix|] != BearerPrefix then None
    else
      assert header == header[..|BearerPrefix|] + header[|BearerPrefix|..];
      Some(header[|BearerPrefix|..])
  }

  /** Stripping the prefix undoes adding it. */
  lemma BearerTokenRoundTrip(token: string)
    ensures BearerToken(BearerPrefix + token) == Some(token)
  {
    var h := BearerPrefix + token;
    assert h[..|BearerPrefix|] == BearerPrefix;
    assert h[|BearerPrefix|..] == token;
  }

  /** A header that differs from "Bearer " in one of its first seven
      characters (another case, a leading space, another scheme) has no token. */
  lemma PrefixMismatchHasNoToken(header: string, i: nat)
    requires i < |BearerPrefix| <= |header| && header[i] != BearerPrefix[i]
    ensures BearerToken(header) == None
  {
    assert header[..|BearerPrefix|][i] == header[i];
  }

  /** A header of exactly "Bearer " passes the prefix check with an empty token. */
  lemma BarePrefixGivesEmptyToken()
    ensures BearerToken("Bearer ") == Some("")
  {
    BearerTokenRoundTrip("");
    assert BearerPrefix + "" == "Bearer ";
  }

  /** What the middleware does with the request: pass it on to the next
      handler, or abort it with a response. */
  datatype Outcome = Next | Abort(response: Response)

  function AuthMiddleware(header: string, verify: string -> bool): (o: Outcome)
    ensures o == Next <==> exists token :: header == BearerPrefix + token && verify(token)
    ensures BearerToken(header).None? ==>
      o == Abort(Response(StatusUnauthorized, ErrorJson("Missing or invalid token")))
    ensures BearerToken(header).Some? && !verify(BearerToken(header).value) ==>
      o == Abort(Response(StatusUnauthorized, ErrorJson("Invalid token")))
  {
    match BearerToken(header)
    case None => Abort(Response(StatusUnauthorized, ErrorJson("Missing or invalid token")))
    case Some(token) =>
      if verify(token) then Next
      else Abort(Response(StatusUnauthorized, ErrorJson("Invalid token")))
  }

  /** A header shorter than the prefix is refused before any verification. */
  lemma ShortHeaderRejected(header: string, verify: string -> bool)
    requires |header| < |BearerPrefix|
    ensures AuthMiddleware(header, verify) == Abort(Response(StatusUnauthorized, ErrorJson("Missing or invalid token")))
  {
  }

  /** Only the token decides once the prefix is right: "Bearer " + t passes iff t verifies. */
  lemma PrefixedHeader(token: string, verify: string -> bool)
    ensures AuthMiddleware(BearerPrefix + token, verify) ==
      if verify(token) then Next
      else Abort(Response(StatusUnauthorized, ErrorJson("Invalid token")))
  {
    BearerTokenRoundTrip(token);
  }
}
