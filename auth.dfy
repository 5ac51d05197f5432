/**
 * Reading the bearer token of a request and the checks made before its user is
 * looked up (auth.ts). Verifying the token's signature and the database lookup
 * are parameters.
 */
module Auth {
  import opened Wrappers
  import opened Strings

  const BearerPrefix: string := "Bearer "

  /** `extractToken`: the header after `Bearer `, or nothing. */
  function ExtractToken(authHeader: Option<string>): (token: Option<string>)
    ensures token.Some? <==> authHeader.Some? && StartsWith(authHeader.value, BearerPrefix)
    ensures token.Some? ==> authHeader.value == BearerPrefix + token.value
  {
    if authHeader.None? || !StartsWith(authHeader.value, BearerPrefix) then None
    else
      var h := authHeader.value;
      assert h == h[..7] + h[7..];
      Some(h[7..])
  }

  /** Every token, the empty one included, survives being put in a header and read back. */
  lemma ExtractTokenRoundTrip(t: string)
    ensures ExtractToken(Some(BearerPrefix + t)) == Some(t)
  {
    var h := BearerPrefix + t;
    assert h[..7] == BearerPrefix;
  }

  /** The prefix is case-sensitive and needs its space: `bearer x` and `Bearerx` give nothing. */
  lemma ExtractTokenNeedsExactPrefix()
    ensures ExtractToken(Some("bearer x")) == None
    ensures ExtractToken(Some("Bearerx")) == None
    ensures ExtractToken(None) == None
  {
    assert "bearer x"[0] != BearerPrefix[0];
    assert "Bearerx"[6] != BearerPrefix[6];
  }

  /** What a verified token carries. */
  datatype Payload = Payload(userId: string, email: string, username: string)

  /**
   * `getUserFromRequest`: no user without a non-empty token or without a
   * verified payload; otherwise the user the payload names.
   */
  function UserFromRequest<U>(authHeader: Option<string>, verifyToken: string -> Option<Payload>,
                              findUser: string -> Option<U>): (user: Option<U>)
    ensures user.Some? ==>
              var t := ExtractToken(authHeader);
              t.Some? && t.value != "" && verifyToken(t.value).Some? && user == findUser(verifyToken(t.value).value.userId)
  {
    var token := ExtractToken(authHeader);
    if token.None? || token.value == "" then None
    else
      match verifyToken(token.value)
      case None => None
      case Some(payload) => findUser(payload.userId)
  }

  /** A header of exactly `Bearer ` gives the empty token, which ends the request before any verification. */
  lemma BareBearerHasNoUser<U>(verifyToken: string -> Option<Payload>, findUser: string -> Option<U>)
    ensures ExtractToken(Some(BearerPrefix)) == Some("")
    ensures UserFromRequest(Some(BearerPrefix), verifyToken, findUser) == None
  {
    ExtractTokenRoundTrip("");
    assert BearerPrefix + "" == BearerPrefix;
  }

  /** A verified token is looked up by the id it carries. */
  lemma VerifiedTokenIsLookedUp<U>(t: string, p: Payload, verifyToken: string -> Option<Payload>,
                                   findUser: string -> Option<U>)
    requires t != "" && verifyToken(t) == Some(p)
    ensures UserFromRequest(Some(BearerPrefix + t), verifyToken, findUser) == findUser(p.userId)
  {
    ExtractTokenRoundTrip(t);
  }
}
