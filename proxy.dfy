/**
 * The route guard of the web application (proxy.ts): which requests pass, and
 * where the others are sent. Session verification is a parameter.
 */
module Proxy {
  import opened Wrappers
  import opened Strings

  /** `NextResponse.next()` or a redirect to a path. */
  datatype Decision = Pass | Redirect(location: string)

  /** What `verifySession` gives for a valid token. */
  datatype Session = Session(userId: string, isAdmin: bool)

  predicate IsProtectedRoute(path: string) { StartsWith(path, "/chat") }

  predicate IsAdminRoute(path: string) { StartsWith(path, "/admin") }

  /**
   * `proxy`: the path, the `auth_token` cookie (absent or empty counts as
   * missing) and the session verifier decide.
   */
  function Guard(path: string, token: Option<string>, verifySession: string -> Option<Session>): (d: Decision)
    ensures d.Redirect? ==> d.location == "/login" || d.location == "/chat"
  {
    if IsProtectedRoute(path) || IsAdminRoute(path) then
      if token.None? || token.value == "" then Redirect("/login")
      else
        match verifySession(token.value)
        case None => Redirect("/login")
        case Some(session) =>
          if IsAdminRoute(path) && !session.isAdmin then Redirect("/chat") else Pass
    else Pass
  }

  /** An unguarded path passes without looking at the token. */
  lemma UnguardedPathsPass(path: string, token: Option<string>, verifySession: string -> Option<Session>)
    requires !IsProtectedRoute(path) && !IsAdminRoute(path)
    ensures Guard(path, token, verifySession) == Pass
  {
  }

  /** A guarded path without a token, or with one that does not verify, goes to the login page. */
  lemma GuardedNeedsValidToken(path: string, token: Option<string>, verifySession: string -> Option<Session>)
    requires IsProtectedRoute(path) || IsAdminRoute(path)
    ensures token.None? || token.value == "" ==> Guard(path, token, verifySession) == Redirect("/login")
    ensures token.Some? && verifySession(token.value).None? ==> Guard(path, token, verifySession) == Redirect("/login")
    ensures Guard(path, token, verifySession) == Redirect("/login") <==>
              token.None? || token.value == "" || verifySession(token.value).None?
  {
  }

  /**
   * With a valid session: an admin passes every path, a non-admin passes the chat
   * paths and is sent to `/chat` from the admin paths.
   */
  lemma ValidSessionDecides(path: string, t: string, s: Session, verifySession: string -> Option<Session>)
    requires t != "" && verifySession(t) == Some(s)
    ensures s.isAdmin ==> Guard(path, Some(t), verifySession) == Pass
    ensures !s.isAdmin && IsAdminRoute(path) ==> Guard(path, Some(t), verifySession) == Redirect("/chat")
    ensures !s.isAdmin && !IsAdminRoute(path) ==> Guard(path, Some(t), verifySession) == Pass
  {
  }

  /** The guard is a plain prefix test: `/chatter` and `/administrator` are guarded too. */
  lemma PrefixTestIsLoose(verifySession: string -> Option<Session>)
    ensures Guard("/chatter", None, verifySession) == Redirect("/login")
    ensures Guard("/administrator", None, verifySession) == Redirect("/login")
  {
    assert "/chatter"[..5] == "/chat";
    assert "/administrator"[..6] == "/admin";
  }

  /** A page outside the guarded prefixes, such as `/login`, is never redirected. */
  lemma LoginPagePasses(token: Option<string>, verifySession: string -> Option<Session>)
    ensures Guard("/login", token, verifySession) == Pass
  {
    assert "/login"[1] != "/chat"[1];
    assert "/login"[1] != "/admin"[1];
  }
}
