/**
 * Blazor/Services/APIService.cs: `CreateAuthenticatedRequest`, the one place
 * where the session decides what the client sends to the API.
 */
module ApiService {
  import opened Wrappers
  import Session
  import SecureStorage

  /** `AuthenticationHeaderValue(scheme, parameter)`. */
  datatype AuthenticationHeader = AuthenticationHeader(scheme: string, parameter: string)

  /** The parts of an `HttpRequestMessage` the method sets. */
  datatype Request = Request(httpMethod: string, url: string, authorization: Option<AuthenticationHeader>)

  /**
   * `CreateAuthenticatedRequest(method, url)` over the fields of the service's
   * `AuthState`, which it only reads: a request for exactly `httpMethod` and `url`,
   * with a Bearer header carrying the token exactly when the session is logged
   * in and holds a non-empty token.
   */
  function CreateAuthenticatedRequest(session: Session.Fields, httpMethod: string, url: string): (r: Request)
    ensures r.httpMethod == httpMethod && r.url == url
    ensures r.authorization.Some? <==> session.isLoggedIn && !IsNullOrEmpty(session.jwtToken)
    ensures r.authorization.Some? ==> r.authorization.value == AuthenticationHeader("Bearer", session.jwtToken.value)
  {
    var request := Request(httpMethod, url, None);
    if session.isLoggedIn && !IsNullOrEmpty(session.jwtToken) then
      request.(authorization := Some(AuthenticationHeader("Bearer", session.jwtToken.value)))
    else request
  }

  /** The logged part of the token, `Substring(0, Math.Min(50, token.Length))`: never out of range. */
  function LoggedTokenPrefix(token: string): (p: string)
    ensures |p| == if |token| < 50 then |token| else 50
    ensures p <= token
  {
    token[..if 50 < |token| then 50 else |token|]
  }

  /** A logged-out session sends no credentials. */
  lemma NoHeaderAfterLogout(s: Session.Fields, httpMethod: string, url: string)
    ensures CreateAuthenticatedRequest(Session.LoggedOut(s), httpMethod, url).authorization == None
  {
  }

  /** After a JWT login with a non-empty token every request carries exactly that token, whatever the payload. */
  lemma BearerAfterJwtLogin(s: Session.Fields, token: string, payload: Option<Session.JwtPayload>, httpMethod: string, url: string)
    requires token != ""
    ensures CreateAuthenticatedRequest(Session.JwtLoggedIn(s, token, payload), httpMethod, url).authorization ==
      Some(AuthenticationHeader("Bearer", token))
  {
  }

  /** A name-and-roles login brings no credentials of its own: a header is sent exactly when a token was already held. */
  lemma LoginKeepsToken(s: Session.Fields, userName: string, roles: Option<seq<string>>, httpMethod: string, url: string)
    ensures var r := CreateAuthenticatedRequest(Session.LoggedIn(s, userName, roles), httpMethod, url);
      (r.authorization.Some? <==> !IsNullOrEmpty(s.jwtToken)) &&
      (r.authorization.Some? ==> r.authorization.value.parameter == s.jwtToken.value)
  {
  }

  /**
   * A session restored after a JWT login whose token did not decode is
   * logged in, yet its requests carry no Authorization header.
   */
  lemma NoHeaderAfterUndecodedReload(store: SecureStorage.Store, aes: SecureStorage.Aes, json: Session.Json,
                                     s: Session.Fields, token: string, httpMethod: string, url: string)
    requires SecureStorage.Sound(aes) && Session.Sound(json)
    requires Session.InvokeDecodeJwt(token, json).JsNull?
    ensures var after := Session.JwtLoggedIn(s, token, None);
      var saved := Session.StoreAfterSave(SecureStorage.SetJwtToken(store, aes, token), aes, json, after);
      var reloaded := Session.Loaded(Session.Initial, saved, aes, json);
      reloaded.isLoggedIn && CreateAuthenticatedRequest(reloaded, httpMethod, url).authorization == None
  {
    Session.UndecodedJwtLoginThenReload(store, aes, json, s, token);
  }
}
