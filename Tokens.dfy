/// The marketplace token lifecycle of app_aliexpress/views.py, kept in the
/// session under three keys: the `token_required` gate, the authorization-code
/// exchange of `callback_aliexpress` (section 4.1 of RFC 6749) and the refresh of
/// `refresh_aliexpress_token` (section 6 of RFC 6749).
///
/// Each is a function from the old session entries to a `Step` (new entries,
/// the response, and what was sent to the remote endpoint), and a method that
/// performs the same writes on a `Session` one key at a time, in the order the
/// views do. The clock is the parameter `now` (`int(time.time())`); the remote
/// endpoints are function parameters, and each call ends in a reply or in the
/// exception the client raised.
module Tokens {
  import opened PyValues
  import opened Web

  const ACCESS_TOKEN_KEY := "aliexpress_access_token"
  const REFRESH_TOKEN_KEY := "aliexpress_refresh_token"
  const EXPIRE_IN_KEY := "aliexpress_expire_in"

  /** Lead time before expiry at which the gate refreshes. */
  const SKEW_SECONDS := 60

  const AUTHORIZATION_PATH := "/aliexpress/authorization/"
  const DASHBOARD_PATH := "/aliexpress/dashboard/"

  /** What a view hands back to the framework. `redirect(path, {"error": ...})` with a
      literal path ignores the dict, so a redirect is its path alone; an exception
      that escapes the view becomes a server error. */
  datatype Response = Redirect(path: string) | ServerError(raised: Exception)

  /** How a `client.execute` call ends: with the endpoint's reply, or with the
      exception the client raised (a transport failure, say). */
  datatype Remote<T> = Answered(reply: T) | CallRaised(raised: Exception)

  /** The body of a `/auth/token/refresh` reply: JSON text of an object, text
      `json.loads` rejects, or a dict the client already decoded (on which
      `json.loads` raises TypeError). */
  datatype Body = JsonObject(fields: map<string, Json>) | NotJson | Decoded(dict: map<string, Json>)

  /** A `/auth/token/refresh` reply: its `type` and its body. */
  datatype RefreshReply = RefreshReply(kind: string, body: Body)

  /** The session entries after a call, the response, and the value sent to the remote endpoint (None: no call). */
  datatype Step = Step(entries: map<string, Json>, response: Response, sent: Option<Json>)

  /** The comparison `now + 60 >= expire_in` works for int and bool; anything else raises TypeError. */
  function NumberValue(v: Json): Option<int> {
    match v
    case JInt(i) => Some(i)
    case JBool(b) => Some(if b then 1 else 0)
    case _ => None
  }

  // ---------------------------------------------------------------------
  // refresh_aliexpress_token
  // ---------------------------------------------------------------------

  /** A reply that passes the refresh's checks: type "success", a JSON object
      holding `access_token` and `expires_in`. */
  predicate RefreshComplete(answer: Remote<RefreshReply>) {
    && answer.Answered?
    && answer.reply.kind == "success"
    && answer.reply.body.JsonObject?
    && "access_token" in answer.reply.body.fields
    && "expires_in" in answer.reply.body.fields
  }

  /** A reply the refresh accepts: complete, and `int()` converts its `expires_in`. */
  predicate RefreshAccepted(answer: Remote<RefreshReply>) {
    RefreshComplete(answer) && ToInt(answer.reply.body.fields["expires_in"]).Converted?
  }

  /** A "success" reply whose body the client had already decoded. */
  predicate PreDecoded(answer: Remote<RefreshReply>) {
    answer.Answered? && answer.reply.kind == "success" && answer.reply.body.Decoded?
  }

  /** `refresh_aliexpress_token(request)` on the session entries. */
  function TokenRefresh(entries: map<string, Json>, now: int, server: Json -> Remote<RefreshReply>): (r: Step)
    // no refresh token: no remote call, session untouched
    ensures !Truthy(Get(entries, REFRESH_TOKEN_KEY)) ==> r == Step(entries, Redirect(AUTHORIZATION_PATH), None)
    ensures Truthy(Get(entries, REFRESH_TOKEN_KEY)) ==> r.sent == Some(entries[REFRESH_TOKEN_KEY])
    // every way back to authorization leaves the session as it was
    ensures r.response == Redirect(AUTHORIZATION_PATH) ==> r.entries == entries
    ensures r.response == Redirect(DASHBOARD_PATH) <==>
              Truthy(Get(entries, REFRESH_TOKEN_KEY)) && RefreshAccepted(server(entries[REFRESH_TOKEN_KEY]))
    ensures r.response.Redirect? ==> r.response.path in {AUTHORIZATION_PATH, DASHBOARD_PATH}
    // success: new access token and expiry; the refresh token changes only for a non-empty new one
    ensures r.response == Redirect(DASHBOARD_PATH) ==>
              var fields := server(entries[REFRESH_TOKEN_KEY]).reply.body.fields;
              var newRefresh := Get(fields, "refresh_token");
              && r.entries.Keys == entries.Keys + {ACCESS_TOKEN_KEY, EXPIRE_IN_KEY}
              && r.entries[ACCESS_TOKEN_KEY] == fields["access_token"]
              && r.entries[EXPIRE_IN_KEY] == JInt(now + ToInt(fields["expires_in"]).value)
              && r.entries[REFRESH_TOKEN_KEY] == (if Truthy(newRefresh) then newRefresh else entries[REFRESH_TOKEN_KEY])
              && (forall k :: k in entries && k !in {ACCESS_TOKEN_KEY, EXPIRE_IN_KEY, REFRESH_TOKEN_KEY} ==> r.entries[k] == entries[k])
    // the call raising, or `json.loads` refusing a decoded dict: the exception escapes, nothing written
    ensures Truthy(Get(entries, REFRESH_TOKEN_KEY)) && server(entries[REFRESH_TOKEN_KEY]).CallRaised? ==>
              r == Step(entries, ServerError(server(entries[REFRESH_TOKEN_KEY]).raised), r.sent)
    ensures Truthy(Get(entries, REFRESH_TOKEN_KEY)) && PreDecoded(server(entries[REFRESH_TOKEN_KEY])) ==>
              r == Step(entries, ServerError(TypeError), r.sent)
    // `int(expires_in)` failing after the access token was written: that write stays
    ensures Truthy(Get(entries, REFRESH_TOKEN_KEY)) && RefreshComplete(server(entries[REFRESH_TOKEN_KEY]))
            && !RefreshAccepted(server(entries[REFRESH_TOKEN_KEY])) ==>
              var fields := server(entries[REFRESH_TOKEN_KEY]).reply.body.fields;
              r == Step(entries[ACCESS_TOKEN_KEY := fields["access_token"]],
                        ServerError(ToInt(fields["expires_in"]).error), r.sent)
    // and those are the only ways to a server error
    ensures r.response.ServerError? ==>
              && Truthy(Get(entries, REFRESH_TOKEN_KEY))
              && var answer := server(entries[REFRESH_TOKEN_KEY]);
                 answer.CallRaised? || PreDecoded(answer) || (RefreshComplete(answer) && !RefreshAccepted(answer))
  {
    var refreshToken := Get(entries, REFRESH_TOKEN_KEY);
    if !Truthy(refreshToken) then Step(entries, Redirect(AUTHORIZATION_PATH), None)
    else
      var sent := Some(refreshToken);
      match server(refreshToken)
      case CallRaised(e) => Step(entries, ServerError(e), sent)
      case Answered(reply) =>
      if reply.kind != "success" || reply.body.NotJson? then Step(entries, Redirect(AUTHORIZATION_PATH), sent)
      else if reply.body.Decoded? then Step(entries, ServerError(TypeError), sent)
      else
        var data := reply.body.fields;
        if !("access_token" in data && "expires_in" in data) then Step(entries, Redirect(AUTHORIZATION_PATH), sent)
        else
          var withAccess := entries[ACCESS_TOKEN_KEY := data["access_token"]];
          match ToInt(data["expires_in"])
          case Raised(e) => Step(withAccess, ServerError(e), sent)
          case Converted(n) =>
            var withExpiry := withAccess[EXPIRE_IN_KEY := JInt(now + n)];
            var newRefreshToken := Get(data, "refresh_token");
            var final := if Truthy(newRefreshToken) then withExpiry[REFRESH_TOKEN_KEY := newRefreshToken] else withExpiry;
            Step(final, Redirect(DASHBOARD_PATH), sent)
  }

  method RefreshAliexpressToken(session: Session, now: int, server: Json -> Remote<RefreshReply>)
    returns (response: Response, sent: Option<Json>)
    modifies session
    ensures Step(session.entries, response, sent) == TokenRefresh(old(session.entries), now, server)
  {
    var refreshToken := session.Lookup(REFRESH_TOKEN_KEY);
    if !Truthy(refreshToken) {
      return Redirect(AUTHORIZATION_PATH), None;
    }
    sent := Some(refreshToken);
    var answer := server(refreshToken);
    if answer.CallRaised? {
      return ServerError(answer.raised), sent;
    }
    var reply := answer.reply;
    if reply.kind != "success" {
      return Redirect(AUTHORIZATION_PATH), sent;
    }
    if reply.body.NotJson? {
      // json.JSONDecodeError
      return Redirect(AUTHORIZATION_PATH), sent;
    }
    if reply.body.Decoded? {
      // json.loads refuses a dict
      return ServerError(TypeError), sent;
    }
    var data := reply.body.fields;
    if !("access_token" in data && "expires_in" in data) {
      return Redirect(AUTHORIZATION_PATH), sent;
    }
    session.Put(ACCESS_TOKEN_KEY, data["access_token"]);
    var expiresIn := ToInt(data["expires_in"]);
    if expiresIn.Raised? {
      return ServerError(expiresIn.error), sent;
    }
    session.Put(EXPIRE_IN_KEY, JInt(now + expiresIn.value));
    var newRefreshToken := Get(data, "refresh_token");
    if Truthy(newRefreshToken) {
      session.Put(REFRESH_TOKEN_KEY, newRefreshToken);
    }
    response := Redirect(DASHBOARD_PATH);
  }

  // ---------------------------------------------------------------------
  // token_required
  // ---------------------------------------------------------------------

  /** Either the wrapped view runs, or the gate answers in its place. */
  datatype GateResult = ViewCalled | Intercepted(response: Response)

  datatype GateStep = GateStep(entries: map<string, Json>, result: GateResult, sent: Option<Json>)

  /** The gate's answer when it runs the refresh: the refresh's redirect as it is; a
      ValueError out of the refresh is caught and sent to authorization. */
  function AfterRefresh(refreshed: Step): GateStep {
    if refreshed.response == ServerError(ValueError)
    then GateStep(refreshed.entries, Intercepted(Redirect(AUTHORIZATION_PATH)), refreshed.sent)
    else GateStep(refreshed.entries, Intercepted(refreshed.response), refreshed.sent)
  }

  /** `token_required(view)(request)` on the session entries. The clock is read
      twice: `now` by the gate's window check, `refreshNow` by the refresh after
      its remote call has returned. */
  function TokenGate(entries: map<string, Json>, now: int, refreshNow: int,
                     server: Json -> Remote<RefreshReply>): (r: GateStep)
    // no expiry (missing or 0): to authorization, nothing else happens
    ensures !Truthy(Get(entries, EXPIRE_IN_KEY)) ==> r == GateStep(entries, Intercepted(Redirect(AUTHORIZATION_PATH)), None)
    // the view runs exactly when the token is good for more than the skew window, and then nothing changes
    ensures r.result == ViewCalled <==>
              Truthy(Get(entries, EXPIRE_IN_KEY)) && NumberValue(entries[EXPIRE_IN_KEY]).Some?
              && now + SKEW_SECONDS < NumberValue(entries[EXPIRE_IN_KEY]).value
    ensures r.result == ViewCalled ==> r.entries == entries && r.sent == None
    // an expiry that is set but not a number: the comparison raises TypeError, which escapes
    ensures Truthy(Get(entries, EXPIRE_IN_KEY)) && NumberValue(entries[EXPIRE_IN_KEY]).None? ==>
              r == GateStep(entries, Intercepted(ServerError(TypeError)), None)
    // inside the window the refresh runs and its outcome is the gate's answer, even on success
    ensures Truthy(Get(entries, EXPIRE_IN_KEY)) && NumberValue(entries[EXPIRE_IN_KEY]).Some?
            && now + SKEW_SECONDS >= NumberValue(entries[EXPIRE_IN_KEY]).value ==>
              r == AfterRefresh(TokenRefresh(entries, refreshNow, server))
    ensures r.result != ViewCalled ==> r.result.response != ServerError(ValueError)
  {
    var expireIn := Get(entries, EXPIRE_IN_KEY);
    if !Truthy(expireIn) then GateStep(entries, Intercepted(Redirect(AUTHORIZATION_PATH)), None)
    else
      match NumberValue(expireIn)
      case None => GateStep(entries, Intercepted(ServerError(TypeError)), None)
      case Some(expiry) =>
        if now + SKEW_SECONDS >= expiry then AfterRefresh(TokenRefresh(entries, refreshNow, server))
        else GateStep(entries, ViewCalled, None)
  }

  method TokenRequired(session: Session, now: int, refreshNow: int, server: Json -> Remote<RefreshReply>)
    returns (result: GateResult, sent: Option<Json>)
    modifies session
    ensures GateStep(session.entries, result, sent) == TokenGate(old(session.entries), now, refreshNow, server)
  {
    var expireIn := session.Lookup(EXPIRE_IN_KEY);
    if !Truthy(expireIn) {
      return Intercepted(Redirect(AUTHORIZATION_PATH)), None;
    }
    var expiry := NumberValue(expireIn);
    if expiry.None? {
      return Intercepted(ServerError(TypeError)), None;
    }
    if now + SKEW_SECONDS >= expiry.value {
      var refreshResponse;
      refreshResponse, sent := RefreshAliexpressToken(session, refreshNow, server);
      if refreshResponse == ServerError(ValueError) {
        result := Intercepted(Redirect(AUTHORIZATION_PATH));
      } else {
        result := Intercepted(refreshResponse);
      }
      return;
    }
    result, sent := ViewCalled, None;
  }

  // ---------------------------------------------------------------------
  // callback_aliexpress
  // ---------------------------------------------------------------------

  /** The reply of `/auth/token/create` carries the whole token triple. */
  predicate HasTokenTriple(data: map<string, Json>) {
    "access_token" in data && "refresh_token" in data && "expires_in" in data
  }

  /** The exceptions `except (KeyError, TypeError)` catches. */
  predicate CaughtByCallback(e: Exception) {
    e == KeyError || e == TypeError
  }

  /** A reply of `/auth/token/create` with the whole token triple. */
  predicate Complete(answer: Remote<map<string, Json>>) {
    answer.Answered? && HasTokenTriple(answer.reply)
  }

  /** `callback_aliexpress(request)` on the session entries; `code` is the query
      parameter and `exchange` the `/auth/token/create` endpoint. */
  function AuthorizationCallback(entries: map<string, Json>, code: Option<string>,
                                 exchange: string -> Remote<map<string, Json>>, now: int): (r: Step)
    // no code: no remote call, session untouched
    ensures (code == None || code == Some("")) ==> r == Step(entries, Redirect(AUTHORIZATION_PATH), None)
    ensures code.Some? && code.value != "" ==> r.sent == Some(JStr(code.value))
    // the call raising stores nothing: KeyError and TypeError are caught, anything else escapes
    ensures code.Some? && code.value != "" && exchange(code.value).CallRaised? ==>
              var e := exchange(code.value).raised;
              r == Step(entries, if CaughtByCallback(e) then Redirect(AUTHORIZATION_PATH) else ServerError(e), r.sent)
    // an incomplete reply stores nothing
    ensures code.Some? && exchange(code.value).Answered? && !HasTokenTriple(exchange(code.value).reply) ==>
              r == Step(entries, Redirect(AUTHORIZATION_PATH), r.sent)
    ensures r.response == Redirect(DASHBOARD_PATH) <==>
              code.Some? && code.value != "" && Complete(exchange(code.value))
              && ToInt(exchange(code.value).reply["expires_in"]).Converted?
    // success: all three values, expiry relative to now
    ensures r.response == Redirect(DASHBOARD_PATH) ==>
              var data := exchange(code.value).reply;
              r.entries == entries[ACCESS_TOKEN_KEY := data["access_token"]]
                                  [REFRESH_TOKEN_KEY := data["refresh_token"]]
                                  [EXPIRE_IN_KEY := JInt(now + ToInt(data["expires_in"]).value)]
    // `int(expires_in)` failing after both tokens were written: those writes stay;
    // TypeError is caught (to authorization), ValueError escapes
    ensures code.Some? && code.value != "" && Complete(exchange(code.value))
            && ToInt(exchange(code.value).reply["expires_in"]).Raised? ==>
              var data := exchange(code.value).reply;
              && r.entries == entries[ACCESS_TOKEN_KEY := data["access_token"]][REFRESH_TOKEN_KEY := data["refresh_token"]]
              && r.response == (if ToInt(data["expires_in"]).error == TypeError then Redirect(AUTHORIZATION_PATH)
                                else ServerError(ValueError))
  {
    if code == None || code.value == "" then Step(entries, Redirect(AUTHORIZATION_PATH), None)
    else
      var sent := Some(JStr(code.value));
      match exchange(code.value)
      case CallRaised(e) =>
        Step(entries, if CaughtByCallback(e) then Redirect(AUTHORIZATION_PATH) else ServerError(e), sent)
      case Answered(data) =>
      if !HasTokenTriple(data) then Step(entries, Redirect(AUTHORIZATION_PATH), sent)
      else
        var withTokens := entries[ACCESS_TOKEN_KEY := data["access_token"]][REFRESH_TOKEN_KEY := data["refresh_token"]];
        match ToInt(data["expires_in"])
        case Converted(n) => Step(withTokens[EXPIRE_IN_KEY := JInt(now + n)], Redirect(DASHBOARD_PATH), sent)
        case Raised(TypeError) => Step(withTokens, Redirect(AUTHORIZATION_PATH), sent)
        case Raised(e) => Step(withTokens, ServerError(e), sent)
  }

  method CallbackAliexpress(session: Session, code: Option<string>, exchange: string -> Remote<map<string, Json>>, now: int)
    returns (response: Response, sent: Option<Json>)
    modifies session
    ensures Step(session.entries, response, sent) == AuthorizationCallback(old(session.entries), code, exchange, now)
  {
    if code == None || code.value == "" {
      return Redirect(AUTHORIZATION_PATH), None;
    }
    sent := Some(JStr(code.value));
    var answer := exchange(code.value);
    if answer.CallRaised? {
      if CaughtByCallback(answer.raised) {
        return Redirect(AUTHORIZATION_PATH), sent;
      }
      return ServerError(answer.raised), sent;
    }
    var data := answer.reply;
    if !HasTokenTriple(data) {
      return Redirect(AUTHORIZATION_PATH), sent;
    }
    session.Put(ACCESS_TOKEN_KEY, data["access_token"]);
    session.Put(REFRESH_TOKEN_KEY, data["refresh_token"]);
    var expiresIn := ToInt(data["expires_in"]);
    match expiresIn {
      case Converted(n) =>
        session.Put(EXPIRE_IN_KEY, JInt(now + n));
        response := Redirect(DASHBOARD_PATH);
      case Raised(TypeError) =>
        // caught: `except (KeyError, TypeError)`
        response := Redirect(AUTHORIZATION_PATH);
      case Raised(e) =>
        response := ServerError(e);
    }
  }
}
