/** `app/api/faltas/login/route.ts`: the `POST` handler that checks the
    body, logs in with a fresh client and sets the session cookie. */
module LoginRoute {
  import opened Wrappers
  import JsonText
  import opened FaltasTypes
  import opened FaltasClient

  /** The JSON bodies the route answers with. */
  datatype Body = BadRequest | LoginFailed(result: LoginResult) | Ok | InternalError

  /** The cookie the route sets: `PHPSESSID`, http-only, secure, lax, on `/`. */
  datatype Cookie = Cookie(name: string, value: string, httpOnly: bool, secure: bool, sameSite: string, path: string)

  datatype Response = Response(status: int, body: Body, cookie: Option<Cookie>)

  function SessionCookie(id: string): Cookie {
    Cookie("PHPSESSID", id, true, true, "lax", "/")
  }

  /** The status of a rejected login: 401 when the site gave one of its
      three error codes, 403 otherwise. */
  function FailureStatus(result: LoginResult): (status: int)
    ensures status == 401 <==> result.errorCode in {Some(1), Some(2), Some(3)}
    ensures status == 403 <==> result.errorCode !in {Some(1), Some(2), Some(3)}
  {
    var code := result.errorCode;
    if code == Some(1) || code == Some(2) || code == Some(3) then 401 else 403
  }

  /** The answer to a parsed body, given the result the login would have. */
  function Answer(body: Option<JsonText.Json>, result: LoginResult): (r: Response)
    ensures r.status in {200, 400, 401, 403, 500}
    ensures r.status == 500 <==> body.None?
    ensures r.status == 400 <==> body.Some? && !IsLoginBody(body.value)
    ensures r.status == 200 <==> body.Some? && IsLoginBody(body.value) && result.ok
    ensures r.cookie.Some? <==> r.status == 200 && result.sessionId.Some? && result.sessionId.value != ""
    ensures r.cookie.Some? ==> r.cookie.value == SessionCookie(result.sessionId.value)
    ensures body.Some? && IsLoginBody(body.value) && !result.ok ==> r == Response(FailureStatus(result), LoginFailed(result), None)
  {
    if body.None? then Response(500, InternalError, None)
    else if !IsLoginBody(body.value) then Response(400, BadRequest, None)
    else if !result.ok then Response(FailureStatus(result), LoginFailed(result), None)
    else
      var cookie := if result.sessionId.Some? && result.sessionId.value != "" then Some(SessionCookie(result.sessionId.value)) else None;
      Response(200, Ok, cookie)
  }

  /** `POST(req)`: `bodyText` is the request body and `reply` what the site
      answered to the login the route sends with a fresh client. A body
      that is not JSON makes `req.json()` throw, which the handler reports
      as 500. */
  function Post(bodyText: string, reply: Reply): (r: Response)
    ensures r == Answer(JsonText.Parse(bodyText), Login(Client(None), reply).0)
  {
    Answer(JsonText.Parse(bodyText), Login(Client(None), reply).0)
  }

  /** A rejected login is answered with 401 exactly when the site named the
      reason (wrong user, wrong password or role not allowed), and with 403
      for any other failure, a network failure included. */
  lemma RejectedStatus(c: Client, reply: Reply)
    requires !Login(c, reply).0.ok
    ensures FailureStatus(Login(c, reply).0) == 401 <==> reply.Reply? && ErrorCode(reply.location.GetOr("")).Some?
    ensures FailureStatus(Login(c, reply).0) == 403 <==> !(reply.Reply? && ErrorCode(reply.location.GetOr("")).Some?)
  {
    var result := Login(c, reply).0;
    LoginFailureCode(c, reply);
    var code := if reply.Reply? then ErrorCode(reply.location.GetOr("")) else None;
    assert result.errorCode == code;
    assert code.Some? ==> 1 <= code.value <= 3;
  }

  lemma LoginFailureCode(c: Client, reply: Reply)
    requires !Login(c, reply).0.ok
    ensures Login(c, reply).0.errorCode == (if reply.Reply? then ErrorCode(reply.location.GetOr("")) else None)
  {
  }

  /** After a successful login the cookie carries the session the site set,
      and no cookie is set when the site set none (the fresh client had no
      session of its own). */
  lemma SuccessCookie(bodyText: string, reply: Reply)
    requires Post(bodyText, reply).status == 200
    ensures reply.Reply?
    ensures ParseSetCookieForPhpsessid(reply.setCookie).Some? ==>
      Post(bodyText, reply).cookie == Some(SessionCookie(ParseSetCookieForPhpsessid(reply.setCookie).value))
    ensures ParseSetCookieForPhpsessid(reply.setCookie).None? ==> Post(bodyText, reply).cookie == None
  {
    var r := Login(Client(None), reply);
    assert r.0.ok;
    assert r.0.sessionId == r.1.sessionId;
  }

  /** The login body is checked before anything is sent: a body whose role
      is not one of the four is refused with 400, whatever the site would
      have said. */
  lemma BadRoleRefused(role: string, user: string, pass: string, reply: Reply)
    requires !(role == "A" || role == "P" || role == "D" || role == "E")
    ensures Post(JsonText.StringifyStrings([("role", role), ("username", user), ("password", pass)]), reply).status == 400
  {
    var f := [("role", role), ("username", user), ("password", pass)];
    assert JsonText.DistinctKeys(f);
    JsonText.ParseStringify(f);
    var j := JsonText.AsJson(f);
    assert j[0] == ("role", JsonText.JString(role));
  }
}
