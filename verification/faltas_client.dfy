/** `lib/http/faltasClient.ts`: the client of the school's site. It keeps
    the `PHPSESSID` session cookie, logs in by posting the login form and
    classifying the redirect it gets back, and fetches the student page.
    The network is a parameter: each call takes the response (or the
    failure) the site gave. */
module FaltasClient {
  import opened Wrappers
  import opened JsString
  import opened Seqs
  import HttpConfig
  import opened FaltasTypes

  // ---- Set-Cookie headers ----

  /** What `getSetCookie()` or `get("set-cookie")` returned. */
  datatype Header = NoHeader | HeaderList(items: seq<string>) | HeaderText(text: string)

  /** The look-ahead `(?=[^;]+=)`: an `=` after at least one character,
      with no `;` before it. */
  predicate CookieAhead(t: string) {
    var n := RunLength(t, c => c != ';');
    n >= 2 && '=' in t[1..n]
  }

  /** `header.split(/,(?=[^;]+=)/)`: split at each comma that is followed
      by the `name=` of a further cookie. */
  function SplitCookies(s: string): (r: seq<string>)
    ensures |r| >= 1
    decreases |s|
  {
    if |s| == 0 then [""]
    else
      var rest := SplitCookies(s[1..]);
      if s[0] == ',' && CookieAhead(s[1..]) then [""] + rest else [[s[0]] + rest[0]] + rest[1..]
  }

  /** Splitting only drops the separating commas. */
  lemma {:induction false} JoinSplitCookies(s: string)
    ensures Join(SplitCookies(s), ",") == s
  {
    if |s| > 0 {
      JoinSplitCookies(s[1..]);
      var rest := SplitCookies(s[1..]);
      if s[0] == ',' && CookieAhead(s[1..]) {
        assert ([""] + rest)[1..] == rest;
      } else if |rest| > 1 {
        assert ([[s[0]] + rest[0]] + rest[1..])[1..] == rest[1..];
        assert Join(rest, ",") == rest[0] + "," + Join(rest[1..], ",");
      }
    }
  }

  /** A comma-free piece followed by a comma and another cookie splits off. */
  lemma {:induction false} SplitCookiesAppend(a: string, b: string)
    requires ',' !in a && CookieAhead(b)
    ensures SplitCookies(a + "," + b) == [a] + SplitCookies(b)
  {
    if |a| == 0 {
      assert (a + "," + b)[1..] == b;
    } else {
      assert (a + "," + b)[1..] == a[1..] + "," + b;
      assert a[0] != ',';
      SplitCookiesAppend(a[1..], b);
      assert [a[0]] + a[1..] == a;
    }
  }

  /** A piece without commas is not split. */
  lemma {:induction false} SplitCookiesNoComma(a: string)
    requires ',' !in a
    ensures SplitCookies(a) == [a]
  {
    if |a| > 0 {
      assert a[0] != ',';
      SplitCookiesNoComma(a[1..]);
      assert [a[0]] + a[1..] == a;
    }
  }

  function TrimAll(s: seq<string>): (r: seq<string>)
    ensures |r| == |s| && forall i :: 0 <= i < |s| ==> r[i] == Trim(s[i])
  {
    if |s| == 0 then [] else [Trim(s[0])] + TrimAll(s[1..])
  }

  predicate NonEmpty(s: string) { s != "" }

  /** A cookie string as `normalizeSetCookie` leaves it: non-empty, with no
      white space at either end. */
  predicate Trimmed(c: string) { c != "" && !IsJsSpace(c[0]) && !IsJsSpace(c[|c| - 1]) }

  /** `normalizeSetCookie(header)` */
  function NormalizeSetCookie(h: Header): (r: seq<string>)
    ensures h.NoHeader? || h == HeaderText("") ==> r == []
    ensures h.HeaderList? ==> r == h.items
    ensures h.HeaderText? ==> forall c :: c in r ==> Trimmed(c)
  {
    match h
    case NoHeader => []
    case HeaderList(items) => items
    case HeaderText(text) =>
      if text == "" then []
      else
        TrimmedPieces(SplitCookies(text));
        Filter(TrimAll(SplitCookies(text)), NonEmpty)
  }

  lemma TrimmedPieces(pieces: seq<string>)
    ensures forall c :: c in Filter(TrimAll(pieces), NonEmpty) ==> Trimmed(c)
  {
    forall c | c in Filter(TrimAll(pieces), NonEmpty) ensures Trimmed(c) {
      TrimmedPiece(pieces, c);
    }
  }

  /** A kept piece is a non-empty trimmed text. */
  lemma TrimmedPiece(pieces: seq<string>, c: string)
    requires c in TrimAll(pieces) && c != ""
    ensures Trimmed(c)
  {
    var t := TrimAll(pieces);
    var i :| 0 <= i < |t| && t[i] == c;
    assert c == Trim(pieces[i]);
  }

  /** Cookies joined with commas (none inside them) come back apart. */
  lemma {:induction false} NormalizeJoined(cs: seq<string>)
    requires |cs| > 0
    requires forall i :: 0 <= i < |cs| ==> Trimmed(cs[i]) && ',' !in cs[i] && CookieAhead(cs[i])
    ensures NormalizeSetCookie(HeaderText(Join(cs, ","))) == cs
  {
    var text := Join(cs, ",");
    assert text != "" by { JoinNonEmpty(cs); }
    SplitJoined(cs);
    TrimTrimmed(cs);
    FilterKeepsAll(cs, NonEmpty);
  }

  lemma {:induction false} JoinNonEmpty(cs: seq<string>)
    requires |cs| > 0 && cs[0] != ""
    ensures Join(cs, ",") != ""
  {
  }

  lemma {:induction false} SplitJoined(cs: seq<string>)
    requires |cs| > 0
    requires forall i :: 0 <= i < |cs| ==> ',' !in cs[i] && CookieAhead(cs[i])
    ensures SplitCookies(Join(cs, ",")) == cs
  {
    if |cs| == 1 {
      SplitCookiesNoComma(cs[0]);
    } else {
      SplitJoined(cs[1..]);
      JoinStartsWith(cs[1..]);
      SplitCookiesAppend(cs[0], Join(cs[1..], ","));
      assert [cs[0]] + cs[1..] == cs;
    }
  }

  /** The look-ahead only reads up to the first `;`, so a longer text after
      a cookie keeps it. */
  lemma {:induction false} JoinStartsWith(cs: seq<string>)
    requires |cs| > 0 && ',' !in cs[0] && CookieAhead(cs[0])
    ensures CookieAhead(Join(cs, ","))
  {
    if |cs| > 1 {
      CookieAheadExtend(cs[0], "," + Join(cs[1..], ","));
      assert Join(cs, ",") == cs[0] + ("," + Join(cs[1..], ","));
    }
  }

  lemma CookieAheadExtend(a: string, b: string)
    requires CookieAhead(a)
    ensures CookieAhead(a + b)
  {
    var n := RunLength(a, c => c != ';');
    var i :| 1 <= i < n && a[i] == '=';
    RunLengthExtend(a, b, n);
    var m := RunLength(a + b, c => c != ';');
    assert (a + b)[i] == '=';
    assert (a + b)[1..m][i - 1] == '=';
  }

  lemma RunLengthExtend(a: string, b: string, n: nat)
    requires n == RunLength(a, c => c != ';')
    ensures RunLength(a + b, c => c != ';') >= n
  {
    assert forall i :: 0 <= i < |a| ==> (a + b)[i] == a[i];
  }

  lemma {:induction false} TrimTrimmed(cs: seq<string>)
    requires forall i :: 0 <= i < |cs| ==> Trimmed(cs[i])
    ensures TrimAll(cs) == cs
  {
    forall i | 0 <= i < |cs| ensures TrimAll(cs)[i] == cs[i] {
      TrimOfTrimmed(cs[i]);
    }
  }

  // ---- the session cookie ----

  const SessionPrefix: string := "PHPSESSID="

  /** `/PHPSESSID=([^;]+)/` matches at `p`. */
  predicate SessionAt(s: string, p: int) {
    OccursAt(s, SessionPrefix, p) && p + 10 < |s| && s[p + 10] != ';'
  }

  function SessionFrom(s: string, from: nat): (r: Option<nat>)
    ensures r.Some? ==> from <= r.value && SessionAt(s, r.value)
    ensures r.Some? ==> forall p :: from <= p < r.value ==> !SessionAt(s, p)
    ensures r.None? ==> forall p :: from <= p ==> !SessionAt(s, p)
    decreases |s| - from
  {
    if from + 10 >= |s| then None
    else if SessionAt(s, from) then Some(from)
    else SessionFrom(s, from + 1)
  }

  /** The captured group of the first match: the value up to the next `;`. */
  function CookieSession(s: string): (r: Option<string>)
    ensures r.Some? <==> exists p :: 0 <= p && SessionAt(s, p)
    ensures r.Some? ==> r.value != "" && ';' !in r.value
  {
    var p := SessionFrom(s, 0);
    if p.None? then None
    else
      var t := s[p.value + 10..];
      Some(t[..RunLength(t, c => c != ';')])
  }

  /** The first cookie that carries a session. */
  function FirstWithSession(cookies: seq<string>): (r: Option<nat>)
    ensures r.Some? ==> r.value < |cookies| && CookieSession(cookies[r.value]).Some?
    ensures r.Some? ==> forall j :: 0 <= j < r.value ==> CookieSession(cookies[j]).None?
    ensures r.None? ==> forall j :: 0 <= j < |cookies| ==> CookieSession(cookies[j]).None?
  {
    if |cookies| == 0 then None
    else if CookieSession(cookies[0]).Some? then Some(0)
    else
      var r := FirstWithSession(cookies[1..]);
      if r.None? then None else Some(r.value + 1)
  }

  /** `parseSetCookieForPhpsessid(header)`: the session of the first cookie
      that carries one. */
  function SessionOfCookies(cookies: seq<string>): (r: Option<string>)
    ensures r.None? <==> forall j :: 0 <= j < |cookies| ==> CookieSession(cookies[j]).None?
    ensures r.Some? ==>
      (exists i :: 0 <= i < |cookies| && CookieSession(cookies[i]) == r && forall j :: 0 <= j < i ==> CookieSession(cookies[j]).None?)
  {
    var i := FirstWithSession(cookies);
    if i.None? then None else CookieSession(cookies[i.value])
  }

  function ParseSetCookieForPhpsessid(h: Header): (r: Option<string>)
    ensures r.Some? ==> r.value != "" && ';' !in r.value
  {
    SessionOfCookies(NormalizeSetCookie(h))
  }

  /** A cookie that opens with the session pair gives that session. */
  lemma SessionOfPair(v: string, attrs: string)
    requires v != "" && ';' !in v
    requires attrs == "" || attrs[0] == ';'
    ensures CookieSession(SessionPrefix + v + attrs) == Some(v)
  {
    var s := SessionPrefix + v + attrs;
    assert SessionAt(s, 0) by { assert s[..10] == SessionPrefix; assert s[10] == v[0]; }
    var t := s[10..];
    assert t == v + attrs;
    RunLengthUpTo(v, attrs);
  }

  lemma RunLengthUpTo(v: string, attrs: string)
    requires ';' !in v
    requires attrs == "" || attrs[0] == ';'
    ensures RunLength(v + attrs, c => c != ';') == |v|
    ensures (v + attrs)[..|v|] == v
  {
    assert forall i :: 0 <= i < |v| ==> (v + attrs)[i] == v[i];
    if |attrs| > 0 {
      assert (v + attrs)[|v|] == ';';
    }
  }

  // ---- login ----

  /** The client object: only its session id is state. */
  datatype Client = Client(sessionId: Option<string>)

  /** `setSession` / `getSession` */
  function SetSession(c: Client, id: Option<string>): (r: Client)
    ensures r.sessionId == id
  {
    Client(id)
  }

  /** The `Cookie` header sent with a request: only with a non-empty session. */
  function CookieHeader(c: Client): (r: Option<string>)
    ensures r.Some? <==> c.sessionId.Some? && c.sessionId.value != ""
    ensures r.Some? ==> r.value == SessionPrefix + c.sessionId.value
  {
    if c.sessionId.Some? && c.sessionId.value != "" then Some(SessionPrefix + c.sessionId.value) else None
  }

  /** The posted login request: address, form fields in order, cookie. */
  datatype LoginRequest = LoginRequest(url: string, form: seq<(string, string)>, cookie: Option<string>)

  function LoginRequestOf(baseUrl: string, c: Client, body: LoginBody): (r: LoginRequest)
    ensures r.url == baseUrl + "/control.php"
    ensures r.form == [("opcion_rol", RoleText(body.role)), ("usuario", body.username), ("contrasena", body.password)]
    ensures r.cookie == CookieHeader(c)
  {
    LoginRequest(HttpConfig.WithBase(baseUrl, "/control.php"),
      [("opcion_rol", RoleText(body.role)), ("usuario", body.username), ("contrasena", body.password)],
      CookieHeader(c))
  }

  /** What `fetch` produced: a response (its `Location` and `Set-Cookie`
      headers) or a thrown error. */
  datatype Reply = NetworkError | Reply(location: Option<string>, setCookie: Header)

  /** `LoginResult` */
  datatype LoginResult = LoginResult(ok: bool, errorCode: Option<int>, errorMessage: Option<string>, sessionId: Option<string>)

  const ErrorPrefix: string := "index.php?error_login="

  /** `/index\.php\?error_login=(1|2|3)/` matches at `p`. */
  predicate ErrorAt(s: string, p: int) {
    OccursAt(s, ErrorPrefix, p) && p + 22 < |s| && '1' <= s[p + 22] <= '3'
  }

  function ErrorFrom(s: string, from: nat): (r: Option<nat>)
    ensures r.Some? ==> from <= r.value && ErrorAt(s, r.value)
    ensures r.Some? ==> forall p :: from <= p < r.value ==> !ErrorAt(s, p)
    ensures r.None? ==> forall p :: from <= p ==> !ErrorAt(s, p)
    decreases |s| - from
  {
    if from + 22 >= |s| then None
    else if ErrorAt(s, from) then Some(from)
    else ErrorFrom(s, from + 1)
  }

  /** The error code in the first match of the error redirect. */
  function ErrorCode(location: string): (r: Option<int>)
    ensures r.Some? <==> exists p :: 0 <= p && ErrorAt(location, p)
    ensures r.Some? ==> 1 <= r.value <= 3
  {
    var p := ErrorFrom(location, 0);
    if p.None? then None else Some(location[p.value + 22] as int - '0' as int)
  }

  function ErrorMessage(code: int): string {
    if code == 1 then "Usuario no válido"
    else if code == 2 then "Contraseña incorrecta"
    else "Rol no permitido"
  }

  const UnknownReply: string := "Respuesta no reconocida"
  const NetworkFailure: string := "Error de red"

  /** The session after a response: replaced only when the response carries
      a `PHPSESSID`. */
  function Renewed(c: Client, h: Header): (r: Client)
    ensures ParseSetCookieForPhpsessid(h).Some? ==> r.sessionId == ParseSetCookieForPhpsessid(h)
    ensures ParseSetCookieForPhpsessid(h).None? ==> r == c
  {
    var renewed := ParseSetCookieForPhpsessid(h);
    if renewed.Some? then Client(renewed) else c
  }

  /** `client.login(body)`: the result and the client afterwards. A
      redirect to `aplicacion.php` is success, an `error_login=N` redirect
      is the failure `N`, anything else is unrecognised, and a thrown error
      is a network failure that leaves the session alone. */
  function Login(c: Client, reply: Reply): (r: (LoginResult, Client))
    ensures reply.NetworkError? ==> r == (LoginResult(false, None, Some(NetworkFailure), None), c)
    ensures reply.Reply? ==> r.1 == Renewed(c, reply.setCookie)
    ensures r.0.ok <==> reply.Reply? && Contains(reply.location.GetOr(""), "aplicacion.php")
    ensures r.0.ok ==> r.0 == LoginResult(true, None, None, r.1.sessionId)
    ensures !r.0.ok && reply.Reply? ==> r.0.errorCode == ErrorCode(reply.location.GetOr(""))
    ensures !r.0.ok && r.0.errorCode.Some? ==> r.0.errorMessage == Some(ErrorMessage(r.0.errorCode.value))
    ensures !r.0.ok && reply.Reply? && r.0.errorCode.None? ==> r.0.errorMessage == Some(UnknownReply)
  {
    match reply
    case NetworkError => (LoginResult(false, None, Some(NetworkFailure), None), c)
    case Reply(loc, setCookie) =>
      var location := loc.GetOr("");
      var c' := Renewed(c, setCookie);
      if IndexOf(location, "aplicacion.php").Some? then (LoginResult(true, None, None, c'.sessionId), c')
      else
        var code := ErrorCode(location);
        if code.Some? then (LoginResult(false, code, Some(ErrorMessage(code.value)), None), c')
        else (LoginResult(false, None, Some(UnknownReply), None), c')
  }

  /** The redirect for error `n`. */
  function ErrorLocation(n: int): string
    requires 1 <= n <= 3
  {
    ErrorPrefix + [('0' as int + n) as char]
  }

  /** Each error redirect gives its own code and message. */
  lemma ErrorRedirects(c: Client, h: Header, n: int)
    requires 1 <= n <= 3
    ensures Login(c, Reply(Some(ErrorLocation(n)), h)).0 == LoginResult(false, Some(n), Some(ErrorMessage(n)), None)
  {
    ErrorLocationCode(n);
    ErrorLocationNotApplication(n);
  }

  lemma ErrorLocationCode(n: int)
    requires 1 <= n <= 3
    ensures ErrorCode(ErrorLocation(n)) == Some(n)
  {
    var loc := ErrorLocation(n);
    assert ErrorAt(loc, 0) by { assert loc[..22] == ErrorPrefix; }
    assert ErrorFrom(loc, 0) == Some(0);
  }

  lemma ErrorLocationNotApplication(n: int)
    requires 1 <= n <= 3
    ensures !Contains(ErrorLocation(n), "aplicacion.php")
  {
    var loc := ErrorLocation(n);
    assert 'a' !in loc by {
      assert forall i :: 0 <= i < 22 ==> loc[i] == ErrorPrefix[i];
    }
    FirstCharMissing(loc, "aplicacion.php");
  }

  /** A text without the first character of `p` does not contain `p`. */
  lemma FirstCharMissing(s: string, p: string)
    requires |p| > 0 && p[0] !in s
    ensures !Contains(s, p)
  {
    forall i | 0 <= i <= |s| ensures !OccursAt(s, p, i) {
      if i + |p| <= |s| {
        assert s[i..i + |p|][0] == s[i];
      }
    }
  }

  // ---- the student page ----

  /** What the page fetch produced. */
  datatype PageReply = PageFailed | PageReply(status: int, text: string, setCookie: Header)

  datatype PageError = Unauthenticated | Network

  datatype PageResult = Page(text: string) | Failed(error: PageError)

  /** `fetchMostrarAlumno`: `POST`s the chosen date when one is given and
      `GET`s the current week otherwise. */
  function PageMethod(date: Option<string>): (r: string)
    ensures r == "POST" <==> date.Some? && date.value != ""
  {
    if date.Some? && date.value != "" then "POST" else "GET"
  }

  /** The outcome of the page fetch and the client afterwards: 401 and 403
      are an authentication failure that leaves the session alone; any
      other status gives the page, and a `PHPSESSID` in it renews the
      session. */
  function FetchMostrarAlumno(c: Client, reply: PageReply): (r: (PageResult, Client))
    ensures reply.PageFailed? ==> r == (Failed(Network), c)
    ensures reply.PageReply? && (reply.status == 401 || reply.status == 403) ==> r == (Failed(Unauthenticated), c)
    ensures reply.PageReply? && reply.status != 401 && reply.status != 403 ==>
      r == (Page(reply.text), Renewed(c, reply.setCookie))
  {
    match reply
    case PageFailed => (Failed(Network), c)
    case PageReply(status, text, setCookie) =>
      if status == 401 || status == 403 then (Failed(Unauthenticated), c)
      else (Page(text), Renewed(c, setCookie))
  }
}
