/** The login body of `lib/types/faltas.ts` and the guard `isLoginBody` that
    the login route and the remembered-credentials loader apply to parsed
    JSON. */
module FaltasTypes {
  import opened Wrappers
  import opened Assoc
  import opened JsonText

  /** The four roles the school's site offers at login. */
  datatype Role = A | P | D | E

  function RoleText(r: Role): (s: string)
    ensures |s| == 1
  {
    match r
    case A => "A"
    case P => "P"
    case D => "D"
    case E => "E"
  }

  /** The role a string names, if any. */
  function RoleOf(s: string): (r: Option<Role>)
    ensures r.Some? <==> (s == "A" || s == "P" || s == "D" || s == "E")
    ensures r.Some? ==> RoleText(r.value) == s
  {
    if s == "A" then Some(A)
    else if s == "P" then Some(P)
    else if s == "D" then Some(D)
    else if s == "E" then Some(E)
    else None
  }

  /** `{ role, username, password }` */
  datatype LoginBody = LoginBody(role: Role, username: string, password: string)

  /** `v[k]` of a parsed value; only objects have fields. */
  function Field(v: Json, k: string): Option<Json> {
    if v.JObject? then Get(v.fields, k) else None
  }

  /** The string held in field `k`, when it is a string. */
  function StringField(v: Json, k: string): Option<string> {
    var f := Field(v, k);
    if f.Some? && f.value.JString? then Some(f.value.s) else None
  }

  /** `isLoginBody(v) ? v : undefined`, keeping the three fields the type
      names. An object passes exactly when its `role` is one of the four
      role strings and `username` and `password` are strings. */
  function AsLoginBody(v: Json): (r: Option<LoginBody>)
    ensures r.Some? <==>
      (v.JObject?
       && Get(v.fields, "role") in {Some(JString("A")), Some(JString("P")), Some(JString("D")), Some(JString("E"))}
       && Get(v.fields, "username").Some? && Get(v.fields, "username").value.JString?
       && Get(v.fields, "password").Some? && Get(v.fields, "password").value.JString?)
    ensures r.Some? ==>
      Get(v.fields, "role") == Some(JString(RoleText(r.value.role)))
      && Get(v.fields, "username") == Some(JString(r.value.username))
      && Get(v.fields, "password") == Some(JString(r.value.password))
  {
    var role := StringField(v, "role");
    var user := StringField(v, "username");
    var pass := StringField(v, "password");
    if role.None? || user.None? || pass.None? then None
    else
      var ro := RoleOf(role.value);
      if ro.None? then None else Some(LoginBody(ro.value, user.value, pass.value))
  }

  predicate IsLoginBody(v: Json) { AsLoginBody(v).Some? }

  /** The fields of a login body in the order the callers write them. */
  function Fields(b: LoginBody): (f: AList<string>)
    ensures DistinctKeys(f)
  {
    [("role", RoleText(b.role)), ("username", b.username), ("password", b.password)]
  }

  /** A body's own JSON object passes the guard and gives the body back. */
  lemma AsLoginBodyOfFields(b: LoginBody)
    ensures AsLoginBody(JObject(AsJson(Fields(b)))) == Some(b)
  {
    var v := JObject(AsJson(Fields(b)));
    FieldsOfBody(b);
    RoleTextIsRole(b.role);
    var r := AsLoginBody(v);
    assert r.Some?;
    RoleTextInjective(r.value.role, b.role);
  }

  lemma FieldsOfBody(b: LoginBody)
    ensures var j := AsJson(Fields(b));
      Get(j, "role") == Some(JString(RoleText(b.role)))
      && Get(j, "username") == Some(JString(b.username))
      && Get(j, "password") == Some(JString(b.password))
  {
    var j := AsJson(Fields(b));
    assert j == [("role", JString(RoleText(b.role))), ("username", JString(b.username)), ("password", JString(b.password))];
  }

  lemma RoleTextIsRole(r: Role)
    ensures Some(JString(RoleText(r))) in {Some(JString("A")), Some(JString("P")), Some(JString("D")), Some(JString("E"))}
  {
  }

  lemma RoleTextInjective(r: Role, q: Role)
    requires RoleText(r) == RoleText(q)
    ensures r == q
  {
    assert RoleText(r)[0] == RoleText(q)[0];
  }

  /** Extra fields do not matter: adding one other than the three leaves the
      guard's answer as it was. */
  lemma ExtraFieldIgnored(fields: AList<Json>, k: string, x: Json)
    requires k != "role" && k != "username" && k != "password"
    ensures AsLoginBody(JObject(Put(fields, k, x))) == AsLoginBody(JObject(fields))
  {
    var g := Put(fields, k, x);
    assert Get(g, "role") == Get(fields, "role");
    assert Get(g, "username") == Get(fields, "username");
    assert Get(g, "password") == Get(fields, "password");
  }

  /** Anything but an object is refused, and so is a role outside the four. */
  lemma GuardRejects(v: Json, f: AList<Json>, role: string)
    requires !v.JObject?
    requires !(role == "A" || role == "P" || role == "D" || role == "E")
    ensures !IsLoginBody(v)
    ensures !IsLoginBody(JObject(Put(f, "role", JString(role))))
  {
    var g := Put(f, "role", JString(role));
    assert Get(g, "role") == Some(JString(role));
  }
}
