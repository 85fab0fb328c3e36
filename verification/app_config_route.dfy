/** `app/api/faltas/config/app/route.ts`: the server-side copy of the
    application settings, one JSON file per user. The DNI cookie, the
    request body and the stored file are parameters; the file is given as
    the JSON value it holds, `None` when it is missing or unreadable. */
module AppConfigRoute {
  import opened Wrappers
  import opened Assoc
  import opened JsonText

  datatype Body =
    | MissingDni
    | Config(config: Json)
    | Saved
    | Failed(errorMessage: string)

  datatype Response = Response(status: int, body: Body)

  const SyncKey := "autoSyncMinutes"
  const GroupKey := "selectedGroup"

  predicate MissingCookie(dni: Option<string>) {
    dni.None? || dni.value == ""
  }

  /** `GET`: the stored settings, `{}` when there are none. */
  function GetConfig(dni: Option<string>, stored: Option<Json>): (r: Response)
    ensures r.status == 400 <==> MissingCookie(dni)
    ensures r.status == 400 ==> r.body == MissingDni
    ensures r.status != 400 ==> r.status == 200 && r.body.Config?
    ensures r.body.Config? && stored.Some? && !Falsy(stored.value) ==> r.body.config == stored.value
    ensures r.body.Config? && (stored.None? || Falsy(stored.value)) ==> r.body.config == JObject([])
  {
    if MissingCookie(dni) then Response(400, MissingDni)
    else if stored.None? || Falsy(stored.value) then Response(200, Config(JObject([])))
    else Response(200, Config(stored.value))
  }

  /** The fields of `body?.config || {}` that the handler looks at: only
      an object has properties, so anything else yields none. */
  function ConfigFields(body: Json): (r: AList<Json>)
    ensures body.JObject? && Get(body.fields, "config").Some? && Get(body.fields, "config").value.JObject?
            ==> r == Get(body.fields, "config").value.fields
    ensures !(body.JObject? && Get(body.fields, "config").Some? && Get(body.fields, "config").value.JObject?)
            ==> r == []
  {
    if body.JObject? then
      var c := Get(body.fields, "config");
      if c.Some? && c.value.JObject? then c.value.fields else []
    else []
  }

  /** `autoSyncMinutes` when it holds a number. */
  predicate KeepsMinutes(fields: AList<Json>) {
    Get(fields, SyncKey).Some? && Get(fields, SyncKey).value.JNumber?
  }

  /** `selectedGroup` when it holds a string or `null`. */
  predicate KeepsGroup(fields: AList<Json>) {
    Get(fields, GroupKey).Some? && (Get(fields, GroupKey).value.JString? || Get(fields, GroupKey).value.JNull?)
  }

  /** The object the handler builds field by field. */
  function Sanitize(fields: AList<Json>): (r: AList<Json>)
    ensures UniqueKeys(r)
    ensures forall i :: 0 <= i < |r| ==> r[i].0 == SyncKey || r[i].0 == GroupKey
    ensures HasKey(r, SyncKey) <==> KeepsMinutes(fields)
    ensures HasKey(r, GroupKey) <==> KeepsGroup(fields)
    ensures forall k :: HasKey(r, k) ==> Get(r, k) == Get(fields, k)
  {
    var minutes := if KeepsMinutes(fields) then [(SyncKey, Get(fields, SyncKey).value)] else [];
    var group := if KeepsGroup(fields) then [(GroupKey, Get(fields, GroupKey).value)] else [];
    var r := minutes + group;
    assert Keys(r) == Keys(minutes) + Keys(group);
    r
  }

  /** `e?.message || "Failed to save"` */
  function ErrorMessage(thrown: string): (m: string)
    ensures m != ""
    ensures thrown != "" ==> m == thrown
  {
    if thrown == "" then "Failed to save" else thrown
  }

  /** `POST`: `body` is the parsed request body (`None` when `req.json()`
      throws, with `parseError` its message) and `writeError` the message
      of a failed write. The result holds the response and the object
      written, if any. */
  function Post(dni: Option<string>, body: Option<Json>, parseError: string, writeError: Option<string>): (r: (Response, Option<Json>))
    ensures r.0.status == 400 <==> MissingCookie(dni)
    ensures r.0.status == 200 <==> !MissingCookie(dni) && body.Some? && writeError.None?
    ensures r.1.Some? <==> r.0.status == 200
    ensures r.1.Some? ==> r.1.value == JObject(Sanitize(ConfigFields(body.value)))
    ensures !MissingCookie(dni) && body.None? ==> r.0 == Response(500, Failed(ErrorMessage(parseError)))
    ensures !MissingCookie(dni) && body.Some? && writeError.Some? ==> r.0 == Response(500, Failed(ErrorMessage(writeError.value)))
  {
    if MissingCookie(dni) then (Response(400, MissingDni), None)
    else if body.None? then (Response(500, Failed(ErrorMessage(parseError))), None)
    else
      var next := Sanitize(ConfigFields(body.value));
      if writeError.Some? then (Response(500, Failed(ErrorMessage(writeError.value))), None)
      else (Response(200, Saved), Some(JObject(next)))
  }

  /** Cleaning what was already cleaned changes nothing. */
  lemma SanitizeIdempotent(fields: AList<Json>)
    ensures Sanitize(Sanitize(fields)) == Sanitize(fields)
  {
    var r := Sanitize(fields);
    if KeepsMinutes(fields) {
      assert HasKey(r, SyncKey);
    }
    if KeepsGroup(fields) {
      assert HasKey(r, GroupKey);
    }
  }

  /** After a successful `POST`, `GET` answers with what was saved. */
  lemma PostThenGet(dni: Option<string>, body: Option<Json>, parseError: string)
    requires !MissingCookie(dni) && body.Some?
    ensures GetConfig(dni, Post(dni, body, parseError, None).1) == Response(200, Config(JObject(Sanitize(ConfigFields(body.value)))))
  {
  }

  /** A body without a `config` object saves `{}`. */
  lemma MissingConfigSavesEmpty(dni: Option<string>, body: Json, parseError: string)
    requires !MissingCookie(dni)
    requires !(body.JObject? && Get(body.fields, "config").Some? && Get(body.fields, "config").value.JObject?)
    ensures Post(dni, Some(body), parseError, None).1 == Some(JObject([]))
  {
  }
}
