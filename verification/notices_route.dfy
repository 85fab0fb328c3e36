/** `app/api/notices/route.ts`: the `GET` handler that fetches the notice
    list from a configurable URL, normalises every entry and keeps the
    complete notices that are active now. The environment variable, the
    upstream reply, the clock and date parsing are parameters. */
module NoticesRoute {
  import opened Wrappers
  import opened Assoc
  import opened JsString
  import opened JsonText
  import opened Seqs

  const DefaultUrl := "https://" + DefaultPath
  const DefaultPath := "raw.githubusercontent.com/andiricum2/Faltas-Cebanc/main/notices.json"

  /** `s` begins with the lower-case ASCII `prefix`, ignoring ASCII case. */
  predicate StartsWithNoCase(s: string, prefix: string) {
    |prefix| <= |s| && forall i :: 0 <= i < |prefix| ==> LowerChar(s[i]) == prefix[i]
  }

  /** `/^https?:\/\//i` */
  predicate IsHttpUrl(s: string) {
    StartsWithNoCase(s, "http://") || StartsWithNoCase(s, "https://")
  }

  /** `getNoticesUrl()`: `env` is `NOTICES_URL`. */
  function NoticesUrl(env: Option<string>): (r: string)
    ensures IsHttpUrl(r)
    ensures env.Some? && IsHttpUrl(env.value) ==> r == env.value
    ensures !(env.Some? && IsHttpUrl(env.value)) ==> r == DefaultUrl
  {
    NoCasePrefix("https://", DefaultPath);
    if env.Some? && env.value != "" && IsHttpUrl(env.value) then env.value else DefaultUrl
  }

  /** A prefix without upper-case letters matches itself ignoring case. */
  lemma NoCasePrefix(p: string, rest: string)
    requires forall i :: 0 <= i < |p| ==> !IsAsciiUpper(p[i])
    ensures StartsWithNoCase(p + rest, p)
  {
    assert forall i :: 0 <= i < |p| ==> (p + rest)[i] == p[i];
  }

  /** A notice after normalisation. The optional fields keep whatever
      JSON the entry held; `None` is a missing property. */
  datatype Notice = Notice(id: string, title: string, description: string, icon: Option<Json>,
                           severity: Json, startDate: Option<Json>, endDate: Option<Json>,
                           action: Option<Json>)

  /** `arr.join(",")` */
  function JoinComma(ss: seq<string>): string {
    if |ss| == 0 then "" else if |ss| == 1 then ss[0] else ss[0] + "," + JoinComma(ss[1..])
  }

  /** `String(v)` for a parsed value; `null` elements of an array join as
      the empty string. A number keeps its source text. */
  function Text(v: Json): string {
    match v
    case JNull => "null"
    case JBool(b) => if b then "true" else "false"
    case JNumber(t) => t
    case JString(s) => s
    case JArray(items) => JoinComma(seq(|items|, i requires 0 <= i < |items| => if items[i].JNull? then "" else Text(items[i])))
    case JObject(_) => "[object Object]"
  }

  /** A property that is present and truthy. */
  predicate Truthy(o: Option<Json>) {
    o.Some? && !Falsy(o.value)
  }

  /** `${x}` for a property that may be missing. */
  function Interpolated(o: Option<Json>): string {
    if o.None? then "undefined" else Text(o.value)
  }

  /** The named properties of an entry: only an object has any that the
      handler reads. */
  function FieldsOf(n: Json): AList<Json> {
    if n.JObject? then n.fields else []
  }

  /** `n && typeof n === "object"`: objects and arrays. */
  predicate IsObjectEntry(n: Json) {
    n.JObject? || n.JArray?
  }

  /** The `map` step: an id from the title and start date when there is
      none, empty text for a missing title or description, and
      `"warning"` when no severity is given. */
  function Normalise(n: Json): (r: Notice)
    ensures !Falsy(r.severity)
  {
    var f := FieldsOf(n);
    Notice(IdFor(f), TextOr(Get(f, "title")), TextOr(Get(f, "description")), Get(f, "icon"),
           SeverityOr(Get(f, "severity")), Get(f, "startDate"), Get(f, "endDate"), Get(f, "action"))
  }

  /** `String(x || "")` */
  function TextOr(o: Option<Json>): string {
    if Truthy(o) then Text(o.value) else ""
  }

  /** `String(id || `${title}-${startDate || ""}`)` */
  function IdFor(f: AList<Json>): string {
    if Truthy(Get(f, "id")) then Text(Get(f, "id").value)
    else Interpolated(Get(f, "title")) + "-" + TextOr(Get(f, "startDate"))
  }

  /** `severity || "warning"` */
  function SeverityOr(o: Option<Json>): (r: Json)
    ensures !Falsy(r)
  {
    if Truthy(o) then o.value else JString("warning")
  }

  /** The defaults the `map` step fills in. */
  lemma NormaliseDefaults(n: Json)
    ensures var r := Normalise(n); Truthy(Get(FieldsOf(n), "severity")) ==> r.severity == Get(FieldsOf(n), "severity").value
    ensures var r := Normalise(n); !Truthy(Get(FieldsOf(n), "severity")) ==> r.severity == JString("warning")
    ensures var r := Normalise(n); Truthy(Get(FieldsOf(n), "id")) ==> r.id == Text(Get(FieldsOf(n), "id").value)
    ensures var r := Normalise(n); !Truthy(Get(FieldsOf(n), "id")) ==>
      r.id == Interpolated(Get(FieldsOf(n), "title")) + "-" + (if Truthy(Get(FieldsOf(n), "startDate")) then Text(Get(FieldsOf(n), "startDate").value) else "")
    ensures var r := Normalise(n); r.title == if Truthy(Get(FieldsOf(n), "title")) then Text(Get(FieldsOf(n), "title").value) else ""
    ensures var r := Normalise(n); r.description == if Truthy(Get(FieldsOf(n), "description")) then Text(Get(FieldsOf(n), "description").value) else ""
  {
  }

  /** `isActive(notice, now)`: `time` is `new Date(x).getTime()`, `None`
      for an invalid date, which compares false with everything. */
  predicate IsActive(n: Notice, now: int, time: Json -> Option<int>) {
    (!Truthy(n.startDate) || (time(n.startDate.value).Some? && time(n.startDate.value).value <= now))
    && (!Truthy(n.endDate) || (time(n.endDate.value).Some? && now <= time(n.endDate.value).value))
  }

  /** What the two final filters keep. */
  predicate Shown(n: Notice, now: int, time: Json -> Option<int>) {
    n.title != "" && n.description != "" && IsActive(n, now, time)
  }

  /** The whole chain of `filter`, `map`, `filter`, `filter`, one entry at a
      time. */
  function Safe(list: seq<Json>, now: int, time: Json -> Option<int>): (r: seq<Notice>)
    ensures |r| <= |list|
    ensures forall i :: 0 <= i < |r| ==> Shown(r[i], now, time)
    ensures forall j :: 0 <= j < |list| && IsObjectEntry(list[j]) && Shown(Normalise(list[j]), now, time) ==> Normalise(list[j]) in r
  {
    if |list| == 0 then []
    else
      var rest := Safe(list[1..], now, time);
      var keep := IsObjectEntry(list[0]) && Shown(Normalise(list[0]), now, time);
      SafeCons(list, now, time, rest, keep);
      if keep then [Normalise(list[0])] + rest else rest
  }

  /** The step of `Safe`: the first entry, if shown, in front of the shown
      rest. */
  lemma SafeCons(list: seq<Json>, now: int, time: Json -> Option<int>, rest: seq<Notice>, keep: bool)
    requires |list| > 0 && keep == (IsObjectEntry(list[0]) && Shown(Normalise(list[0]), now, time))
    requires forall i :: 0 <= i < |rest| ==> Shown(rest[i], now, time)
    requires forall j :: 0 <= j < |list[1..]| && IsObjectEntry(list[1..][j]) && Shown(Normalise(list[1..][j]), now, time) ==> Normalise(list[1..][j]) in rest
    ensures var r := if keep then [Normalise(list[0])] + rest else rest;
      && (forall i :: 0 <= i < |r| ==> Shown(r[i], now, time))
      && (forall j :: 0 <= j < |list| && IsObjectEntry(list[j]) && Shown(Normalise(list[j]), now, time) ==> Normalise(list[j]) in r)
  {
    var r := if keep then [Normalise(list[0])] + rest else rest;
    forall j | 0 <= j < |list| && IsObjectEntry(list[j]) && Shown(Normalise(list[j]), now, time)
      ensures Normalise(list[j]) in r
    {
      if j > 0 {
        assert list[j] == list[1..][j - 1];
      }
    }
  }

  function NormaliseAll(list: seq<Json>): (r: seq<Notice>)
    ensures |r| == |list| && forall i :: 0 <= i < |list| ==> r[i] == Normalise(list[i])
  {
    if |list| == 0 then [] else [Normalise(list[0])] + NormaliseAll(list[1..])
  }

  /** The fused definition is the source's chain of array methods. */
  lemma {:induction false} SafeIsChain(list: seq<Json>, now: int, time: Json -> Option<int>)
    ensures Safe(list, now, time) ==
      Filter(Filter(NormaliseAll(Filter(list, IsObjectEntry)), (n: Notice) => n.title != "" && n.description != ""), (n: Notice) => IsActive(n, now, time))
  {
    if |list| > 0 {
      SafeIsChain(list[1..], now, time);
    }
  }

  /** `Array.isArray(data) ? data : Array.isArray(data?.notices) ? data.notices : []` */
  function ListOf(data: Json): (r: seq<Json>)
    ensures data.JArray? ==> r == data.items
    ensures data.JObject? && Get(data.fields, "notices").Some? && Get(data.fields, "notices").value.JArray?
            ==> r == Get(data.fields, "notices").value.items
    ensures !data.JArray? && !(data.JObject? && Get(data.fields, "notices").Some? && Get(data.fields, "notices").value.JArray?)
            ==> r == []
  {
    if data.JArray? then data.items
    else if data.JObject? && Get(data.fields, "notices").Some? && Get(data.fields, "notices").value.JArray? then
      Get(data.fields, "notices").value.items
    else []
  }

  /** The upstream answer: `fetch` throws, or a status with a body. */
  datatype Reply = Threw | Answered(ok: bool, status: nat, body: string)

  /** The response body; the status is 200 in every case. */
  datatype Payload = Payload(notices: seq<Notice>, error: Option<string>)

  /** `GET()`: the URL fetched and the payload returned. */
  function GetNotices(env: Option<string>, reply: Reply, now: int, time: Json -> Option<int>): (r: (string, Payload))
    ensures r.0 == NoticesUrl(env)
    ensures reply.Threw? ==> r.1 == Payload([], Some("Failed to fetch notices"))
    ensures reply.Answered? && !reply.ok ==> r.1 == Payload([], Some("Upstream " + NatToString(reply.status)))
    ensures reply.Answered? && reply.ok && Parse(reply.body).None? ==> r.1 == Payload([], Some("Failed to fetch notices"))
    ensures reply.Answered? && reply.ok && Parse(reply.body).Some? ==> r.1 == Payload(Safe(ListOf(Parse(reply.body).value), now, time), None)
    ensures forall i :: 0 <= i < |r.1.notices| ==> Shown(r.1.notices[i], now, time)
  {
    var url := NoticesUrl(env);
    match reply
    case Threw => (url, Payload([], Some("Failed to fetch notices")))
    case Answered(ok, status, body) =>
      if !ok then (url, Payload([], Some("Upstream " + NatToString(status))))
      else
        match Parse(body)
        case None => (url, Payload([], Some("Failed to fetch notices")))
        case Some(data) => (url, Payload(Safe(ListOf(data), now, time), None))
  }

  /** Both bounds are inclusive, and a missing one imposes nothing. */
  lemma ActiveAtBounds(n: Notice, time: Json -> Option<int>)
    requires Truthy(n.startDate) && time(n.startDate.value).Some?
    requires Truthy(n.endDate) && time(n.endDate.value).Some?
    requires time(n.startDate.value).value <= time(n.endDate.value).value
    ensures IsActive(n, time(n.startDate.value).value, time)
    ensures IsActive(n, time(n.endDate.value).value, time)
    ensures IsActive(n.(startDate := None, endDate := None), 0, time)
  {
  }

  /** The active instants of a notice form an interval. */
  lemma ActiveBetween(n: Notice, time: Json -> Option<int>, a: int, b: int, t: int)
    requires IsActive(n, a, time) && IsActive(n, b, time) && a <= t <= b
    ensures IsActive(n, t, time)
  {
  }
}
