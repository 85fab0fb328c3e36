/** `lib/services/configContext.tsx`: the client-side application settings
    (only the auto-sync interval), read from and written to the browser's
    storage under `faltas.appConfig`. The stored item is a parameter:
    `None` when it is missing, when there is no window, or when reading it
    throws. */
module ConfigContext {
  import opened Wrappers
  import opened JsString
  import opened Num
  import opened Assoc
  import opened JsonText

  /** `0 | 5 | 15 | 30`: minutes between automatic syncs, 0 for never. */
  type AutoSyncMinutes = m: nat | m == 0 || m == 5 || m == 15 || m == 30

  datatype AppConfig = AppConfig(autoSyncMinutes: AutoSyncMinutes)

  /** `DEFAULT_CONFIG` */
  const DefaultConfig := AppConfig(0)

  const SyncKey := "autoSyncMinutes"

  /** `Number(String(v))` for a parsed value: an array is read through its
      comma-joined text, so only an empty or one-element array can be a
      number, and `null` inside an array joins as the empty string. */
  function ElementNumber(v: Json): (r: Number)
    ensures r.Infinite? == false
  {
    match v
    case JNull => Finite(0.0)
    case JBool(_) => NaN
    case JNumber(t) => StringToNumber(t)
    case JString(s) => StringToNumber(s)
    case JArray(items) =>
      if |items| == 0 then Finite(0.0) else if |items| == 1 then ElementNumber(items[0]) else NaN
    case JObject(_) => NaN
  }

  /** `Number(v)` for a parsed value. It differs from `ElementNumber` only
      on booleans, which convert to 1 and 0. */
  function ToNumber(v: Json): (r: Number)
    ensures !v.JBool? ==> r == ElementNumber(v)
    ensures v == JBool(true) ==> r == Finite(1.0)
    ensures v == JBool(false) ==> r == Finite(0.0)
  {
    if v.JBool? then (if v.b then Finite(1.0) else Finite(0.0)) else ElementNumber(v)
  }

  /** The parsed item holds `m` under `autoSyncMinutes`, as `Number` reads it. */
  predicate ReadsAs(parsed: Json, m: nat) {
    parsed.JObject? && Get(parsed.fields, SyncKey).Some? && ToNumber(Get(parsed.fields, SyncKey).value) == Finite(m as real)
  }

  /** `Number(parsed?.autoSyncMinutes)` kept when it is one of the allowed
      values and replaced by 0 otherwise. */
  function StoredMinutes(parsed: Json): (r: AutoSyncMinutes)
    ensures r != 0 ==> ReadsAs(parsed, r)
    ensures forall m: AutoSyncMinutes :: ReadsAs(parsed, m) ==> r == m
  {
    var minutes := if parsed.JObject? && Get(parsed.fields, SyncKey).Some? then ToNumber(Get(parsed.fields, SyncKey).value) else NaN;
    if minutes == Finite(5.0) then 5
    else if minutes == Finite(15.0) then 15
    else if minutes == Finite(30.0) then 30
    else 0
  }

  /** The window exists and the stored item is JSON that holds `m`. */
  predicate StoredAs(hasWindow: bool, stored: Option<string>, m: nat) {
    hasWindow && stored.Some? && Parse(stored.value).Some? && ReadsAs(Parse(stored.value).value, m)
  }

  /** `readStoredConfig()`: the default unless the window exists and the
      item is non-empty JSON, otherwise the allowed value it holds. */
  function ReadStoredConfig(hasWindow: bool, stored: Option<string>): (r: AppConfig)
    ensures !hasWindow || stored.None? || stored == Some("") ==> r == DefaultConfig
    ensures hasWindow && stored.Some? && Parse(stored.value).None? ==> r == DefaultConfig
    ensures r != DefaultConfig ==> StoredAs(hasWindow, stored, r.autoSyncMinutes)
    ensures forall m: AutoSyncMinutes :: StoredAs(hasWindow, stored, m) ==> r.autoSyncMinutes == m
  {
    if !hasWindow || stored.None? || stored.value == "" then DefaultConfig
    else
      match Parse(stored.value)
      case None => DefaultConfig
      case Some(parsed) => AppConfig(StoredMinutes(parsed))
  }

  /** `JSON.stringify(cfg)` */
  function StoredText(c: AppConfig): (r: string)
    ensures |r| > 0 && r[0] == '{'
  {
    "{" + (Quote(SyncKey) + (":" + (NatToString(c.autoSyncMinutes) + "}")))
  }

  /** `setAutoSyncMinutes(minutes)`: the new settings and the item left in
      storage, which is rewritten when there is a window. `storageThrows`
      says `setItem` throws; the source catches that and keeps the new
      settings, leaving the stored item as it was. */
  function SetAutoSyncMinutes(prev: AppConfig, minutes: AutoSyncMinutes, hasWindow: bool, storageThrows: bool, stored: Option<string>): (r: (AppConfig, Option<string>))
    ensures r.0.autoSyncMinutes == minutes
    ensures hasWindow && !storageThrows ==> r.1.Some? && ReadStoredConfig(true, r.1) == r.0
    ensures !hasWindow || storageThrows ==> r.1 == stored
  {
    var next := prev.(autoSyncMinutes := minutes);
    if hasWindow && !storageThrows then
      StoredRoundTrip(next);
      (next, Some(StoredText(next)))
    else (next, stored)
  }

  /** What `setAutoSyncMinutes` writes, the next load reads back. */
  lemma StoredRoundTrip(c: AppConfig)
    ensures ReadStoredConfig(true, Some(StoredText(c))) == c
  {
    var d := NatToString(c.autoSyncMinutes);
    ParseStored(c);
    NatTextIsNumber(c.autoSyncMinutes);
    MinutesOf(c.autoSyncMinutes, d);
  }

  lemma MinutesOf(m: AutoSyncMinutes, d: string)
    requires StringToNumber(d) == Finite(m as real)
    ensures StoredMinutes(JObject([(SyncKey, JNumber(d))])) == m
  {
    assert Get([(SyncKey, JNumber(d))], SyncKey) == Some(JNumber(d));
  }

  lemma ParseStored(c: AppConfig)
    ensures Parse(StoredText(c)) == Some(JObject([(SyncKey, JNumber(NatToString(c.autoSyncMinutes)))]))
  {
    ParseNumberObject(SyncKey, NatToString(c.autoSyncMinutes));
  }

  /** A plain natural number as a JSON number token. */
  predicate IsNatToken(d: string) {
    |d| > 0 && AllDigits(d) && (d[0] == '0' ==> |d| == 1)
  }

  /** `{"k":d}` reads back as the one-member object. */
  lemma ParseNumberObject(k: string, d: string)
    requires IsNatToken(d)
    ensures Parse("{" + (Quote(k) + (":" + (d + "}")))) == Some(JObject([(k, JNumber(d))]))
  {
    var t := "{" + (Quote(k) + (":" + (d + "}")));
    var u := Quote(k) + (":" + (d + "}"));
    assert t[1..] == u;
    assert SkipWs(t) == t;
    MemberOpens(k, ":" + (d + "}"));
    NumberMember(k, d);
    AfterClose("", [(k, JNumber(d))]);
    assert ParseObject(t) == Some((JObject([(k, JNumber(d))]), ""));
  }

  lemma MemberOpens(k: string, a: string)
    ensures SkipWs(Quote(k) + a) == Quote(k) + a
    ensures (Quote(k) + a)[0] == '"'
  {
  }

  lemma NumberMember(k: string, d: string)
    requires IsNatToken(d)
    ensures ParseMembers(Quote(k) + (":" + (d + "}")), []) == AfterMember("}", [(k, JNumber(d))])
  {
    var a := ":" + (d + "}");
    var u := Quote(k) + a;
    KeyPart(k, a, u);
    NumberToken(d, "}");
    assert a[1..] == d + "}";
    assert ValueAfterColon(a, JNumber(d), "}");
    MembersUnfold(u, [], k, a, JNumber(d), "}");
    assert Put([], k, JNumber(d)) == [(k, JNumber(d))];
  }

  /** A plain natural number followed by a closing brace parses as a
      number token. */
  lemma NumberToken(d: string, tail: string)
    requires IsNatToken(d)
    requires tail == "}"
    ensures SkipWs(d + tail) == d + tail
    ensures ParseValue(d + tail) == Some((JNumber(d), tail))
  {
    var t := d + tail;
    assert IsDigit(t[0]);
    NotLiteral(t);
    DigitRunOf(d, tail);
    assert t[..|d|] == d && t[|d|..] == tail;
  }

  /** Text that opens with a digit is none of the other kinds of value. */
  lemma NotLiteral(t: string)
    requires |t| > 0 && IsDigit(t[0])
    ensures t[0] != '"' && t[0] != '{' && t[0] != '['
    ensures !StartsWith(t, "true") && !StartsWith(t, "false") && !StartsWith(t, "null")
  {
  }

  lemma DigitRunOf(d: string, tail: string)
    requires IsNatToken(d)
    requires tail == "}"
    ensures NumberLength(d + tail) == Some(|d|)
  {
    var t := d + tail;
    assert t[0..] == t;
    assert t[|d|] == '}';
  }
}
