/** JSON text as `JSON.parse` reads it (the grammar of RFC 8259) and as
    `JSON.stringify` writes an object whose values are all strings. Numbers
    keep their text: nothing in this model reads their value. */
module JsonText {
  import opened Wrappers
  import opened Assoc
  import opened JsString

  datatype Json =
    | JNull
    | JBool(b: bool)
    | JNumber(text: string)
    | JString(s: string)
    | JArray(items: seq<Json>)
    | JObject(fields: AList<Json>)

  /** The white space allowed between tokens. */
  predicate IsWs(c: char) { c == ' ' || c == '\t' || c == '\n' || c == '\r' }

  function SkipWs(t: string): (r: string)
    ensures |r| <= |t|
    ensures |r| > 0 ==> !IsWs(r[0])
  {
    if |t| > 0 && IsWs(t[0]) then SkipWs(t[1..]) else t
  }

  // ---- strings ----

  /** The value of a hexadecimal digit, -1 for any other character. */
  function HexVal(c: char): (r: int)
    ensures -1 <= r < 16
  {
    if '0' <= c <= '9' then c as int - '0' as int
    else if 'a' <= c <= 'f' then c as int - 'a' as int + 10
    else if 'A' <= c <= 'F' then c as int - 'A' as int + 10
    else -1
  }

  /** Four hexadecimal digits. */
  function Hex4(t: string): (r: Option<int>)
    requires |t| >= 4
    ensures r.Some? ==> 0 <= r.value < 0x10000
  {
    var a, b, c, d := HexVal(t[0]), HexVal(t[1]), HexVal(t[2]), HexVal(t[3]);
    if a < 0 || b < 0 || c < 0 || d < 0 then None
    else Some(((a * 16 + b) * 16 + c) * 16 + d)
  }

  predicate IsHighSurrogate(u: int) { 0xD800 <= u <= 0xDBFF }
  predicate IsLowSurrogate(u: int) { 0xDC00 <= u <= 0xDFFF }

  /** The character of a `\uXXXX` escape (and of the low half that must
      follow a high surrogate), with the text after it. */
  function UnicodeEscape(u: string): (r: Option<(char, string)>)
    requires |u| >= 4
    ensures r.Some? ==> |r.value.1| <= |u| - 4
  {
    var h := Hex4(u[..4]);
    if h.None? then None
    else if IsLowSurrogate(h.value) then None
    else if !IsHighSurrogate(h.value) then Some((h.value as char, u[4..]))
    else if |u| >= 10 && u[4] == '\\' && u[5] == 'u' && Hex4(u[6..10]).Some? && IsLowSurrogate(Hex4(u[6..10]).value) then
      var cp := (h.value - 0xD800) * 0x400 + (Hex4(u[6..10]).value - 0xDC00) + 0x10000;
      assert 0x10000 <= cp < 0x110000;
      Some((cp as char, u[10..]))
    else None
  }

  /** The character an escape stands for; `u` is the text after the
      backslash. */
  function Unescape(u: string): (r: Option<(char, string)>)
    ensures r.Some? ==> |r.value.1| < |u|
  {
    if |u| == 0 then None
    else if u[0] == '"' then Some(('"', u[1..]))
    else if u[0] == '\\' then Some(('\\', u[1..]))
    else if u[0] == '/' then Some(('/', u[1..]))
    else if u[0] == 'b' then Some(('\U{0008}', u[1..]))
    else if u[0] == 'f' then Some(('\U{000C}', u[1..]))
    else if u[0] == 'n' then Some(('\n', u[1..]))
    else if u[0] == 'r' then Some(('\r', u[1..]))
    else if u[0] == 't' then Some(('\t', u[1..]))
    else if u[0] == 'u' && |u| >= 5 then UnicodeEscape(u[1..])
    else None
  }

  /** The characters of a string literal up to its closing quote, and the
      text after that quote; `t` starts after the opening quote. A raw
      control character is an error. */
  function ParseChars(t: string): (r: Option<(string, string)>)
    ensures r.Some? ==> |r.value.1| < |t|
  {
    if |t| == 0 then None
    else if t[0] == '"' then Some(("", t[1..]))
    else if t[0] < ' ' then None
    else if t[0] != '\\' then
      var rest := ParseChars(t[1..]);
      if rest.None? then None else Some(([t[0]] + rest.value.0, rest.value.1))
    else
      var e := Unescape(t[1..]);
      if e.None? then None
      else
        var rest := ParseChars(e.value.1);
        if rest.None? then None else Some(([e.value.0] + rest.value.0, rest.value.1))
  }

  // ---- numbers and literals ----

  function DigitCount(t: string): (n: nat)
    ensures n <= |t| && forall i :: 0 <= i < n ==> IsDigit(t[i])
    ensures n < |t| ==> !IsDigit(t[n])
  {
    RunLength(t, c => IsDigit(c))
  }

  /** The length of a number token: `-`? then `0` or a digit run, then an
      optional fraction and exponent, each needing at least one digit;
      `None` when the token is malformed. */
  function NumberLength(t: string): (r: Option<nat>)
    ensures r.Some? ==> 0 < r.value <= |t|
  {
    var s := if |t| > 0 && t[0] == '-' then 1 else 0;
    var ip := DigitCount(t[s..]);
    if ip == 0 then None
    else
      var i := s + (if t[s] == '0' then 1 else ip);
      var f :=
        if i < |t| && t[i] == '.' then
          var n := DigitCount(t[i + 1..]);
          if n == 0 then None else Some(i + 1 + n)
        else Some(i);
      if f.None? then None
      else
        var j := f.value;
        if j < |t| && (t[j] == 'e' || t[j] == 'E') then
          var k := if j + 1 < |t| && (t[j + 1] == '+' || t[j + 1] == '-') then j + 2 else j + 1;
          var n := DigitCount(t[k..]);
          if n == 0 then None else Some(k + n)
        else Some(j)
  }

  // ---- values ----

  /** One value at the start of `t`, and the text after it. */
  function ParseValue(t: string): (r: Option<(Json, string)>)
    ensures r.Some? ==> |r.value.1| < |t|
    decreases |t|, 1
  {
    if |t| == 0 then None
    else if t[0] == '"' then
      var s := ParseChars(t[1..]);
      if s.None? then None else Some((JString(s.value.0), s.value.1))
    else if t[0] == '{' then ParseObject(t)
    else if t[0] == '[' then ParseArray(t)
    else if StartsWith(t, "true") then Some((JBool(true), t[4..]))
    else if StartsWith(t, "false") then Some((JBool(false), t[5..]))
    else if StartsWith(t, "null") then Some((JNull, t[4..]))
    else
      var n := NumberLength(t);
      if n.None? then None else Some((JNumber(t[..n.value]), t[n.value..]))
  }

  /** An object; `t` starts with its `{`. */
  function ParseObject(t: string): (r: Option<(Json, string)>)
    requires |t| > 0 && t[0] == '{'
    ensures r.Some? ==> |r.value.1| < |t|
    decreases |t|, 0
  {
    var u := SkipWs(t[1..]);
    if |u| > 0 && u[0] == '}' then Some((JObject([]), u[1..])) else ParseMembers(u, [])
  }

  /** The members of an object from the key at the start of `u` to the
      closing `}`. A repeated key keeps its first position and takes the
      last value, as `JSON.parse` does. */
  function ParseMembers(u: string, acc: AList<Json>): (r: Option<(Json, string)>)
    ensures r.Some? ==> |r.value.1| < |u|
    decreases |u|, 2
  {
    if |u| == 0 || u[0] != '"' then None
    else
      var key := ParseChars(u[1..]);
      if key.None? then None
      else
        var b := SkipWs(key.value.1);
        if |b| == 0 || b[0] != ':' then None
        else
          var v := ParseValue(SkipWs(b[1..]));
          if v.None? then None
          else
            var fields := Put(acc, key.value.0, v.value.0);
            var d := SkipWs(v.value.1);
            if |d| == 0 then None
            else if d[0] == ',' then ParseMembers(SkipWs(d[1..]), fields)
            else if d[0] == '}' then Some((JObject(fields), d[1..]))
            else None
  }

  /** An array; `t` starts with its `[`. */
  function ParseArray(t: string): (r: Option<(Json, string)>)
    requires |t| > 0 && t[0] == '['
    ensures r.Some? ==> |r.value.1| < |t|
    decreases |t|, 0
  {
    var u := SkipWs(t[1..]);
    if |u| > 0 && u[0] == ']' then Some((JArray([]), u[1..])) else ParseElements(u, [])
  }

  /** The elements of an array from the value at the start of `u` to the
      closing `]`. */
  function ParseElements(u: string, acc: seq<Json>): (r: Option<(Json, string)>)
    ensures r.Some? ==> |r.value.1| < |u|
    decreases |u|, 2
  {
    var v := ParseValue(u);
    if v.None? then None
    else
      var items := acc + [v.value.0];
      var d := SkipWs(v.value.1);
      if |d| == 0 then None
      else if d[0] == ',' then ParseElements(SkipWs(d[1..]), items)
      else if d[0] == ']' then Some((JArray(items), d[1..]))
      else None
  }

  /** `JSON.parse`; `None` where it throws a syntax error. */
  function Parse(s: string): (r: Option<Json>) {
    var v := ParseValue(SkipWs(s));
    if v.None? || SkipWs(v.value.1) != "" then None else Some(v.value.0)
  }

  // ---- truthiness ----

  /** The characters of a number token before its exponent are all `0`,
      `-` or `.`, so the number is zero. */
  predicate ZeroMantissa(t: string) {
    |t| == 0 || t[0] == 'e' || t[0] == 'E' || ((t[0] == '0' || t[0] == '-' || t[0] == '.') && ZeroMantissa(t[1..]))
  }

  /** JavaScript falsiness of a parsed value: `null`, `false`, `""` and
      zero; every array and object is truthy. */
  predicate Falsy(v: Json) {
    v.JNull? || v == JBool(false) || v == JString("") || (v.JNumber? && ZeroMantissa(v.text))
  }

  // ---- stringify ----

  function HexDigit(n: int): (c: char)
    requires 0 <= n < 16
    ensures HexVal(c) == n
  {
    if n < 10 then ('0' as int + n) as char else ('a' as int + (n - 10)) as char
  }

  /** How `JSON.stringify` writes one character inside a string: the two
      quoting characters and the control characters are escaped, with the
      short forms where JSON has them. */
  function EscapeChar(c: char): (r: string)
    ensures |r| > 0
  {
    if c == '"' then "\\\""
    else if c == '\\' then "\\\\"
    else if c == '\U{0008}' then "\\b"
    else if c == '\U{000C}' then "\\f"
    else if c == '\n' then "\\n"
    else if c == '\r' then "\\r"
    else if c == '\t' then "\\t"
    else if c < ' ' then "\\u00" + [HexDigit(c as int / 16), HexDigit(c as int % 16)]
    else [c]
  }

  function EscapeAll(s: string): string {
    if |s| == 0 then "" else EscapeChar(s[0]) + EscapeAll(s[1..])
  }

  /** A string value in quotes. */
  function Quote(s: string): string { "\"" + EscapeAll(s) + "\"" }

  function Member(k: string, v: string): string { Quote(k) + ":" + Quote(v) }

  function Members(f: AList<string>): string {
    if |f| == 0 then ""
    else if |f| == 1 then Member(f[0].0, f[0].1)
    else Member(f[0].0, f[0].1) + "," + Members(f[1..])
  }

  /** `JSON.stringify` of an object whose values are all strings, its keys
      in order. */
  function StringifyStrings(f: AList<string>): string { "{" + Members(f) + "}" }

  /** The parsed form of such an object. */
  function AsJson(f: AList<string>): (r: AList<Json>)
    ensures |r| == |f| && forall i :: 0 <= i < |f| ==> r[i] == (f[i].0, JString(f[i].1))
  {
    if |f| == 0 then [] else [(f[0].0, JString(f[0].1))] + AsJson(f[1..])
  }

  // ---- round trip ----

  /** The result of reading `c` and then the rest of a string literal. */
  function Prepend(c: char, rest: Option<(string, string)>): Option<(string, string)> {
    if rest.None? then None else Some(([c] + rest.value.0, rest.value.1))
  }

  lemma ParseCharsEscape(u: string, c: char, t: string)
    requires |u| > 0 && u[0] == '\\' && Unescape(u[1..]) == Some((c, t))
    ensures ParseChars(u) == Prepend(c, ParseChars(t))
  {
  }

  /** One escaped character reads back as itself. */
  lemma ParseEscapedChar(c: char, t: string)
    ensures ParseChars(EscapeChar(c) + t) == Prepend(c, ParseChars(t))
  {
    if c == '"' || c == '\\' || c == '\U{0008}' || c == '\U{000C}' || c == '\n' || c == '\r' || c == '\t' {
      ParseShortEscape(c, t);
    } else if c < ' ' {
      ParseControlEscape(c, t);
    } else {
      var u := EscapeChar(c) + t;
      assert u[0] == c && u[1..] == t;
    }
  }

  lemma ParseShortEscape(c: char, t: string)
    requires c == '"' || c == '\\' || c == '\U{0008}' || c == '\U{000C}' || c == '\n' || c == '\r' || c == '\t'
    ensures ParseChars(EscapeChar(c) + t) == Prepend(c, ParseChars(t))
  {
    var e := EscapeChar(c);
    var u := e + t;
    assert |e| == 2 && e[0] == '\\';
    assert u[0] == '\\' && u[1..] == [e[1]] + t;
    assert ([e[1]] + t)[1..] == t;
    ParseCharsEscape(u, c, t);
  }

  lemma ParseControlEscape(c: char, t: string)
    requires c < ' ' && c != '\U{0008}' && c != '\U{000C}' && c != '\n' && c != '\r' && c != '\t'
    ensures ParseChars(EscapeChar(c) + t) == Prepend(c, ParseChars(t))
  {
    var a, b := c as int / 16, c as int % 16;
    var e := EscapeChar(c);
    assert e == ['\\', 'u', '0', '0', HexDigit(a), HexDigit(b)];
    var u := e + t;
    var w := u[1..][1..];
    assert u[1..][0] == 'u' && |u[1..]| >= 5;
    assert w[..4] == ['0', '0', HexDigit(a), HexDigit(b)];
    assert Hex4(w[..4]) == Some(c as int);
    assert w[4..] == t;
    assert UnicodeEscape(w) == Some((c, t));
    ParseCharsEscape(u, c, t);
  }

  lemma {:induction false} ParseEscaped(s: string, t: string)
    ensures ParseChars(EscapeAll(s) + "\"" + t) == Some((s, t))
  {
    if |s| == 0 {
      assert EscapeAll(s) + "\"" + t == "\"" + t;
      assert ("\"" + t)[1..] == t;
    } else {
      var tail := EscapeAll(s[1..]) + "\"" + t;
      assert EscapeAll(s) + "\"" + t == EscapeChar(s[0]) + tail;
      ParseEscapedChar(s[0], tail);
      ParseEscaped(s[1..], t);
      assert ParseChars(tail) == Some((s[1..], t));
      assert [s[0]] + s[1..] == s;
    }
  }

  /** A quoted string followed by `t` parses as that string. */
  lemma ParseQuoted(s: string, t: string)
    ensures ParseValue(Quote(s) + t) == Some((JString(s), t))
  {
    var u := Quote(s) + t;
    assert u[0] == '"';
    assert u[1..] == EscapeAll(s) + "\"" + t;
    ParseEscaped(s, t);
  }

  /** Every key a list of fields holds, none of them repeated. */
  predicate DistinctKeys(f: AList<string>) {
    forall i, j :: 0 <= i < j < |f| ==> f[i].0 != f[j].0
  }

  /** `u` opens with the key `k`, followed by `a`. */
  predicate KeyAt(u: string, k: string, a: string) {
    |u| > 0 && u[0] == '"' && ParseChars(u[1..]) == Some((k, a))
  }

  /** `a` is a colon and the value `v`, followed by `d`. */
  predicate ValueAfterColon(a: string, v: Json, d: string) {
    |a| > 0 && a[0] == ':' && ParseValue(SkipWs(a[1..])) == Some((v, d))
  }

  /** What `ParseMembers` does after one member, at `,` or `}`. */
  function AfterMember(d: string, fields: AList<Json>): Option<(Json, string)>
    requires |d| > 0 && (d[0] == ',' || d[0] == '}')
  {
    if d[0] == ',' then ParseMembers(SkipWs(d[1..]), fields) else Some((JObject(fields), d[1..]))
  }

  /** One step of `ParseMembers` whose pieces are known. */
  lemma MembersUnfold(u: string, acc: AList<Json>, k: string, a: string, v: Json, d: string)
    requires KeyAt(u, k, a) && ValueAfterColon(a, v, d)
    requires |d| > 0 && (d[0] == ',' || d[0] == '}')
    ensures ParseMembers(u, acc) == AfterMember(d, Put(acc, k, v))
  {
    assert SkipWs(a) == a;
    assert SkipWs(d) == d;
  }

  /** One member, followed by `,` or `}`. */
  lemma ParseOneMember(k: string, v: string, tail: string, acc: AList<Json>)
    requires |tail| > 0 && (tail[0] == ',' || tail[0] == '}')
    ensures ParseMembers(Member(k, v) + tail, acc) == AfterMember(tail, Put(acc, k, JString(v)))
  {
    var rest := ":" + Quote(v) + tail;
    var u := Member(k, v) + tail;
    KeyPart(k, rest, u);
    ValuePart(v, tail, rest);
    MembersUnfold(u, acc, k, rest, JString(v), tail);
  }

  lemma KeyPart(k: string, rest: string, u: string)
    requires u == Quote(k) + rest
    ensures KeyAt(u, k, rest)
  {
    assert u[1..] == EscapeAll(k) + "\"" + rest;
    ParseEscaped(k, rest);
  }

  lemma ValuePart(v: string, tail: string, rest: string)
    requires rest == ":" + Quote(v) + tail
    ensures ValueAfterColon(rest, JString(v), tail)
  {
    var w := Quote(v) + tail;
    assert rest[1..] == w;
    assert SkipWs(w) == w by { assert w[0] == '"'; }
    ParseQuoted(v, tail);
  }

  lemma {:induction false} ParseMembersOf(f: AList<string>, acc: AList<Json>, t: string)
    requires |f| > 0 && DistinctKeys(f)
    requires forall i :: 0 <= i < |f| ==> !HasKey(acc, f[i].0)
    ensures ParseMembers(Members(f) + "}" + t, acc) == Some((JObject(acc + AsJson(f)), t))
  {
    if |f| == 1 {
      ParseLastMember(f, acc, t);
    } else {
      var k, v := f[0].0, f[0].1;
      PutNew(acc, k, JString(v));
      var fields := acc + [(k, JString(v))];
      var rest := Members(f[1..]) + "}" + t;
      MembersSplit(f, t);
      ParseOneMember(k, v, "," + rest, acc);
      MembersStartWithQuote(f[1..], t);
      AfterComma(rest, fields);
      MembersAfterFirst(f, acc);
      ParseMembersOf(f[1..], fields, t);
      AsJsonCons(f, acc);
    }
  }

  lemma ParseLastMember(f: AList<string>, acc: AList<Json>, t: string)
    requires |f| == 1 && !HasKey(acc, f[0].0)
    ensures ParseMembers(Members(f) + "}" + t, acc) == Some((JObject(acc + AsJson(f)), t))
  {
    var k, v := f[0].0, f[0].1;
    PutNew(acc, k, JString(v));
    MembersSplit(f, t);
    ParseOneMember(k, v, "}" + t, acc);
    AfterClose(t, acc + [(k, JString(v))]);
    assert AsJson(f) == [(k, JString(v))];
  }

  lemma AsJsonCons(f: AList<string>, acc: AList<Json>)
    requires |f| > 0
    ensures acc + [(f[0].0, JString(f[0].1))] + AsJson(f[1..]) == acc + AsJson(f)
  {
    var x := [(f[0].0, JString(f[0].1))];
    assert AsJson(f) == x + AsJson(f[1..]);
    SeqAssoc(acc, x, AsJson(f[1..]));
  }

  lemma SeqAssoc<T>(a: seq<T>, b: seq<T>, c: seq<T>)
    ensures a + b + c == a + (b + c)
  {
  }

  lemma MembersSplit(f: AList<string>, t: string)
    requires |f| > 0
    ensures Members(f) + "}" + t == Member(f[0].0, f[0].1) +
      (if |f| == 1 then "}" + t else "," + (Members(f[1..]) + "}" + t))
  {
    var m := Member(f[0].0, f[0].1);
    if |f| == 1 {
      assert Members(f) == m;
      Append3(m, "}", t);
    } else {
      var r := Members(f[1..]);
      assert Members(f) == m + "," + r;
      Append5(m, ",", r, "}", t);
    }
  }

  lemma Append3(a: string, b: string, c: string)
    ensures a + b + c == a + (b + c)
  {
  }

  lemma Append5(a: string, b: string, c: string, d: string, e: string)
    ensures a + b + c + d + e == a + (b + (c + d + e))
  {
  }

  lemma MembersStartWithQuote(f: AList<string>, t: string)
    requires |f| > 0
    ensures var u := Members(f) + "}" + t; |u| > 0 && u[0] == '"'
  {
    assert Members(f) == Quote(f[0].0) + (if |f| == 1 then ":" + Quote(f[0].1) else ":" + Quote(f[0].1) + "," + Members(f[1..]));
  }

  lemma AfterClose(t: string, fields: AList<Json>)
    ensures AfterMember("}" + t, fields) == Some((JObject(fields), t))
  {
    assert ("}" + t)[1..] == t;
  }

  lemma AfterComma(rest: string, fields: AList<Json>)
    requires |rest| > 0 && rest[0] == '"'
    ensures AfterMember("," + rest, fields) == ParseMembers(rest, fields)
  {
    assert ("," + rest)[1..] == rest;
    assert SkipWs(rest) == rest;
  }

  lemma MembersAfterFirst(f: AList<string>, acc: AList<Json>)
    requires |f| > 1 && DistinctKeys(f)
    requires forall i :: 0 <= i < |f| ==> !HasKey(acc, f[i].0)
    ensures DistinctKeys(f[1..])
    ensures forall i :: 0 <= i < |f[1..]| ==> !HasKey(acc + [(f[0].0, JString(f[0].1))], f[1..][i].0)
  {
    var fields := acc + [(f[0].0, JString(f[0].1))];
    assert Keys(fields) == Keys(acc) + [f[0].0];
    forall i | 0 <= i < |f[1..]| ensures !HasKey(fields, f[1..][i].0) {
      assert f[1..][i].0 == f[i + 1].0 != f[0].0;
    }
    forall i, j | 0 <= i < j < |f[1..]| ensures f[1..][i].0 != f[1..][j].0 {
      assert f[1..][i] == f[i + 1] && f[1..][j] == f[j + 1];
    }
  }

  /** `JSON.parse` reads back what `JSON.stringify` wrote. */
  lemma ParseStringify(f: AList<string>)
    requires DistinctKeys(f)
    ensures Parse(StringifyStrings(f)) == Some(JObject(AsJson(f)))
  {
    var s := StringifyStrings(f);
    assert s[0] == '{';
    assert SkipWs(s) == s;
    ParseObjectOf(f);
    assert ParseValue(s) == ParseObject(s);
  }

  lemma ParseObjectOf(f: AList<string>)
    requires DistinctKeys(f)
    ensures var s := StringifyStrings(f); |s| > 0 && s[0] == '{' && ParseObject(s) == Some((JObject(AsJson(f)), ""))
  {
    var s := StringifyStrings(f);
    var u := Members(f) + "}";
    assert s[1..] == u;
    if |f| == 0 {
      assert u == "}" && SkipWs(u) == u;
    } else {
      ParseMembersClosed(f);
    }
  }

  lemma ParseMembersClosed(f: AList<string>)
    requires |f| > 0 && DistinctKeys(f)
    ensures SkipWs(Members(f) + "}") == Members(f) + "}"
    ensures |Members(f) + "}"| > 0 && (Members(f) + "}")[0] != '}'
    ensures ParseMembers(Members(f) + "}", []) == Some((JObject(AsJson(f)), ""))
  {
    var u := Members(f) + "}";
    MembersStartWithQuote(f, "");
    assert u == Members(f) + "}" + "";
    ParseMembersOf(f, [], "");
    assert [] + AsJson(f) == AsJson(f);
  }
}
