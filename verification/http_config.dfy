/** `lib/config.ts`: where the school's site lives and how requests to it
    are addressed. The two environment variables it reads are parameters. */
module HttpConfig {
  import opened Wrappers
  import opened JsString
  import Num

  const DefaultBase: string := "https://faltas.cebanc.com"
  const UserAgent: string := "faltas-client/0.1 (+nextjs)"
  const Origin: string := "https://faltas.cebanc.com"
  const DefaultTimeoutMs: real := 15000.0

  /** `env || fallback`: an unset or empty variable gives the fallback. */
  function EnvOr(env: Option<string>, fallback: string): (r: string)
    ensures env.Some? && env.value != "" ==> r == env.value
    ensures env.None? || env.value == "" ==> r == fallback
  {
    if env.Some? && env.value != "" then env.value else fallback
  }

  /** `DEFAULT_BASE.replace(/\/$/, "")`: the configured base with one
      trailing slash removed. */
  function BaseUrl(env: Option<string>): (r: string)
    ensures var base := EnvOr(env, DefaultBase);
      if |base| > 0 && base[|base| - 1] == '/' then r + "/" == base else r == base
  {
    var base := EnvOr(env, DefaultBase);
    if |base| > 0 && base[|base| - 1] == '/' then base[..|base| - 1] else base
  }

  /** Without the variable the base is the school's own site. */
  lemma DefaultBaseUrl()
    ensures BaseUrl(None) == DefaultBase && BaseUrl(Some("")) == DefaultBase
  {
  }

  /** `Number(env || 15000)` */
  function TimeoutMs(env: Option<string>): (r: Num.Number)
    ensures env.None? || env.value == "" ==> r == Num.Finite(DefaultTimeoutMs)
    ensures env.Some? && env.value != "" ==> r == Num.StringToNumber(env.value)
  {
    if env.Some? && env.value != "" then Num.StringToNumber(env.value) else Num.Finite(DefaultTimeoutMs)
  }

  /** `withBase(path)`: the base, one slash, and the path without the slash
      it may already start with. */
  function WithBase(baseUrl: string, path: string): (r: string)
    ensures StartsWith(path, "/") ==> r == baseUrl + "/" + path[1..]
    ensures !StartsWith(path, "/") ==> r == baseUrl + "/" + path
  {
    if !StartsWith(path, "/") then baseUrl + "/" + path
    else
      assert path == "/" + path[1..];
      baseUrl + path
  }

  /** A path with or without its leading slash addresses the same URL. */
  lemma WithBaseSlashOptional(baseUrl: string, path: string)
    requires !StartsWith(path, "/")
    ensures WithBase(baseUrl, "/" + path) == WithBase(baseUrl, path)
  {
    assert StartsWith("/" + path, "/");
    assert ("/" + path)[1..] == path;
  }
}
