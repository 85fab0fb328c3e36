/** `lib/utils/externalLinks.ts`: deciding which links leave the app and
    opening them in the system browser. The WHATWG URL parser is a
    parameter: a URL is given as the result of `new URL(url)`, `None` when
    the constructor throws. */
module ExternalLinks {
  import opened Wrappers
  import opened JsString

  /** The two fields of a parsed URL the module reads. */
  datatype Url = Url(protocol: string, hostname: string)

  /** `isValidUrl(url)` */
  predicate IsValidUrl(parsed: Option<Url>) {
    parsed.Some?
  }

  /** The host names the source treats as the local machine or a private
      network: any name beginning `10.` or `172.` counts, whatever
      follows, so public addresses such as `172.217.0.46` are included. */
  predicate IsLocalHostAsWritten(hostname: string) {
    hostname == "localhost" || hostname == "127.0.0.1"
    || StartsWith(hostname, "192.168.") || StartsWith(hostname, "10.") || StartsWith(hostname, "172.")
  }

  /** `isExternalUrl(url)` as written. */
  function IsExternalUrlAsWritten(parsed: Option<Url>): (r: bool)
    ensures r <==> parsed.Some? && parsed.value.protocol in {"http:", "https:"} && !IsLocalHostAsWritten(parsed.value.hostname)
  {
    if !IsValidUrl(parsed) then false
    else
      var u := parsed.value;
      (u.protocol == "http:" || u.protocol == "https:") && !IsLocalHostAsWritten(u.hostname)
  }

  /** A host name in the private block 172.16.0.0/12 of RFC 1918: `172.`,
      a second number from 16 to 31, then a dot. */
  predicate Private172(hostname: string) {
    |hostname| >= 7 && hostname[..4] == "172." && IsDigit(hostname[4]) && IsDigit(hostname[5])
    && hostname[6] == '.' && 16 <= DigitsValue(hostname[4..6]) <= 31
  }

  /** The local names with the `172.` test narrowed to the private block. */
  predicate IsLocalHostCorrected(hostname: string) {
    hostname == "localhost" || hostname == "127.0.0.1"
    || StartsWith(hostname, "192.168.") || StartsWith(hostname, "10.") || Private172(hostname)
  }

  /** `isExternalUrl(url)` with the private-block test: an http or https
      URL whose host is not local. */
  function IsExternalUrlCorrected(parsed: Option<Url>): (r: bool)
    ensures !IsValidUrl(parsed) ==> !r
    ensures r <==> parsed.Some? && parsed.value.protocol in {"http:", "https:"} && !IsLocalHostCorrected(parsed.value.hostname)
  {
    if !IsValidUrl(parsed) then false
    else
      var u := parsed.value;
      (u.protocol == "http:" || u.protocol == "https:") && !IsLocalHostCorrected(u.hostname)
  }

  /** The dotted-quad text of an IPv4 address. */
  function Quad(a: nat, b: nat, c: nat, d: nat): string {
    NatToString(a) + "." + NatToString(b) + "." + NatToString(c) + "." + NatToString(d)
  }

  /** The length of a number's decimal text for one, two and more digits. */
  lemma NatToStringLength(n: nat)
    ensures n < 10 ==> |NatToString(n)| == 1
    ensures 10 <= n < 100 ==> |NatToString(n)| == 2
    ensures n >= 100 ==> |NatToString(n)| >= 3
  {
    if n >= 100 {
      assert NatToString(n) == NatToString(n / 10) + [DigitChar(n % 10)];
      assert n / 10 >= 10;
      assert NatToString(n / 10) == NatToString(n / 100) + [DigitChar(n / 10 % 10)];
    }
  }

  /** A host `172.b.…` is in the private block exactly when `b` is from 16
      to 31. */
  lemma {:induction false} Private172Second(b: nat, tail: string)
    ensures Private172("172." + NatToString(b) + "." + tail) <==> 16 <= b <= 31
  {
    var t := NatToString(b);
    var h := "172." + t + "." + tail;
    NatToStringLength(b);
    NatToStringValue(b);
    assert h[..4] == "172.";
    if b < 10 {
      assert h[5] == '.';
    } else if b < 100 {
      assert h[4..6] == t;
      assert h[6] == '.';
    } else {
      assert h[6] == t[2];
    }
  }

  lemma Text172()
    ensures NatToString(172) == "172"
  {
  }

  /** An IPv4 host `172.b.c.d` is local exactly when it lies in the
      private block. */
  lemma Local172(b: nat, c: nat, d: nat)
    ensures IsLocalHostCorrected(Quad(172, b, c, d)) <==> 16 <= b <= 31
  {
    var h := Quad(172, b, c, d);
    Text172();
    var tail := NatToString(c) + "." + NatToString(d);
    assert h == "172." + NatToString(b) + "." + tail;
    Private172Second(b, tail);
    assert h[..4] == "172.";
    Starts172NotOther(h);
  }

  /** A name starting `172.` matches none of the other local tests. */
  lemma Starts172NotOther(h: string)
    requires |h| >= 4 && h[..4] == "172."
    ensures h != "localhost" && h != "127.0.0.1"
    ensures !StartsWith(h, "192.168.") && !StartsWith(h, "10.")
  {
    assert h[0] == '1' && h[1] == '7';
  }

  /** As written, every `172.` address is local, `172.217.0.46` among
      them, although its second number lies outside 16 to 31: a click on
      it is left to the web view, which the corrected handler opens
      outside. */
  lemma Public172AsWritten(b: nat, c: nat, d: nat, url: string, h: Host, shellFails: bool)
    ensures IsLocalHostAsWritten(Quad(172, b, c, d))
    ensures !IsExternalUrlAsWritten(Some(Url("https:", Quad(172, b, c, d))))
    ensures !HandleLinkClick(url, Some(Url("https:", Quad(172, b, c, d))), h, shellFails).prevented
    ensures b == 217 ==> IsExternalUrlCorrected(Some(Url("https:", Quad(172, b, c, d))))
    ensures b == 217 ==> HandleLinkClickCorrected(url, Some(Url("https:", Quad(172, b, c, d))), h, shellFails).prevented
  {
    Text172();
    var h := Quad(172, b, c, d);
    assert h[..4] == "172.";
    Local172(b, c, d);
  }

  /** What `isTauriEnvironment` looks at: whether there is a `window`, the
      truthiness of its two Tauri globals and the user agent. */
  datatype Host = Host(hasWindow: bool, tauri: bool, tauriInternals: bool, userAgent: string)

  /** `isTauriEnvironment()` */
  predicate IsTauri(h: Host) {
    h.hasWindow && (h.tauri || h.tauriInternals || Contains(h.userAgent, "Tauri"))
  }

  /** How `openExternalUrl` ends: it throws for an invalid URL; otherwise
      the shell command opens it, or the browser does, directly or after
      the shell command failed. */
  datatype Opened = Rejected(message: string) | ViaShell | ViaBrowser | ViaBrowserAfterError

  /** `openExternalUrl(url)`; `shellFails` is whether `invoke` rejects. */
  function OpenExternalUrl(url: string, parsed: Option<Url>, h: Host, shellFails: bool): (r: Opened)
    ensures r.Rejected? <==> !IsValidUrl(parsed)
    ensures r.Rejected? ==> r.message == "Invalid URL: " + url
    ensures r == ViaShell <==> IsValidUrl(parsed) && IsTauri(h) && !shellFails
    ensures r == ViaBrowserAfterError <==> IsValidUrl(parsed) && IsTauri(h) && shellFails
  {
    if !IsValidUrl(parsed) then Rejected("Invalid URL: " + url)
    else if IsTauri(h) then (if shellFails then ViaBrowserAfterError else ViaShell)
    else ViaBrowser
  }

  /** What a click does: whether the default navigation is cancelled, and
      how the URL was opened if the handler opened it. */
  datatype Click = Click(prevented: bool, outcome: Option<Opened>)

  /** `handleLinkClick(event, url)`, and the handler that
      `createExternalLinkHandler(url)` returns, which does the same: both
      branch on `isExternalUrl` as written. */
  function HandleLinkClick(url: string, parsed: Option<Url>, h: Host, shellFails: bool): (r: Click)
    ensures r.prevented <==> IsExternalUrlAsWritten(parsed)
    ensures r.outcome.Some? <==> r.prevented
    ensures r.outcome.Some? ==> r.outcome.value == OpenExternalUrl(url, parsed, h, shellFails)
  {
    if IsExternalUrlAsWritten(parsed) then Click(true, Some(OpenExternalUrl(url, parsed, h, shellFails)))
    else Click(false, None)
  }

  /** The click handler over the corrected classifier. */
  function HandleLinkClickCorrected(url: string, parsed: Option<Url>, h: Host, shellFails: bool): (r: Click)
    ensures r.prevented <==> IsExternalUrlCorrected(parsed)
    ensures r.outcome.Some? <==> r.prevented
    ensures r.outcome.Some? ==> r.outcome.value == OpenExternalUrl(url, parsed, h, shellFails)
  {
    if IsExternalUrlCorrected(parsed) then Click(true, Some(OpenExternalUrl(url, parsed, h, shellFails)))
    else Click(false, None)
  }

  /** The two handlers differ only on `172.` hosts outside the private
      block: elsewhere they cancel the same clicks and open the URL the
      same way. */
  lemma HandlersAgreeOutside172(url: string, parsed: Option<Url>, h: Host, shellFails: bool)
    requires parsed.Some? ==> !StartsWith(parsed.value.hostname, "172.")
    ensures HandleLinkClick(url, parsed, h, shellFails) == HandleLinkClickCorrected(url, parsed, h, shellFails)
  {
  }

  /** A click never reaches the `Invalid URL` error, with either
      classifier: only a URL that parsed is opened, and it is always
      opened somewhere. */
  lemma ClickNeverRejects(url: string, parsed: Option<Url>, h: Host, shellFails: bool)
    ensures HandleLinkClick(url, parsed, h, shellFails).outcome.Some? ==> !HandleLinkClick(url, parsed, h, shellFails).outcome.value.Rejected?
    ensures HandleLinkClickCorrected(url, parsed, h, shellFails).outcome.Some? ==> !HandleLinkClickCorrected(url, parsed, h, shellFails).outcome.value.Rejected?
  {
  }

  /** The loop-back names, `10.`, `192.168.` and every `172.` host are
      never external, over either protocol, and a click on them is left
      to the web view. */
  lemma LocalNeverExternal(protocol: string, hostname: string, url: string, h: Host, shellFails: bool)
    requires IsLocalHostAsWritten(hostname)
    ensures !IsExternalUrlAsWritten(Some(Url(protocol, hostname)))
    ensures !HandleLinkClick(url, Some(Url(protocol, hostname)), h, shellFails).prevented
  {
  }

  /** With the corrected test, the local and private-network names are
      never external. */
  lemma LocalNeverExternalCorrected(protocol: string, hostname: string)
    requires IsLocalHostCorrected(hostname)
    ensures !IsExternalUrlCorrected(Some(Url(protocol, hostname)))
  {
  }

  /** `file:`, `mailto:` and every other protocol stay in the app, with
      either classifier. */
  lemma OtherProtocolsInternal(protocol: string, hostname: string, url: string, h: Host, shellFails: bool)
    requires protocol != "http:" && protocol != "https:"
    ensures !IsExternalUrlAsWritten(Some(Url(protocol, hostname)))
    ensures !IsExternalUrlCorrected(Some(Url(protocol, hostname)))
    ensures !HandleLinkClick(url, Some(Url(protocol, hostname)), h, shellFails).prevented
  {
  }
}
