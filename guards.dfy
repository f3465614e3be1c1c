/** Request guards: the access token check (`_is_valid_auth_token`), the
    open-redirect guard (`_safe_next_path`), the desktop and compact mode
    switches (`_desktop_enabled_from_request`,
    `_compact_enabled_from_request`) and the legacy token login form
    (`legacy_auth_login`). */
module Guards {
  import opened Wrappers

  // ---------------------------------------------------------------------
  // Access token.

  /** `_is_valid_auth_token(token)` with the two settings it reads: when
      authentication is not required every token passes; otherwise the token
      must be non-empty and equal to the configured one. */
  function IsValidAuthToken(required: bool, expected: string, token: string): (valid: bool)
    ensures !required ==> valid
    ensures required ==> (valid <==> expected != "" && token == expected)
    ensures required && token == "" ==> !valid
  {
    !required || (token != "" && token == expected)
  }

  /** With secret `secret`: `secret` passes, `wrong` and the empty token do not. */
  lemma AuthTokenSamples()
    ensures IsValidAuthToken(true, "secret", "secret")
    ensures !IsValidAuthToken(true, "secret", "wrong")
    ensures !IsValidAuthToken(true, "secret", "")
  {
    assert "wrong"[0] != "secret"[0];
  }

  // ---------------------------------------------------------------------
  // Redirect target.

  /** A path on this server: starts with `/` but not with `//`, which a
      browser would read as another host. */
  predicate IsLocalPath(p: string) {
    |p| >= 1 && p[0] == '/' && !(|p| >= 2 && p[1] == '/')
  }

  /** `_safe_next_path(next)`: the path itself when it is local, else `/`. */
  function SafeNextPath(p: string): (r: string)
    ensures IsLocalPath(r)
    ensures r == p <==> IsLocalPath(p)
    ensures r != p ==> r == "/"
  {
    if IsLocalPath(p) then p else "/"
  }

  /** Guarding twice is guarding once. */
  lemma SafeNextPathIdempotent(p: string)
    ensures SafeNextPath(SafeNextPath(p)) == SafeNextPath(p)
  {
  }

  /** `/` and `/diag/status` are kept; `https://evil.example` and
      `//evil.example` become `/`. */
  lemma SafeNextPathSamples()
    ensures SafeNextPath("/") == "/"
    ensures SafeNextPath("/diag/status") == "/diag/status"
    ensures SafeNextPath("https://evil.example") == "/"
    ensures SafeNextPath("//evil.example") == "/"
  {
    assert !IsLocalPath("https://evil.example") by {
      assert "https://evil.example"[0] == 'h';
    }
  }

  // ---------------------------------------------------------------------
  // Mode switches.

  /** The request as the mode switches see it: its query parameters and cookies. */
  datatype Request = Request(query: map<string, string>, cookies: map<string, string>)

  /** The query parameter that switches the desktop mode. */
  const DesktopQueryKey: string := "desktop"

  /** The cookie that remembers the desktop mode. */
  const DesktopModeCookie: string := "codex_desktop_mode"

  /** The query parameter that switches the compact layout. */
  const CompactQueryKey: string := "compact"

  /** The cookie that remembers the compact layout. */
  const CompactModeCookie: string := "codex_compact_mode"

  /** The value that also switches the compact layout on. */
  const CompactAlias: string := "mobile"

  predicate IsTruthy(v: string) {
    v == "1" || v == "true" || v == "yes" || v == "on"
  }

  predicate IsFalsy(v: string) {
    v == "0" || v == "false" || v == "no" || v == "off"
  }

  /** A switch value: on, off, or not recognised. */
  function ParseFlag(v: string): (b: Option<bool>)
    ensures b == Some(true) <==> IsTruthy(v)
    ensures b == Some(false) <==> IsFalsy(v)
    ensures b.None? <==> !IsTruthy(v) && !IsFalsy(v)
  {
    if IsTruthy(v) then Some(true) else if IsFalsy(v) then Some(false) else None
  }

  /** The switch a map holds under `key`, if it holds a recognised one. */
  function FlagIn(m: map<string, string>, key: string): (b: Option<bool>)
    ensures b.Some? ==> key in m && b == ParseFlag(m[key])
    ensures key in m && ParseFlag(m[key]).Some? ==> b == ParseFlag(m[key])
  {
    if key in m then ParseFlag(m[key]) else None
  }

  /** `_desktop_enabled_from_request(req)`: the query parameter if it is a
      recognised switch, else the cookie if it is, else on. */
  function DesktopEnabled(req: Request): (on: bool)
    ensures !on <==> (
      || (DesktopQueryKey in req.query && IsFalsy(req.query[DesktopQueryKey]))
      || (FlagIn(req.query, DesktopQueryKey).None? && DesktopModeCookie in req.cookies
          && IsFalsy(req.cookies[DesktopModeCookie])))
  {
    var q := FlagIn(req.query, DesktopQueryKey);
    var c := FlagIn(req.cookies, DesktopModeCookie);
    if q.Some? then q.value else if c.Some? then c.value else true
  }

  /** The query overrides the cookie, the cookie overrides the default, and
      the default is on. */
  lemma DesktopPrecedence(req: Request)
    ensures FlagIn(req.query, DesktopQueryKey).Some?
      ==> DesktopEnabled(req) == FlagIn(req.query, DesktopQueryKey).value
    ensures FlagIn(req.query, DesktopQueryKey).None? && FlagIn(req.cookies, DesktopModeCookie).Some?
      ==> DesktopEnabled(req) == FlagIn(req.cookies, DesktopModeCookie).value
    ensures FlagIn(req.query, DesktopQueryKey).None? && FlagIn(req.cookies, DesktopModeCookie).None?
      ==> DesktopEnabled(req)
  {
  }

  /** The cookie only matters when the query does not decide. */
  lemma DesktopQueryOverridesCookie(query: map<string, string>, c1: map<string, string>, c2: map<string, string>)
    requires FlagIn(query, DesktopQueryKey).Some?
    ensures DesktopEnabled(Request(query, c1)) == DesktopEnabled(Request(query, c2))
  {
  }

  /** No switches: on. Cookie `0`: off. Query `on` over cookie `off`: on. */
  lemma DesktopSamples()
    ensures DesktopEnabled(Request(map[], map[]))
    ensures !DesktopEnabled(Request(map[], map[DesktopModeCookie := "0"]))
    ensures DesktopEnabled(Request(map[DesktopQueryKey := "on"], map[DesktopModeCookie := "off"]))
  {
    assert !IsTruthy("0") by { assert "0"[0] != "1"[0]; }
    assert !IsTruthy("off") by { assert "off"[1] != "on"[1]; }
  }

  /** A compact switch value: a recognised switch, with `mobile` also on. */
  function CompactFlag(v: string): (b: Option<bool>)
    ensures b == Some(true) <==> IsTruthy(v) || v == CompactAlias
    ensures b == Some(false) <==> IsFalsy(v)
  {
    if v == CompactAlias then Some(true) else ParseFlag(v)
  }

  /** The compact switch a map holds under `key`, if it holds a recognised one. */
  function CompactFlagIn(m: map<string, string>, key: string): (b: Option<bool>)
    ensures b.Some? ==> key in m && b == CompactFlag(m[key])
    ensures key in m && CompactFlag(m[key]).Some? ==> b == CompactFlag(m[key])
  {
    if key in m then CompactFlag(m[key]) else None
  }

  /** `_compact_enabled_from_request(req)`: the query parameter if it is a
      recognised switch, else the cookie if it is, else off. */
  function CompactEnabled(req: Request): (on: bool)
    ensures on <==> (
      || (CompactQueryKey in req.query && (IsTruthy(req.query[CompactQueryKey]) || req.query[CompactQueryKey] == CompactAlias))
      || (CompactFlagIn(req.query, CompactQueryKey).None? && CompactModeCookie in req.cookies
          && (IsTruthy(req.cookies[CompactModeCookie]) || req.cookies[CompactModeCookie] == CompactAlias)))
  {
    var q := CompactFlagIn(req.query, CompactQueryKey);
    var c := CompactFlagIn(req.cookies, CompactModeCookie);
    if q.Some? then q.value else if c.Some? then c.value else false
  }

  /** The query overrides the cookie, the cookie overrides the default, and
      the default is off. */
  lemma CompactPrecedence(req: Request)
    ensures CompactFlagIn(req.query, CompactQueryKey).Some?
      ==> CompactEnabled(req) == CompactFlagIn(req.query, CompactQueryKey).value
    ensures CompactFlagIn(req.query, CompactQueryKey).None? && CompactFlagIn(req.cookies, CompactModeCookie).Some?
      ==> CompactEnabled(req) == CompactFlagIn(req.cookies, CompactModeCookie).value
    ensures CompactFlagIn(req.query, CompactQueryKey).None? && CompactFlagIn(req.cookies, CompactModeCookie).None?
      ==> !CompactEnabled(req)
  {
  }

  /** Compact is off by default and switched on by `1` or `mobile`; a query
      `0` overrides a cookie `1`. */
  lemma CompactSamples()
    ensures !CompactEnabled(Request(map[], map[]))
    ensures CompactEnabled(Request(map[CompactQueryKey := "1"], map[]))
    ensures CompactEnabled(Request(map[CompactQueryKey := "mobile"], map[]))
    ensures !CompactEnabled(Request(map[CompactQueryKey := "0"], map[CompactModeCookie := "1"]))
  {
    assert !IsTruthy("0") by { assert "0"[0] != "1"[0]; }
  }

  // ---------------------------------------------------------------------
  // Legacy login form.

  /** What the login form answers: an error page with its status, or a
      redirect. */
  datatype LoginReply =
    | LoginPage(status: int, ok: bool, error: string)
    | LoginRedirect(location: string)

  /** `legacy_auth_login(token, next)`: a token that does not pass is a 401
      page with error `unauthorized`; one that passes redirects to the
      guarded `next` path. */
  function LegacyAuthLogin(required: bool, expected: string, token: string, next: string): (r: LoginReply)
    ensures r.LoginPage? <==> !IsValidAuthToken(required, expected, token)
    ensures r.LoginPage? ==> r == LoginPage(401, false, "unauthorized")
    ensures r.LoginRedirect? ==> (IsLocalPath(r.location)
      && (r.location == next || r.location == "/"))
    ensures r.LoginRedirect? ==> r.location == SafeNextPath(next)
  {
    if !IsValidAuthToken(required, expected, token) then LoginPage(401, false, "unauthorized")
    else LoginRedirect(SafeNextPath(next))
  }

  /** Token `wrong` against secret `secret`: 401, not ok, `unauthorized`. */
  lemma LegacyAuthLoginSample()
    ensures LegacyAuthLogin(true, "secret", "wrong", "/") == LoginPage(401, false, "unauthorized")
  {
    AuthTokenSamples();
  }
}
