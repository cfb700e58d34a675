/** The request gate (src/proxy.ts): an ordered table of path matchers whose
    first match picks the handler, allow-by-default for unmatched paths, and
    the session handler that attaches `x-user-id`.

    `URLPattern.test` is the parameter `test(pattern, path)`; `verifyJWT` is
    the parameter `verify(cookieValue)`, which yields the payload or `None`.
    Header names are taken in their lower-case normal form, as the Fetch
    `Headers` object stores them. */
module RequestGate {
  import opened Common
  import Auth
  import PathPattern

  const UserIdHeader: string := "x-user-id"
  const SessionCookieName: string := "session"
  const LoginPath: string := "/auth/login"

  /** A matcher's `pattern`: one URLPattern or an array of them. */
  datatype PatternSpec = Single(pattern: string) | Several(patterns: seq<string>)
  /** The matcher's handler: as written, and with the login redirect made
      absolute against the request's URL. */
  datatype Handler = RequireSession | RequireSessionAbsolute
  datatype Matcher = Matcher(pattern: PatternSpec, handler: Handler)

  const GatedPatterns: seq<string> :=
    ["/api/bank-accounts", AccountPrefix + ":path", "/api/user", "/api/user/complete-registration"]

  const AccountPrefix: string := "/api/bank-accounts/"

  /** `simpleMatcher`. */
  const SimpleMatcher: seq<Matcher> := [Matcher(Several(GatedPatterns), RequireSession)]

  /** `simpleMatcher` with the corrected handler. */
  const SimpleMatcherAbsolute: seq<Matcher> := [Matcher(Several(GatedPatterns), RequireSessionAbsolute)]

  /** A request: the origin of `req.url` (scheme, host and port), its
      pathname, its headers and its cookies. */
  datatype Request = Request(origin: string, path: string, headers: map<string, string>, cookies: map<string, string>)

  /** `NextResponse.next()` (forward as is), `NextResponse.next({ request:
      { headers } })` (forward with these request headers), a redirect, or
      the internal server error Next.js answers when the proxy throws. */
  datatype Response = Forward | ForwardWith(headers: map<string, string>) | Redirect(location: string) | ServerError

  predicate IsAsciiAlpha(c: char) {
    'a' <= c <= 'z' || 'A' <= c <= 'Z'
  }

  predicate IsSchemeChar(c: char) {
    IsAsciiAlpha(c) || '0' <= c <= '9' || c == '+' || c == '-' || c == '.'
  }

  /** The URL parser accepts `url` without a base URL only when it starts
      with a scheme: an ASCII letter, then letters, digits, '+', '-' or
      '.', then ':'. */
  predicate HasScheme(url: string) {
    exists i :: 0 < i < |url| && url[i] == ':' && IsAsciiAlpha(url[0]) &&
      forall j :: 0 < j < i ==> IsSchemeChar(url[j])
  }

  /** `NextResponse.redirect(url)`: it first parses `url` on its own and
      throws when that fails, so a relative URL never becomes a redirect.
      Thrown from the handler's `catch` block, the error escapes `proxy`. */
  function NextRedirect(url: string): (r: Response)
    ensures r.Redirect? <==> HasScheme(url)
    ensures r.Redirect? ==> r.location == url
    ensures !r.Redirect? ==> r == ServerError
  {
    if HasScheme(url) then Redirect(url) else ServerError
  }

  /** The login path is relative: it has no scheme. */
  lemma LoginPathRelative()
    ensures !HasScheme(LoginPath)
  {
    assert LoginPath[0] == '/';
  }

  /** Appending a path to an absolute origin keeps it absolute, as
      `new URL(path, req.url)` does. */
  lemma OriginKeepsScheme(origin: string, path: string)
    requires HasScheme(origin)
    ensures HasScheme(origin + path)
  {
    var i :| 0 < i < |origin| && origin[i] == ':' && IsAsciiAlpha(origin[0]) &&
      forall j :: 0 < j < i ==> IsSchemeChar(origin[j]);
    var url := origin + path;
    assert url[i] == ':' && url[0] == origin[0];
    assert forall j :: 0 < j < i ==> url[j] == origin[j];
  }

  /** `processSession` returns headers or throws "No session cookie". */
  datatype SessionResult = Headers(headers: map<string, string>) | NoSessionCookie

  function Patterns(p: PatternSpec): seq<string> {
    match p
    case Single(q) => [q]
    case Several(qs) => qs
  }

  predicate MatcherTests(m: Matcher, path: string, test: (string, string) -> bool) {
    exists q :: q in Patterns(m.pattern) && test(q, path)
  }

  /** The index of the first matcher one of whose patterns accepts `path`. */
  function FirstMatch(table: seq<Matcher>, path: string, test: (string, string) -> bool): (r: Option<nat>)
    ensures r.Some? ==> r.value < |table| && MatcherTests(table[r.value], path, test)
    ensures r.Some? ==> forall j :: 0 <= j < r.value ==> !MatcherTests(table[j], path, test)
    ensures r.None? ==> forall j :: 0 <= j < |table| ==> !MatcherTests(table[j], path, test)
    decreases |table|
  {
    if table == [] then None
    else if MatcherTests(table[0], path, test) then Some(0)
    else match FirstMatch(table[1..], path, test)
      case None => None
      case Some(i) => Some(i + 1)
  }

  /** `processSession(req)`: throws exactly when there is neither an
      `x-user-id` header nor a non-empty `session` cookie; otherwise the
      request's headers with `x-user-id` present. */
  function ProcessSession(req: Request, verify: string -> Option<Auth.Claims>): (r: SessionResult)
    ensures r.NoSessionCookie? <==>
      UserIdHeader !in req.headers && (SessionCookieName !in req.cookies || req.cookies[SessionCookieName] == "")
    ensures r.Headers? ==> UserIdHeader in r.headers
    ensures r.Headers? ==> forall h :: h != UserIdHeader ==>
      (h in r.headers <==> h in req.headers) && (h in req.headers ==> r.headers[h] == req.headers[h])
  {
    if UserIdHeader in req.headers then Headers(req.headers)
    else if SessionCookieName !in req.cookies || req.cookies[SessionCookieName] == "" then NoSessionCookie
    else
      var payload := verify(req.cookies[SessionCookieName]);
      var userId := if payload.Some? && payload.value.sub.Some? then payload.value.sub.value else "";
      Headers(req.headers[UserIdHeader := userId])
  }

  /** A matcher's handler: forward with the session's headers, or, when
      `processSession` throws, redirect to the login page. As written the
      redirect target is the relative "/auth/login", which
      `NextResponse.redirect` rejects; the corrected handler resolves it
      against the request's URL first. */
  function RunHandler(h: Handler, req: Request, verify: string -> Option<Auth.Claims>): (r: Response)
    ensures r.ForwardWith? <==> ProcessSession(req, verify).Headers?
    ensures r.ForwardWith? ==> r.headers == ProcessSession(req, verify).headers
    ensures ProcessSession(req, verify).NoSessionCookie? && h.RequireSession? ==> r == ServerError
    ensures ProcessSession(req, verify).NoSessionCookie? && h.RequireSessionAbsolute? && HasScheme(req.origin) ==>
      r == Redirect(req.origin + LoginPath)
  {
    match ProcessSession(req, verify)
    case Headers(headers) => ForwardWith(headers)
    case NoSessionCookie =>
      match h
      case RequireSession =>
        LoginPathRelative();
        NextRedirect(LoginPath)
      case RequireSessionAbsolute =>
        if HasScheme(req.origin) then OriginKeepsScheme(req.origin, LoginPath); NextRedirect(req.origin + LoginPath)
        else NextRedirect(req.origin + LoginPath)
  }

  /** What `proxy(req)` answers. */
  function Route(table: seq<Matcher>, req: Request, test: (string, string) -> bool,
                 verify: string -> Option<Auth.Claims>): Response
  {
    match FirstMatch(table, req.path, test)
    case None => Forward
    case Some(i) => RunHandler(table[i].handler, req, verify)
  }

  /** `proxy(req)`: try the matchers in order and, inside an array, the
      patterns in order; the first pattern that accepts the path hands the
      request to its matcher's handler; no match forwards it unchanged. */
  method Proxy(table: seq<Matcher>, req: Request, test: (string, string) -> bool,
               verify: string -> Option<Auth.Claims>) returns (resp: Response)
    ensures resp == Route(table, req, test, verify)
  {
    var i := 0;
    while i < |table|
      invariant 0 <= i <= |table|
      invariant forall j :: 0 <= j < i ==> !MatcherTests(table[j], req.path, test)
    {
      var matcher := table[i];
      match matcher.pattern {
        case Several(patterns) =>
          var k := 0;
          while k < |patterns|
            invariant 0 <= k <= |patterns|
            invariant forall q :: q in patterns[..k] ==> !test(q, req.path)
          {
            if test(patterns[k], req.path) {
              assert MatcherTests(matcher, req.path, test);
              return RunHandler(matcher.handler, req, verify);
            }
            k := k + 1;
          }
          assert patterns[..k] == patterns;
        case Single(pattern) =>
          if test(pattern, req.path) {
            assert MatcherTests(matcher, req.path, test);
            return RunHandler(matcher.handler, req, verify);
          }
      }
      i := i + 1;
    }
    return Forward;
  }

  /** A path that no pattern accepts is forwarded unchanged. */
  lemma UnmatchedIsForwarded(table: seq<Matcher>, req: Request, test: (string, string) -> bool,
                             verify: string -> Option<Auth.Claims>)
    requires forall m, q :: m in table && q in Patterns(m.pattern) ==> !test(q, req.path)
    ensures Route(table, req, test, verify) == Forward
  {
  }

  /** Only the first matching entry decides: putting any entries after it
      changes nothing. */
  lemma {:induction false} FirstMatchDecides(table: seq<Matcher>, rest: seq<Matcher>, req: Request,
                                             test: (string, string) -> bool, verify: string -> Option<Auth.Claims>)
    requires FirstMatch(table, req.path, test).Some?
    ensures Route(table + rest, req, test, verify) == Route(table, req, test, verify)
  {
    var i := FirstMatch(table, req.path, test).value;
    FirstMatchOfPrefix(table, rest, req.path, test);
    assert (table + rest)[i] == table[i];
  }

  /** Entries appended after a match do not move the first match. */
  lemma {:induction false} FirstMatchOfPrefix(table: seq<Matcher>, rest: seq<Matcher>, path: string,
                                              test: (string, string) -> bool)
    requires FirstMatch(table, path, test).Some?
    ensures FirstMatch(table + rest, path, test) == FirstMatch(table, path, test)
    decreases |table|
  {
    assert (table + rest)[0] == table[0];
    if !MatcherTests(table[0], path, test) {
      assert (table + rest)[1..] == table[1..] + rest;
      FirstMatchOfPrefix(table[1..], rest, path, test);
    }
  }

  /** The simple matcher gates exactly the paths one of the four patterns
      accepts. */
  lemma SimpleMatcherGates(req: Request, test: (string, string) -> bool, verify: string -> Option<Auth.Claims>)
    ensures Route(SimpleMatcher, req, test, verify) ==
      if exists q :: q in GatedPatterns && test(q, req.path) then RunHandler(RequireSession, req, verify) else Forward
  {
    assert SimpleMatcher[0].pattern == Several(GatedPatterns);
  }

  /** With an `x-user-id` header already present, the headers pass through
      unchanged, and neither the cookies nor `verify` are looked at. */
  lemma ExistingUserIdPassesThrough(handler: Handler, req: Request, other: map<string, string>,
                                    verify: string -> Option<Auth.Claims>, verify': string -> Option<Auth.Claims>)
    requires UserIdHeader in req.headers
    ensures RunHandler(handler, req, verify) == ForwardWith(req.headers)
    ensures RunHandler(handler, req.(cookies := other), verify') == RunHandler(handler, req, verify)
  {
  }

  /** Without `x-user-id` and without a non-empty `session` cookie, the
      handler as written throws from its `catch` block: the request is
      neither forwarded nor redirected, and Next.js answers with a server
      error. */
  lemma MissingCookieFails(req: Request, verify: string -> Option<Auth.Claims>)
    requires UserIdHeader !in req.headers
    requires SessionCookieName !in req.cookies || req.cookies[SessionCookieName] == ""
    ensures RunHandler(RequireSession, req, verify) == ServerError
  {
    LoginPathRelative();
  }

  /** So a gated path requested without a session fails in the proxy. */
  lemma GatedWithoutSessionFails(req: Request, verify: string -> Option<Auth.Claims>)
    requires req.path == "/api/user"
    requires UserIdHeader !in req.headers && SessionCookieName !in req.cookies
    ensures Route(SimpleMatcher, req, PathPattern.Test, verify) == ServerError
  {
    GatedPaths(req.path, GatedPatterns);
    SimpleMatcherGates(req, PathPattern.Test, verify);
    MissingCookieFails(req, verify);
  }

  /** The corrected handler redirects a request without a session to the
      login page on the request's own origin. */
  lemma MissingCookieRedirects(req: Request, verify: string -> Option<Auth.Claims>)
    requires HasScheme(req.origin)
    requires UserIdHeader !in req.headers
    requires SessionCookieName !in req.cookies || req.cookies[SessionCookieName] == ""
    ensures RunHandler(RequireSessionAbsolute, req, verify) == Redirect(req.origin + LoginPath)
  {
    OriginKeepsScheme(req.origin, LoginPath);
  }

  /** With the corrected handler the gate never answers with a server
      error: every request is forwarded or redirected to the login page. */
  lemma AbsoluteGateNeverFails(req: Request, test: (string, string) -> bool, verify: string -> Option<Auth.Claims>)
    requires HasScheme(req.origin)
    ensures var r := Route(SimpleMatcherAbsolute, req, test, verify);
      r.Forward? || r.ForwardWith? || r == Redirect(req.origin + LoginPath)
  {
    assert SimpleMatcherAbsolute[0].pattern == Several(GatedPatterns);
    if ProcessSession(req, verify).NoSessionCookie? {
      MissingCookieRedirects(req, verify);
    }
  }

  /** A cookie that verifies: forwarded with `x-user-id` set to the
      payload's subject, every other header as it was. */
  lemma VerifiedCookieForwardsSubject(handler: Handler, req: Request, verify: string -> Option<Auth.Claims>, sub: string)
    requires UserIdHeader !in req.headers
    requires SessionCookieName in req.cookies && req.cookies[SessionCookieName] != ""
    requires verify(req.cookies[SessionCookieName]).Some?
    requires verify(req.cookies[SessionCookieName]).value.sub == Some(sub)
    ensures var r := RunHandler(handler, req, verify);
      && r.ForwardWith?
      && UserIdHeader in r.headers && r.headers[UserIdHeader] == sub
      && (forall h :: h != UserIdHeader ==> (h in r.headers <==> h in req.headers))
      && (forall h :: h in req.headers ==> r.headers[h] == req.headers[h])
  {
  }

  /** A cookie that FAILS verification is not redirected: the request goes
      on with `x-user-id` set to the empty string. */
  lemma UnverifiedCookieForwardsEmptyId(handler: Handler, req: Request, verify: string -> Option<Auth.Claims>)
    requires UserIdHeader !in req.headers
    requires SessionCookieName in req.cookies && req.cookies[SessionCookieName] != ""
    requires verify(req.cookies[SessionCookieName]).None?
    ensures RunHandler(handler, req, verify) == ForwardWith(req.headers[UserIdHeader := ""])
    ensures !RunHandler(handler, req, verify).Redirect?
  {
  }

  /** A path of the form /api/bank-accounts/<one non-empty segment>. */
  predicate AccountPath(path: string) {
    |path| > |AccountPrefix| && path[..|AccountPrefix|] == AccountPrefix && '/' !in path[|AccountPrefix|..]
  }

  /** With URLPattern read as in PathPattern, the gated paths are exactly
      /api/bank-accounts, /api/bank-accounts/<one segment>, /api/user and
      /api/user/complete-registration. */
  lemma GatedPaths(path: string, patterns: seq<string>)
    // The list is a parameter pinned to the constant, so that the proof
    // unfolds the pattern matcher on each element and not on the literal list.
    requires patterns == GatedPatterns
    ensures (exists q :: q in patterns && PathPattern.Test(q, path)) <==>
      || path == "/api/bank-accounts"
      || path == "/api/user"
      || path == "/api/user/complete-registration"
      || AccountPath(path)
  {
    assert (exists q :: q in patterns && PathPattern.Test(q, path)) <==>
      PathPattern.Test(patterns[0], path) || PathPattern.Test(patterns[1], path) ||
      PathPattern.Test(patterns[2], path) || PathPattern.Test(patterns[3], path);
    LiteralPattern(patterns[0], path);
    LiteralPattern(patterns[2], path);
    LiteralPattern(patterns[3], path);
    AccountPattern(path, AccountPrefix);
  }

  /** The account pattern matches exactly the account paths. */
  lemma AccountPattern(path: string, prefix: string)
    // The prefix is a parameter pinned to the constant, for the same reason.
    requires prefix == AccountPrefix
    ensures PathPattern.Test(prefix + ":path", path) <==> AccountPath(path)
  {
    assert ':' !in prefix;
    assert prefix + ":path" == prefix + [':'] + "path";
    PathPattern.TrailingGroup(prefix, "path", path);
  }

  /** A pattern without groups matches only its own path. */
  lemma LiteralPattern(lit: string, path: string)
    requires lit in {"/api/bank-accounts", "/api/user", "/api/user/complete-registration"}
    ensures PathPattern.Test(lit, path) <==> path == lit
  {
    assert ':' !in lit;
    PathPattern.LiteralMatchesItself(lit, path);
  }

  /** For instance, /api/labels is not gated and is forwarded unchanged. */
  lemma LabelsNotGated(req: Request, verify: string -> Option<Auth.Claims>)
    requires req.path == "/api/labels"
    ensures Route(SimpleMatcher, req, PathPattern.Test, verify) == Forward
  {
    GatedPaths(req.path, GatedPatterns);
    SimpleMatcherGates(req, PathPattern.Test, verify);
  }
}
