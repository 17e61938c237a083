/** The session manager and resource client of internal/ovirt-mini-api.go:
    HTTP status classification, the bearer-token life cycle (load, probe,
    password-grant fetch, persist), the transport and CA choice, and the
    re-authentication a 401 answer triggers.

    The outside world an `Authenticate` call sees (the parsed URL, the clock,
    the answers of the CA, token and probe endpoints, which local files can be
    read or written) is one immutable `World` value. */
module MiniApi {
  import opened Wrappers
  import opened Definitions

  const CaUrl := "ovirt-engine/services/pki-resource?resource=ca-certificate&format=X509-PEM-CA"
  const TokenUrl := "/ovirt-engine/sso/oauth/token"
  const TokenStore := "/tmp/ovirt-flexdriver.token"

  /** The local file a downloaded CA certificate is written to. */
  const CaFileName := "ovirt.ca"

  newtype int64 = x: int | -0x8000_0000_0000_0000 <= x < 0x8000_0000_0000_0000

  /** Go's zero `time.Time` (January 1, year 1, UTC) in Unix nanoseconds. */
  const ZeroTime: int := -62135596800 * 1_000_000_000

  /* ---------- HTTP status classification ---------- */

  /** An HTTP answer: its status code and its status line (`resp.Status`). */
  datatype HttpResponse = HttpResponse(code: int, statusLine: string)

  /* ---------- Request URLs ---------- */

  /** A resource path up to its query: the part `Request.URL.Path` keeps. */
  function BeforeQuery(path: string): (p: string)
    ensures p <= path && '?' !in p
    ensures |p| < |path| ==> path[|p|] == '?'
  {
    if path == [] || path[0] == '?' then [] else [path[0]] + BeforeQuery(path[1..])
  }

  /** A path is kept whole exactly when it has no query. */
  lemma {:induction false} BeforeQueryKeepsPlainPath(path: string)
    ensures '?' !in path <==> BeforeQuery(path) == path
  {
    var p := BeforeQuery(path);
    if |p| < |path| {
      assert path[|p|] in path;
    }
  }

  /** The query of a path `<base>?<query>` is dropped, whatever the query holds. */
  lemma BeforeQueryDropsQuery(base: string, query: string)
    requires '?' !in base
    ensures BeforeQuery(base + "?" + query) == base
  {
    var path := base + "?" + query;
    var p := BeforeQuery(path);
    assert path[|base|] == '?';
    assert p == path[..|base|] == base;
  }

  /** `Request.URL.Path` of a resource request, which a 404 error reports. The
      request URL is the connection URL, a slash and the path (`clientDo`), so
      its path is the connection URL's own path (`apiPath`, such as
      `/ovirt-engine/api`), a slash, and the resource path without its query. */
  function UrlPath(apiPath: string, path: string): string {
    apiPath + "/" + BeforeQuery(path)
  }

  /** A path without a query is reported after the connection URL's path as it
      is; the query of a path that has one is dropped. */
  lemma UrlPathOfResource(apiPath: string, path: string)
    ensures '?' !in path <==> UrlPath(apiPath, path) == apiPath + "/" + path
    ensures '?' in path ==> |UrlPath(apiPath, path)| < |apiPath| + 1 + |path|
    ensures UrlPath(apiPath, path)[..|apiPath| + 1] == apiPath + "/"
  {
    BeforeQueryKeepsPlainPath(path);
  }

  /** The full URL `clientDo` requests: the connection URL, a slash, the path. */
  function RequestUrl(conn: Connection, path: string): (url: string)
    ensures |url| == |conn.url| + 1 + |path|
    ensures url[..|conn.url|] == conn.url && url[|conn.url|] == '/' && url[|conn.url| + 1..] == path
  {
    conn.url + "/" + path
  }

  /** The URL `isTokenValid` probes. It passes the connection URL itself as the
      path, and `clientDo` prefixes the connection URL once more, so the probe
      goes to `<url>/<url>` rather than to the API root. */
  function ProbeUrl(conn: Connection): (url: string)
    ensures url == RequestUrl(conn, conn.url)
    ensures |url| == 2 * |conn.url| + 1
    ensures url[..|conn.url|] == conn.url && url[|conn.url| + 1..] == conn.url
  {
    RequestUrl(conn, conn.url)
  }

  /** `translateError`: 404 becomes the distinguished `NotFound` for the
      requested URL path, every other status a generic error carrying the status line. */
  function TranslateError(resp: HttpResponse, urlPath: string): (e: Error)
    ensures e.NotFound? <==> resp.code == 404
    ensures e.NotFound? ==> e.urlPath == urlPath && ErrorText(e) == "No resource at " + urlPath
    ensures !e.NotFound? ==> ErrorText(e) == resp.statusLine && e == HttpStatus(resp.code, resp.statusLine)
  {
    if resp.code == 404 then NotFound(urlPath) else HttpStatus(resp.code, resp.statusLine)
  }

  /** How `Get` classifies an answer: anything above 200 fails through `TranslateError`. */
  function GetOutcome(resp: HttpResponse, urlPath: string): (o: Outcome<Error>)
    ensures o.Pass? <==> resp.code <= 200
    ensures o.Fail? ==> (o.error.NotFound? <==> resp.code == 404)
  {
    if resp.code > 200 then Fail(TranslateError(resp, urlPath)) else Pass
  }

  /** How `Post` classifies an answer: only a status above 300 fails. */
  function PostOutcome(resp: HttpResponse): (o: Outcome<Error>)
    ensures o.Pass? <==> resp.code <= 300
    ensures o.Fail? ==> o.error == HttpStatus(resp.code, resp.statusLine)
  {
    if resp.code > 300 then Fail(HttpStatus(resp.code, resp.statusLine)) else Pass
  }

  /** How `Delete` classifies an answer: anything above 200 fails. */
  function DeleteOutcome(resp: HttpResponse): (o: Outcome<Error>)
    ensures o.Pass? <==> resp.code <= 200
    ensures o.Fail? ==> o.error == HttpStatus(resp.code, resp.statusLine)
  {
    if resp.code > 200 then Fail(HttpStatus(resp.code, resp.statusLine)) else Pass
  }

  /** Only a GET can report `NotFound`; a 404 from POST or DELETE is a generic
      failure. The statuses 201 to 300 separate the verbs: POST accepts them,
      GET and DELETE reject them. */
  lemma VerbsClassifyDifferently(resp: HttpResponse, urlPath: string)
    ensures PostOutcome(resp).Fail? ==> !PostOutcome(resp).error.NotFound?
    ensures DeleteOutcome(resp).Fail? ==> !DeleteOutcome(resp).error.NotFound?
    ensures GetOutcome(resp, urlPath) == Fail(NotFound(urlPath)) <==> resp.code == 404
    ensures 200 < resp.code <= 300 <==>
              PostOutcome(resp).Pass? && GetOutcome(resp, urlPath).Fail? && DeleteOutcome(resp).Fail?
    ensures GetOutcome(resp, urlPath).Pass? <==> DeleteOutcome(resp).Pass?
  {
  }

  /* ---------- Connection, token and session ---------- */

  datatype Connection = Connection(
    url: string,
    username: string,
    password: string,
    insecure: bool,
    caFile: string)

  /** The parts of the parsed engine URL the session uses. */
  datatype EngineUrl = EngineUrl(scheme: string, hostname: string, port: string)

  /** The bearer token. `expirationTime` is in Unix nanoseconds. */
  datatype Token = Token(value: string, expireIn: int64, tokenType: string, expirationTime: int)

  const ZeroToken := Token("", 0, "", ZeroTime)

  /** The decoded body of the token endpoint's answer. */
  datatype TokenBody = TokenBody(accessToken: string, exp: int64, tokenType: string)

  /** How the HTTP client checks the engine's certificate. */
  datatype Transport = Unset | SkipVerify | TrustCa(caFile: string)

  /** A CA download issued by `fetchCafile`. */
  datatype CaRequest = CaRequest(hostname: string, port: string)

  /** What one process knows: its connection, HTTP transport, in-memory token,
      the token file (absent or holding a token), the local files it wrote,
      and the CA downloads and password-grant requests it issued. */
  datatype Session = Session(
    conn: Connection,
    transport: Transport,
    token: Token,
    tokenFile: Option<Token>,
    written: set<string>,
    caRequests: seq<CaRequest>,
    tokenRequests: nat)

  /** The outside world during one call. */
  datatype World = World(
    url: Result<EngineUrl, Error>,       // url.Parse of the connection URL
    caWritable: bool,                    // creating and filling the local CA file succeeds
    caFiles: set<string>,                // CA files readable before the call
    caReadError: Error,                  // the error reading a missing CA file gives
    now: int,                            // time.Now() in Unix nanoseconds
    probe: HttpResponse,                 // the engine's answer to the liveness probe
    tokenReply: HttpResponse,            // the token endpoint's answer
    tokenBody: Result<TokenBody, Error>, // decoding its body
    tokenWritable: bool)                 // writing the token file succeeds

  datatype AuthResult = AuthResult(session: Session, outcome: Outcome<Error>)

  /** The token file is gone and the in-memory token is empty: the state a 401
      leaves behind. */
  predicate Cleared(s: Session) {
    s.tokenFile.None? && s.token.value == ""
  }

  /** The session a 401 leaves when the token file is removed: no token file,
      in-memory value emptied. The re-authentication that follows starts over. */
  function Clear(s: Session): (c: Session)
    ensures Cleared(c)
    ensures c.token.expirationTime == s.token.expirationTime
    ensures c.(token := s.token, tokenFile := s.tokenFile) == s
  {
    s.(tokenFile := None, token := s.token.(value := ""))
  }

  /** The session a 401 leaves when `os.Remove` of the token file fails, an error
      `clientDo` only logs: the in-memory value is emptied, but the file and the
      token in it stay. */
  function ClearAfterFailedRemove(s: Session): (c: Session)
    ensures c.token.value == "" && c.tokenFile == s.tokenFile
    ensures s.tokenFile.Some? ==> !Cleared(c)
    ensures c.(token := s.token) == s
  {
    s.(token := s.token.(value := ""))
  }

  /* ---------- Transport bootstrap ---------- */

  /** `fetchCafile`'s port rule: the engine serves its CA on 8080 when it serves
      the API on 8443, and on 80 otherwise. */
  function CaPort(origPort: string): (port: string)
    ensures port == "8080" <==> origPort == "8443"
    ensures port != "8080" ==> port == "80"
  {
    if origPort == "8443" then "8080" else "80"
  }

  /** `fetchCafile`: one download from the CA port; when the local copy is
      written, the connection's CA file becomes that copy. */
  function FetchCafile(s: Session, w: World, u: EngineUrl): (s': Session)
    ensures s'.caRequests == s.caRequests + [CaRequest(u.hostname, CaPort(u.port))]
    ensures w.caWritable ==> s'.conn.caFile == CaFileName && CaFileName in s'.written
    ensures !w.caWritable ==> s' == s.(caRequests := s'.caRequests)
    ensures s'.token == s.token && s'.tokenFile == s.tokenFile && s'.tokenRequests == s.tokenRequests
  {
    var s1 := s.(caRequests := s.caRequests + [CaRequest(u.hostname, CaPort(u.port))]);
    if w.caWritable then
      s1.(conn := s1.conn.(caFile := CaFileName), written := s1.written + {CaFileName})
    else s1
  }

  /** Whether `readCaCertPool` can read the connection's CA file. */
  predicate CaReadable(s: Session, w: World) {
    s.conn.caFile != "" && s.conn.caFile in w.caFiles + s.written
  }

  /** The CA is downloaded only for a verified `https` connection without a CA file. */
  predicate NeedsCa(s: Session, u: EngineUrl) {
    !s.conn.insecure && u.scheme != "http" && s.conn.caFile == "" && u.scheme == "https"
  }

  /** Building the HTTP client. An insecure connection or a plain `http` URL skips
      certificate verification; otherwise the CA is fetched if needed and the
      pool is read from the CA file, whose absence is an error. */
  function ChooseTransport(s: Session, w: World, u: EngineUrl): (r: AuthResult)
    ensures s.conn.insecure || u.scheme == "http" ==>
              r == AuthResult(s.(transport := SkipVerify), Pass)
    ensures NeedsCa(s, u) ==>
              r.session.caRequests == s.caRequests + [CaRequest(u.hostname, CaPort(u.port))]
    ensures !NeedsCa(s, u) ==> r.session.caRequests == s.caRequests
    ensures r.outcome.Pass? ==> r.session.transport != Unset
    ensures r.session.token == s.token && r.session.tokenFile == s.tokenFile
    ensures r.session.tokenRequests == s.tokenRequests
  {
    if s.conn.insecure || u.scheme == "http" then
      AuthResult(s.(transport := SkipVerify), Pass)
    else
      var s1 := if s.conn.caFile == "" && u.scheme == "https" then FetchCafile(s, w, u) else s;
      if !CaReadable(s1, w) then AuthResult(s1, Fail(w.caReadError))
      else AuthResult(s1.(transport := TrustCa(s1.conn.caFile)), Pass)
  }

  /* ---------- Token fetch ---------- */

  datatype Fetched = Fetched(token: Token, err: Option<Error>)

  /** `fetchToken`: a non-200 answer or an undecodable body is an error with the
      zero token; otherwise the token's expiry is its `exp` value read as an
      absolute Unix-nanosecond time. */
  function FetchToken(w: World): (f: Fetched)
    ensures f.err.None? <==> w.tokenReply.code == 200 && w.tokenBody.Success?
    ensures f.err.Some? ==> f.token == ZeroToken
    ensures f.err.None? ==>
              && f.token.value == w.tokenBody.value.accessToken
              && f.token.expireIn == w.tokenBody.value.exp
              && f.token.expirationTime == w.tokenBody.value.exp as int
  {
    if w.tokenReply.code != 200 then
      Fetched(ZeroToken, Some(Message("fail to login and fetching token " + w.tokenReply.statusLine)))
    else match w.tokenBody
      case Failure(e) => Fetched(ZeroToken, Some(e))
      case Success(b) => Fetched(Token(b.accessToken, b.exp, b.tokenType, b.exp as int), None)
  }


  /** Fetch a new token; the session always takes the fetched token (the zero
      token on failure) and persists it only after a successful fetch. */
  function Refresh(s: Session, w: World): (r: AuthResult)
    ensures r.session.tokenRequests == s.tokenRequests + 1
    ensures r.session.token == FetchToken(w).token
    ensures r.outcome.Pass? <==> FetchToken(w).err.None?
    ensures r.session.tokenFile != s.tokenFile ==>
              r.outcome.Pass? && r.session.tokenFile == Some(FetchToken(w).token)
    ensures r.session.caRequests == s.caRequests && r.session.conn == s.conn
  {
    var f := FetchToken(w);
    var s1 := s.(token := f.token, tokenRequests := s.tokenRequests + 1);
    match f.err
    case Some(e) => AuthResult(s1, Fail(e))
    case None => AuthResult(if w.tokenWritable then s1.(tokenFile := Some(f.token)) else s1, Pass)
  }

  /** The engine reports `exp` as Long.MAX_VALUE, which `fetchToken` reads as
      nanoseconds: the latest time an int64 clock can show. So a session that has
      just refreshed with such a body is fresh at any int64 time exactly when the
      engine handed out a non-empty token, and the refresh succeeded. */
  lemma RefreshWithSentinelIsFresh(s: Session, w: World)
    requires w.tokenReply.code == 200 && w.tokenBody.Success?
    requires w.tokenBody.value.exp == 0x7fff_ffff_ffff_ffff
    requires w.now <= 0x7fff_ffff_ffff_ffff
    ensures Refresh(s, w).outcome.Pass?
    ensures !Stale(Refresh(s, w).session, w) <==> w.tokenBody.value.accessToken != ""
  {
  }

  /* ---------- Authenticate, isTokenValid, clientDo ---------- */

  /** The token `Authenticate` works with: the token file's content when the file
      exists, else the in-memory token. */
  function Loaded(s: Session): (s': Session)
    ensures s'.token.value != "" ==> !Cleared(s)
    ensures s' == s.(token := s'.token)
  {
    match s.tokenFile
    case Some(t) => s.(token := t)
    case None => s
  }

  /** The loaded token must be replaced: empty or past its expiry. */
  predicate Stale(s: Session, w: World) {
    s.token.value == "" || w.now > s.token.expirationTime
  }

  /** `Authenticate`: choose the transport, load the saved token, and fetch a new
      one only when the loaded token is empty, expired, or fails the liveness probe. */
  function Authenticate(s: Session, w: World): (r: AuthResult)
    decreases if Cleared(s) then 0 else 1, 2
  {
    match w.url
    case Failure(e) => AuthResult(s, Fail(e))
    case Success(u) =>
      var t := ChooseTransport(s, w, u);
      if t.outcome.Fail? then t
      else
        var s2 := Loaded(t.session);
        if Stale(s2, w) then Refresh(s2, w)
        else
          var v := IsTokenValid(s2, w);
          if v.valid then AuthResult(v.session, Pass) else Refresh(v.session, w)
  }

  /** A probe's outcome, the session after it, and the URL it requested. */
  datatype Validity = Validity(session: Session, valid: bool, url: string)

  /** `isTokenValid`: a GET of `ProbeUrl` with the token; valid exactly when the
      status is at most 200. `w.probe` is the engine's answer to that URL. The
      probe goes through `clientDo`, so a 401 also re-authenticates. */
  function IsTokenValid(s: Session, w: World): (v: Validity)
    decreases 1, 1
    ensures v.valid <==> w.probe.code <= 200
    ensures v.url == ProbeUrl(s.conn)
  {
    var c := ClientDo(s, w, w.probe);
    Validity(c.session, c.response.code <= 200, RequestUrl(s.conn, s.conn.url))
  }

  datatype Call = Call(session: Session, response: HttpResponse)

  /** `clientDo`: a 401 answer removes the token file, empties the in-memory token
      and re-authenticates once (ignoring that call's error); the caller still gets
      the original answer. Every other status leaves the session alone. */
  function ClientDo(s: Session, w: World, resp: HttpResponse): (c: Call)
    decreases 1, 0
    ensures c.response == resp
    ensures resp.code != 401 ==> c.session == s
    ensures resp.code == 401 ==> c.session == Authenticate(Clear(s), w).session
  {
    if resp.code >= 300 && resp.code == 401 then
      Call(Authenticate(Clear(s), w).session, resp)
    else Call(s, resp)
  }

  /* ---------- Resource client ---------- */

  datatype ClientResult = ClientResult(session: Session, outcome: Outcome<Error>)

  /** `Get` of a path the engine answers with `resp`; `apiPath` is the path of
      the connection URL. A 404 reports the requested URL's path. */
  function Get(s: Session, w: World, apiPath: string, path: string, resp: HttpResponse): (r: ClientResult)
    ensures r.outcome.Pass? <==> resp.code <= 200
    ensures resp.code == 404 ==> r.outcome == Fail(NotFound(UrlPath(apiPath, path)))
    ensures r.outcome == GetOutcome(resp, UrlPath(apiPath, path))
    ensures r.session == ClientDo(s, w, resp).session
  {
    var c := ClientDo(s, w, resp);
    ClientResult(c.session, GetOutcome(c.response, UrlPath(apiPath, path)))
  }

  /** `Post` of a path the engine answers with `resp`. */
  function Post(s: Session, w: World, resp: HttpResponse): (r: ClientResult)
    ensures r.outcome == PostOutcome(resp)
    ensures r.session == ClientDo(s, w, resp).session
  {
    var c := ClientDo(s, w, resp);
    ClientResult(c.session, PostOutcome(c.response))
  }

  /** `Delete` of a path the engine answers with `resp`. */
  function Delete(s: Session, w: World, resp: HttpResponse): (r: ClientResult)
    ensures r.outcome == DeleteOutcome(resp)
    ensures r.session == ClientDo(s, w, resp).session
  {
    var c := ClientDo(s, w, resp);
    ClientResult(c.session, DeleteOutcome(c.response))
  }

  /* ---------- Properties of the session ---------- */

  /** From a cleared session `Authenticate` never probes: after the transport it
      goes straight to a token fetch. */
  lemma AuthenticateCleared(s: Session, w: World)
    requires Cleared(s) && w.url.Success?
    requires ChooseTransport(s, w, w.url.value).outcome.Pass?
    ensures Authenticate(s, w) == Refresh(ChooseTransport(s, w, w.url.value).session, w)
  {
  }

  /** The re-authentication loop of a failed removal. The outer `Authenticate`
      probes the token it loaded (`Loaded(s)`); when the probe is answered 401 and
      the file survives, the nested `Authenticate` loads that same token back,
      exactly as fresh as before, so on the same world it probes it again, is
      answered 401 again, and recurses without end. `Clear` removes the file and
      the nested call goes straight to a fetch (`AuthenticateCleared`). */
  lemma FailedRemoveReloadsRejectedToken(s: Session, w: World)
    requires w.url.Success? && s.tokenFile.Some?
    ensures var s2 := Loaded(s);
            var t := ChooseTransport(ClearAfterFailedRemove(s2), w, w.url.value);
            && !Cleared(ClearAfterFailedRemove(s2))
            && t.outcome == ChooseTransport(s2, w, w.url.value).outcome
            && Loaded(t.session).token == s2.token
            && (Stale(Loaded(t.session), w) <==> Stale(s2, w))
  {
  }

  /** A usable saved token is kept: when the loaded token is non-empty, unexpired
      and passes the probe, `Authenticate` succeeds without a fetch and leaves the
      token and the token file as they were. */
  lemma AuthenticateReusesUsableToken(s: Session, w: World)
    requires w.url.Success?
    requires ChooseTransport(s, w, w.url.value).outcome.Pass?
    requires !Stale(Loaded(ChooseTransport(s, w, w.url.value).session), w)
    requires w.probe.code <= 200
    ensures Authenticate(s, w).outcome.Pass?
    ensures Authenticate(s, w).session.tokenRequests == s.tokenRequests
    ensures Authenticate(s, w).session.tokenFile == s.tokenFile
    ensures Authenticate(s, w).session.token == Loaded(s).token
  {
    var t := ChooseTransport(s, w, w.url.value);
    var v := IsTokenValid(Loaded(t.session), w);
    assert v.session == Loaded(t.session);
  }

  /** A token is fetched only when the loaded token is empty, expired, or fails
      the probe; and then at most twice (a probe answered 401 re-authenticates
      from a cleared session before the outer fetch). */
  lemma AuthenticateFetchesOnlyWhenNeeded(s: Session, w: World)
    ensures var r := Authenticate(s, w);
            r.session.tokenRequests > s.tokenRequests ==>
              && w.url.Success?
              && var s2 := Loaded(ChooseTransport(s, w, w.url.value).session);
                 Stale(s2, w) || w.probe.code > 200
    ensures Authenticate(s, w).session.tokenRequests <= s.tokenRequests + 2
  {
    match w.url
    case Failure(_) =>
    case Success(u) =>
      var t := ChooseTransport(s, w, u);
      if t.outcome.Pass? {
        var s2 := Loaded(t.session);
        if !Stale(s2, w) && w.probe.code == 401 {
          var c := Clear(s2);
          var t2 := ChooseTransport(c, w, u);
          if t2.outcome.Pass? {
            AuthenticateCleared(c, w);
          }
        }
      }
  }

  /** The token file changes only in two ways: a 401 probe removes it, and a
      successful fetch replaces it with the fetched token. */
  lemma AuthenticatePersistsOnlyFetchedToken(s: Session, w: World)
    ensures var f := Authenticate(s, w).session.tokenFile;
            f == s.tokenFile
            || (f.None? && w.probe.code == 401)
            || (f == Some(FetchToken(w).token) && FetchToken(w).err.None?)
  {
    match w.url
    case Failure(_) =>
    case Success(u) =>
      var t := ChooseTransport(s, w, u);
      if t.outcome.Pass? {
        var s2 := Loaded(t.session);
        if !Stale(s2, w) && w.probe.code == 401 {
          var c := Clear(s2);
          var t2 := ChooseTransport(c, w, u);
          if t2.outcome.Pass? {
            AuthenticateCleared(c, w);
          }
        }
      }
  }

  /** The transport follows the connection: an insecure or `http` connection
      skips verification and downloads no CA; otherwise the CA is downloaded, from
      the port `CaPort` picks, exactly when no CA file is configured and the scheme
      is `https`, and then only once even when a 401 probe re-authenticates. */
  lemma AuthenticateTransport(s: Session, w: World)
    requires w.url.Success?
    ensures var u := w.url.value;
            s.conn.insecure || u.scheme == "http" ==>
              Authenticate(s, w).session.transport == SkipVerify
              && Authenticate(s, w).session.caRequests == s.caRequests
    ensures var u := w.url.value;
            !NeedsCa(s, u) && ChooseTransport(s, w, u).outcome.Pass? ==>
              Authenticate(s, w).session.caRequests == s.caRequests
    ensures var u := w.url.value;
            NeedsCa(s, u) ==>
              Authenticate(s, w).session.caRequests
              == s.caRequests + [CaRequest(u.hostname, CaPort(u.port))]
  {
    var u := w.url.value;
    var t := ChooseTransport(s, w, u);
    if t.outcome.Pass? {
      var s2 := Loaded(t.session);
      if !Stale(s2, w) && w.probe.code == 401 {
        var c := Clear(s2);
        assert c.conn == t.session.conn;
        var t2 := ChooseTransport(c, w, u);
        if t2.outcome.Pass? {
          AuthenticateCleared(c, w);
        }
      }
    }
  }

  /** A 401 answer re-authenticates from a cleared session: the token file is
      gone or holds the freshly fetched token, exactly one token request is issued
      when the transport can be built, and the answer itself is passed through. */
  lemma ClientDoUnauthorized(s: Session, w: World, resp: HttpResponse)
    requires resp.code == 401
    requires w.url.Success? && ChooseTransport(Clear(s), w, w.url.value).outcome.Pass?
    ensures ClientDo(s, w, resp).response == resp
    ensures ClientDo(s, w, resp).session.tokenRequests == s.tokenRequests + 1
    ensures ClientDo(s, w, resp).session.token == FetchToken(w).token
    ensures ClientDo(s, w, resp).session.tokenFile.Some? ==>
              FetchToken(w).err.None? && ClientDo(s, w, resp).session.tokenFile == Some(FetchToken(w).token)
  {
    AuthenticateCleared(Clear(s), w);
  }
}
