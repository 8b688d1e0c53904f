/**
 * `MaClient`: the session-holding client of the file portal. The HTTP
 * transport is replaced by the responses the server gives; every method
 * returns the request(s) it sent, with the cookies they carried.
 */
module MaClient {
  import opened Wrappers
  import opened CookieMapper
  import EnumerableExtensions
  import CodeToken
  import Int64Parse
  import opened Listing
  import opened CopyLoop

  const Domain: string := "yourcompany.com"
  const PortalHost: string := "file." + Domain
  const GatewayHost: string := "authentication." + Domain
  const PortalRoot: string := "https://" + PortalHost
  const GatewayLoginUrl: string := "https://" + GatewayHost + "/cgi/login"
  const SessionCookie: string := "Session"

  function SelfAuthUrl(code: string): string
  {
    PortalRoot + "/cgi/selfauth?code=" + code
  }

  function PortalLoginUrl(nowMs: int): string
  {
    PortalRoot + "/Login.xml?Command=Login&Sync=" + Int64Parse.Format(nowMs)
  }

  function PingUrl(nowMs: int): string
  {
    PortalRoot + "/?Command=NOOP&Sync=" + Int64Parse.Format(nowMs)
  }

  function ListUrl(dir: string, nowMs: int): string
  {
    PortalRoot + "/Web%20Client/ListError.xml?Command=List&Dir=" + dir + "&sync=" + Int64Parse.Format(nowMs)
  }

  function DownloadUrl(file: string): string
  {
    PortalRoot + "/Web%20Client/?Command=Download&File=" + file
  }

  /** `MaConfig`: the credentials used by both login forms. */
  datatype Credentials = Credentials(Username: string, Password: string)

  function GatewayForm(c: Credentials): seq<(string, string)>
  {
    [("login", c.Username), ("passwd", c.Password)]
  }

  function PortalForm(c: Credentials): seq<(string, string)>
  {
    [("user", c.Username), ("pword", c.Password), ("viewshare", ""), ("language", "en-US")]
  }

  datatype Verb = Get | Post

  /** A request as sent: method, URL, form fields and the cookies that went with it. */
  datatype Request = Request(verb: Verb, url: string, form: seq<(string, string)>, cookies: CookieContainer)

  /** The `Location` header of a response: the full target and its host. */
  datatype Location = Location(uri: string, host: string)

  /** A response as received; `jar` is the client's cookie container once the response has been taken in. */
  datatype Response = Response(status: int, location: Option<Location>, body: string, jar: CookieContainer)

  /**
   * Whether a cookie's domain covers `host`: a domain set with a leading dot
   * covers the host and its sub-domains, any other only that exact host.
   */
  predicate DomainMatches(domain: Option<string>, host: string)
  {
    domain.Some? &&
    var d := domain.value;
    if |d| > 1 && d[0] == '.' then
      host == d[1..] || (|host| >= |d| && host[|host| - |d|..] == d)
    else host == d
  }

  /** `GetCookies(uri)` for the host of `uri`: the cookies that apply to it, in container order. */
  function CookiesFor(jar: CookieContainer, host: string): (r: CookieContainer)
    ensures forall c :: c in r ==> c in jar && DomainMatches(c.Domain, host)
  {
    if jar == [] then []
    else (if DomainMatches(jar[0].Domain, host) then [jar[0]] else []) + CookiesFor(jar[1..], host)
  }

  /** The cookies for a host are exactly those of the container whose domain covers it. */
  lemma {:induction false} CookiesForMembers(jar: CookieContainer, host: string)
    ensures forall c :: c in CookiesFor(jar, host) <==> c in jar && DomainMatches(c.Domain, host)
  {
    if jar != [] {
      CookiesForMembers(jar[1..], host);
      assert jar == [jar[0]] + jar[1..];
    }
  }

  /** `List.Find(e => e.Name == name)`. */
  function FindNamed(cookies: CookieContainer, name: string): Option<NetCookie>
  {
    if cookies == [] then None
    else if cookies[0].Name == name then Some(cookies[0])
    else FindNamed(cookies[1..], name)
  }

  /** `ValidateCookie(uri, name)`: the first cookie called `name` for the host has a non-empty value. */
  predicate ValidateCookie(jar: CookieContainer, host: string, name: string)
  {
    var cookie := FindNamed(CookiesFor(jar, host), name);
    var value := if cookie.Some? then cookie.value.Value.GetOr("") else "";
    value != ""
  }

  /** Cookie `i` is the first one in the jar that applies to `host` and is called `name`. */
  ghost predicate FirstApplicable(jar: CookieContainer, host: string, name: string, i: int)
  {
    && 0 <= i < |jar|
    && DomainMatches(jar[i].Domain, host) && jar[i].Name == name
    && forall j :: 0 <= j < i && DomainMatches(jar[j].Domain, host) ==> jar[j].Name != name
  }

  /** The lookup finds exactly the first applicable cookie with the name, if there is one. */
  lemma {:induction false} FirstFound(jar: CookieContainer, host: string, name: string)
    ensures FindNamed(CookiesFor(jar, host), name).None? ==> forall i :: !FirstApplicable(jar, host, name, i)
    ensures forall i :: FirstApplicable(jar, host, name, i) ==> FindNamed(CookiesFor(jar, host), name) == Some(jar[i])
  {
    if jar != [] {
      FirstFound(jar[1..], host, name);
      var c := jar[0];
      if DomainMatches(c.Domain, host) && c.Name == name {
        assert CookiesFor(jar, host) == [c] + CookiesFor(jar[1..], host);
        forall i | FirstApplicable(jar, host, name, i) ensures i == 0 { }
      } else {
        SkipHead(jar, host, name);
        forall i | FirstApplicable(jar, host, name, i) ensures FirstApplicable(jar[1..], host, name, i - 1) {
          forall j | 0 <= j < i - 1 && DomainMatches(jar[1..][j].Domain, host) ensures jar[1..][j].Name != name {
            assert jar[1..][j] == jar[j + 1];
          }
        }
      }
    }
  }

  /** The cookie check holds iff the first applicable cookie with that name has a present, non-empty value. */
  lemma ValidateCookieIff(jar: CookieContainer, host: string, name: string)
    ensures ValidateCookie(jar, host, name) <==>
              exists i :: FirstApplicable(jar, host, name, i) && jar[i].Value.Some? && jar[i].Value.value != ""
  {
    FirstFound(jar, host, name);
    var found := FindNamed(CookiesFor(jar, host), name);
    if found.Some? {
      var k := FindIndex(jar, host, name);
      assert FirstApplicable(jar, host, name, k);
    }
  }

  /** A first cookie that is not the one sought does not change the lookup. */
  lemma SkipHead(jar: CookieContainer, host: string, name: string)
    requires jar != [] && !(DomainMatches(jar[0].Domain, host) && jar[0].Name == name)
    ensures FindNamed(CookiesFor(jar, host), name) == FindNamed(CookiesFor(jar[1..], host), name)
  {
    var rest := CookiesFor(jar[1..], host);
    if DomainMatches(jar[0].Domain, host) {
      assert CookiesFor(jar, host) == [jar[0]] + rest;
      assert ([jar[0]] + rest)[1..] == rest;
    } else {
      assert CookiesFor(jar, host) == [] + rest == rest;
    }
  }

  /** Where the lookup's result sits in the jar. */
  lemma {:induction false} FindIndex(jar: CookieContainer, host: string, name: string) returns (k: int)
    requires FindNamed(CookiesFor(jar, host), name).Some?
    ensures FirstApplicable(jar, host, name, k)
  {
    FirstFound(jar, host, name);
    var c := jar[0];
    if DomainMatches(c.Domain, host) && c.Name == name {
      k := 0;
    } else {
      SkipHead(jar, host, name);
      var k' := FindIndex(jar[1..], host, name);
      k := k' + 1;
      forall j | 0 <= j < k && DomainMatches(jar[j].Domain, host) ensures jar[j].Name != name {
        if j > 0 { assert jar[j] == jar[1..][j - 1]; }
      }
    }
  }

  /** Why a login attempt returned false, in the order the checks are made. */
  datatype LoginFailure = NoRedirect | GatewayRejected | TokenNotFound | PortalRejected | SessionCookieMissing

  /**
   * The requests a login attempt sent, why it failed (None on success), and
   * the cookie container it left behind.
   */
  datatype HandshakeRun = HandshakeRun(sent: seq<Request>, failure: Option<LoginFailure>, jar: CookieContainer)

  /** Exactly `302 Found` with a `Location` on the gateway host; 301, 303 and 307 do not qualify. */
  predicate RedirectedToGateway(r: Response)
  {
    r.status == 302 && r.location.Some? && r.location.value.host == GatewayHost
  }

  /**
   * The handshake of `LoginAsync` as a function of the five responses the
   * server would give: the first request goes out with an empty cookie
   * container, and each later one with the container as the previous
   * response left it.
   */
  function Handshake(creds: Credentials, rs: seq<Response>, nowMs: int): HandshakeRun
    requires |rs| == 5
  {
    var first := Request(Get, PortalRoot, [], []);
    if !RedirectedToGateway(rs[0]) then HandshakeRun([first], Some(NoRedirect), rs[0].jar)
    else
      var gatewayPage := Request(Get, rs[0].location.value.uri, [], rs[0].jar);
      var gatewayLogin := Request(Post, GatewayLoginUrl, GatewayForm(creds), rs[1].jar);
      var toGateway := [first, gatewayPage, gatewayLogin];
      if rs[2].status != 200 then HandshakeRun(toGateway, Some(GatewayRejected), rs[2].jar)
      else
        match CodeToken.ExtractToken(rs[2].body)
        case None => HandshakeRun(toGateway, Some(TokenNotFound), rs[2].jar)
        case Some(code) =>
          var selfAuth := Request(Get, SelfAuthUrl(code), [], rs[2].jar);
          var portalLogin := Request(Post, PortalLoginUrl(nowMs), PortalForm(creds), rs[3].jar);
          var all := toGateway + [selfAuth, portalLogin];
          if rs[4].status != 200 then HandshakeRun(all, Some(PortalRejected), rs[4].jar)
          else if !ValidateCookie(rs[4].jar, PortalHost, SessionCookie) then HandshakeRun(all, Some(SessionCookieMissing), rs[4].jar)
          else HandshakeRun(all, None, rs[4].jar)
  }

  /**
   * Why a login fails, as iffs in the order the checks are made, how many
   * requests it sent, and what each of them was.
   */
  lemma HandshakeOutcome(creds: Credentials, rs: seq<Response>, nowMs: int)
    requires |rs| == 5
    ensures var h := Handshake(creds, rs, nowMs);
      var token := CodeToken.ExtractToken(rs[2].body);
      && 1 <= |h.sent| <= 5 && h.sent[0] == Request(Get, PortalRoot, [], [])
      && h.jar == rs[|h.sent| - 1].jar
      && (h.failure == Some(NoRedirect) <==> !RedirectedToGateway(rs[0]))
      && (h.failure == Some(GatewayRejected) <==> RedirectedToGateway(rs[0]) && rs[2].status != 200)
      && (h.failure == Some(TokenNotFound) <==> RedirectedToGateway(rs[0]) && rs[2].status == 200 && token.None?)
      && (h.failure == Some(PortalRejected) <==>
            RedirectedToGateway(rs[0]) && rs[2].status == 200 && token.Some? && rs[4].status != 200)
      && (h.failure == Some(SessionCookieMissing) <==>
            RedirectedToGateway(rs[0]) && rs[2].status == 200 && token.Some? && rs[4].status == 200
            && !ValidateCookie(rs[4].jar, PortalHost, SessionCookie))
      && (|h.sent| == 1 <==> h.failure == Some(NoRedirect))
      && (|h.sent| == 3 <==> h.failure == Some(GatewayRejected) || h.failure == Some(TokenNotFound))
      && (|h.sent| == 5 <==> h.failure.None? || h.failure == Some(PortalRejected) || h.failure == Some(SessionCookieMissing))
      && (|h.sent| >= 3 ==>
            && h.sent[1] == Request(Get, rs[0].location.value.uri, [], rs[0].jar)
            && h.sent[2] == Request(Post, GatewayLoginUrl, GatewayForm(creds), rs[1].jar))
      && (|h.sent| == 5 ==>
            && h.sent[3] == Request(Get, SelfAuthUrl(token.value), [], rs[2].jar)
            && h.sent[4] == Request(Post, PortalLoginUrl(nowMs), PortalForm(creds), rs[3].jar))
  {
  }

  /** The statuses of the gateway-page GET and of the self-auth GET are never looked at. */
  lemma UncheckedStatuses(creds: Credentials, rs: seq<Response>, nowMs: int, s1: int, s3: int)
    requires |rs| == 5
    ensures Handshake(creds, rs[1 := rs[1].(status := s1)][3 := rs[3].(status := s3)], nowMs) == Handshake(creds, rs, nowMs)
  {
  }

  /** A successful handshake ends with a container holding a non-empty portal `Session` cookie. */
  lemma SuccessHasSession(creds: Credentials, rs: seq<Response>, nowMs: int) returns (i: int)
    requires |rs| == 5 && Handshake(creds, rs, nowMs).failure.None?
    ensures FirstApplicable(rs[4].jar, PortalHost, SessionCookie, i)
    ensures rs[4].jar[i].Value.Some? && rs[4].jar[i].Value.value != ""
  {
    ValidateCookieIff(rs[4].jar, PortalHost, SessionCookie);
    i :| FirstApplicable(rs[4].jar, PortalHost, SessionCookie, i) && rs[4].jar[i].Value.Some? && rs[4].jar[i].Value.value != "";
  }

  /** `Path.GetFileName`: what follows the last `/`. */
  function GetFileName(path: string): (r: string)
    ensures |r| <= |path| && r == path[|path| - |r|..]
    ensures forall k :: 0 <= k < |r| ==> r[k] != '/'
    ensures |r| == |path| || path[|path| - |r| - 1] == '/'
  {
    if path == [] || path[|path| - 1] == '/' then []
    else GetFileName(path[..|path| - 1]) + [path[|path| - 1]]
  }

  /** A file created under `downloads/` and what was written to it. */
  datatype SavedFile = SavedFile(path: string, contents: seq<byte>)

  /** The container a request is sent with: rebuilt from `Cookies`, or empty when there are none. */
  ghost predicate RebuiltFrom(jar: CookieContainer, cookies: Option<CookieDictionary>)
  {
    if cookies.Some? then ContainerOf(jar, cookies.value) else jar == []
  }

  class MaClient {
    const Config: Credentials
    /** `cookies_`: the container the HTTP handler of the current client uses. */
    var jar: CookieContainer
    /** `Cookies`: the persisted session, null when nothing was stored. */
    var Cookies: Option<CookieDictionary>
    /** Every dictionary handed to `SaveCookies`, oldest first. */
    ghost var saveLog: seq<CookieDictionary>

    /** The stored cookies are read once, when the client is made. */
    constructor (config: Credentials, stored: Option<CookieDictionary>)
      ensures Config == config && Cookies == stored && jar == [] && saveLog == []
    {
      Config := config;
      Cookies := stored;
      jar := [];
      saveLog := [];
    }

    /** `GetClient(withCookies)`: a fresh container, from `Cookies` or empty. */
    method GetClient(withCookies: bool)
      modifies this
      ensures withCookies ==> RebuiltFrom(jar, Cookies)
      ensures !withCookies ==> jar == []
      ensures Cookies == old(Cookies) && saveLog == old(saveLog)
    {
      if withCookies && Cookies.Some? {
        var container;
        ghost var order;
        container, order := MapCookieContainer(Cookies);
        assert HoldsInOrder(container, Cookies.value, order);
        jar := container;
      } else {
        jar := [];
      }
    }

    /**
     * `LoginAsync`. Only the path that returns true replaces `Cookies`, and it
     * saves them exactly once; every false return leaves them and the store alone.
     */
    method Login(responses: seq<Response>, nowMs: int) returns (ok: bool, sent: seq<Request>)
      requires |responses| == 5
      modifies this
      ensures ok == Handshake(Config, responses, nowMs).failure.None?
      ensures sent == Handshake(Config, responses, nowMs).sent
      ensures jar == Handshake(Config, responses, nowMs).jar
      ensures ok ==> Cookies == Some(MapContainerModel(jar)) && saveLog == old(saveLog) + [Cookies.value]
      ensures !ok ==> Cookies == old(Cookies) && saveLog == old(saveLog)
    {
      GetClient(false);
      // Each exchange sends the current container and leaves in it what the response set.
      var req1 := Request(Get, PortalRoot, [], jar);
      var resp1 := responses[0];
      jar := resp1.jar;
      sent := [req1];
      if resp1.status != 302 || resp1.location.None? || resp1.location.value.host != GatewayHost {
        assert Handshake(Config, responses, nowMs) == HandshakeRun(sent, Some(NoRedirect), jar);
        return false, sent;
      }
      var req2 := Request(Get, resp1.location.value.uri, [], jar);
      jar := responses[1].jar;
      var req3 := Request(Post, GatewayLoginUrl, GatewayForm(Config), jar);
      var resp3 := responses[2];
      jar := resp3.jar;
      sent := [req1, req2, req3];
      if resp3.status != 200 {
        assert Handshake(Config, responses, nowMs) == HandshakeRun(sent, Some(GatewayRejected), jar);
        return false, sent;
      }
      var code := CodeToken.ExtractToken(resp3.body);
      if code.None? {
        assert Handshake(Config, responses, nowMs) == HandshakeRun(sent, Some(TokenNotFound), jar);
        return false, sent;
      }
      var req4 := Request(Get, SelfAuthUrl(code.value), [], jar);
      jar := responses[3].jar;
      var req5 := Request(Post, PortalLoginUrl(nowMs), PortalForm(Config), jar);
      var resp5 := responses[4];
      jar := resp5.jar;
      sent := sent + [req4, req5];
      if resp5.status != 200 {
        assert Handshake(Config, responses, nowMs) == HandshakeRun(sent, Some(PortalRejected), jar);
        return false, sent;
      }
      if !ValidateCookie(jar, PortalHost, SessionCookie) {
        assert Handshake(Config, responses, nowMs) == HandshakeRun(sent, Some(SessionCookieMissing), jar);
        return false, sent;
      }
      assert Handshake(Config, responses, nowMs) == HandshakeRun(sent, None, jar);
      var saved := EnumerableExtensions.ToDictionaryAllowDuplicateKeys(MappedCookies(jar), KeyOf, Identity);
      Cookies := Some(saved);
      saveLog := saveLog + [saved];
      ok := true;
    }

    /** `PingAsync`: true iff the portal answers the keep-alive with 200. */
    method Ping(status: int, nowMs: int) returns (ok: bool, req: Request)
      modifies this
      ensures ok <==> status == 200
      ensures req == Request(Post, PingUrl(nowMs), [], jar) && RebuiltFrom(jar, Cookies)
      ensures Cookies == old(Cookies) && saveLog == old(saveLog)
    {
      GetClient(true);
      req := Request(Post, PingUrl(nowMs), [], jar);
      ok := status == 200;
    }

    /** `ListAsync`: `doc` is the parsed body, None when it is not well-formed XML. */
    method List(dir: string, status: int, doc: Option<XElement>, nowMs: int) returns (result: Listed, req: Request)
      modifies this
      ensures result == ParseListing(status, doc)
      ensures req == Request(Get, ListUrl(dir, nowMs), [], jar) && RebuiltFrom(jar, Cookies)
      ensures Cookies == old(Cookies) && saveLog == old(saveLog)
    {
      GetClient(true);
      req := Request(Get, ListUrl(dir, nowMs), [], jar);
      if status != 200 {
        return Listed([]), req;
      }
      result := ParseListing(status, doc);
    }

    /**
     * `DownloadAsync`: a non-200 status returns false before any file is
     * created; otherwise `downloads/<file name>` receives what the copy loop
     * wrote, and the result is false only when the copy threw.
     */
    method Download(file: string, status: int, stream: seq<ReadOutcome>, cancel: nat -> bool)
      returns (ok: bool, saved: Option<SavedFile>, req: Request)
      requires FitsBuffer(stream)
      modifies this
      ensures req == Request(Get, DownloadUrl(file), [], jar) && RebuiltFrom(jar, Cookies)
      ensures status != 200 ==> !ok && saved.None?
      ensures status == 200 ==>
                var (n, exit) := StopFrom(stream, cancel, 0);
                && ok == (exit != Faulted)
                && saved == Some(SavedFile("downloads/" + GetFileName(file), Written(stream, n)))
      ensures Cookies == old(Cookies) && saveLog == old(saveLog)
    {
      GetClient(true);
      req := Request(Get, DownloadUrl(file), [], jar);
      if status != 200 {
        return false, None, req;
      }
      var buffer := new byte[BufSize];
      var exit, written := SaveToFile(stream, cancel, buffer);
      saved := Some(SavedFile("downloads/" + GetFileName(file), written));
      ok := exit != Faulted;
    }
  }
}
