/** The browser duck: cookies, user agent and the page location, taken
    from the window in the browser and from the incoming request on the
    server. The cookie jar read through js-cookie is part of the window
    description. `None` stands for `null` or `undefined`. */
module Browser {
  import opened Wrappers

  type Cookies = map<string, string>

  datatype Location = Location(origin: Option<string>, host: Option<string>, protocol: Option<string>)

  datatype BrowserState = BrowserState(cookies: Option<Cookies>, location: Location, userAgent: Option<string>)

  /** What the browser exposes: the cookie jar, `navigator.userAgent` and
      `window.location`. */
  datatype WindowInfo = WindowInfo(
    cookies: Cookies, userAgent: Option<string>,
    origin: Option<string>, host: Option<string>, protocol: Option<string>)

  datatype Forwarded = Forwarded(host: Option<string>, proto: Option<string>)

  /** The request fields the server branch reads. */
  datatype Request = Request(
    cookies: Option<Cookies>,
    userAgent: Option<string>,
    forwarded: Option<Forwarded>,
    headerHost: Option<string>,
    protocol: Option<string>)

  /** A value interpolated into a template literal. The values that reach a
      template (window protocol and host, request protocol and host header)
      are strings or `undefined`, never `null`, so `None` reads "undefined". */
  function Interpolate(v: Option<string>): string {
    if v.Some? then v.value else "undefined"
  }

  /** The host the request branch uses: the forwarded host if truthy. */
  function RequestHost(req: Request): (h: Option<string>)
    ensures req.forwarded.Some? && Truthy(req.forwarded.value.host) ==> h == req.forwarded.value.host
    ensures !(req.forwarded.Some? && Truthy(req.forwarded.value.host)) ==> h == req.headerHost
  {
    if req.forwarded.Some? && Truthy(req.forwarded.value.host) then req.forwarded.value.host else req.headerHost
  }

  /** The protocol the request branch uses: the forwarded protocol if truthy. */
  function RequestProtocol(req: Request): (p: Option<string>)
    ensures req.forwarded.Some? && Truthy(req.forwarded.value.proto) ==> p == req.forwarded.value.proto
    ensures !(req.forwarded.Some? && Truthy(req.forwarded.value.proto)) ==> p == req.protocol
  {
    if req.forwarded.Some? && Truthy(req.forwarded.value.proto) then req.forwarded.value.proto else req.protocol
  }

  const EmptyLocation: Location := Location(None, None, None)

  function BuildInitialState(browser: bool, window: WindowInfo, req: Option<Request>): (r: BrowserState)
    // neither browser nor request: everything is null
    ensures !browser && req.None? ==> r == BrowserState(None, EmptyLocation, None)
    ensures browser ==>
      && r.cookies == Some(window.cookies) && r.userAgent == window.userAgent
      && r.location.host == window.host && r.location.protocol == window.protocol
      && (Truthy(window.origin) ==> r.location.origin == window.origin)
      && (!Truthy(window.origin) ==>
            r.location.origin == Some(Interpolate(window.protocol) + "//" + Interpolate(window.host)))
    ensures !browser && req.Some? ==>
      var host := RequestHost(req.value);
      var protocol := Interpolate(RequestProtocol(req.value));
      && r.cookies == req.value.cookies && r.userAgent == req.value.userAgent
      && r.location == Location(Some(protocol + "://" + Interpolate(host)), host, Some(protocol + ":"))
  {
    if browser then
      BrowserState(Some(window.cookies),
        Location(
          if Truthy(window.origin) then window.origin
          else Some(Interpolate(window.protocol) + "//" + Interpolate(window.host)),
          window.host, window.protocol),
        window.userAgent)
    else if req.Some? then
      var host := RequestHost(req.value);
      var protocol := Interpolate(RequestProtocol(req.value));
      BrowserState(req.value.cookies,
        Location(Some(protocol + "://" + Interpolate(host)), host, Some(protocol + ":")),
        req.value.userAgent)
    else BrowserState(None, EmptyLocation, None)
  }

  /** Whenever the origin is composed rather than read, it is the location's
      protocol, two slashes and the host. */
  lemma ComposedOriginMatchesLocation(browser: bool, window: WindowInfo, req: Option<Request>)
    requires browser ==> !Truthy(window.origin) && window.protocol.Some?
    requires !browser ==> req.Some?
    ensures var loc := BuildInitialState(browser, window, req).location;
      loc.protocol.Some? && loc.origin == Some(loc.protocol.value + "//" + Interpolate(loc.host))
  {
    if !browser {
      var protocol := Interpolate(RequestProtocol(req.value));
      var host := Interpolate(RequestHost(req.value));
      assert protocol + "://" + host == (protocol + ":") + "//" + host;
    }
  }

  /** The action creators `setOrigin` and `setUserAgent` are the constructors. */
  datatype BrowserAction = SetOrigin(origin: Option<string>) | SetUserAgent(userAgent: Option<string>) | OtherBrowserAction

  function Reduce(s: BrowserState, a: BrowserAction): (r: BrowserState)
    ensures a.SetOrigin? ==> r == s.(location := s.location.(origin := a.origin))
    ensures a.SetUserAgent? ==> r == s.(userAgent := a.userAgent)
    ensures a.OtherBrowserAction? ==> r == s
  {
    match a
    case SetOrigin(origin) => s.(location := s.location.(origin := origin))
    case SetUserAgent(userAgent) => s.(userAgent := userAgent)
    case OtherBrowserAction => s
  }

  /** The two updates touch different fields, so their order does not matter. */
  lemma OriginAndUserAgentCommute(s: BrowserState, origin: Option<string>, userAgent: Option<string>)
    ensures Reduce(Reduce(s, SetOrigin(origin)), SetUserAgent(userAgent))
         == Reduce(Reduce(s, SetUserAgent(userAgent)), SetOrigin(origin))
  {
  }
}
