/**
 * The configuration shapes of the edge router: a route (which requests it
 * takes and where it sends them), its header and cache settings, and the
 * router-wide defaults.  The three routes the router ships with are given
 * as constants.
 */
module RouterConfig {
  import opened Common

  /**
   * A value of a route's `query` object: a string (`'*'` means "present
   * and non-empty"), a regular expression (given by its `test`), an array
   * of allowed values (null entries kept as `None`), or anything else,
   * which the matcher ignores.
   */
  datatype QueryRule = Str(s: string) | Re(test: string -> bool) | OneOf(values: seq<Option<string>>) | OtherRule

  /** `route.pathRewrite`: absent, a function, an object with a regex pattern, or anything else. */
  datatype Rewrite =
    | NoRewrite
    | RewriteFn(f: string -> string)
    | RewritePattern(pattern: Option<string>, replacement: Option<string>)
    | OtherRewrite

  /** A route header value: a string (possibly with `${VAR}` templates), or another value and its `String(v)`. */
  datatype HeaderValue = HStr(s: string) | HOther(text: string)

  /**
   * `route.cache`.  Numbers that are absent read as 0 and an absent `vary`
   * as the empty list, which is what the truthiness tests of the router
   * make of them.
   */
  datatype CacheConfig = CacheConfig(enabled: bool, ttl: int, staleWhileRevalidate: int, staleIfError: int, vary: seq<string>)

  datatype Route = Route(
    name: string,
    hostname: Option<string>,
    path: Option<string>,
    origin: Option<string>,
    originType: Option<string>,
    query: Option<seq<(string, QueryRule)>>,
    pathRewrite: Rewrite,
    headers: Option<seq<(string, HeaderValue)>>,
    cache: Option<CacheConfig>)

  /** `CONFIG.forwardHeaders`: the request headers passed on to the origin, in lower case. */
  const ForwardHeaders: seq<string> :=
    ["accept", "accept-encoding", "accept-language", "content-type", "authorization", "cookie", "user-agent"]

  const DefaultUserAgent: string :=
    "Mozilla/5.0 (Windows NT 10.0; Win64; x64) AppleWebKit/537.36 (KHTML, like Gecko) Chrome/116.0.0.0 Safari/537.36"

  /** `CONFIG.methodsWithBody`. */
  const MethodsWithBody: seq<string> := ["POST", "PUT", "PATCH", "DELETE"]

  /** `CONFIG.timeout.read`, in milliseconds. */
  const ReadTimeout: nat := 30000

  const InternalServerError: int := 500

  const BrowserAgent: string :=
    "Mozilla/5.0 (Windows NT 10.0; Win64; x64) AppleWebKit/537.36 (KHTML, like Gecko) Chrome/131.0.0.0 Safari/537.36"

  const BrowserAccept: string :=
    "text/html,application/xhtml+xml,application/xml;q=0.9,image/avif,image/webp,image/apng,*/*;q=0.8"

  /** The headers of the two browser-impersonating tunnel routes. */
  function BrowserHeaders(host: string): seq<(string, HeaderValue)> {
    [("User-Agent", HStr(BrowserAgent)), ("Accept", HStr(BrowserAccept)),
     ("Accept-Language", HStr("en-US,en;q=0.9")), ("Accept-Encoding", HStr("gzip, deflate, br")),
     ("X-Forwarded-Host", HStr(host)), ("X-Forwarded-Proto", HStr("https")),
     ("X-Real-IP", HStr("${CF-Connecting-IP}")), ("X-Cloudflare-Country", HStr("BY")), ("CF-IPCountry", HStr("BY"))]
  }

  const NoCache: CacheConfig := CacheConfig(false, 0, 0, 0, [])

  /** `ROUTES`, in evaluation order. */
  const Routes: seq<Route> := [
    Route("torrent-by", Some("torrent.torrservera.net"), Some("/*"), Some("https://torrent.by"), Some("tunnel"),
          None, NoRewrite,
          Some([("X-Forwarded-Host", HStr("torrent.torrservera.net")), ("X-Forwarded-Proto", HStr("https")),
                ("X-Real-IP", HStr("${CF-Connecting-IP}")), ("X-Cloudflare-Country", HStr("BY")), ("CF-IPCountry", HStr("BY"))]),
          Some(NoCache)),
    Route("megapeer-vip", Some("megapeer.torrservera.net"), Some("/*"), Some("https://megapeer.vip"), Some("tunnel"),
          None, NoRewrite, Some(BrowserHeaders("megapeer.torrservera.net")), Some(NoCache)),
    Route("bitru-org", Some("bitru.torrservera.net"), Some("/*"), Some("https://bitru.org"), Some("tunnel"),
          None, NoRewrite, Some(BrowserHeaders("bitru.torrservera.net")), Some(NoCache))
  ]
}
