/**
 * How the edge router shapes the responses it returns: the origin headers
 * it copies, the caching headers a route's cache settings produce, the
 * JSON error response and the rewriting of origin redirects.
 *
 * A `Headers` object stores names in lower case (`set` and `get` fold the
 * name), so its contents are a `HeaderBag` and `set` is `Put`.
 */
module Response {
  import opened Common
  import opened RouterConfig
  import opened RequestBuilder

  /** `headers.set(name, value)` on the contents of a `Headers` object. */
  function Put(h: HeaderBag, name: string, value: string): HeaderBag {
    h[Lower(name) := value]
  }

  /** A mutable `Headers` object. */
  class HeaderMap {
    var entries: HeaderBag

    constructor (init: HeaderBag)
      ensures entries == init
    {
      entries := init;
    }

    function Get(name: string): Option<string>
      reads this
    {
      HeaderGet(entries, name)
    }

    method Set(name: string, value: string)
      modifies this
      ensures entries == Put(old(entries), name, value)
    {
      entries := entries[Lower(name) := value];
    }
  }

  /** The value that forbids every cache to store or reuse the response (section 5.2.2 of RFC 9111). */
  const NoStore: string := "no-cache, no-store, must-revalidate"

  /** `get` after `set` of the same name sees the new value; other names see what they saw before. */
  lemma GetAfterPut(h: HeaderBag, name: string, value: string, other: string)
    ensures HeaderGet(Put(h, name, value), name) == Some(value)
    ensures Lower(other) != Lower(name) ==> HeaderGet(Put(h, name, value), other) == HeaderGet(h, other)
  {
  }

  /** A key other than the folded name is untouched by `set`. */
  lemma PutOther(h: HeaderBag, name: string, value: string, k: string)
    requires k != Lower(name)
    ensures (k in Put(h, name, value) <==> k in h) && (k in h ==> Put(h, name, value)[k] == h[k])
  {
  }

  // -----------------------------------------------------------------------
  // isRedirectStatus

  predicate IsRedirectStatus(status: int) {
    status >= 300 && status < 400
  }

  /** The redirect statuses are exactly the 3xx class (section 15 of RFC 9110). */
  lemma {:induction false} RedirectClass(status: int)
    ensures IsRedirectStatus(status) <==> status >= 0 && status / 100 == 3
  {
    if 0 <= status {
      var d := status / 100;
      assert status == 100 * d + status % 100;
    }
  }

  // -----------------------------------------------------------------------
  // copyResponseHeaders

  /** The origin headers that are never copied. */
  const DefaultExclude: seq<string> :=
    ["connection", "transfer-encoding", "content-encoding", "content-length", "cf-ray", "cf-request-id", "server", "x-powered-by"]

  /**
   * `target` after the copy loop over the origin's entries (in iteration
   * order), skipping names whose lower-case form is listed in `exclude`.
   */
  function Copied(target: HeaderBag, origin: seq<(string, string)>, exclude: seq<string>): HeaderBag
    decreases |origin|
  {
    if origin == [] then target
    else
      var h := Copied(target, origin[..|origin| - 1], exclude);
      var e := origin[|origin| - 1];
      if Lower(e.0) in exclude then h else Put(h, e.0, e.1)
  }

  /** The names of a `Headers` object's entries fold to different keys. */
  predicate DistinctNames(origin: seq<(string, string)>) {
    forall i, j :: 0 <= i < j < |origin| ==> Lower(origin[i].0) != Lower(origin[j].0)
  }

  /** A key that no origin entry folds to keeps what the target had. */
  lemma {:induction false} CopiedOthers(target: HeaderBag, origin: seq<(string, string)>, exclude: seq<string>, k: string)
    requires forall i :: 0 <= i < |origin| ==> Lower(origin[i].0) != k
    ensures (k in Copied(target, origin, exclude) <==> k in target)
    ensures k in target ==> Copied(target, origin, exclude)[k] == target[k]
    decreases |origin|
  {
    if origin != [] {
      CopiedOthers(target, origin[..|origin| - 1], exclude, k);
    }
  }

  /**
   * An origin entry whose folded name is not excluded is copied with its
   * value; an excluded one leaves the target's value under that key as it
   * was.
   */
  lemma {:induction false} CopiedEntry(target: HeaderBag, origin: seq<(string, string)>, exclude: seq<string>, i: nat)
    requires DistinctNames(origin) && i < |origin|
    ensures var k := Lower(origin[i].0);
      var r := Copied(target, origin, exclude);
      (k !in exclude ==> k in r && r[k] == origin[i].1) &&
      (k in exclude ==> ((k in r <==> k in target) && (k in target ==> r[k] == target[k])))
    decreases |origin|
  {
    var init := origin[..|origin| - 1];
    if i < |init| {
      assert DistinctNames(init);
      CopiedEntry(target, init, exclude, i);
      assert Lower(origin[|origin| - 1].0) != Lower(origin[i].0);
    } else {
      var k := Lower(origin[i].0);
      CopiedOthers(target, init, exclude, k);
    }
  }

  /** `copyResponseHeaders`: the caller's names are added to the default exclusions as given. */
  method CopyResponseHeaders(origin: seq<(string, string)>, target: HeaderMap, exclude: seq<string>)
    modifies target
    ensures target.entries == Copied(old(target.entries), origin, DefaultExclude + exclude)
  {
    var skip := DefaultExclude + exclude;
    for i := 0 to |origin|
      invariant target.entries == Copied(old(target.entries), origin[..i], skip)
    {
      assert origin[..i + 1][..i] == origin[..i];
      var lowerKey := Lower(origin[i].0);
      if lowerKey !in skip {
        target.Set(origin[i].0, origin[i].1);
      }
    }
    assert origin[..|origin|] == origin;
  }

  // -----------------------------------------------------------------------
  // applyCacheHeaders

  /** The directives of the Cache-Control value of an enabled cache config (section 5.2.2 of RFC 9111). */
  function CacheControlParts(c: CacheConfig): seq<string> {
    ["public", "max-age=" + IntToString(c.ttl)]
    + (if c.staleWhileRevalidate != 0 then ["stale-while-revalidate=" + IntToString(c.staleWhileRevalidate)] else [])
    + (if c.staleIfError != 0 then ["stale-if-error=" + IntToString(c.staleIfError)] else [])
  }

  /** The "Vary" list: the config's names, then the existing value when it is non-empty. */
  function VaryList(vary: seq<string>, existing: Option<string>): seq<string> {
    if existing.Some? && existing.value != "" then vary + [existing.value] else vary
  }

  /** The Cache-Control value of an enabled config. */
  function CacheControlValue(c: CacheConfig): string {
    Join(CacheControlParts(c), ", ")
  }

  /** The Vary step: a non-empty list is joined with any existing value. */
  function WithVary(h: HeaderBag, vary: seq<string>): HeaderBag {
    if vary != [] then Put(h, "Vary", Join(VaryList(vary, HeaderGet(h, "Vary")), ", ")) else h
  }

  /** The Expires step: a non-zero ttl sets the date `ttl` seconds ahead. */
  function WithExpires(h: HeaderBag, ttl: int, expiresAt: int -> string): HeaderBag {
    if ttl != 0 then Put(h, "Expires", expiresAt(ttl)) else h
  }

  /**
   * The headers after `applyCacheHeaders`.  `expiresAt(ttl)` is the HTTP
   * date `ttl` seconds from now, which depends on the clock.
   */
  function CacheApplied(h: HeaderBag, cfg: Option<CacheConfig>, expiresAt: int -> string): HeaderBag {
    if cfg.None? || !cfg.value.enabled then
      Put(Put(Put(h, "Cache-Control", NoStore), "Pragma", "no-cache"), "Expires", "0")
    else
      var c := cfg.value;
      WithExpires(WithVary(Put(h, "Cache-Control", CacheControlValue(c)), c.vary), c.ttl, expiresAt)
  }

  /** `applyCacheHeaders`, changing the `Headers` object in place. */
  method ApplyCacheHeaders(headers: HeaderMap, cfg: Option<CacheConfig>, expiresAt: int -> string)
    modifies headers
    ensures headers.entries == CacheApplied(old(headers.entries), cfg, expiresAt)
  {
    if cfg.None? || !cfg.value.enabled {
      headers.Set("Cache-Control", NoStore);
      headers.Set("Pragma", "no-cache");
      headers.Set("Expires", "0");
      return;
    }
    var c := cfg.value;
    var cacheControl := ["public", "max-age=" + IntToString(c.ttl)];
    if c.staleWhileRevalidate != 0 {
      cacheControl := cacheControl + ["stale-while-revalidate=" + IntToString(c.staleWhileRevalidate)];
    }
    if c.staleIfError != 0 {
      cacheControl := cacheControl + ["stale-if-error=" + IntToString(c.staleIfError)];
    }
    assert cacheControl == CacheControlParts(c);
    headers.Set("Cache-Control", Join(cacheControl, ", "));
    if |c.vary| > 0 {
      var existing := headers.Get("Vary");
      var varyHeaders := if existing.Some? && existing.value != "" then c.vary + [existing.value] else c.vary;
      headers.Set("Vary", Join(varyHeaders, ", "));
    }
    if c.ttl != 0 {
      headers.Set("Expires", expiresAt(c.ttl));
    }
  }

  /**
   * Without an enabled config the response is marked uncacheable: the
   * three headers are set and every other header is kept.
   */
  lemma CacheDisabled(h: HeaderBag, cfg: Option<CacheConfig>, expiresAt: int -> string, k: string)
    requires cfg.None? || !cfg.value.enabled
    requires k != Lower("Cache-Control") && k != Lower("Pragma") && k != Lower("Expires")
    ensures var r := CacheApplied(h, cfg, expiresAt);
      HeaderGet(r, "Cache-Control") == Some(NoStore) && HeaderGet(r, "Pragma") == Some("no-cache") &&
      HeaderGet(r, "Expires") == Some("0") &&
      (k in r <==> k in h) && (k in h ==> r[k] == h[k])
  {
    var h1 := Put(h, "Cache-Control", NoStore);
    var h2 := Put(h1, "Pragma", "no-cache");
    var h3 := Put(h2, "Expires", "0");
    assert CacheApplied(h, cfg, expiresAt) == h3;
    GetAfterPut(h2, "Expires", "0", "Pragma");
    GetAfterPut(h2, "Expires", "0", "Cache-Control");
    GetAfterPut(h1, "Pragma", "no-cache", "Cache-Control");
    GetAfterPut(h, "Cache-Control", NoStore, "Cache-Control");
    PutOther(h, "Cache-Control", NoStore, k);
    PutOther(h1, "Pragma", "no-cache", k);
    PutOther(h2, "Expires", "0", k);
  }

  /** A directive name followed by a decimal number has no comma when the name has none. */
  lemma DirectiveWithoutComma(name: string, n: int)
    requires !HasChar(name, ',')
    ensures !HasChar(name + IntToString(n), ',')
  {
    var m := IntToString(n);
    var s := name + m;
    if n >= 0 {
      assert forall j :: 0 <= j < |m| ==> IsDigit(m[j]);
    } else {
      var digits := NatToString(-n);
      assert m == "-" + digits;
      assert forall j :: 0 <= j < |digits| ==> IsDigit(digits[j]);
      assert forall j :: 1 <= j < |m| ==> m[j] == digits[j - 1];
    }
    assert forall j :: |name| <= j < |s| ==> s[j] == m[j - |name|];
    assert forall j :: 0 <= j < |name| ==> s[j] == name[j];
  }

  /** No directive of an enabled config holds a comma. */
  lemma PartsWithoutComma(c: CacheConfig)
    ensures forall i :: 0 <= i < |CacheControlParts(c)| ==> !HasChar(CacheControlParts(c)[i], ',')
  {
    var parts := CacheControlParts(c);
    var maxAge := "max-age=" + IntToString(c.ttl);
    var swr := "stale-while-revalidate=" + IntToString(c.staleWhileRevalidate);
    var sie := "stale-if-error=" + IntToString(c.staleIfError);
    assert forall j :: 0 <= j < |"public"| ==> "public"[j] != ',';
    assert forall j :: 0 <= j < |"max-age="| ==> "max-age="[j] != ',';
    assert forall j :: 0 <= j < |"stale-while-revalidate="| ==> "stale-while-revalidate="[j] != ',';
    assert forall j :: 0 <= j < |"stale-if-error="| ==> "stale-if-error="[j] != ',';
    DirectiveWithoutComma("max-age=", c.ttl);
    DirectiveWithoutComma("stale-while-revalidate=", c.staleWhileRevalidate);
    DirectiveWithoutComma("stale-if-error=", c.staleIfError);
    assert forall i :: 0 <= i < |parts| ==> parts[i] == "public" || parts[i] == maxAge || parts[i] == swr || parts[i] == sie;
  }

  /**
   * An enabled config sets a Cache-Control value whose comma-separated
   * directives are `public`, `max-age`, and the two stale directives just
   * when those settings are non-zero; Pragma is left alone.
   */
  lemma CacheEnabled(h: HeaderBag, c: CacheConfig, expiresAt: int -> string)
    requires c.enabled
    ensures var r := CacheApplied(h, Some(c), expiresAt);
      HeaderGet(r, "Cache-Control").Some? &&
      Split(HeaderGet(r, "Cache-Control").value, ", ") == CacheControlParts(c) &&
      HeaderGet(r, "Pragma") == HeaderGet(h, "Pragma")
  {
    var h1 := Put(h, "Cache-Control", CacheControlValue(c));
    var h2 := WithVary(h1, c.vary);
    GetAfterPut(h, "Cache-Control", CacheControlValue(c), "Pragma");
    WithVaryOther(h1, c.vary, "Cache-Control");
    WithVaryOther(h1, c.vary, "Pragma");
    WithExpiresOther(h2, c.ttl, expiresAt, "Cache-Control");
    WithExpiresOther(h2, c.ttl, expiresAt, "Pragma");
    PartsWithoutComma(c);
    JoinSplit(CacheControlParts(c), ", ");
  }

  /** The Vary step touches no other name. */
  lemma WithVaryOther(h: HeaderBag, vary: seq<string>, name: string)
    requires Lower(name) != Lower("Vary")
    ensures HeaderGet(WithVary(h, vary), name) == HeaderGet(h, name)
  {
  }

  /** The Expires step touches no other name. */
  lemma WithExpiresOther(h: HeaderBag, ttl: int, expiresAt: int -> string, name: string)
    requires Lower(name) != Lower("Expires")
    ensures HeaderGet(WithExpires(h, ttl, expiresAt), name) == HeaderGet(h, name)
  {
  }

  /** The directives start with `public` and `max-age`; each stale directive appears iff its setting is non-zero. */
  lemma CacheControlDirectives(c: CacheConfig)
    ensures var p := CacheControlParts(c);
      |p| >= 2 && p[0] == "public" && p[1] == "max-age=" + IntToString(c.ttl) &&
      (("stale-while-revalidate=" + IntToString(c.staleWhileRevalidate)) in p <==> c.staleWhileRevalidate != 0) &&
      (("stale-if-error=" + IntToString(c.staleIfError)) in p <==> c.staleIfError != 0)
  {
    var p := CacheControlParts(c);
    var swr := "stale-while-revalidate=" + IntToString(c.staleWhileRevalidate);
    var sie := "stale-if-error=" + IntToString(c.staleIfError);
    assert swr[6] == 'w' && sie[6] == 'i';
    assert "public"[0] == 'p' && ("max-age=" + IntToString(c.ttl))[0] == 'm';
  }

  /**
   * A non-empty vary list becomes the Vary value, followed by the existing
   * Vary value when there was a non-empty one; an empty list leaves Vary
   * alone.
   */
  lemma VaryMerged(h: HeaderBag, c: CacheConfig, expiresAt: int -> string)
    requires c.enabled
    ensures var r := CacheApplied(h, Some(c), expiresAt);
      var old_v := HeaderGet(h, "Vary");
      (c.vary != [] ==> HeaderGet(r, "Vary") == Some(Join(VaryList(c.vary, old_v), ", "))) &&
      (c.vary == [] ==> HeaderGet(r, "Vary") == old_v)
  {
    var h1 := Put(h, "Cache-Control", CacheControlValue(c));
    GetAfterPut(h, "Cache-Control", CacheControlValue(c), "Vary");
    WithExpiresOther(WithVary(h1, c.vary), c.ttl, expiresAt, "Vary");
  }

  /** An enabled config with a non-zero ttl sets Expires to the date `ttl` seconds ahead; a zero ttl leaves it alone. */
  lemma ExpiresOfTtl(h: HeaderBag, c: CacheConfig, expiresAt: int -> string)
    requires c.enabled
    ensures var r := CacheApplied(h, Some(c), expiresAt);
      (c.ttl != 0 ==> HeaderGet(r, "Expires") == Some(expiresAt(c.ttl))) &&
      (c.ttl == 0 ==> HeaderGet(r, "Expires") == HeaderGet(h, "Expires"))
  {
    var h1 := Put(h, "Cache-Control", CacheControlValue(c));
    GetAfterPut(h, "Cache-Control", CacheControlValue(c), "Expires");
    WithVaryOther(h1, c.vary, "Expires");
  }

  // -----------------------------------------------------------------------
  // Responses: createErrorResponse and handleRedirect

  /** A response body: none, the JSON error object, or the origin's stream. */
  datatype Body = NoContent | ErrorJson(error: bool, message: string, status: int) | OriginStream

  datatype Reply = Reply(status: int, statusText: string, headers: HeaderBag, body: Body)

  /** `createErrorResponse(message, status)`; an omitted status is `None`. */
  function CreateErrorResponse(message: string, status: Option<int>): (r: Reply)
    ensures r.status == (if status.Some? then status.value else InternalServerError)
    ensures r.body == ErrorJson(true, message, r.status)
    ensures HeaderGet(r.headers, "Content-Type") == Some("application/json")
    ensures HeaderGet(r.headers, "Cache-Control") == Some(NoStore)
  {
    var s := if status.Some? then status.value else InternalServerError;
    Reply(s, "", Put(Put(map[], "Content-Type", "application/json"), "Cache-Control", NoStore), ErrorJson(true, message, s))
  }

  /**
   * `handleRedirect`.  Whether the "Location" parses as an absolute URL is
   * `isAbsolute`, and `resolve(location, targetUrl)` is its resolution
   * against the target's origin and path (URL parsing is not modelled).
   */
  function HandleRedirect(origin: Reply, targetUrl: string, isAbsolute: string -> bool, resolve: (string, string) -> string): (r: Reply)
    ensures var loc := HeaderGet(origin.headers, "Location");
      (loc.None? || loc.value == "" ==> r == origin) &&
      (loc.Some? && loc.value != "" ==>
        r.status == origin.status && r.statusText == origin.statusText && r.body == NoContent &&
        HeaderGet(r.headers, "Cache-Control") == Some(NoStore) &&
        HeaderGet(r.headers, "Location") == Some(if isAbsolute(loc.value) then loc.value else resolve(loc.value, targetUrl)))
  {
    var loc := HeaderGet(origin.headers, "Location");
    if loc.None? || loc.value == "" then origin
    else
      var url := if isAbsolute(loc.value) then loc.value else resolve(loc.value, targetUrl);
      Reply(origin.status, origin.statusText, Put(Put(map[], "Location", url), "Cache-Control", NoStore), NoContent)
  }
}
