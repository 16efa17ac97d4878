/**
 * How the edge router builds the request it sends to a route's origin:
 * `${VAR}` templates in route header values, the request headers it
 * forwards, the route headers that override them, the default
 * User-Agent, the body and the timeout.
 *
 * The incoming request's headers are a `Headers` object: names are stored
 * in lower case and looked up without regard to case.  The outgoing
 * headers are a plain object, whose keys are compared as written.
 */
module RequestBuilder {
  import opened Common
  import opened RouterConfig

  /** A `Headers` object: values by lower-cased name. */
  type HeaderBag = map<string, string>

  /** `headers.get(name)`. */
  function HeaderGet(h: HeaderBag, name: string): (r: Option<string>)
    ensures r.Some? <==> Lower(name) in h
  {
    if Lower(name) in h then Some(h[Lower(name)]) else None
  }

  /** `v || d` for a header value that may be null or empty. */
  function OrTruthy(v: Option<string>, d: string): (r: string)
    ensures v.Some? && v.value != "" ==> r == v.value
    ensures v.None? || v.value == "" ==> r == d
  {
    if v.Some? && v.value != "" then v.value else d
  }

  // -----------------------------------------------------------------------
  // resolveHeaderValue

  /** The text that replaces `${name}`. */
  function Substitute(name: string, req: HeaderBag): string {
    if name == "CF-Connecting-IP" || name == "CF-IPCountry" || name == "CF-Ray" then OrTruthy(HeaderGet(req, name), "")
    else if name == "User-Agent" then OrTruthy(HeaderGet(req, "User-Agent"), DefaultUserAgent)
    else OrTruthy(HeaderGet(req, name), "${" + name + "}")
  }

  /**
   * The length of the name of a template `${name}` at the start of `s`
   * (the regular expression `\$\{([^}]+)\}`), or 0 when there is none.
   */
  function TemplateAt(s: string): (j: nat)
    ensures j > 0 ==> 3 + j <= |s| && StartsWith(s, "${") && s[2 + j] == '}' && !HasChar(s[2..2 + j], '}')
  {
    if StartsWith(s, "${") then
      var j := IndexOfChar(s[2..], '}');
      if j > 0 then j else 0
    else 0
  }

  /** `value.replace(/\$\{([^}]+)\}/g, …)`, scanning left to right. */
  function ResolveTemplates(s: string, req: HeaderBag): string
    decreases |s|
  {
    if s == [] then []
    else
      var j := TemplateAt(s);
      if j > 0 then Substitute(s[2..2 + j], req) + ResolveTemplates(s[3 + j..], req)
      else [s[0]] + ResolveTemplates(s[1..], req)
  }

  /** `resolveHeaderValue`: templates in strings are resolved; other values are stringified. */
  function ResolveHeaderValue(v: HeaderValue, req: HeaderBag): string {
    match v
      case HStr(s) => ResolveTemplates(s, req)
      case HOther(text) => text
  }

  /** A first character other than `$` is copied, and scanning goes on after it. */
  lemma ResolvePlainChar(s: string, req: HeaderBag)
    requires s != [] && s[0] != '$'
    ensures ResolveTemplates(s, req) == [s[0]] + ResolveTemplates(s[1..], req)
  {
    assert !StartsWith(s, "${") by { if |s| >= 2 { assert s[..2][0] == s[0]; } }
  }

  /** A value without `$` is passed on unchanged. */
  lemma {:induction false} ResolveWithoutTemplates(s: string, req: HeaderBag)
    requires !HasChar(s, '$')
    ensures ResolveTemplates(s, req) == s
    decreases |s|
  {
    if s != [] {
      assert s[0] != '$';
      assert !HasChar(s[1..], '$');
      ResolvePlainChar(s, req);
      ResolveWithoutTemplates(s[1..], req);
      assert s == [s[0]] + s[1..];
    }
  }

  /** A template at the very start is replaced, and scanning resumes after its `}`. */
  lemma ResolveLeadingTemplate(name: string, q: string, req: HeaderBag)
    requires name != [] && !HasChar(name, '}')
    ensures ResolveTemplates("${" + name + "}" + q, req) == Substitute(name, req) + ResolveTemplates(q, req)
  {
    var s := "${" + name + "}" + q;
    LeadingTemplateParts(name, q);
    ResolveTemplateStep(s, req);
  }

  /** The template at the start of `${name}q` is `name`, and `q` follows it. */
  lemma LeadingTemplateParts(name: string, q: string)
    requires name != [] && !HasChar(name, '}')
    ensures var s := "${" + name + "}" + q;
      TemplateAt(s) == |name| && s[2..2 + |name|] == name && s[3 + |name|..] == q
  {
    var s := "${" + name + "}" + q;
    assert s[..2] == "${";
    assert s[2..] == name + "}" + q;
    IndexOfCharOfSplit(name, '}', q);
  }

  /** A template at the start is substituted and the scan goes on after its `}`. */
  lemma ResolveTemplateStep(s: string, req: HeaderBag)
    requires TemplateAt(s) > 0
    ensures var j := TemplateAt(s);
      ResolveTemplates(s, req) == Substitute(s[2..2 + j], req) + ResolveTemplates(s[3 + j..], req)
  {
  }

  /**
   * A value that is one template: the Cloudflare headers give the request's
   * value or nothing, `User-Agent` falls back to the default, and any other
   * name gives the request header or keeps the template text.
   */
  lemma ResolveSingleTemplate(name: string, req: HeaderBag)
    requires name != [] && !HasChar(name, '}')
    ensures var r := ResolveTemplates("${" + name + "}", req);
      (name == "CF-Connecting-IP" || name == "CF-IPCountry" || name == "CF-Ray" ==> r == OrElse(HeaderGet(req, name), "")) &&
      (name == "User-Agent" ==> r == (if HeaderGet(req, name) == Some("") then DefaultUserAgent else OrElse(HeaderGet(req, name), DefaultUserAgent))) &&
      (HeaderGet(req, name).None? && name != "CF-Connecting-IP" && name != "CF-IPCountry" && name != "CF-Ray" && name != "User-Agent" ==>
        r == "${" + name + "}")
  {
    ResolveLeadingTemplate(name, "", req);
    assert "${" + name + "}" + "" == "${" + name + "}";
  }

  /** A part without `$` in front of the rest of the value is copied as it is. */
  lemma {:induction false} ResolveAfterPlain(p: string, t: string, req: HeaderBag)
    requires !HasChar(p, '$')
    ensures ResolveTemplates(p + t, req) == p + ResolveTemplates(t, req)
    decreases |p|
  {
    if p != [] {
      var s := p + t;
      assert s[0] == p[0] && p[0] != '$';
      ResolvePlainChar(s, req);
      assert s[1..] == p[1..] + t;
      assert !HasChar(p[1..], '$');
      ResolveAfterPlain(p[1..], t, req);
      var rest := ResolveTemplates(t, req);
      ConsAppend(p, rest);
    } else {
      assert p + t == t;
    }
  }

  lemma ConsAppend(p: string, rest: string)
    requires p != []
    ensures p + rest == [p[0]] + (p[1..] + rest)
  {
  }

  /**
   * The first template after a part without `$` is replaced by the
   * substitution for its name, and scanning resumes after its `}`.
   */
  lemma ResolveTemplate(p: string, name: string, q: string, req: HeaderBag)
    requires !HasChar(p, '$') && name != [] && !HasChar(name, '}')
    ensures ResolveTemplates(p + "${" + name + "}" + q, req) == p + (Substitute(name, req) + ResolveTemplates(q, req))
  {
    var t := "${" + name + "}" + q;
    assert p + "${" + name + "}" + q == p + t;
    ResolveAfterPlain(p, t, req);
    ResolveLeadingTemplate(name, q, req);
  }

  // -----------------------------------------------------------------------
  // Header merging in buildFetchOptions and forwardHeaders

  /** The route's header names, lower-cased: these are not forwarded. */
  function SkipList(routeHeaders: Option<seq<(string, HeaderValue)>>): (r: seq<string>)
    ensures routeHeaders.None? ==> r == []
    ensures routeHeaders.Some? ==> (|r| == |routeHeaders.value| &&
                                    forall i :: 0 <= i < |r| ==> r[i] == Lower(routeHeaders.value[i].0))
  {
    if routeHeaders.None? then []
    else seq(|routeHeaders.value|, i requires 0 <= i < |routeHeaders.value| => Lower(routeHeaders.value[i].0))
  }

  /** `CONFIG.forwardHeaders.filter(h => !headersToSkip.includes(h.toLowerCase()))`. */
  function FilterForward(names: seq<string>, skip: seq<string>): (r: seq<string>)
    ensures forall h :: h in r <==> h in names && Lower(h) !in skip
    decreases |names|
  {
    if names == [] then []
    else
      var rest := FilterForward(names[1..], skip);
      assert forall h :: h in names <==> h == names[0] || h in names[1..];
      if Lower(names[0]) in skip then rest else [names[0]] + rest
  }

  /** What the loop of `forwardHeaders` has set after the names `names`. */
  function Forwarded(target: map<string, string>, req: HeaderBag, names: seq<string>): map<string, string>
    decreases |names|
  {
    if names == [] then target
    else
      var h := Forwarded(target, req, names[..|names| - 1]);
      var v := HeaderGet(req, names[|names| - 1]);
      if v.Some? && v.value != "" then h[names[|names| - 1] := v.value] else h
  }

  /** What the route-header loop of `buildFetchOptions` has set after the entries `entries`. */
  function RouteApplied(target: map<string, string>, req: HeaderBag, entries: seq<(string, HeaderValue)>): map<string, string>
    decreases |entries|
  {
    if entries == [] then target
    else
      var h := RouteApplied(target, req, entries[..|entries| - 1]);
      var e := entries[|entries| - 1];
      var v := ResolveHeaderValue(e.1, req);
      if v != "" then h[e.0 := v] else h
  }

  /** The exact key `User-Agent` gets the default when it is unset or empty. */
  function WithUserAgent(h: map<string, string>): map<string, string> {
    if "User-Agent" !in h || h["User-Agent"] == "" then h["User-Agent" := DefaultUserAgent] else h
  }

  /** The outgoing headers of `buildFetchOptions`, for the forward list `forward` (`CONFIG.forwardHeaders`). */
  function OutgoingHeaders(req: HeaderBag, routeHeaders: Option<seq<(string, HeaderValue)>>, forward: seq<string>): map<string, string> {
    var forwarded := Forwarded(map[], req, FilterForward(forward, SkipList(routeHeaders)));
    WithUserAgent(if routeHeaders.Some? then RouteApplied(forwarded, req, routeHeaders.value) else forwarded)
  }

  /**
   * `forwardHeaders(request, targetHeaders, allowedHeaders)`: each allowed
   * header the request carries with a non-empty value is copied under the
   * allowed name.
   */
  method ForwardRequestHeaders(req: HeaderBag, target: map<string, string>, allowed: seq<string>) returns (r: map<string, string>)
    ensures r == Forwarded(target, req, allowed)
  {
    r := target;
    for i := 0 to |allowed|
      invariant r == Forwarded(target, req, allowed[..i])
    {
      assert allowed[..i + 1][..i] == allowed[..i];
      var v := HeaderGet(req, allowed[i]);
      if v.Some? && v.value != "" {
        r := r[allowed[i] := v.value];
      }
    }
    assert allowed[..|allowed|] == allowed;
  }

  /** The loop over `route.headers`: every non-empty resolved value is set under the route's key. */
  method ApplyRouteHeaders(req: HeaderBag, target: map<string, string>, entries: seq<(string, HeaderValue)>) returns (r: map<string, string>)
    ensures r == RouteApplied(target, req, entries)
  {
    r := target;
    for i := 0 to |entries|
      invariant r == RouteApplied(target, req, entries[..i])
    {
      assert entries[..i + 1][..i] == entries[..i];
      var v := ResolveHeaderValue(entries[i].1, req);
      if v != "" {
        r := r[entries[i].0 := v];
      }
    }
    assert entries[..|entries|] == entries;
  }

  /** A forwarded header is present exactly when allowed and carried non-empty, with the request's value. */
  lemma {:induction false} ForwardedAt(target: map<string, string>, req: HeaderBag, names: seq<string>, k: string)
    ensures var v := HeaderGet(req, k);
      (k in names && v.Some? && v.value != "" ==> k in Forwarded(target, req, names) && Forwarded(target, req, names)[k] == v.value) &&
      (!(k in names && v.Some? && v.value != "") ==>
         (k in Forwarded(target, req, names) <==> k in target) &&
         (k in target ==> Forwarded(target, req, names)[k] == target[k]))
    decreases |names|
  {
    if names != [] {
      var init := names[..|names| - 1];
      assert names == init + [names[|names| - 1]];
      ForwardedAt(target, req, init, k);
    }
  }

  /** Keys of a JavaScript object are unique. */
  predicate UniqueKeys(entries: seq<(string, HeaderValue)>) {
    forall i, j :: 0 <= i < j < |entries| ==> entries[i].0 != entries[j].0
  }

  /**
   * After the route loop a route key carries its resolved value when that
   * is non-empty; every other key keeps what it had.
   */
  lemma {:induction false} RouteAppliedAt(target: map<string, string>, req: HeaderBag, entries: seq<(string, HeaderValue)>, i: nat)
    requires UniqueKeys(entries) && i < |entries|
    ensures var v := ResolveHeaderValue(entries[i].1, req);
      var r := RouteApplied(target, req, entries);
      (v != "" ==> entries[i].0 in r && r[entries[i].0] == v) &&
      (v == "" ==> ((entries[i].0 in r <==> entries[i].0 in target) &&
                    (entries[i].0 in target ==> r[entries[i].0] == target[entries[i].0])))
    decreases |entries|
  {
    var init := entries[..|entries| - 1];
    assert UniqueKeys(init);
    if i < |init| {
      RouteAppliedAt(target, req, init, i);
      assert entries[i] == init[i];
      assert entries[|entries| - 1].0 != entries[i].0;
    } else {
      RouteAppliedNotListed(target, req, init, entries[i].0);
    }
  }

  /** A key the route does not name is untouched by the route loop. */
  lemma {:induction false} RouteAppliedNotListed(target: map<string, string>, req: HeaderBag, entries: seq<(string, HeaderValue)>, k: string)
    requires forall i :: 0 <= i < |entries| ==> entries[i].0 != k
    ensures (k in RouteApplied(target, req, entries) <==> k in target)
    ensures k in target ==> RouteApplied(target, req, entries)[k] == target[k]
    decreases |entries|
  {
    if entries != [] {
      RouteAppliedNotListed(target, req, entries[..|entries| - 1], k);
    }
  }

  /** A route header with a non-empty resolved value always reaches the origin under the route's key. */
  lemma RouteHeaderWins(req: HeaderBag, entries: seq<(string, HeaderValue)>, forward: seq<string>, i: nat)
    requires UniqueKeys(entries) && i < |entries|
    requires ResolveHeaderValue(entries[i].1, req) != ""
    ensures var h := OutgoingHeaders(req, Some(entries), forward);
      entries[i].0 in h && h[entries[i].0] == ResolveHeaderValue(entries[i].1, req)
  {
    var forwarded := Forwarded(map[], req, FilterForward(forward, SkipList(Some(entries))));
    RouteAppliedAt(forwarded, req, entries, i);
  }

  /**
   * A forwardable header that the route does not name (in any case) is
   * passed on with the request's value when that is non-empty, and is
   * absent when it is missing or empty.
   */
  lemma ForwardedHeaderPassed(req: HeaderBag, routeHeaders: Option<seq<(string, HeaderValue)>>, forward: seq<string>, k: string)
    requires k in forward && k != "User-Agent"
    requires routeHeaders.Some? ==> forall i :: 0 <= i < |routeHeaders.value| ==> Lower(routeHeaders.value[i].0) != Lower(k)
    ensures var h := OutgoingHeaders(req, routeHeaders, forward);
      var v := HeaderGet(req, k);
      (v.Some? && v.value != "" ==> k in h && h[k] == v.value) &&
      (v.None? || v.value == "" ==> k !in h)
  {
    var skip := SkipList(routeHeaders);
    assert Lower(k) !in skip;
    var names := FilterForward(forward, skip);
    ForwardedAt(map[], req, names, k);
    if routeHeaders.Some? {
      var entries := routeHeaders.value;
      forall i | 0 <= i < |entries| ensures entries[i].0 != k {
      }
      RouteAppliedNotListed(Forwarded(map[], req, names), req, entries, k);
    }
  }

  /**
   * A forwardable header that the route names in another letter case is
   * not forwarded; only the route's spelling can reach the origin.
   */
  lemma OverriddenHeaderNotForwarded(req: HeaderBag, entries: seq<(string, HeaderValue)>, forward: seq<string>, k: string, i: nat)
    requires k in forward && k != "User-Agent"
    requires UniqueKeys(entries) && i < |entries| && Lower(entries[i].0) == Lower(k)
    requires forall j :: 0 <= j < |entries| ==> entries[j].0 != k
    ensures k !in OutgoingHeaders(req, Some(entries), forward)
  {
    var skip := SkipList(Some(entries));
    assert skip[i] == Lower(k);
    var names := FilterForward(forward, skip);
    assert k !in names;
    ForwardedAt(map[], req, names, k);
    RouteAppliedNotListed(Forwarded(map[], req, names), req, entries, k);
  }

  /**
   * The default User-Agent is set under the exact key `User-Agent`, while
   * the request's user agent is forwarded under `user-agent`: a route
   * without headers passes both keys on.
   */
  lemma UserAgentKeysDiffer(req: HeaderBag, forward: seq<string>, ua: string)
    requires "user-agent" in forward && "User-Agent" !in forward
    requires HeaderGet(req, "user-agent") == Some(ua) && ua != ""
    ensures var h := OutgoingHeaders(req, None, forward);
      "user-agent" in h && h["user-agent"] == ua &&
      "User-Agent" in h && h["User-Agent"] == DefaultUserAgent
  {
    var names := FilterForward(forward, []);
    assert "user-agent" in names;
    ForwardedAt(map[], req, names, "user-agent");
    assert "User-Agent" !in names;
    ForwardedAt(map[], req, names, "User-Agent");
  }

  // -----------------------------------------------------------------------
  // buildFetchOptions

  /** The parts of the incoming request the builder uses. */
  datatype Request = Request(httpMethod: string, headers: HeaderBag, hasBody: bool, bodyUsed: bool)

  /** The body sent on: none, a copy read from a clone, or the request's own stream. */
  datatype Body = NoBody | ReadCopy | RawStream

  datatype FetchOptions = FetchOptions(httpMethod: string, headers: map<string, string>, body: Body, timeoutMs: Option<nat>)

  /**
   * The body of `buildFetchOptions`.  Reading the clone is I/O: whether it
   * fails is the parameter `readFails`, and a failure falls back to the
   * (always truthy) stream.
   */
  function BodyOf(req: Request, readFails: bool): (b: Body)
    ensures b != NoBody <==> req.httpMethod in MethodsWithBody && req.hasBody
    ensures b == ReadCopy <==> req.httpMethod in MethodsWithBody && req.hasBody && !req.bodyUsed && !readFails
  {
    if req.httpMethod in MethodsWithBody then
      if req.hasBody && !req.bodyUsed then (if readFails then RawStream else ReadCopy)
      else if req.hasBody then RawStream
      else NoBody
    else NoBody
  }

  /** Only the internal origin types get the read timeout. */
  function TimeoutOf(route: Route): (t: Option<nat>)
    ensures t.Some? <==> route.originType == Some("tailscale") || route.originType == Some("home-lab")
    ensures t.Some? ==> t.value == ReadTimeout
  {
    if route.originType == Some("tailscale") || route.originType == Some("home-lab") then Some(ReadTimeout) else None
  }

  /** The header part of `buildFetchOptions`, for the forward list `forward`. */
  method MergeHeaders(req: HeaderBag, routeHeaders: Option<seq<(string, HeaderValue)>>, forward: seq<string>) returns (headers: map<string, string>)
    ensures headers == OutgoingHeaders(req, routeHeaders, forward)
    ensures "User-Agent" in headers && headers["User-Agent"] != ""
  {
    var skip := SkipList(routeHeaders);
    var allowed := FilterForward(forward, skip);
    headers := ForwardRequestHeaders(req, map[], allowed);
    if routeHeaders.Some? {
      headers := ApplyRouteHeaders(req, headers, routeHeaders.value);
    }
    if "User-Agent" !in headers || headers["User-Agent"] == "" {
      headers := headers["User-Agent" := DefaultUserAgent];
    }
  }

  /** `buildFetchOptions`: the method, the merged headers, the body and the timeout. */
  method BuildFetchOptions(req: Request, route: Route, readFails: bool) returns (o: FetchOptions)
    ensures o.httpMethod == req.httpMethod
    ensures o.headers == OutgoingHeaders(req.headers, route.headers, ForwardHeaders)
    ensures "User-Agent" in o.headers && o.headers["User-Agent"] != ""
    ensures o.body == BodyOf(req, readFails) && o.timeoutMs == TimeoutOf(route)
  {
    var headers := MergeHeaders(req.headers, route.headers, ForwardHeaders);
    var body := NoBody;
    if req.httpMethod in MethodsWithBody {
      if req.hasBody && !req.bodyUsed {
        body := if readFails then RawStream else ReadCopy;
      } else if req.hasBody {
        body := RawStream;
      }
    }
    var timeout := None;
    if route.originType == Some("tailscale") || route.originType == Some("home-lab") {
      timeout := Some(ReadTimeout);
    }
    o := FetchOptions(req.httpMethod, headers, body, timeout);
  }
}
