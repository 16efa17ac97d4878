/**
 * The access gate of the tracker service's HTTP pipeline: which client
 * addresses count as local, which paths are reserved for the local network,
 * the developer and API keys, and the resulting decision for each request.
 */
module ModHeaders {
  import opened Common

  // -----------------------------------------------------------------------
  // Local-only paths

  /** The cron, JSON-database and developer endpoints (prefixes compared ignoring case). */
  predicate IsLocalOnlyPath(path: Option<string>) {
    path.Some? && path.value != [] &&
    (StartsWithIgnoreCase(path.value, "/cron/") || StartsWithIgnoreCase(path.value, "/jsondb") ||
     StartsWithIgnoreCase(path.value, "/dev/"))
  }

  /** Any path that starts with one of the three prefixes, in any letter case, is local-only. */
  lemma LocalOnlyPrefix(p: string, rest: string)
    requires EqIgnoreCase(p, "/cron/") || EqIgnoreCase(p, "/jsondb") || EqIgnoreCase(p, "/dev/")
    ensures IsLocalOnlyPath(Some(p + rest))
  {
    assert (p + rest)[..|p|] == p;
  }

  /** Rewriting a path into another letter case does not change whether it is local-only. */
  lemma LocalOnlyIgnoresCase(a: string, b: string)
    requires EqIgnoreCase(a, b)
    ensures IsLocalOnlyPath(Some(a)) == IsLocalOnlyPath(Some(b))
  {
    PrefixIgnoresCase(a, b, "/cron/");
    PrefixIgnoresCase(a, b, "/jsondb");
    PrefixIgnoresCase(a, b, "/dev/");
  }

  lemma PrefixIgnoresCase(a: string, b: string, p: string)
    requires EqIgnoreCase(a, b)
    ensures StartsWithIgnoreCase(a, p) == StartsWithIgnoreCase(b, p)
  {
    if |p| <= |a| {
      assert forall i :: 0 <= i < |p| ==> a[..|p|][i] == a[i] && b[..|p|][i] == b[i];
    }
  }

  /**
   * Independently of the case-insensitive comparison: a path is local-only
   * iff its lower-cased form starts with "/cron/", "/jsondb" or "/dev/".
   */
  lemma LocalOnlyIffLower(s: string)
    ensures IsLocalOnlyPath(Some(s)) <==>
      StartsWith(Lower(s), "/cron/") || StartsWith(Lower(s), "/jsondb") || StartsWith(Lower(s), "/dev/")
  {
    PrefixLower(s, "/cron/");
    PrefixLower(s, "/jsondb");
    PrefixLower(s, "/dev/");
  }

  /** Lower-case letters and '/'. */
  predicate LowerPath(k: string) { forall i :: 0 <= i < |k| ==> ('a' <= k[i] <= 'z') || k[i] == '/' }

  lemma PrefixLower(s: string, k: string)
    requires LowerPath(k)
    ensures StartsWithIgnoreCase(s, k) <==> StartsWith(Lower(s), k)
  {
    if |k| <= |s| {
      forall i | 0 <= i < |k| ensures UpperChar(s[i]) == UpperChar(k[i]) <==> LowerChar(s[i]) == k[i] {
        CharLowerPath(s[i], k[i]);
      }
      assert forall i :: 0 <= i < |k| ==> s[..|k|][i] == s[i] && Lower(s)[..|k|][i] == LowerChar(s[i]);
    }
  }

  lemma CharLowerPath(c: char, k: char)
    requires ('a' <= k <= 'z') || k == '/'
    ensures UpperChar(c) == UpperChar(k) <==> LowerChar(c) == k
  {
  }

  /** A path that does not start with '/' is never local-only, and neither is a missing one. */
  lemma NoSlashNotLocal(s: string)
    requires s == [] || s[0] != '/'
    ensures !IsLocalOnlyPath(Some(s)) && !IsLocalOnlyPath(None)
  {
    LocalOnlyIffLower(s);
    assert s != [] ==> Lower(s)[0] != '/';
  }

  // -----------------------------------------------------------------------
  // Client addresses

  /** An address with its family; the bytes are `GetAddressBytes()`, `scopeId` the IPv6 scope. */
  datatype IpAddress = V4(bytes: seq<bv8>) | V6(bytes: seq<bv8>, scopeId: nat) | OtherFamily(bytes: seq<bv8>)

  /** `::1`. */
  const V6LoopbackBytes: seq<bv8> := [0, 0, 0, 0, 0, 0, 0, 0, 0, 0, 0, 0, 0, 0, 0, 1]

  predicate IsLocalOrPrivate(remote: Option<IpAddress>) {
    match remote
      case None => false
      case Some(V4(b)) =>
        (|b| >= 1 && b[0] == 127) || (|b| >= 1 && b[0] == 10) ||
        (|b| >= 2 && b[0] == 172 && b[1] >= 16 && b[1] <= 31) ||
        (|b| >= 2 && b[0] == 192 && b[1] == 168)
      case Some(V6(b, scope)) =>
        (b == V6LoopbackBytes && scope == 0) ||
        (|b| >= 2 && b[0] == 0xfe && b[1] & 0xc0 == 0x80) ||
        (|b| >= 1 && b[0] & 0xfe == 0xfc)
      case Some(OtherFamily(_)) => false
  }

  /** The byte mask that keeps the `bits` leading bits. */
  function PrefixMask(bits: nat): bv8
    requires bits <= 8
  {
    if bits == 0 then 0 else (0xff as bv8) << (8 - bits)
  }

  /** `addr` lies in the block `net`/`len` of CIDR notation (section 3.1 of RFC 4632). */
  predicate InBlock(addr: seq<bv8>, net: seq<bv8>, len: nat)
    requires len <= 8 * |net|
  {
    |addr| >= |net| &&
    (forall i :: 0 <= i < len / 8 ==> addr[i] == net[i]) &&
    (len % 8 != 0 ==> addr[len / 8] & PrefixMask(len % 8) == net[len / 8] & PrefixMask(len % 8))
  }

  /**
   * An IPv4 address is local exactly when it is in the loopback block or in
   * one of the three private blocks of section 3 of RFC 1918.
   */
  lemma V4Local(b: seq<bv8>)
    ensures IsLocalOrPrivate(Some(V4(b))) <==>
      InBlock(b, [127], 8) || InBlock(b, [10], 8) || InBlock(b, [172, 16], 12) || InBlock(b, [192, 168], 16)
  {
    assert PrefixMask(4) == 0xf0;
    if |b| >= 2 {
      assert (b[1] >= 16 && b[1] <= 31) <==> b[1] & 0xf0 == 16;
    }
  }

  /**
   * An IPv6 address is local exactly when it is the loopback address
   * (section 2.5.3 of RFC 4291), link-local (fe80::/10, section 2.5.6 of
   * RFC 4291) or unique local (fc00::/7, section 3.1 of RFC 4193).
   */
  lemma V6Local(b: seq<bv8>, scope: nat)
    ensures IsLocalOrPrivate(Some(V6(b, scope))) <==>
      (b == V6LoopbackBytes && scope == 0) || InBlock(b, [0xfe, 0x80], 10) || InBlock(b, [0xfc], 7)
  {
    assert PrefixMask(2) == 0xc0 && PrefixMask(7) == 0xfe;
  }

  /** A missing address and addresses of other families are never local. */
  lemma OtherNotLocal(remote: Option<IpAddress>)
    requires remote.None? || remote.value.OtherFamily?
    ensures !IsLocalOrPrivate(remote)
  {
  }

  // -----------------------------------------------------------------------
  // Keys in the query string

  /** The value of a parameter: the characters up to the next `&`. */
  function ValueRun(s: string): (r: string)
    ensures StartsWith(s, r) && !HasChar(r, '&')
    ensures |r| == |s| || s[|r|] == '&'
  {
    var j := IndexOfChar(s, '&');
    if j < 0 then s else s[..j]
  }

  /**
   * Group 2 of the leftmost match of `(\?|&)name=([^&]+)` in `q`: the first
   * non-empty value of the parameter `name`, compared case-sensitively.
   */
  function QueryParam(q: string, name: string): (r: Option<string>)
    ensures r.Some? ==> r.value != [] && !HasChar(r.value, '&')
    decreases |q|
  {
    if q == [] then None
    else
      var key := name + "=";
      if (q[0] == '?' || q[0] == '&') && StartsWith(q[1..], key) && 1 + |key| < |q| && q[1 + |key|] != '&' then
        var v := ValueRun(q[1 + |key|..]);
        assert v != [] by { assert q[1 + |key|..][0] == q[1 + |key|]; }
        Some(v)
      else QueryParam(q[1..], name)
  }

  /** A query that starts with the parameter yields its value. */
  lemma QueryParamFirst(name: string, v: string, rest: string)
    requires v != [] && !HasChar(v, '&') && (rest == [] || rest[0] == '&')
    ensures QueryParam("?" + name + "=" + v + rest, name) == Some(v)
  {
    var q := "?" + name + "=" + v + rest;
    var key := name + "=";
    assert q[1..] == key + v + rest;
    assert q[1..][..|key|] == key;
    assert q[1 + |key|..] == v + rest;
    assert q[1 + |key|] == v[0];
    QueryParamHere(q, name);
    ValueRunOf(v, rest);
  }

  /** A match at the start of the query gives the value run after `name=`. */
  lemma QueryParamHere(q: string, name: string)
    requires q != [] && (q[0] == '?' || q[0] == '&') && StartsWith(q[1..], name + "=")
    requires 1 + |name + "="| < |q| && q[1 + |name + "="|] != '&'
    ensures QueryParam(q, name) == Some(ValueRun(q[1 + |name + "="|..]))
  {
  }

  /** The value run of a value followed by nothing or by '&' is the value. */
  lemma ValueRunOf(v: string, rest: string)
    requires v != [] && !HasChar(v, '&') && (rest == [] || rest[0] == '&')
    ensures ValueRun(v + rest) == v
  {
    var tail := v + rest;
    if rest == [] {
      assert tail == v;
    } else {
      assert tail[|v|] == '&';
      assert IndexOfChar(tail, '&') == |v|;
    }
  }

  /** Without `name=` anywhere in the query there is no value. */
  lemma {:induction false} QueryParamAbsent(q: string, name: string)
    requires !Contains(q, name + "=")
    ensures QueryParam(q, name).None?
    decreases |q|
  {
    if q != [] {
      assert !Contains(q[1..], name + "=");
      QueryParamAbsent(q[1..], name);
    }
  }

  /**
   * `DevKeyMatches`: true without a configured key, else when the
   * `X-Dev-Key` header holds exactly the key or the query's `devkey` value
   * equals it.  `devKeyHeader` lists the header's values (none when it is
   * absent); a header with several values does not equal a single string.
   */
  predicate DevKeyMatches(devkey: Option<string>, devKeyHeader: seq<string>, query: Option<string>) {
    IsEmptyOpt(devkey) ||
    devKeyHeader == [devkey.value] ||
    QueryParam(OrElse(query, ""), "devkey") == Some(devkey.value)
  }

  /** Without a configured key every request matches. */
  lemma DevKeyOptional(devKeyHeader: seq<string>, query: Option<string>)
    ensures DevKeyMatches(None, devKeyHeader, query) && DevKeyMatches(Some(""), devKeyHeader, query)
  {
  }

  /** With a configured key, the header or the query value must equal it. */
  lemma DevKeyRequired(key: string, devKeyHeader: seq<string>, query: Option<string>)
    requires key != []
    ensures DevKeyMatches(Some(key), devKeyHeader, query) <==>
      devKeyHeader == [key] || QueryParam(OrElse(query, ""), "devkey") == Some(key)
  {
  }

  // -----------------------------------------------------------------------
  // The decision in Invoke

  /** What `Invoke` reads from the request. */
  datatype Request = Request(remote: Option<IpAddress>, path: string, httpMethod: string, query: Option<string>, devKeyHeader: seq<string>)

  /** The two keys of the application settings. */
  datatype Keys = Keys(apikey: Option<string>, devkey: Option<string>)

  /**
   * The outcome: the request is answered with a status and not passed on,
   * or it is passed to the next handler, with or without the
   * `Access-Control-Allow-Private-Network: true` response header.
   */
  datatype Decision = Refuse(status: int) | Pass(allowPrivateNetwork: bool)

  /** The status of a refusal: a preflight gets 204, anything else `code`. */
  function RefusalStatus(httpMethod: string, code: int): int {
    if httpMethod == "OPTIONS" then 204 else code
  }

  /** The paths that skip the API key: the root, `/api/v1.0/conf`, `/stats/` and `/sync/` (case-sensitive). */
  predicate ApiKeyExempt(path: string) {
    path == "/" || StartsWith(path, "/api/v1.0/conf") || StartsWith(path, "/stats/") || StartsWith(path, "/sync/")
  }

  function Decide(req: Request, keys: Keys): (d: Decision) {
    var fromLocal := IsLocalOrPrivate(req.remote);
    var path := req.path;
    if !fromLocal && IsLocalOnlyPath(Some(path)) then Refuse(RefusalStatus(req.httpMethod, 403))
    else if !fromLocal && !IsEmptyOpt(keys.apikey) && ApiKeyExempt(path) then Pass(false)
    else if !fromLocal && !IsEmptyOpt(keys.apikey) &&
            (QueryParam(OrElse(req.query, ""), "apikey").None? || keys.apikey != QueryParam(OrElse(req.query, ""), "apikey"))
    then Refuse(RefusalStatus(req.httpMethod, 401))
    else if fromLocal && IsLocalOnlyPath(Some(path)) && !IsEmptyOpt(keys.devkey) &&
            !DevKeyMatches(keys.devkey, req.devKeyHeader, req.query)
    then Refuse(RefusalStatus(req.httpMethod, 401))
    else Pass(fromLocal || !IsLocalOnlyPath(Some(path)))
  }

  /** A request from outside to a local-only path never reaches the next handler: 204 for a preflight, else 403. */
  lemma ExternalLocalOnlyRefused(req: Request, keys: Keys)
    requires !IsLocalOrPrivate(req.remote) && IsLocalOnlyPath(Some(req.path))
    ensures Decide(req, keys) == Refuse(if req.httpMethod == "OPTIONS" then 204 else 403)
  {
  }

  /**
   * With an API key configured, any other request from outside is passed
   * on exactly when its path is exempt or its `apikey` value equals the
   * key; otherwise it gets 204 for a preflight, else 401.
   */
  lemma ApiKeyGate(req: Request, keys: Keys)
    requires !IsLocalOrPrivate(req.remote) && !IsLocalOnlyPath(Some(req.path)) && !IsEmptyOpt(keys.apikey)
    ensures Decide(req, keys).Pass? <==>
      ApiKeyExempt(req.path) || QueryParam(OrElse(req.query, ""), "apikey") == keys.apikey
    ensures Decide(req, keys).Refuse? ==> Decide(req, keys).status == (if req.httpMethod == "OPTIONS" then 204 else 401)
  {
  }

  /** A local request is refused only on a local-only path, with a developer key configured that it does not carry. */
  lemma LocalGate(req: Request, keys: Keys)
    requires IsLocalOrPrivate(req.remote)
    ensures Decide(req, keys).Refuse? <==>
      IsLocalOnlyPath(Some(req.path)) && !IsEmptyOpt(keys.devkey) && !DevKeyMatches(keys.devkey, req.devKeyHeader, req.query)
    ensures Decide(req, keys).Refuse? ==> Decide(req, keys).status == (if req.httpMethod == "OPTIONS" then 204 else 401)
  {
  }

  /**
   * Every request passed on gets the private-network header, except those
   * forwarded early because their path is exempt from the API key.
   */
  lemma PrivateNetworkHeader(req: Request, keys: Keys)
    requires Decide(req, keys).Pass?
    ensures !Decide(req, keys).allowPrivateNetwork <==>
      !IsLocalOrPrivate(req.remote) && !IsEmptyOpt(keys.apikey) && ApiKeyExempt(req.path)
  {
  }

  /** Without keys, only requests from outside to local-only paths are refused. */
  lemma OpenWithoutKeys(req: Request)
    ensures Decide(req, Keys(None, None)).Refuse? <==> !IsLocalOrPrivate(req.remote) && IsLocalOnlyPath(Some(req.path))
  {
  }
}
