# jacred core, modelled in Dafny

jacred is a torrent-tracker aggregator. Cron parsers scrape several trackers: Aniliberty, Lostfilm, Anidub, Baibako and AnimeLayer. They store the torrents in a bucketed file database (FileDB), keyed by a normalised "name:originalname" key. A metadata pipeline probes the torrents through TorrServer and ffprobe, and an ASP.NET middleware gates access to the HTTP API. A small Cloudflare-worker router in front of the service matches requests against a route table and proxies them to an origin.

This project models the logic of that core and proves properties of it:

- **DevController**: the administrative repair passes over FileDB. They drop null entries, find `X:X` keys, empty a bucket, recompute search names and keys, re-key Aniliberty and AnimeLayer urls, and deduplicate Aniliberty records by magnet hash.
  - FileDB itself is abstract state: class `FileDbModel.Store`, with the buckets, the master index, the set of buckets marked for saving, and the calls made to `MigrateTorrentToNewKey`.
  - `KeyForTorrent` and `StringConvert.SearchName` are uninterpreted function parameters.
- **The tracker parsers**: page-range normalisation, the title, url, type and quality rules, the cookie handling, and the `decide` callbacks passed to `FileDB.AddOrUpdate`.
  - Each callback is a function of the candidate, the cached entry and an oracle for the data it would download.
  - It returns the write decision and bumps exactly one outcome counter.
- **ParserLog**: the structured log lines and the dictionaries of torrent keys.
- **TorrServer client**: the Basic authentication header (with UTF-8 and base64), the request urls and `HasMetadata`.
- **TracksCron and TracksDB**: the time-window task selection, the collection filter, the processing order and retry cap, the sharded path scheme with its round trip, and the language union.
- **AppInit**: secret redaction of the configuration tree, the configuration source and reload decision, the TorrServer list and the per-tracker log switch.
- **ModHeaders**: the private-address classification and the 204/401/403 access gate.
- **The router** (`route-matcher.js`, `request-builder.js`, `response.js`): glob compilation, host and query matching, the first-match route, target url assembly, header forwarding and merging, and the cache headers.

Clocks are integer parameters. Regular expressions are written out as explicit scanners. Dictionaries and JSON objects are sequences of pairs in insertion order.

## Model

| member | source | states |
|---|---|---|
| AppInit.RedactSensitive | AppInit.cs:34-55 | the in-place walk over a JSON tree yields exactly the redacted tree `Redacted(token)` |
| AppInit.SensitiveIffLower | AppInit.cs:17-40 | a name is sensitive iff its lower-cased form is one of the listed names (the set ignores case), and a value is masked iff its name is sensitive and it has text |
| AppInit.RedactedClean | AppInit.cs:17-20 | after redaction no property whose name is one of apikey, devkey, cookie, u, p, username, password (any case) holds a non-empty value other than "***" |
| AppInit.RedactedShape | AppInit.cs:38-54 | redaction keeps every property name, the order of properties and array items, and every non-sensitive scalar |
| AppInit.RedactCleanUnchanged | AppInit.cs:40-47 | a tree with nothing to mask is returned unchanged |
| AppInit.RedactIdempotent | AppInit.cs:34-55 | redacting twice equals redacting once |
| AppInit.GetConfigSource | AppInit.cs:74-83 | init.yaml wins when it exists, then init.conf; without either file the source is (null, default time) |
| AppInit.FirstCallDefault | AppInit.cs:107-116 | the first call with no file installs the default configuration and records no path |
| AppInit.MissingFileKeeps | AppInit.cs:124-125 | once a configuration is installed, a missing file leaves the cache as it is |
| AppInit.ReloadOnlyOnChange | AppInit.cs:124-134 | the cache changes only when the file's path or last-write time differs from the cached ones, and a successful load then installs it |
| AppInit.UpdateConfStable | AppInit.cs:127-134 | calling again with the same file after a successful load changes nothing |
| AppInit.ConfCache.Update | AppInit.cs:101-137 | the three cached fields and the logged label are those of the reload decision |
| AppInit.Credential | AppInit.cs:240-241 | a blank username or password becomes null, any other is trimmed and non-empty |
| AppInit.GetTorrserverList | AppInit.cs:228-245 | a null array gives the empty list; otherwise the list is `Servers` of the entries |
| AppInit.ServersWellFormed | AppInit.cs:237-239 | every listed server has a non-empty url with no white space at either end |
| AppInit.ServersCount | AppInit.cs:235-243 | at most one server per entry, and one per entry exactly when every entry has a non-blank url |
| AppInit.ServersAppend | AppInit.cs:235-243 | an entry adds its server at the end of the list exactly when its url is not blank, so order is preserved |
| AppInit.TrackerLogEnabled | AppInit.cs:156-177 | true iff the configuration exists with logParsers or log set, the name is non-blank, and the named tracker's log flag (name lower-cased) is set |
| AppInit.UnlistedTrackersNeverLog | AppInit.cs:161-176 | the switch has no case for aniliberty, anidub or animelayer, so their log is never enabled |
| AppInit.TrackerNameCase | AppInit.cs:161 | for every name and configuration, the log switch gives the same answer for the name as for its lower-cased form |
| ModHeaders.LocalOnlyPrefix | Engine/Middlewares/ModHeaders.cs:15-21 | every path that starts with "/cron/", "/jsondb" or "/dev/" in any letter case is local-only, whatever follows |
| ModHeaders.LocalOnlyIgnoresCase | Engine/Middlewares/ModHeaders.cs:15-21 | two paths equal ignoring case are both local-only or both not |
| ModHeaders.LocalOnlyIffLower | Engine/Middlewares/ModHeaders.cs:15-21 | a path is local-only iff its lower-cased form starts with "/cron/", "/jsondb" or "/dev/" |
| ModHeaders.NoSlashNotLocal | Engine/Middlewares/ModHeaders.cs:15-21 | a missing path, an empty one and any path not starting with '/' are never local-only |
| ModHeaders.V4Local | Engine/Middlewares/ModHeaders.cs:32-39 | an IPv4 address is local iff it lies in 127/8, 10/8, 172.16/12 or 192.168/16 (loopback plus section 3 of RFC 1918), stated in CIDR block terms |
| ModHeaders.V6Local | Engine/Middlewares/ModHeaders.cs:40-46 | an IPv6 address is local iff it is ::1, in fe80::/10 or in fc00::/7 |
| ModHeaders.OtherNotLocal | Engine/Middlewares/ModHeaders.cs:28-48 | a null address or another family is never local |
| ModHeaders.ValueRun | Engine/Middlewares/ModHeaders.cs:55 | the value run is the longest '&'-free prefix |
| ModHeaders.QueryParam | Engine/Middlewares/ModHeaders.cs:55-56 | a found parameter value is non-empty and holds no '&' |
| ModHeaders.QueryParamFirst | Engine/Middlewares/ModHeaders.cs:55-56 | a query starting with `?name=v` yields v |
| ModHeaders.QueryParamAbsent | Engine/Middlewares/ModHeaders.cs:55-56 | a query without `name=` yields nothing |
| ModHeaders.DevKeyOptional | Engine/Middlewares/ModHeaders.cs:52-53 | without a configured developer key every request matches |
| ModHeaders.DevKeyRequired | Engine/Middlewares/ModHeaders.cs:53-56 | with a key configured, only the X-Dev-Key header or the first devkey= query value equal to it matches |
| ModHeaders.ExternalLocalOnlyRefused | Engine/Middlewares/ModHeaders.cs:64-71 | a non-local request to a local-only path is refused with 204 for OPTIONS and 403 otherwise |
| ModHeaders.ApiKeyGate | Engine/Middlewares/ModHeaders.cs:73-88 | with an API key, any other non-local request passes iff its path is exempt or its apikey value equals the key; otherwise 204/401 |
| ModHeaders.LocalGate | Engine/Middlewares/ModHeaders.cs:90-97 | a local request is refused (204/401) iff the path is local-only, a developer key is configured and the request does not carry it |
| ModHeaders.PrivateNetworkHeader | Engine/Middlewares/ModHeaders.cs:73-102 | a passed request lacks the private-network header iff it was forwarded early as an API-key-exempt path |
| ModHeaders.OpenWithoutKeys | Engine/Middlewares/ModHeaders.cs:59-102 | without keys, a request is refused iff it comes from outside to a local-only path |
| RouteMatcher.Source | router/src/utils/route-matcher.js:20-25 | the regex body after the three replaces never starts with '^' (so an anchor is always added) and is at least as long as the pattern |
| RouteMatcher.SourceEndsWithDollar | router/src/utils/route-matcher.js:21-35 | the body ends with '$' exactly when the pattern does, and then no end anchor is added |
| RouteMatcher.TokensOfStarFree | router/src/utils/route-matcher.js:21 | a star-free prefix compiles to one literal per character, metacharacters included |
| RouteMatcher.MatchLits | router/src/utils/route-matcher.js:21 | literal tokens match exactly their own text at the front of the path |
| RouteMatcher.MatchLitsExact | router/src/utils/route-matcher.js:21 | a sequence of literals matches exactly its own text |
| RouteMatcher.MatchAllPatterns | router/src/utils/route-matcher.js:15-17 | an absent or empty pattern, "/*" or "*" matches every path without a line break (`.` excludes line terminators), and only those |
| RouteMatcher.CompileStarFree | router/src/utils/route-matcher.js:19-37 | a non-empty star-free pattern compiles to its literals, end-anchored unless it ends in '$' |
| RouteMatcher.CompileStar | router/src/utils/route-matcher.js:19-37 | literals, then one '/'-free run for the '*', then literals |
| RouteMatcher.CompileDoubleStar | router/src/utils/route-matcher.js:22-25 | `**` compiles to '.' followed by '[^/]*', because the second replace also rewrites the '*' of '.*' |
| RouteMatcher.RunThenLits | router/src/utils/route-matcher.js:25 | '[^/]*' followed by literals b matches exactly the strings m + b with m free of '/' |
| RouteMatcher.DotRunThenLits | router/src/utils/route-matcher.js:23-25 | '.[^/]*' followed by b matches exactly m + b with m one non-line-break character and then a '/'-free run |
| RouteMatcher.LiftPrefix | router/src/utils/route-matcher.js:28-30 | literals put in front of a matcher add their text in front of what it matches |
| RouteMatcher.LiteralPattern | router/src/utils/route-matcher.js:19-37 | a star-free pattern not ending in '$' matches exactly the path equal to it |
| RouteMatcher.DollarPattern | router/src/utils/route-matcher.js:32-35 | a star-free pattern ending in '$' gets no end anchor, so it matches every path that starts with it |
| RouteMatcher.StarPattern | router/src/utils/route-matcher.js:24-25 | `a*b` matches exactly a + m + b with m free of '/' |
| RouteMatcher.DoubleStarPattern | router/src/utils/route-matcher.js:22-25 | `a**b` matches exactly a + m + b with m one character and then a '/'-free run; it does not cross path segments |
| RouteMatcher.DoubleStarStopsAtSlash | router/src/utils/route-matcher.js:9-25 | `/static/**` does not match "/static/css/site.css", contrary to the comment's "any path segments" |
| RouteMatcher.DoubleStarMatchesOneSegment | router/src/utils/route-matcher.js:22-25 | `/static/**` matches "/static/site.css" |
| RouteMatcher.IntendedDoubleStar | router/src/utils/route-matcher.js:9-25 | with the replaces in their intended effect, `**` compiles to one run of any characters but line breaks |
| RouteMatcher.AnyRunThenLits | router/src/utils/route-matcher.js:22-25 | `.*` then b matches exactly m + b for any m without a line break |
| RouteMatcher.IntendedDoubleStarPattern | router/src/utils/route-matcher.js:9-25 | with the intended compiler, `a**b` matches exactly a + m + b for any m without a line break, across '/' |
| RouteMatcher.IntendedDoubleStarCrossesSlash | router/src/utils/route-matcher.js:9-25 | with the intended compiler, `/static/**` matches "/static/css/site.css" |
| RouteMatcher.HostAnyOrExact | router/src/utils/route-matcher.js:90-108 | no route host or '*' takes every host; a plain route host takes exactly the hosts equal to it ignoring case |
| RouteMatcher.WildcardHost | router/src/utils/route-matcher.js:97-103 | '*.d' takes the bare host d and every host ending in '.d', in any letter case, and no other |
| RouteMatcher.QueryGet | router/src/utils/route-matcher.js:53 | `get` is null iff no parameter has the name, else it returns a value of that name |
| RouteMatcher.QueryGetFirst | router/src/utils/route-matcher.js:53 | `get` returns the value of the first parameter of that name |
| RouteMatcher.MatchQueryAll | router/src/utils/route-matcher.js:47-78 | matchQuery holds iff every requirement passes; an empty requirement list passes |
| RouteMatcher.QueryStringRule | router/src/utils/route-matcher.js:54-74 | '*' needs the first value non-empty, another string needs it equal, and an array containing the value passes |
| RouteMatcher.QueryMissingParameter | router/src/utils/route-matcher.js:54-74 | an absent parameter fails '*', every string and every regex, and passes an array only when the array holds null |
| RouteMatcher.FindFrom | router/src/utils/route-matcher.js:92-127 | the search from a position returns the first matching route at or after it, or none when no later route matches |
| RouteMatcher.FindMatchingRoute | router/src/utils/route-matcher.js:88-128 | the result is the first route in table order that passes the host, path and query tests, or null when none does |
| RouteMatcher.ShippedRouteByHost | router/src/config/constants.js:27-91 | with the shipped table, a host equal to route i's host name in any letter case selects route i for every path without a line break and every query |
| RouteMatcher.ShippedRouteNone | router/src/config/constants.js:27-91 | with the shipped table, a missing host or one that is none of the three host names selects no route |
| RouteMatcher.ShippedHostMatches | router/src/config/constants.js:27-91 | a shipped route takes exactly the host whose lower-cased form is its host name |
| RouteMatcher.PlainHostMatches | router/src/utils/route-matcher.js:90-107 | a non-empty lower-case route host that is not a wildcard takes exactly the hosts whose lower-cased form equals it |
| RouteMatcher.StripTrailingSlash | router/src/utils/route-matcher.js:145 | exactly one trailing '/' is removed when present, otherwise the origin is unchanged |
| RouteMatcher.BuildTargetUrl | router/src/utils/route-matcher.js:138-157 | an error with the "has no origin configured" message iff the origin is missing or empty |
| RouteMatcher.TargetUrlJoin | router/src/utils/route-matcher.js:144-157 | without a rewrite, the url is origin + path + search, with the origin's one trailing '/' merged into the path's leading '/' |
| RequestBuilder.HeaderGet | router/src/utils/request-builder.js:108 | a request header is found iff its lower-cased name is stored |
| RequestBuilder.OrTruthy | router/src/utils/request-builder.js:23-32 | `v \|\| d`: the value when it is present and non-empty, else the default |
| RequestBuilder.TemplateAt | router/src/utils/request-builder.js:20 | a template found at the front is `${`, a non-empty name without '}', then '}' |
| RequestBuilder.ResolvePlainChar | router/src/utils/request-builder.js:20 | a first character other than '$' is copied and the scan goes on after it |
| RequestBuilder.ResolveWithoutTemplates | router/src/utils/request-builder.js:14-34 | a value without '$' is returned unchanged |
| RequestBuilder.ResolveLeadingTemplate | router/src/utils/request-builder.js:20-34 | a leading `${name}` is replaced by its substitution and scanning resumes after the '}' |
| RequestBuilder.ResolveSingleTemplate | router/src/utils/request-builder.js:21-33 | CF-Connecting-IP, CF-IPCountry and CF-Ray give the request header or ""; User-Agent gives the header or the default agent; any other absent header keeps the `${name}` text |
| RequestBuilder.ResolveAfterPlain | router/src/utils/request-builder.js:20 | a '$'-free part in front of the value is copied as it is |
| RequestBuilder.ResolveTemplate | router/src/utils/request-builder.js:20-34 | the first template after a '$'-free part is replaced and the rest is resolved after it |
| RequestBuilder.SkipList | router/src/utils/request-builder.js:51 | the names to skip are the route's header names lower-cased, none without route headers |
| RequestBuilder.FilterForward | router/src/utils/request-builder.js:52-54 | a forward name is kept iff its lower-cased form is not among the route's header names |
| RequestBuilder.ForwardRequestHeaders | router/src/utils/request-builder.js:105-113 | the loop's result is the forwarding fold `Forwarded` of the allowed names |
| RequestBuilder.ApplyRouteHeaders | router/src/utils/request-builder.js:58-65 | the loop's result is the route-header fold `RouteApplied` of the entries |
| RequestBuilder.ForwardedAt | router/src/utils/request-builder.js:105-113 | a name ends up set with the request's value iff it is allowed and carried non-empty; every other key keeps what it had |
| RequestBuilder.RouteAppliedAt | router/src/utils/request-builder.js:58-65 | a route key gets its resolved value when that is non-empty; an empty resolution leaves that key as it was |
| RequestBuilder.RouteAppliedNotListed | router/src/utils/request-builder.js:58-65 | a key the route does not name is untouched by the route loop |
| RequestBuilder.RouteHeaderWins | router/src/utils/request-builder.js:57-65 | a route header with a non-empty resolved value reaches the origin with that value, overriding any forwarded one |
| RequestBuilder.ForwardedHeaderPassed | router/src/utils/request-builder.js:50-70 | a forwardable header that the route does not name in any case is passed on with the request's non-empty value, and is absent otherwise |
| RequestBuilder.OverriddenHeaderNotForwarded | router/src/utils/request-builder.js:51-55 | a forwardable header that the route names in another letter case is not forwarded |
| RequestBuilder.UserAgentKeysDiffer | router/src/utils/request-builder.js:67-70 | the default agent goes under the exact key "User-Agent" while the forwarded agent stays under "user-agent", so both are sent |
| RequestBuilder.BodyOf | router/src/utils/request-builder.js:72-87 | a body is attached iff the method is POST, PUT, PATCH or DELETE and the request has one; the read copy is used iff the body is unused and reading succeeds |
| RequestBuilder.TimeoutOf | router/src/utils/request-builder.js:89-93 | the read timeout is attached iff the origin type is "tailscale" or "home-lab" |
| RequestBuilder.MergeHeaders | router/src/utils/request-builder.js:50-70 | the headers are the outgoing-header function of request, route and forward list, and always hold a non-empty "User-Agent" |
| RequestBuilder.BuildFetchOptions | router/src/utils/request-builder.js:44-96 | the method is copied, the headers merged as above with the configured forward list, and the body and timeout are those rules |
| Response.HeaderMap.Set | router/src/utils/response.js:19-21 | `set` stores the value under the lower-cased name |
| Response.GetAfterPut | router/src/utils/response.js:19-21 | `get` after `set` sees the new value under any spelling of the name; other names keep theirs |
| Response.PutOther | router/src/utils/response.js:77 | `set` leaves every other stored key untouched |
| Response.RedirectClass | router/src/utils/response.js:111-113 | the redirect statuses are exactly the 3xx class |
| Response.CopiedOthers | router/src/utils/response.js:74-79 | a key that no origin header folds to keeps the target's value |
| Response.CopiedEntry | router/src/utils/response.js:74-79 | an origin header whose lower-cased name is not excluded is copied with its value; an excluded one leaves the target's value as it was |
| Response.CopyResponseHeaders | router/src/utils/response.js:61-80 | the target becomes the copy fold with the default exclusions followed by the caller's list |
| Response.ApplyCacheHeaders | router/src/utils/response.js:14-52 | the headers become the cache-header function of the old headers and the config |
| Response.CacheDisabled | router/src/utils/response.js:17-23 | a missing or disabled config sets Cache-Control "no-cache, no-store, must-revalidate", Pragma "no-cache" and Expires "0", and keeps every other header |
| Response.DirectiveWithoutComma | router/src/utils/response.js:28-35 | a directive name without a comma followed by a number has no comma |
| Response.PartsWithoutComma | router/src/utils/response.js:26-36 | no directive of an enabled config holds a comma |
| Response.CacheEnabled | router/src/utils/response.js:25-38 | an enabled config sets a Cache-Control value whose ", "-separated directives are exactly the built list, and leaves Pragma alone |
| Response.WithVaryOther | router/src/utils/response.js:41-45 | the Vary step touches no other header |
| Response.WithExpiresOther | router/src/utils/response.js:48-51 | the Expires step touches no other header |
| Response.CacheControlDirectives | router/src/utils/response.js:26-36 | the directives are "public", "max-age=ttl or 0", then stale-while-revalidate and stale-if-error each iff its setting is non-zero |
| Response.VaryMerged | router/src/utils/response.js:40-45 | a non-empty vary list becomes Vary, followed by the existing non-empty Vary value; an empty list leaves Vary alone |
| Response.ExpiresOfTtl | router/src/utils/response.js:47-51 | a non-zero ttl sets Expires to the date ttl seconds ahead, a zero ttl leaves it |
| Response.CreateErrorResponse | router/src/utils/response.js:89-103 | the status is the argument or 500, the body is `{error: true, message, status}`, with the JSON content type and the no-store Cache-Control |
| Response.HandleRedirect | router/src/utils/response.js:122-147 | without a non-empty Location the origin response is returned unchanged; otherwise a body-less response with the same status and the absolute or resolved Location |
| TracksCron.ClampWindows | Engine/Tracks/TracksCron.cs:38-41 | the day window lies in [1,365], the month window in [2,365], the year window in [1,120] months and the updates window in [1,365]; a setting already in range is kept |
| TracksCron.SkippedTasks | Engine/Tracks/TracksCron.cs:25-36 | with tracksOnlyNew only task 1 runs, with tracksmod 1 tasks 3 and 4 never run, and a running iteration has tracks on and at least one server |
| TracksCron.TasksDisjoint | Engine/Tracks/TracksCron.cs:59-84 | tasks 2 and 3 never select the same record, nor do tasks 3 and 4, and a task code outside 1..5 selects nothing |
| TracksCron.TasksCover | Engine/Tracks/TracksCron.cs:64-78 | when the year window reaches further back than the month window, every record older than a day is selected by task 2, 3 or 4, and never by both 2 and 4 |
| TracksCron.MonthOlderOverlap | Engine/Tracks/TracksCron.cs:38-41 | the clamps allow a 365-day month window with a one-month year window, and then a record is selected by both task 2 and task 4 |
| TracksCron.CandidatesMembers | Engine/Tracks/TracksCron.cs:50-104 | a record is collected iff it has a magnet, its task selects it, its types are good, it has no ffprobe, and the task is 1 or it has sid > 0 and was updated within the last 20 days |
| TracksCron.Collect | Engine/Tracks/TracksCron.cs:47-104 | the collection loop over every bucket's records returns the candidates in enumeration order |
| TracksCron.InsertDescPerm | Engine/Tracks/TracksCron.cs:108 | an insertion keeps every record and adds the inserted one |
| TracksCron.InsertDescBound | Engine/Tracks/TracksCron.cs:108 | inserting records below a bound stays below it |
| TracksCron.InsertDescSorted | Engine/Tracks/TracksCron.cs:108 | an insertion into a newest-first list keeps it newest-first |
| TracksCron.SortDescCorrect | Engine/Tracks/TracksCron.cs:108 | the processing order is sorted by descending updateTime and is a permutation of the candidates |
| TracksCron.Steps | Engine/Tracks/TracksCron.cs:108-128 | the loop yields one output record per candidate processed |
| TracksCron.ProcessOne | Engine/Tracks/TracksCron.cs:118-125 | one record is skipped at the retry cap or when its tracks are known, else its try count goes up and its magnet is handed to Add |
| TracksCron.Process | Engine/Tracks/TracksCron.cs:108-128 | the loop processes the records up to the point the time budget of tasks 2 to 4 runs out, and the records after it keep their counts |
| TracksCron.StepsEffect | Engine/Tracks/TracksCron.cs:118-125 | each record's try count goes up by exactly one when it is probed and stays otherwise, and the probed magnets are those of the probed records, in order |
| TracksCron.RetryCap | Engine/Tracks/TracksCron.cs:118-119 | tasks 3 to 5 never probe or count a record with three or more tries |
| TracksCron.ProbedMagnets | Engine/Tracks/TracksCron.cs:121-125 | a magnet is probed only when Get did not know its tracks before, and it is a candidate's magnet |
| TracksCron.KnownGrows | Engine/Tracks/TracksCron.cs:121-125 | the magnets whose tracks are known only grow during the loop |
| TracksCron.RunIteration | Engine/Tracks/TracksCron.cs:22-133 | a skipped iteration probes nothing; otherwise the probed magnets are those of the loop over the newest-first candidates |
| TracksCron.OnceCandidatesMembers | Engine/Tracks/TracksCron.cs:145-155 | RunOnce collects a record iff it has a magnet, was created within the window, has good types, no ffprobe and no cached tracks |
| TracksCron.CollectOnce | Engine/Tracks/TracksCron.cs:144-155 | the collection loop returns exactly those records in enumeration order |
| TracksCron.AddAll | Engine/Tracks/TracksCron.cs:158-165 | every collected magnet is handed to Add, in order |
| TracksCron.RunOnce | Engine/Tracks/TracksCron.cs:137-167 | without tracks or servers nothing is probed; otherwise every candidate is probed once, newest first |
| TracksDb.TheBadMissing | Engine/Tracks/TracksDB.cs:58-67 | a null or empty types array is bad, and an ordinary one is good |
| TracksDb.TheBadIff | Engine/Tracks/TracksDB.cs:58-67 | a non-empty types array is bad iff it contains "sport", "tvshow" or "docuserial" |
| TracksDb.PathDb | Engine/Tracks/TracksDB.cs:48-56 | the file of a hash is "Data/tracks/" + h[0..2] + "/" + h[2] + "/" + h[3..] |
| TracksDb.FileName | Engine/Tracks/TracksDB.cs:30 | `Path.GetFileName` is a '/'-free suffix of the path |
| TracksDb.FileNameOf | Engine/Tracks/TracksDB.cs:30 | the file name of dir + "/" + name is name when name has no '/' |
| TracksDb.PathDbRoundTrip | Engine/Tracks/TracksDB.cs:24-31 | the key the loader rebuilds from the two folders and the file name equals the hash passed to pathDb, for hashes without '/' |
| TracksDb.PathDbInjective | Engine/Tracks/TracksDB.cs:48-56 | different '/'-free hashes are stored in different files |
| TracksDb.TracksStore.Configuration | Engine/Tracks/TracksDB.cs:20-42 | the cache becomes the load fold of the files found, and keeps holding only reports with streams |
| TracksDb.TracksStore.Get | Engine/Tracks/TracksDB.cs:69-92 | bad types give null without a lookup; otherwise the result and the new cache are those of the cached-or-file rule |
| TracksDb.TracksStore.Add | Engine/Tracks/TracksDB.cs:192-420 | the probe result is cached, replacing an older one, iff the types pass, servers are configured, the hash is non-empty and the result has streams |
| TracksDb.LoadedOnlyStreams | Engine/Tracks/TracksDB.cs:34-36 | every loaded entry was already cached or comes from a file whose report has streams |
| TracksDb.LoadedFirstWins | Engine/Tracks/TracksDB.cs:36 | the first file of a key with streams wins, since TryAdd keeps an existing entry |
| TracksDb.LoadedMissing | Engine/Tracks/TracksDB.cs:34-36 | a key without a file holding streams stays as it was |
| TracksDb.GetCached | Engine/Tracks/TracksDB.cs:75-76 | Get on a cached hash returns its non-empty streams and changes nothing |
| TracksDb.GetUncached | Engine/Tracks/TracksDB.cs:78-91 | Get on an uncached hash returns a result iff the file parses to a report with streams, and only then caches it |
| TracksDb.AudioLanguagesIff | Engine/Tracks/TracksDB.cs:570-577 | a language is collected iff it is non-empty and carried by some stream whose codec type is "audio" |
| TracksDb.AddOwn | Engine/Tracks/TracksDB.cs:564-568 | the loop adds exactly the torrent's own languages |
| TracksDb.AddAudio | Engine/Tracks/TracksDB.cs:570-577 | the loop adds exactly the audio languages of the streams |
| TracksDb.Languages | Engine/Tracks/TracksDB.cs:558-585 | the result is the union of the torrent's languages and the audio languages, or null iff that union is empty |
| ParserLog.IndexOfKey | Engine/ParserLog.cs:125-126 | the position of a key in a dictionary is its first occurrence, or -1 when it is absent |
| ParserLog.IndexOfKeyIs | Engine/ParserLog.cs:125-126 | the first position holding a key is the one found |
| ParserLog.Lookup | Engine/ParserLog.cs:125-126 | a lookup fails iff the key is absent |
| ParserLog.Put | Engine/ParserLog.cs:125-126 | the indexer appends a fresh key at the end and overwrites a present one in place, so the key order is kept and keys stay distinct |
| ParserLog.PutLookup | Engine/ParserLog.cs:125-126 | after `d[k] = v` the key k reads v and every other key reads what it read before |
| ParserLog.MergeAllFresh | Engine/ParserLog.cs:123-126 | merging keys absent from the dictionary appends them in their order |
| ParserLog.Merge | Engine/ParserLog.cs:123-126 | the foreach over the torrent keys gives the merge fold `MergeAll` |
| ParserLog.FieldKeys | Engine/ParserLog.cs:16-55 | one key per conditional insert |
| ParserLog.Present | Engine/ParserLog.cs:16-55 | the dictionary of the conditional inserts holds only keys of the table, at most one per insert |
| ParserLog.Fill | Engine/ParserLog.cs:16-55 | the sequence of conditional inserts gives exactly the present fields in table order |
| ParserLog.PresentMeaning | Engine/ParserLog.cs:16-55 | with distinct keys each key's lookup is its field's value, absent when its condition fails |
| ParserLog.Truncate | Engine/ParserLog.cs:21-24 | a value of at most n characters is kept; a longer one becomes its first n characters plus "..." |
| ParserLog.MagnetKey | Engine/ParserLog.cs:32-40 | the logged magnet is the 40 hexadecimal digits after the first "btih:" (any case) that has them, or "yes" iff there is none |
| ParserLog.TorrentFields | Engine/ParserLog.cs:16-55 | the nine keys name, originalname, _sn, _so, magnet, createTime, updateTime, size, types, in insertion order |
| ParserLog.TorrentKeysDistinct | Engine/ParserLog.cs:16-55 | the nine keys are distinct |
| ParserLog.ExtractTorrentKeys | Engine/ParserLog.cs:16-55 | the method's dictionary is the present torrent fields |
| ParserLog.TorrentKeysMeaning | Engine/ParserLog.cs:20-52 | names are logged truncated at 50 when non-blank, the magnet as its hash or "yes", the dates only when not default, the size when non-blank, and types only when non-empty |
| ParserLog.TorrentKeyAt | Engine/ParserLog.cs:20-52 | each logged key carries its field as the logger writes it: truncated names, the magnet hash, non-default dates, a non-blank size, non-empty types |
| ParserLog.TorrentKeysOnly | Engine/ParserLog.cs:16-55 | no key outside the nine is ever emitted |
| ParserLog.Pairs | Engine/ParserLog.cs:91 | one "k=v" text per dictionary entry |
| ParserLog.Line | Engine/ParserLog.cs:88-95 | the line is the message alone iff the data is empty, else the message, " \| " and the "k=v" pairs joined by ", " |
| ParserLog.LineOfOne | Engine/ParserLog.cs:88-92 | one entry gives "message \| k=v" |
| ParserLog.Write | Engine/ParserLog.cs:76-98 | a line is appended iff the tracker's log is enabled; it starts with "[time] message" and ends with a newline |
| ParserLog.PlainWrite | Engine/ParserLog.cs:57-71 | the plain Write appends "[time] message\n" exactly when the structured Write with no data would |
| ParserLog.StatFields | Engine/ParserLog.cs:105-109 | the four counters parsed, processed, updated and failed, in this order |
| ParserLog.StatsData | Engine/ParserLog.cs:105-109 | the counters' dictionary is the present stat fields |
| ParserLog.WriteStats | Engine/ParserLog.cs:103-112 | the stats line is the structured line of that dictionary |
| ParserLog.StatsMeaning | Engine/ParserLog.cs:105-109 | a counter is included iff it is positive, and the dictionary is empty iff no counter is |
| ParserLog.PresentEmpty | Engine/ParserLog.cs:105-109 | no field is present iff every condition fails |
| ParserLog.HeadFields | Engine/ParserLog.cs:119-121 | the head keys action, url, title and reason |
| ParserLog.RecordKeysDistinct | Engine/ParserLog.cs:119-145 | the head keys and the torrent keys are distinct from each other |
| ParserLog.PresentAppend | Engine/ParserLog.cs:119-126 | the present fields of two tables are those of the first, then those of the second |
| ParserLog.HeadDistinct | Engine/ParserLog.cs:119-121 | the head keys are distinct |
| ParserLog.RecordDataIsMerge | Engine/ParserLog.cs:119-126 | the head dictionary merged with the torrent keys is the record's dictionary |
| ParserLog.WriteRecord | Engine/ParserLog.cs:117-186 | a null torrent throws (t.url is read first); a disabled log writes nothing; otherwise the line is "[time] Torrent verb" with the record's data and a newline |
| ParserLog.RecordDataShape | Engine/ParserLog.cs:117-186 | a record's dictionary has distinct keys, starts with action and url, logs the magnet hash, and has a reason iff the record is not an added one and the reason is non-blank |
| ParserLog.RecordDataLookups | Engine/ParserLog.cs:117-186 | a record's dictionary has distinct keys, logs the magnet hash, and has a reason iff the record is not an added one and the reason is non-blank |
| ParserLog.RecordTitle | Engine/ParserLog.cs:120-121 | a record logs a non-blank title cut at 60 characters plus "...", and no title when it is blank |
| TorrserverClient.EncodeChar | Engine/Tracks/TorrserverClient.cs:26 | a character's UTF-8 form has one to four bytes, and one byte iff it is ASCII |
| TorrserverClient.Utf8 | Engine/Tracks/TorrserverClient.cs:26 | a string's UTF-8 form has between one and four bytes per character |
| TorrserverClient.DecodeChar | Engine/Tracks/TorrserverClient.cs:26 | a decoded character consumes one to four bytes of the input |
| TorrserverClient.DecodeEncodeChar | Engine/Tracks/TorrserverClient.cs:26 | the UTF-8 bytes of one character decode back to it with their own length, whatever follows |
| TorrserverClient.Utf8RoundTrip | Engine/Tracks/TorrserverClient.cs:26 | decoding the UTF-8 bytes of any string gives the string back |
| TorrserverClient.Utf8Ascii | Engine/Tracks/TorrserverClient.cs:26 | ASCII text encodes to its own code units, one byte each |
| TorrserverClient.B64Char | Engine/Tracks/TorrserverClient.cs:26 | an alphabet character of section 4 of RFC 4648 is never the pad '=' |
| TorrserverClient.B64Value | Engine/Tracks/TorrserverClient.cs:26 | a valid base64 character stands for a value in [0, 64) |
| TorrserverClient.B64ValueChar | Engine/Tracks/TorrserverClient.cs:26 | the value of the character of i is i |
| TorrserverClient.Base64 | Engine/Tracks/TorrserverClient.cs:26 | `Convert.ToBase64String` yields whole groups of four characters, none exactly for no bytes |
| TorrserverClient.Base64Length | Engine/Tracks/TorrserverClient.cs:26 | n bytes give 4·⌈n/3⌉ characters |
| TorrserverClient.Base64RoundTrip | Engine/Tracks/TorrserverClient.cs:26 | decoding the base64 text of any byte sequence gives the bytes back |
| TorrserverClient.Base64Group | Engine/Tracks/TorrserverClient.cs:26 | a full group of four characters decodes to its three bytes in front of the decoded rest |
| TorrserverClient.AuthHeaders | Engine/Tracks/TorrserverClient.cs:21-28 | null iff both the username and the password are null or empty; otherwise exactly one "Authorization" header starting "Basic " |
| TorrserverClient.AuthHeadersCredentials | Engine/Tracks/TorrserverClient.cs:21-28 | the token after "Basic " decodes (base64, then UTF-8) to user + ":" + pass with null read as "" (section 2 of RFC 7617) |
| TorrserverClient.Utf8Append | Engine/Tracks/TorrserverClient.cs:26 | the UTF-8 bytes of a concatenation are the bytes of its parts, concatenated |
| TorrserverClient.TrimEndSlash | Engine/Tracks/TorrserverClient.cs:35 | `TrimEnd('/')` removes exactly the trailing run of '/' and keeps the rest |
| TorrserverClient.TorrentsUrl | Engine/Tracks/TorrserverClient.cs:33-70 | the endpoint of AddTorrent, GetTorrent and RemTorrent is the base without trailing '/' followed by "/torrents" |
| TorrserverClient.FfpUrl | Engine/Tracks/TorrserverClient.cs:75-79 | the ffprobe url is the trimmed base, "/ffp/", the hash, "/" and the decimal file index |
| TorrserverClient.TrailingSlashIgnored | Engine/Tracks/TorrserverClient.cs:35-77 | a trailing '/' on the base does not change either url |
| TorrserverClient.HasMetadata | Engine/Tracks/TorrserverClient.cs:84-87 | true iff the status and its file list are non-null and the list is non-empty |
| Trackers.PageRange | Controllers/CRON/AnidubController.cs:73-82 | the normalised range starts at page 1 or later and is in order; a non-positive start means 1 and a non-positive end means the start |
| Trackers.PageRangeOfBounds | Controllers/CRON/AnidubController.cs:73-82 | two positive bounds are kept and only swapped when out of order |
| Trackers.PageRangeDefaults | Controllers/CRON/AnidubController.cs:73-82 | without an end only the start page is parsed, and page 1 without a start either |
| Trackers.Pages | Controllers/CRON/AnidubController.cs:96 | the pages walked are lo, lo + 1, ..., hi, one each, and none when lo > hi |
| Trackers.ParseRange | Controllers/CRON/AnidubController.cs:93-116 | the page loop fetches exactly the pages of the range in order, and the totals are the sums of the five per-page counters |
| Trackers.Inc32 | Controllers/CRON/AnidubController.cs:96 | `page++` on a 32-bit int stays in the 32-bit range (it wraps) |
| Trackers.PageLoopWraps | Controllers/CRON/AnidubController.cs:96 | for Parse(1, int.MaxValue) the page after the last one wraps and still passes the loop test (see Findings) |
| Trackers.ParseRangeBounds | Controllers/CRON/AnidubController.cs:73-96 | every fetched page is 1 or more, and page 1 is the only one when neither bound is positive |
| Trackers.Bump | Controllers/CRON/AnilibertyController.cs:326-339 | one outcome raises exactly one of the four counters by one |
| Trackers.BumpTotal | Controllers/CRON/AnilibertyController.cs:326-339 | each outcome adds one to the sum of the counters |
| Aniliberty.ParsePages | Controllers/CRON/AnilibertyController.cs:92-121 | consecutive pages from the start, none past the end; each page after the first is allowed by the last page reported so far; the loop ends on the end page, on the last page or on a page that throws; the totals sum the pages that completed |
| Aniliberty.Parse | Controllers/CRON/AnilibertyController.cs:62-121 | the first page fetched is the start of the normalised range and every page lies in it |
| Aniliberty.NoPageAfterLast | Controllers/CRON/AnilibertyController.cs:115-121 | a page past a positive `last_page` reported by the page before is never requested |
| Aniliberty.BaseTitle | Controllers/CRON/AnilibertyController.cs:218-236 | "name / originalname" when both are non-blank and differ, else the first non-blank one |
| Aniliberty.Title | Controllers/CRON/AnilibertyController.cs:238-244 | exactly the base title, then " / year" when the year is known, then " / quality" when the label has quality groups, in each of the four cases |
| Aniliberty.TitleOfParts | Controllers/CRON/AnilibertyController.cs:238-244 | the joined parts start with the base and equal base + " / " + year + " / " + quality, with a missing part left out |
| Aniliberty.TorrentUrl | Controllers/CRON/AnilibertyController.cs:271-277 | the release page for a non-blank alias, else the API torrent path, always followed by "?hash=" and the hash |
| Aniliberty.DetermineTypes | Controllers/CRON/AnilibertyController.cs:369-395 | ["dorama"] or a list starting with "anime"; a blank type gives ["anime"] |
| Aniliberty.DetermineTypesIgnoresCase | Controllers/CRON/AnilibertyController.cs:374 | the type is compared in upper case, so letter case does not change the result |
| Aniliberty.TypesShown | Controllers/CRON/AnilibertyController.cs:377-393 | a non-blank type value is classified by its upper-case form |
| Aniliberty.DigitRun | Controllers/CRON/AnilibertyController.cs:428 | the leftmost match of `\d{3,4}` is three or four digits |
| Aniliberty.DigitRunNone | Controllers/CRON/AnilibertyController.cs:428 | there is no match iff no three digits follow each other |
| Aniliberty.ParseQuality | Controllers/CRON/AnilibertyController.cs:416-445 | the quality is 2160, 1080, 720, 480 or a number below 480; a blank value gives 480 |
| Aniliberty.StepIdempotent | Controllers/CRON/AnilibertyController.cs:431-440 | normalising a number is a projection that never raises it above itself |
| Aniliberty.ParseQualityOfDigits | Controllers/CRON/AnilibertyController.cs:416-445 | a value without 4K marks whose first digit run is d gives the quality step of d |
| Aniliberty.CloseAfter | Controllers/CRON/AnilibertyController.cs:461 | the first ']' after a position, or the end of the text |
| Aniliberty.FirstGroupsStart | Controllers/CRON/AnilibertyController.cs:461 | the leftmost position from which bracket groups run to the end of the label, and none when there is none |
| Aniliberty.ExtractQualityInfo | Controllers/CRON/AnilibertyController.cs:453-468 | the quality info is "" or starts with '[' and ends with ']'; a blank label gives "" |
| Aniliberty.GroupsEndWithBracket | Controllers/CRON/AnilibertyController.cs:461-464 | a trimmed run of groups starts with '[' and ends with ']' |
| Aniliberty.LastClose | Controllers/CRON/AnilibertyController.cs:461 | a run of groups ends with a ']' followed by white space only |
| Aniliberty.Candidate | Controllers/CRON/AnilibertyController.cs:205-306 | a kept record becomes an "aniliberty" torrent with its magnet, url, types and title; the creation time falls back to now and the update time to the creation time |
| Aniliberty.CollectCandidates | Controllers/CRON/AnilibertyController.cs:197-306 | the record loop with dropped records skipped gives the candidates of the kept records, in order |
| Aniliberty.CandidatesHaveMagnets | Controllers/CRON/AnilibertyController.cs:199-213 | every candidate has a non-blank magnet; there are no more candidates than records, and as many when none is dropped |
| Aniliberty.CandidatesStep | Controllers/CRON/AnilibertyController.cs:197-306 | one more record adds its own candidate when it is kept and nothing otherwise |
| Aniliberty.CollectAsWritten | Controllers/CRON/AnilibertyController.cs:199-203 | as written, the page fails iff some record is dropped; otherwise it gives all candidates (see Findings) |
| Aniliberty.Decide | Controllers/CRON/AnilibertyController.cs:318-344 | an entry with the same magnet (trimmed, case-insensitive) is skipped; any other candidate is written and counted as updated or added; a null cached entry throws |
| Aniliberty.DecideAllCounts | Controllers/CRON/AnilibertyController.cs:318-344 | every candidate is counted exactly once and none as failed |
| AnimeLayer.EnsureHttps | Controllers/CRON/AnimeLayerController.cs:30-44 | a blank host is kept; "http://" in any case becomes "https://"; a host already on "https://" is kept; any other host gains "https://" in front |
| AnimeLayer.EnsureHttpsIdempotent | Controllers/CRON/AnimeLayerController.cs:30-44 | applying it twice is applying it once |
| AnimeLayer.CleanPiece | Controllers/CRON/AnimeLayerController.cs:231-232 | a piece is dropped iff it is blank, and a kept one is trimmed and non-blank |
| AnimeLayer.TrimmedParts | Controllers/CRON/AnimeLayerController.cs:229-232 | the parts of one header are trimmed and non-blank, and no more than its pieces |
| AnimeLayer.SetCookieParts | Controllers/CRON/AnimeLayerController.cs:226-244 | every collected Set-Cookie part is trimmed and non-blank |
| AnimeLayer.LastMatch | Controllers/CRON/AnimeLayerController.cs:266-287 | the value the loop holds for a key is non-empty when there is one |
| AnimeLayer.AssembleCookie | Controllers/CRON/AnimeLayerController.cs:289-294 | a cookie exists iff layer_hash and layer_id are both non-blank; it is exactly "layer_hash=H;layer_id=I", followed by ";PHPSESSID=S" exactly when a session id is present |
| AnimeLayer.LoginCookie | Controllers/CRON/AnimeLayerController.cs:265-294 | the cookie of `TakeLogin` is assembled from the last successful match of each key over all parts |
| AnimeLayer.TakeValue | Controllers/CRON/AnimeLayerController.cs:268-273 | one key test on one part is one step of the last-match fold |
| AnimeLayer.UnmatchedPartKeeps | Controllers/CRON/AnimeLayerController.cs:268-287 | a part without a successful match leaves the value of the key as it was |
| AnimeLayer.PageWithRetry | Controllers/CRON/AnimeLayerController.cs:623-691 | at most two attempts; none without a cached cookie; the first uses the cached cookie; a second happens exactly when the first parsed nothing and a configured cookie or the cookie of a successful re-login is at hand, and uses the configured one first; the result is the last attempt's or zeros |
| AnimeLayer.SuccessNoRetry | Controllers/CRON/AnimeLayerController.cs:635-640 | a page that parses something with the cached cookie is requested once |
| AnimeLayer.WithResolution | Controllers/CRON/AnimeLayerController.cs:797-801 | a 1920x1080 resolution adds " [1080p]", else 1280x720 adds " [720p]", else the title is kept |
| AnimeLayer.YearAt | Controllers/CRON/AnimeLayerController.cs:829 | a year field holds four digits, so the year is below 10000 |
| AnimeLayer.DigitsBound | Controllers/CRON/AnimeLayerController.cs:829 | n digits stand for a number below 10^n |
| AnimeLayer.ReleaseYear | Controllers/CRON/AnimeLayerController.cs:828-830 | a kept row has a year in (0, 10000); a row without any year field has none |
| AnimeLayer.RunEnd | Controllers/CRON/AnimeLayerController.cs:810 | the end of a run of characters other than '/', '[' and '(' |
| AnimeLayer.RunEndIs | Controllers/CRON/AnimeLayerController.cs:810 | any position that ends such a run is the one found |
| AnimeLayer.FirstPiece | Controllers/CRON/AnimeLayerController.cs:833 | the first piece of the split title is no longer than the title |
| AnimeLayer.FirstPieceEnd | Controllers/CRON/AnimeLayerController.cs:833 | the first piece ends at the first '[', '/', '(' or '\|', or at the end |
| AnimeLayer.Names | Controllers/CRON/AnimeLayerController.cs:806-833 | when an original name is found the name is non-blank and trimmed; otherwise the name is the split's first piece |
| AnimeLayer.NamesYearForm | Controllers/CRON/AnimeLayerController.cs:808-815 | "Orig (yyyy) ... / Rus" gives name Rus and original Orig, trimmed, whatever non-empty text without '/' follows the year |
| AnimeLayer.YearFormOf | Controllers/CRON/AnimeLayerController.cs:808 | the year pattern matches such a title at its start, with Orig and Rus as its two groups |
| AnimeLayer.NamesOfYearForm | Controllers/CRON/AnimeLayerController.cs:808-813 | a usable year-pattern match at the front of the title decides both names |
| AnimeLayer.NamesSlashForm | Controllers/CRON/AnimeLayerController.cs:818-824 | "Orig/Rus" without brackets gives name Rus and original Orig, both trimmed |
| AnimeLayer.SlashFormOf | Controllers/CRON/AnimeLayerController.cs:818-824 | "Orig/Rus" with no bracket, slash or bar in either part splits into exactly those parts |
| AnimeLayer.NoParenNoYearForm | Controllers/CRON/AnimeLayerController.cs:809-815 | such a title has no "(year)" form anywhere |
| AnimeLayer.NamesOfSlash | Controllers/CRON/AnimeLayerController.cs:806-833 | without a year form, the slash form with non-blank parts gives the trimmed Rus as name and the trimmed Orig as original name |
| AnimeLayer.RowCreateTime | Controllers/CRON/AnimeLayerController.cs:759-782 | a row needs date text; an unparsable date is replaced by now on page 1 and drops the row elsewhere; a parsed date is kept |
| AnimeLayer.Row | Controllers/CRON/AnimeLayerController.cs:786-853 | a row becomes a torrent iff it has a creation time and passes the link, year and name tests; its url, title with resolution, names, type "anime" and creation time are as parsed, its year is the parsed release year and its seeders are the parsed sid |
| AnimeLayer.Decide | Controllers/CRON/AnimeLayerController.cs:865-904 | an unchanged title is skipped but still written; a new or changed row is counted as added (no entry) or updated only when the download gives magnet and size, else as failed and not written; a null cached entry throws |
| AnimeLayer.Downloaded | Controllers/CRON/AnimeLayerController.cs:879-904 | written iff the download gives both magnet and size, which the torrent then carries; counted once as added, updated or failed |
| Anidub.YearLabelAt | Controllers/CRON/AnidubController.cs:171-175 | the label `<b>Год:</b> <span>`, matched ignoring case and white space, ends inside the page |
| Anidub.LinkedYearAt | Controllers/CRON/AnidubController.cs:171 | the year of the linked pattern is four digits |
| Anidub.PlainYearAt | Controllers/CRON/AnidubController.cs:175 | the year of the plain pattern is four digits |
| Anidub.YearLinkAt | Controllers/CRON/AnidubController.cs:171 | the year inside the link of the linked pattern is four digits |
| Anidub.FirstYear | Controllers/CRON/AnidubController.cs:171-176 | the scan stops at a position where the pattern matches, and finds none only when no position at or after the start matches |
| Anidub.FirstYearIs | Controllers/CRON/AnidubController.cs:171-176 | the scan returns the first position where the pattern matches |
| Anidub.YearOrZero | Controllers/CRON/AnidubController.cs:178-183 | a year counts only when it lies in (1900, currentYear + 1], else 0 |
| Anidub.ExtractRelased | Controllers/CRON/AnidubController.cs:165-184 | a blank page gives 0, and any result is 0 or a year in (1900, currentYear + 1] |
| Anidub.LinkedPatternFirst | Controllers/CRON/AnidubController.cs:171-176 | where the linked pattern matches, its leftmost year decides and the plain pattern is not consulted |
| Anidub.NoLabelNoYear | Controllers/CRON/AnidubController.cs:165-184 | a page without any year label gives 0 |
| Anidub.DateAt | Controllers/CRON/AnidubController.cs:262 | a date match has a day of one or two digits, a two-digit month and a four-digit year |
| Anidub.PadDay | Controllers/CRON/AnidubController.cs:265 | `PadLeft(2, '0')` gives two characters ending in the day, a '0' first for one digit |
| Anidub.DateText | Controllers/CRON/AnidubController.cs:262-268 | the parsed text has the shape dd.MM.yyyy in digits, and there is none iff no d-MM-yyyy date occurs |
| Anidub.DateTextOf | Controllers/CRON/AnidubController.cs:262-268 | for any text whose leftmost date is d-MM-yyyy or dd-MM-yyyy, the parsed text is the day padded to two digits, then "." + MM + "." + yyyy |
| Anidub.DateAtOf | Controllers/CRON/AnidubController.cs:262 | the date pattern matches d-MM-yyyy and dd-MM-yyyy with day, month and year as its groups |
| Anidub.DateTextAt | Controllers/CRON/AnidubController.cs:262-268 | the leftmost date match decides the parsed text, with its day padded |
| Anidub.RowCreateTime | Controllers/CRON/AnidubController.cs:273-278 | a parsed date is kept; without one the row is dropped except on page 1, where it is now |
| Anidub.NavigationRejected | Controllers/CRON/AnidubController.cs:294-298 | a link holding "/user/", "/xfsearch/", "/forum/" or "javascript:" anywhere, or starting with '#', is dropped |
| Anidub.TrimSlashes | Controllers/CRON/AnidubController.cs:301 | `TrimStart('/')` removes exactly the leading run of '/' |
| Anidub.FullUrl | Controllers/CRON/AnidubController.cs:301 | a link starting "http" is kept; any other becomes exactly host + "/" + the link without its leading run of '/' |
| Anidub.UrlTypes | Controllers/CRON/AnidubController.cs:343-354 | "/dorama/" gives ["dorama"]; otherwise the list starts with "anime", first match wins, and it is ["anime"] iff no category path occurs |
| Anidub.MagnetHref | Controllers/CRON/AnidubController.cs:398 | the magnet of a detail page, when found, is non-blank |
| Anidub.SameTitleCheck | Controllers/CRON/AnidubController.cs:391-463 | for a known release with the same title, a detail-page magnet decides: skipped when it equals the cached one (ignoring case) and no new year is known, else updated to that magnet; without one the normal flow follows |
| Anidub.NormalFlow | Controllers/CRON/AnidubController.cs:465-594 | the fallbacks never skip; added only for a new release and updated only for a known one, always with a non-blank magnet; a failure keeps the magnet, keeps the size when there is no page or no download link, and takes the page's "Размер" size (when found) only when the page has a download link |
| Anidub.Resolve | Controllers/CRON/AnidubController.cs:379-594 | added only without an entry, updated only with one, and written with a non-blank magnet; a failed candidate keeps its magnet, and its size too when there is no page or no download link |
| Anidub.Decide | Controllers/CRON/AnidubController.cs:379-594 | a null cached entry throws; otherwise exactly one counter rises, and the candidate is written exactly when it is added or updated; a failed candidate keeps its magnet, and its size too when there is no page or no download link |
| Anidub.UnchangedIsSkipped | Controllers/CRON/AnidubController.cs:384-428 | a known release whose detail page shows the magnet it has, with no new year, is skipped and not written |
| Anidub.SameMagnetSkips | Controllers/CRON/AnidubController.cs:391-428 | the same-title check skips a page showing the cached magnet (ignoring case) when no new year turns up |
| Anidub.ResolveSameTitle | Controllers/CRON/AnidubController.cs:384-428 | a known release under the same title resolves as the same-title check decides, when it decides |
| Anidub.DecideSkipped | Controllers/CRON/AnidubController.cs:379-594 | a skipped resolution counts one skip and is not written |
| Anidub.NothingFetchedFails | Controllers/CRON/AnidubController.cs:465-594 | without a detail page and a usable torrent the candidate is counted as failed and not written |
| Baibako.Cookie | Controllers/CRON/BaibakoController.cs:21-32 | a non-blank configured cookie wins; otherwise the cached login cookie; none iff neither exists |
| Baibako.Assemble | Controllers/CRON/BaibakoController.cs:100-106 | the login cookie is cached iff PHPSESSID, uid and pass are all non-blank, and it is exactly "PHPSESSID=S; uid=U; pass=P" |
| Baibako.LoginCookie | Controllers/CRON/BaibakoController.cs:84-106 | the Set-Cookie loop keeps the last value of each key and assembles the cookie from them |
| Baibako.SessionRoundTrip | Controllers/CRON/BaibakoController.cs:90-102 | the session id can be read back from the assembled cookie |
| Baibako.UidRoundTrip | Controllers/CRON/BaibakoController.cs:90-102 | the user id reads back from the assembled cookie whenever the session id does not itself contain "uid=" |
| Baibako.PassRoundTrip | Controllers/CRON/BaibakoController.cs:90-102 | the password hash reads back from the assembled cookie whenever neither earlier value contains "pass=" |
| Baibako.PageRange | Controllers/CRON/BaibakoController.cs:159-167 | the 0-based range: a negative start is 0, a negative end is the start, and the two are ordered |
| Baibako.PageRangeDefault | Controllers/CRON/BaibakoController.cs:138-160 | with both bounds negative, or with the default bounds (0, 0), only page 0 is parsed |
| Baibako.PageLoopWraps | Controllers/CRON/BaibakoController.cs:182 | for Parse(0, int.MaxValue) the page after the last one wraps and still passes the loop test (see Findings) |
| Baibako.SpacesBefore | Controllers/CRON/BaibakoController.cs:272 | the run of spaces that ends at a position, and no longer |
| Baibako.DropTrailingSlash | Controllers/CRON/BaibakoController.cs:272 | removing the trailing '/' and spaces never lengthens the title |
| Baibako.CleanTitle | Controllers/CRON/BaibakoController.cs:271-272 | the cleaned title is trimmed |
| Baibako.TrailingSlashDropped | Controllers/CRON/BaibakoController.cs:272 | a title ending in '/' and spaces loses them |
| Baibako.QualityKeptWith | Controllers/CRON/BaibakoController.cs:274-276 | a title holding "1080p" or "720p" anywhere passes the quality filter |
| Baibako.CleanTitleDropsSlash | Controllers/CRON/BaibakoController.cs:271-272 | a title without markers that ends in '/' and spaces cleans to the trimmed text before them |
| Baibako.Types | Controllers/CRON/BaibakoController.cs:311-335 | the types are exactly ["serial"] or ["movie"], ["serial"] iff the title looks like a serial |
| Baibako.TypesChanged | Controllers/CRON/BaibakoController.cs:375-399 | the comparison loop, which stops at the first new type missing from the old ones, computes the types-changed test |
| Baibako.TypesDifferReflexive | Controllers/CRON/BaibakoController.cs:375-399 | unchanged types never count as changed |
| Baibako.TypesDifferSingle | Controllers/CRON/BaibakoController.cs:375-399 | for one-type lists a change is exactly a different type |
| Baibako.SameTitle | Controllers/CRON/BaibakoController.cs:372-451 | a known release with the same title is never added; changed types update it without a download; otherwise it is updated only with the magnet and size of a successful download |
| Baibako.NewData | Controllers/CRON/BaibakoController.cs:453-505 | a new or retitled release is never skipped; added only when new, updated only when known, and failed iff the download gives no magnet and size or looks like HTML |
| Baibako.Decide | Controllers/CRON/BaibakoController.cs:367-513 | every path counts exactly one outcome; the candidate is written iff it is added or updated; a null cached entry counts as failed; a write has changed types or extracted data |
| Baibako.UnchangedIsSkipped | Controllers/CRON/BaibakoController.cs:423-434 | same title, types, magnet and size: skipped and not written |
| Baibako.FailedExtractionKeeps | Controllers/CRON/BaibakoController.cs:443-450 | same title and types with a failed download or extraction: skipped, never overwritten |
| Lostfilm.NormalizeQuality | Controllers/CRON/LostfilmController.cs:573-587 | blank input is kept; otherwise the result is trimmed and non-empty, a pixel quality such as "1080P" is lower-cased and "sd" in any case is "SD" |
| Lostfilm.NormalizeTrimmed | Controllers/CRON/LostfilmController.cs:575-586 | a trimmed non-empty quality normalises to a trimmed non-empty one; a pixel quality is lower-cased and "sd" in any case is "SD" |
| Lostfilm.NormalizeTrimmedStable | Controllers/CRON/LostfilmController.cs:575-586 | what normalisation makes of a trimmed quality, it maps to itself |
| Lostfilm.NormalizeFixed | Controllers/CRON/LostfilmController.cs:573-587 | every value normalisation produces is mapped to itself |
| Lostfilm.NormalizeQualityIdempotent | Controllers/CRON/LostfilmController.cs:573-587 | normalising twice is normalising once |
| Lostfilm.InsertQuality | Controllers/CRON/LostfilmController.cs:221-228 | a title ending (after `TrimEnd`) in ']' gets ", q]" in place of its ']'; any other title, or none, gets " [q]" appended |
| Lostfilm.IndexOfIgnoreCase | Controllers/CRON/LostfilmController.cs:599 | a found position holds the marker, ignoring case |
| Lostfilm.FirstSegmentSlash | Controllers/CRON/LostfilmController.cs:611 | the first slash that ends the first segment of the episode format, or none |
| Lostfilm.FirstSegment | Controllers/CRON/LostfilmController.cs:611-617 | group 1 of the episode format is the trimmed text before such a slash, shorter than the title, and there is none without one |
| Lostfilm.CutBeforeParen | Controllers/CRON/LostfilmController.cs:620-622 | the text before the first " (", trimmed; a text without " (" is kept |
| Lostfilm.ShortenTail | Controllers/CRON/LostfilmController.cs:610-626 | an episode-format first segment of 1 to 200 characters is the result; otherwise the result has at most 200 characters or is the trimmed title, and is never empty for a non-blank title |
| Lostfilm.NameBeforeMarker | Controllers/CRON/LostfilmController.cs:599-604 | the text before ". Сериал", cut before " (", is trimmed |
| Lostfilm.ShortenSeriesName | Controllers/CRON/LostfilmController.cs:590-626 | a blank title gives its trim (or ""); otherwise a trimmed, non-empty name of at most 200 characters, or the trimmed title |
| Lostfilm.ShortenTrimmed | Controllers/CRON/LostfilmController.cs:597-626 | the name of a trimmed title is trimmed, non-empty for non-blank input, and at most 200 characters unless it is the trimmed title |
| Lostfilm.ShortenNonBlank | Controllers/CRON/LostfilmController.cs:590-626 | a non-blank title is shortened from its trimmed text |
| Lostfilm.ShortenSerialForm | Controllers/CRON/LostfilmController.cs:599-608 | with ". Сериал", the text before it, cut before " (" when "Название (English)" is given, is the result when 1 to 200 characters remain |
| Lostfilm.ShortenEpisodeForm | Controllers/CRON/LostfilmController.cs:610-617 | without ". Сериал", a title in the episode format is shortened to its first segment |
| Lostfilm.ShortenOtherForm | Controllers/CRON/LostfilmController.cs:619-626 | any other title is cut before " (" when that leaves 1 to 200 characters |
| Lostfilm.MaxAbove | Controllers/CRON/LostfilmController.cs:96-98 | the running maximum is at least its start, bounds every number and is the start or one of them |
| Lostfilm.Pagination | Controllers/CRON/LostfilmController.cs:92-109 | with the first page read, the total is the largest page number seen capped at 100, and maxpage 0 or above the total becomes the total; otherwise the total is 1; maxpage is at least 1 |
| Lostfilm.PaginationBounded | Controllers/CRON/LostfilmController.cs:92-109 | with the first page read, 1 <= pages <= total <= 100, and no page number seen up to 100 exceeds the total |
| Lostfilm.WalkPages | Controllers/CRON/LostfilmController.cs:111-121 | pages 1, 2, ... are walked, at most maxpage of them, and the walk ends early only on a page that signals the stop date |
| Lostfilm.Oldest | Controllers/CRON/LostfilmController.cs:181 | the oldest creation time on a page is one of them and no later than any |
| Lostfilm.NotNewerThan | Controllers/CRON/LostfilmController.cs:186 | the start-date filter keeps exactly the records created no later than the date |
| Lostfilm.PageOutcome | Controllers/CRON/LostfilmController.cs:181-197 | a page signals stop iff a stop date is set and some record on it, before filtering, is that old; then nothing is stored; otherwise the stored records are those the start-date filter keeps |
| Lostfilm.FetchDecision | Controllers/CRON/LostfilmController.cs:211-231 | without a usable cache entry the fetched magnet is taken and counted as added, or the candidate is skipped and counted as having no magnet |
| Lostfilm.Decide | Controllers/CRON/LostfilmController.cs:200-232 | a cached non-empty magnet copies magnet, title and size (keeping the new size when the cached one is missing) and is written; a written candidate has a magnet; exactly one counter rises; a null cached entry throws |
| Lostfilm.CachedNeedsNoFetch | Controllers/CRON/LostfilmController.cs:202-209 | with a cached magnet the fetched page does not matter |
| Lostfilm.MissingMagnetSkips | Controllers/CRON/LostfilmController.cs:211-217 | without a cached magnet the candidate is written iff a magnet was fetched |
| DevController.LocalhostGuard | Controllers/DevController.cs:268-271 | the action runs iff the remote address is "127.0.0.1"; a missing address throws where the guard calls `ToString()` without `?.` and is refused where it uses `?.` |
| DevBuckets.RemoveNullEntries | Controllers/DevController.cs:280-292 | the bucket afterwards holds exactly its non-null entries, and the count removed is the number of null entries |
| DevBuckets.RemoveKeys | Controllers/DevController.cs:288-289 | removing a list of keys leaves the bucket minus exactly the listed keys |
| DevBuckets.DropNullsNoop | Controllers/DevController.cs:286-293 | a bucket without null entries is left as it is |
| DevController.RemoveNullValues | Controllers/DevController.cs:268-301 | the store afterwards, the removed count and the affected-file count are those of the null-dropping run over the master index |
| DevController.RunNullsBuckets | Controllers/DevController.cs:276-295 | every visited bucket loses exactly its null entries and every other bucket is untouched |
| DevController.RunNullsCounts | Controllers/DevController.cs:276-295 | the master index and the moves are unchanged, exactly the buckets with a null entry are marked for saving, `removed` is the sum of their null entries and `affectedFiles` their number |
| DevController.RemoveNullValuesClean | Controllers/DevController.cs:268-301 | afterwards no indexed bucket holds a null entry, every non-null record is where it was, nothing is added, and `affectedFiles` counts the buckets that had a null entry |
| DevRecords.RenamedForSearch | Controllers/DevController.cs:161-166 | after the per-record fix the record has a name and an original name |
| DevRecords.RenamedForSearchFields | Controllers/DevController.cs:161-166 | filled-in names are kept, a blank name becomes the title or "", a blank original name becomes the title or else the name, the search fields are computed from the names, and no other field changes |
| DevRecords.RenamedForSearchIdempotent | Controllers/DevController.cs:161-166 | applying the per-record fix twice gives the same record as once |
| DevBuckets.RepairMoveShape | Controllers/DevController.cs:168-170 | every move lists a non-null record of this bucket, in its fixed form, with the target key computed for it |
| DevBuckets.WalkForRepair | Controllers/DevController.cs:153-171 | the walk fixes every non-null record, lists each null key once, lists each moving record once, and counts the records with each fix flag |
| DevBuckets.VisitForRepair | Controllers/DevController.cs:153-171 | visiting one more entry keeps the walk's invariant: the records seen so far are fixed, listed and counted as above |
| DevBuckets.WalkedCounts | Controllers/DevController.cs:153-171 | a finished walk's lists and counters are exactly the null, moving and flagged records of the bucket |
| DevBuckets.RepairBucket | Controllers/DevController.cs:147-183 | the bucket afterwards is the repaired one (nulls and moved records gone, the rest fixed), the moves are exactly the key changes, and the counters are the sizes of the null and flagged sets |
| DevBuckets.RepairSettled | Controllers/DevController.cs:147-183 | a bucket whose records all stay put and are their own fix is repaired to itself, with no moves and no null entries |
| DevBuckets.MovesForSet | Controllers/DevController.cs:168-170 | the moves listed for the moving urls are distinct and exactly the bucket's key changes |
| DevBuckets.RepairedAfterRemovals | Controllers/DevController.cs:172-178 | the fixed bucket without the null entries and the moved urls is the repaired bucket |
| DevController.PassBucket | Controllers/DevController.cs:147-183 | one bucket of either repair pass yields exactly the pass's outcome for that bucket |
| DevController.RecordOutcome | Controllers/DevController.cs:173-185 | folding one bucket's outcome into the run updates the buckets, master index, move list, save marks and counters as that outcome says |
| DevController.RepairLoop | Controllers/DevController.cs:149-186 | the loop over the master index computes exactly the repair run over that order |
| DevController.RepairLoopStep | Controllers/DevController.cs:149-186 | a run over one more key of the order is the run so far followed by that bucket's outcome |
| DevController.UpdateSearchName | Controllers/DevController.cs:142-189 | the store afterwards is the search-name repair run over the master index |
| DevRecords.FixSearchFields | Controllers/DevController.cs:524-575 | after the fix the record has a name and an original name |
| DevRecords.SearchNameTargetSome | Controllers/DevController.cs:161-170 | UpdateSearchName moves a record only to a new bucket key that is the key of its renamed form |
| DevRecords.SearchNameTargetNone | Controllers/DevController.cs:161-170 | a record UpdateSearchName keeps has a renamed key that is not a new bucket key |
| DevRecords.EmptyFieldsTargetSome | Controllers/DevController.cs:524-575 | FixEmptySearchFields moves a record only when it filled in a search field, and only to the new key of its fixed form |
| DevRecords.FixKeepsFilledFields | Controllers/DevController.cs:524-575 | a non-blank `_sn`, `_so`, name or original name is kept and its flag stays off; no other field changes |
| DevRecords.FixSnFallback | Controllers/DevController.cs:524-536 | a blank `_sn` is taken from the name, else from the title, and stays unfixed when both are blank |
| DevRecords.FixSoFallback | Controllers/DevController.cs:539-556 | a blank `_so` is taken from the original name, else the name, else the title, and stays unfixed when all are blank |
| DevController.FixEmptySearchFields | Controllers/DevController.cs:492-630 | the store and the five counters afterwards are those of the empty-field repair run over the master index |
| DevController.RunRepairBuckets | Controllers/DevController.cs:511-611 | every visited bucket becomes its pass outcome and every other bucket is untouched |
| DevController.RunRepairMaster | Controllers/DevController.cs:592-611 | the master index loses exactly the visited buckets the pass emptied |
| DevController.RunRepairDirty | Controllers/DevController.cs:592-611 | exactly the visited buckets the pass affected are marked for saving |
| DevController.RunRepairMigrations | Controllers/DevController.cs:592-611 | the move list grows by exactly the moves of the visited buckets |
| DevController.RunRepairCounters | Controllers/DevController.cs:577-611 | each counter of the run is the sum over the visited buckets of that bucket's count |
| DevController.PassMovesAreKeyChanges | Controllers/DevController.cs:168-170 | a record is moved only to a new, non-empty key containing ':' that is the key of its fixed form; FixEmptySearchFields moves only records whose `_sn` or `_so` was fixed (line 584) |
| DevController.TargetSome | Controllers/DevController.cs:168-170 | a pass moves a record only to a new bucket key that is the key of its fixed form, and FixEmptySearchFields only when it filled in a search field |
| DevController.UpdateSearchNameSettles | Controllers/DevController.cs:161-170 | a record left in a bucket by UpdateSearchName has both names, search fields computed from them, and a key that would not move it |
| DevController.SearchNamesFixedPoint | Controllers/DevController.cs:161-170 | a record UpdateSearchName keeps is its own fix and would stay put again |
| DevController.UpdateSearchNameIdempotent | Controllers/DevController.cs:147-183 | a second UpdateSearchName over a processed bucket changes nothing and moves nothing |
| DevController.SearchNamesSettled | Controllers/DevController.cs:161-170 | a record UpdateSearchName leaves in a bucket stays put and is its own fix |
| DevController.AllSearchNamesSettled | Controllers/DevController.cs:161-170 | every record UpdateSearchName leaves in a bucket stays put and is its own fix |
| DevController.AnyTrackerRecord | Controllers/DevController.cs:330 | the scan finds a record iff some non-null record has that tracker name, ignoring case |
| DevController.ReportKey | Controllers/DevController.cs:312-340 | a key is reported iff it has the "X:X" shape (with the numeric exclusion) and, with a tracker given, its bucket holds a record of that tracker |
| DevController.FindDuplicateKeys | Controllers/DevController.cs:306-345 | the reported keys are exactly those of the master order that pass the test, in order and without repeats, each with its bucket's size |
| DevController.SelfDuplicateKeyShape | Controllers/DevController.cs:312-323 | for a first part without ':', "p:q" has the shape iff both parts are non-empty, equal ignoring case, and not all digits when numeric keys are excluded |
| DevController.ClearBucket | Controllers/DevController.cs:371-389 | with migration every non-null record is handed over once, renamed, to the new key and the null entries are counted as removed; without it every entry is removed; moved plus removed is the bucket's size |
| DevController.ClearVisit | Controllers/DevController.cs:373-388 | visiting one more entry lists a null one, or any one without migration, for removal, and hands a record over renamed to the new key otherwise |
| DevController.ClearDone | Controllers/DevController.cs:371-389 | after the last entry the hand-overs are distinct and exactly the bucket's migrations, and the removal list has one url per null entry (per entry without migration) |
| DevController.EmptyBucket | Controllers/DevController.cs:365-403 | the bucket is emptied, dropped from the master index and marked for saving; migrated and removed together count its entries, and with migration the hand-overs are recorded under the new key |
| DevController.RemoveBucket | Controllers/DevController.cs:353-415 | a blank key or one without ':' is refused, and so is a key missing from the master index, both leaving the store unchanged; a key with ':' in the master index is always removed: the bucket is emptied, its key leaves the master index, the bucket is marked for saving, and with both names given its records are listed as hand-overs to the new key |
| DevRekeys.ApplyRekeys | Controllers/DevController.cs:708-725 | applying the re-keys in order gives the bucket `ApplyAll` describes |
| DevRekeys.ApplyAllNotTarget | Controllers/DevController.cs:708-725 | a key that no re-key targets is present afterwards iff it was present and no re-key moved it, with its old entry |
| DevRekeys.ApplyAllTarget | Controllers/DevController.cs:708-725 | a key some re-key targets and none moves away holds afterwards that re-key's record with its url set to the key |
| DevRekeys.MagnetHash | Controllers/DevController.cs:673-681 | a hash is found only in a record with a magnet and has 40 characters |
| DevRekeys.AnilibertyPlanSize | Controllers/DevController.cs:692-704 | a valid Aniliberty plan has one re-key per url that needs a hash |
| DevRekeys.WalkClassified | Controllers/DevController.cs:653-705 | the walk lists the already-hashed, hashless and re-keyed urls once each, re-keys each url at most once, and `processed` is the sum of the three counts |
| DevRekeys.WalkAnilibertyCounts | Controllers/DevController.cs:653-705 | the three lists have the sizes of the three url classes, and together they account for every Aniliberty url |
| DevRekeys.AnilibertyPartition | Controllers/DevController.cs:659-705 | the number of Aniliberty urls is the sum of the already-hashed, hashless and re-keyed counts |
| DevRekeys.WalkAniliberty | Controllers/DevController.cs:653-705 | the walk yields a valid plan and counters equal to the sizes of the url classes |
| DevRekeys.MigrateAnilibertyBucket | Controllers/DevController.cs:653-731 | the bucket afterwards is the plan applied, and processed = skipped + errors + updates, each the size of its url class |
| DevRekeys.HashedUrlSkippedNextRun | Controllers/DevController.cs:665-669 | a re-keyed url without '?' is the url plus "?hash=" plus the hash, so the next run skips it |
| DevRekeys.MigrateAnilibertyOutcome | Controllers/DevController.cs:692-725 | with no '?' in the moved urls, every moved url is gone, every new key holds its record with the url set, and every other entry is as it was |
| DevController.AnilibertyBucket | Controllers/DevController.cs:647-733 | one bucket of MigrateAnilibertyUrls applies a valid Aniliberty plan and folds its counts into the run |
| DevController.RunAnilibertyOthers | Controllers/DevController.cs:647-733 | buckets not visited are untouched |
| DevController.RunAnilibertyListed | Controllers/DevController.cs:647-733 | every visited bucket becomes its plan applied |
| DevController.RunAnilibertyIndex | Controllers/DevController.cs:708-731 | the master index and moves are unchanged, and exactly the buckets with a url to re-key are marked for saving |
| DevController.RunAnilibertyUpdated | Controllers/DevController.cs:708-731 | the update count sums the re-keys of the visited buckets |
| DevController.RunAnilibertySums | Controllers/DevController.cs:647-733 | the processed, skipped and error counts are sums of the per-bucket class sizes |
| DevController.AnilibertyLoop | Controllers/DevController.cs:647-733 | the loop computes the run over the master order with a valid plan for each bucket |
| DevController.AnilibertyLoopStep | Controllers/DevController.cs:647-733 | a valid plan for one more bucket extends the run by exactly that bucket's step |
| DevController.MigrateAnilibertyUrls | Controllers/DevController.cs:636-750 | the store and the four counters afterwards are those of the run over the master index with valid per-bucket plans |
| DevDedup.CollectBucket | Controllers/DevController.cs:765-797 | the entries are exactly the bucket's Aniliberty records with a magnet hash, once each, and `processed` counts its Aniliberty records |
| DevController.CollectAniliberty | Controllers/DevController.cs:762-797 | the entries are exactly the hashed Aniliberty records of the listed buckets, once each, and `totalProcessed` sums the per-bucket counts |
| DevDedup.GroupOfMembers | Controllers/DevController.cs:794-797 | a hash's group holds exactly the entries with that hash, without repeats when the entries have none |
| DevDedup.GroupByHash | Controllers/DevController.cs:794-797 | the map has a key for exactly the hashes that occur, each mapped to its group in order |
| DevDedup.OutranksNegativelyTransitive | Controllers/DevController.cs:808-810 | the ranking by newer update time, then smaller url, is a strict weak order: if a outranks c then a outranks b or b outranks c |
| DevDedup.Keeper | Controllers/DevController.cs:802-814 | the kept entry is in the group, no entry of the group outranks it, and it outranks every entry before it |
| DevDedup.OneSurvivorPerHash | Controllers/DevController.cs:802-838 | for each hash exactly one entry survives, the keeper, and a hash with a single entry loses nothing |
| DevDedup.PrunedNothing | Controllers/DevController.cs:828-838 | removing no places changes nothing |
| DevDedup.PrunedStep | Controllers/DevController.cs:828-838 | removing one more entry removes exactly its url from its bucket |
| DevDedup.PlaceDeterminesEntry | Controllers/DevController.cs:828-838 | two entries at the same bucket and url are the same entry |
| DevDedup.RemoveLosers | Controllers/DevController.cs:802-838 | the buckets afterwards lose exactly the places of the losing entries, and `removed` is their number |
| DevDedup.RemoveGroup | Controllers/DevController.cs:802-838 | removing one group's losers adds exactly the group members other than the keeper to the removed set |
| DevDedup.RemoveEntry | Controllers/DevController.cs:828-838 | removing one more entry adds it to the removed set and keeps the store the pruned one |
| DevDedup.PrunedLosers | Controllers/DevController.cs:828-838 | afterwards every collected entry is present iff it did not lose, and every record that was not collected is untouched |
| DevController.RemoveDuplicateAniliberty | Controllers/DevController.cs:752-860 | the store loses exactly the losing entries' places, the losing buckets are marked for saving, and the counters are the processed count and the number of losers |
| DevRekeys.CountAnimelayer | Controllers/DevController.cs:879-905 | processed counts the bucket's AnimeLayer records, errors those whose url has no torrent id, and errors never exceed processed |
| DevController.CountAnimelayerRecords | Controllers/DevController.cs:879-905 | the first pass's totals are sums of the per-bucket counts, with errors at most processed |
| DevRekeys.HttpsTwinIsHttps | Controllers/DevController.cs:933 | the twin of an `http://` url starts with `https://` |
| DevRekeys.AnimelayerPlanSize | Controllers/DevController.cs:933-945 | a valid AnimeLayer plan has one re-key per http url without an https twin |
| DevRekeys.WalkAnimelayer | Controllers/DevController.cs:917-946 | the walk lists, once each, exactly the http urls whose https twin exists, and yields a valid plan for the rest |
| DevRekeys.FixAnimelayerBucket | Controllers/DevController.cs:917-963 | the bucket afterwards is the plan applied to the bucket without the dropped urls |
| DevRekeys.AnimelayerTargetsFresh | Controllers/DevController.cs:933-945 | every new key is absent from the bucket and is not itself moved |
| DevRekeys.FixAnimelayerOutcome | Controllers/DevController.cs:917-963 | afterwards every http AnimeLayer url is gone, every other entry is as it was, and a new key is present iff some re-key targets it, holding that record with the url set |
| DevController.AnimelayerBucket | Controllers/DevController.cs:910-966 | one bucket of the second pass applies a valid AnimeLayer plan and folds its counts into the run |
| DevController.RunAnimelayerOthers | Controllers/DevController.cs:910-966 | buckets not visited are untouched |
| DevController.RunAnimelayerListed | Controllers/DevController.cs:910-966 | every visited bucket becomes its plan applied to the bucket without its dropped urls |
| DevController.RunAnimelayerIndex | Controllers/DevController.cs:952-966 | the master index and moves are unchanged, and exactly the buckets with an http url to drop or move are marked for saving |
| DevController.RunAnimelayerCounts | Controllers/DevController.cs:952-966 | the two counters sum the moves and the drops of the visited buckets |
| DevController.AnimelayerLoop | Controllers/DevController.cs:910-966 | the loop computes the run over the master order with a valid plan for each bucket |
| DevController.AnimelayerLoopStep | Controllers/DevController.cs:910-966 | a valid plan for one more bucket extends the run by exactly that bucket's step |
| DevController.FixAnimelayerDuplicates | Controllers/DevController.cs:865-970 | the first-pass totals are the per-bucket sums, and the store and the fix counters afterwards are those of the second-pass run with valid plans |
| Common.Trim | Controllers/CRON/AnimeLayerController.cs:232 | the trimmed string is no longer than the input and starts and ends with a non-white-space character, if it is not empty |
| Common.TrimEmptyIffBlank | Controllers/CRON/AnimeLayerController.cs:232-233 | trimming gives the empty string exactly when the input is blank |
| Common.TrimIdempotent | Controllers/CRON/BaibakoController.cs:241-243 | trimming a trimmed string changes nothing |
| Common.Split | Controllers/CRON/AnimeLayerController.cs:231 | a split has at least one piece, and a string without the separator is its own only piece |
| Common.SplitJoin | Controllers/CRON/AnimeLayerController.cs:231 | joining the pieces of a split with the separator gives back the string |
| Common.JoinSplit | Controllers/CRON/AnimeLayerController.cs:231 | splitting a join gives back the pieces when no piece holds the separator's first character |
| Common.FindHexAfter | Controllers/DevController.cs:894 | a match is exactly the requested number of hexadecimal digits |
| Common.CookieMatch | Controllers/CRON/AnimeLayerController.cs:268-273 | a matched cookie value is non-empty and holds no ';' |
| Common.Clamp | Engine/Tracks/TracksCron.cs:38-41 | the result lies in the bounds, equals the input when it is in them, and is the nearer bound otherwise |

## Left out

- HTTP requests, file and network I/O, clocks and the ffprobe process are not modelled: clocks and fetched pages are parameters, and a fetch is an oracle value.
- JSON and YAML parsing and rendering, `HttpUtility.HtmlDecode` and the general regular-expression engine are not modelled; each pattern the core uses is written out as its own scanner.
- DevController `UpdateSize` (Controllers/DevController.cs:16-76) is not modelled: it works on floating-point sizes.
- DevController `ResetCheckTime` (Controllers/DevController.cs:78-105), `UpdateDetails` (108-139), `FindCorrupt` (193-265) and `FindEmptySearchFields` (420-490) are not modelled: they are read-only diagnostics or plain field resets outside the repair and re-keying passes.
- Aniliberty `FormatSize` (Controllers/CRON/AnilibertyController.cs:402-411) is not modelled: it formats floating-point sizes.
- TracksDB.Add's probe work, the wipe of the TorrServer list and the writes of track files are not modelled: they are HTTP and file I/O.
- The TorrServer JSON request bodies and HTTP calls are not modelled, and neither are the exceptions `RemTorrent` swallows: they are I/O.
- Anidub's detail page is one oracle value, although the source may fetch it twice.
- Anidub's name and original-name parsing of the title (Controllers/CRON/AnidubController.cs:316-333) is not modelled: it is beside the decisions the model covers.
- Anidub's "Сегодня" and "Вчера" dates come in through the parsed-date parameter rather than through the clock.
- The size and magnet of a bencoded torrent file are oracle fields: bencode decoding is not modelled.
- Baibako's `isSerial` test is an abstract predicate.
- `yearAgo`, the `stopBeforeDate` cut-off and the FileDB stores are parameters or abstract state.
- MagnetLink.Parse is not modelled: the infohash of a magnet is a parameter, so every magnet is taken as well-formed. A malformed magnet makes Parse throw; in RunOnce that aborts the whole run (Engine/Tracks/TracksCron.cs:152 is outside any try), and in Run and in TracksDB.Get and Add (Engine/Tracks/TracksDB.cs:74, :206) it skips the record through the per-record catch (Engine/Tracks/TracksCron.cs:121). Neither path is modelled.
- AnimeLayer.ReleaseYear: the year label is matched case-sensitively, although the source pattern ignores case.
- ParserLog's conditional inserts are one loop over a table of fields, not one `if` per field.
- AnimeLayer's cookie cache across pages is not modelled: each page is given its cookie.
- Dictionary enumeration is taken to follow insertion order.
- White space is ASCII white space plus the no-break space, and case folding covers ASCII and basic Cyrillic only.
- TracksCron.SortDescCorrect: stability of the sort among equal update times is not stated.
- TorrserverClient.Utf8RoundTrip: UTF-8 and base64 are modelled for well-formed Unicode scalars only; lone surrogates are not.
- Aniliberty.BaseTitle: the "Unknown" fallback is not stated, because the earlier name filter makes it unreachable.
- DevDedup.Outranks: ties in update time are broken by ordinal order, while `ThenBy(x => x.url)` uses the current culture's comparer.
- DevController.UpdateSearchName, DevController.FixEmptySearchFields and DevController.RemoveBucket: hand-overs to another key (`FileDB.MigrateTorrentToNewKey`, Controllers/DevController.cs:178, 397, 598) are recorded in `migrations`, not applied to the target bucket; FileDB is not part of this model, so "every other bucket is untouched" and the idempotence of UpdateSearchName speak of the buckets before those hand-overs are applied.
- Pages and counters are unbounded integers except in PageLoopWraps, which states the 32-bit wrap-around of `page++`.

## Findings

| source | as written | input that shows it | evidently intended | confidence | as-written member | corrected member |
|---|---|---|---|---|---|---|
| Controllers/CRON/AnilibertyController.cs:199-203 | a record without a name or magnet is logged with `ParserLog.WriteFailed(null, …)`, which dereferences the null torrent, and only the catch of `Parse` (line 143) stops the exception, so one such record ends the whole run, later pages included | a page whose first record has no magnet | skip that record, log it, and keep the rest of the run | not executed | Aniliberty.CollectAsWritten | Aniliberty.CollectCandidates |
| Controllers/CRON/AnidubController.cs:96 | `for (page = start; page <= end; page++)` on an `int`: with `end == int.MaxValue` the increment wraps to `int.MinValue`, which still passes `page <= end`, so the loop never ends (the same loop is at AnimeLayerController.cs:550 and BaibakoController.cs:182) | `parseFrom=1`, `parseTo=2147483647` | stop after the last page | not executed | Trackers.PageLoopWraps | Trackers.ParseRange |
| router/src/utils/route-matcher.js:9-25 | the comment says `**` matches any path segments, but the second replace rewrites the `*` of the `.*` the first produced, so `**` becomes `.[^/]*`: one character, then no '/' | `/static/**` against "/static/css/site.css" | `**` matches across '/' | not executed | RouteMatcher.DoubleStarPattern | RouteMatcher.IntendedDoubleStarPattern |
