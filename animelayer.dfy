/**
 * The AnimeLayer parser: the https form of the host, the login cookie
 * taken from Set-Cookie headers, one page with its single retry after a
 * cookie refresh, the row rules (resolution, release year, names) and
 * the `decide` callback.  The page range and the summed totals are those
 * of `Trackers.PageRange` and `Trackers.ParseRange`.
 */
module AnimeLayer {
  import opened Common
  import opened FileDbModel
  import opened Trackers

  // -----------------------------------------------------------------------
  // Host

  /** `EnsureHttps`: "http://" (any case) becomes "https://", a host without a scheme gains it; blank input is kept. */
  function EnsureHttps(host: string): (r: string)
    ensures IsBlank(host) ==> r == host
    ensures !IsBlank(host) ==> StartsWithIgnoreCase(r, "https://")
    ensures !IsBlank(host) && StartsWithIgnoreCase(host, "http://") ==> r == "https://" + host[7..]
    ensures !IsBlank(host) && StartsWithIgnoreCase(host, "https://") ==> r == host
    ensures !IsBlank(host) && !StartsWithIgnoreCase(host, "http://") && !StartsWithIgnoreCase(host, "https://") ==> r == "https://" + host
  {
    if IsBlank(host) then host
    else if StartsWithIgnoreCase(host, "http://") then
      assert !StartsWithIgnoreCase(host, "https://") by { assert UpperChar(host[4]) == UpperChar(':'); }
      HttpsPrefix(host[7..]);
      "https://" + host[7..]
    else if !StartsWithIgnoreCase(host, "https://") then
      HttpsPrefix(host);
      "https://" + host
    else host
  }

  lemma HttpsPrefix(rest: string)
    ensures StartsWithIgnoreCase("https://" + rest, "https://")
  {
    assert ("https://" + rest)[..8] == "https://";
  }

  /** Making the host https twice is making it https once. */
  lemma EnsureHttpsIdempotent(host: string)
    ensures EnsureHttps(EnsureHttps(host)) == EnsureHttps(host)
  {
    var r := EnsureHttps(host);
    if !IsBlank(host) {
      assert !IsBlank(r) by { assert !IsWs(r[0]) by { assert UpperChar(r[0]) == UpperChar('h'); } }
      assert !StartsWithIgnoreCase(r, "http://") by { assert UpperChar(r[4]) == UpperChar('s'); }
    }
  }

  // -----------------------------------------------------------------------
  // Login cookie

  /** A cookie part as `TakeLogin` keeps it: not empty, with no white space at either end. */
  predicate IsPart(p: string) { p != [] && !IsWs(p[0]) && !IsWs(p[|p| - 1]) }

  /** One piece of a header, trimmed, or nothing when it is blank. */
  function CleanPiece(piece: string): (r: Option<string>)
    ensures r.Some? ==> IsPart(r.value)
    ensures r.None? <==> IsBlank(piece)
  {
    var p := Trim(piece);
    TrimEmptyIffBlank(piece);
    if p == [] then None else Some(p)
  }

  /** The trimmed, non-blank pieces of one Set-Cookie header split on ", ". */
  function TrimmedParts(pieces: seq<string>): (r: seq<string>)
    ensures forall i :: 0 <= i < |r| ==> IsPart(r[i])
    ensures |r| <= |pieces|
    decreases |pieces|
  {
    if pieces == [] then []
    else
      var rest := TrimmedParts(pieces[1..]);
      var p := CleanPiece(pieces[0]);
      if p.None? then rest
      else
        PartsAppend([p.value], rest);
        [p.value] + rest
  }

  /** All cookie parts of the Set-Cookie headers, in order. */
  function SetCookieParts(headers: seq<string>): (r: seq<string>)
    ensures forall i :: 0 <= i < |r| ==> IsPart(r[i])
    decreases |headers|
  {
    if headers == [] then []
    else
      var head := TrimmedParts(Split(headers[0], ", "));
      var rest := SetCookieParts(headers[1..]);
      PartsAppend(head, rest);
      head + rest
  }

  lemma PartsAppend(a: seq<string>, b: seq<string>)
    requires forall i :: 0 <= i < |a| ==> IsPart(a[i])
    requires forall i :: 0 <= i < |b| ==> IsPart(b[i])
    ensures forall i :: 0 <= i < |a + b| ==> IsPart((a + b)[i])
  {
    forall i | 0 <= i < |a + b| ensures IsPart((a + b)[i]) {
      if i >= |a| { assert (a + b)[i] == b[i - |a|]; }
    }
  }

  /** One part of the loop: a successful match for `key` replaces the value held so far. */
  function Step(v: Option<string>, part: string, key: string): Option<string> {
    var m := CookieMatch(part, key);
    if Contains(part, key) && m.Some? then m else v
  }

  /** The value the cookie loop holds for `key` after `parts`: the last successful match; earlier ones survive a failed one. */
  function LastMatch(parts: seq<string>, key: string): (r: Option<string>)
    ensures r.Some? ==> r.value != []
    decreases |parts|
  {
    if parts == [] then None
    else Step(LastMatch(parts[..|parts| - 1], key), parts[|parts| - 1], key)
  }

  /** The cached cookie: hash and id are required, the session id is appended when present. */
  function AssembleCookie(layerHash: Option<string>, layerId: Option<string>, phpsessid: Option<string>): (r: Option<string>)
    ensures r.Some? <==> !IsBlankOpt(layerHash) && !IsBlankOpt(layerId)
    ensures r.Some? ==> StartsWith(r.value, "layer_hash=" + layerHash.value + ";layer_id=" + layerId.value)
    ensures r.Some? && IsBlankOpt(phpsessid) ==> r.value == "layer_hash=" + layerHash.value + ";layer_id=" + layerId.value
    ensures r.Some? && !IsBlankOpt(phpsessid) ==> EndsWith(r.value, ";PHPSESSID=" + phpsessid.value)
    ensures r.Some? && !IsBlankOpt(phpsessid) ==>
      r.value == "layer_hash=" + layerHash.value + ";layer_id=" + layerId.value + ";PHPSESSID=" + phpsessid.value
  {
    if IsBlankOpt(layerHash) || IsBlankOpt(layerId) then None
    else
      var base := "layer_hash=" + layerHash.value + ";layer_id=" + layerId.value;
      if IsBlankOpt(phpsessid) then Some(base)
      else
        var r := base + ";PHPSESSID=" + phpsessid.value;
        assert r[..|base|] == base;
        assert r[|r| - |";PHPSESSID=" + phpsessid.value|..] == ";PHPSESSID=" + phpsessid.value;
        Some(r)
  }

  /** The cookie loop of `TakeLogin` over the parts of the Set-Cookie headers. */
  method LoginCookie(headers: seq<string>) returns (cookie: Option<string>)
    ensures var parts := SetCookieParts(headers);
      cookie == AssembleCookie(LastMatch(parts, "layer_hash="), LastMatch(parts, "layer_id="), LastMatch(parts, "PHPSESSID="))
  {
    var parts := SetCookieParts(headers);
    var layerHash: Option<string> := None;
    var layerId: Option<string> := None;
    var phpsessid: Option<string> := None;
    for i := 0 to |parts|
      invariant Held(parts, i, layerHash, layerId, phpsessid)
    {
      var line := parts[i];
      HeldStep(parts, i, layerHash, layerId, phpsessid);
      layerHash := TakeValue(layerHash, line, "layer_hash=");
      layerId := TakeValue(layerId, line, "layer_id=");
      phpsessid := TakeValue(phpsessid, line, "PHPSESSID=");
    }
    HeldDone(parts, layerHash, layerId, phpsessid);
    cookie := AssembleCookie(layerHash, layerId, phpsessid);
  }

  /** The three values the cookie loop holds after the first `i` parts. */
  ghost predicate Held(parts: seq<string>, i: nat, layerHash: Option<string>, layerId: Option<string>, phpsessid: Option<string>) {
    i <= |parts| &&
    layerHash == LastMatch(parts[..i], "layer_hash=") &&
    layerId == LastMatch(parts[..i], "layer_id=") &&
    phpsessid == LastMatch(parts[..i], "PHPSESSID=")
  }

  lemma HeldStep(parts: seq<string>, i: nat, layerHash: Option<string>, layerId: Option<string>, phpsessid: Option<string>)
    requires i < |parts| && Held(parts, i, layerHash, layerId, phpsessid)
    ensures Held(parts, i + 1, Step(layerHash, parts[i], "layer_hash="), Step(layerId, parts[i], "layer_id="),
                 Step(phpsessid, parts[i], "PHPSESSID="))
  {
    LastMatchSnoc(parts, i, "layer_hash=");
    LastMatchSnoc(parts, i, "layer_id=");
    LastMatchSnoc(parts, i, "PHPSESSID=");
  }

  lemma HeldDone(parts: seq<string>, layerHash: Option<string>, layerId: Option<string>, phpsessid: Option<string>)
    requires Held(parts, |parts|, layerHash, layerId, phpsessid)
    ensures layerHash == LastMatch(parts, "layer_hash=") && layerId == LastMatch(parts, "layer_id=") &&
            phpsessid == LastMatch(parts, "PHPSESSID=")
  {
    assert parts[..|parts|] == parts;
  }

  lemma LastMatchSnoc(parts: seq<string>, i: nat, key: string)
    requires i < |parts|
    ensures LastMatch(parts[..i + 1], key) == Step(LastMatch(parts[..i], key), parts[i], key)
  {
    assert parts[..i + 1][..i] == parts[..i];
  }

  /** `if (line.Contains(key)) { var m = Regex.Match(...); if (m.Success) value = ...; }` */
  method TakeValue(v: Option<string>, line: string, key: string) returns (r: Option<string>)
    ensures r == Step(v, line, key)
  {
    r := v;
    if Contains(line, key) {
      var m := CookieMatch(line, key);
      if m.Some? {
        r := m;
      }
    }
  }

  /** A part without a successful match leaves every value as it was. */
  lemma UnmatchedPartKeeps(parts: seq<string>, part: string, key: string)
    requires CookieMatch(part, key).None?
    ensures LastMatch(parts + [part], key) == LastMatch(parts, key)
  {
    assert (parts + [part])[..|parts|] == parts;
  }

  // -----------------------------------------------------------------------
  // One page with its retry

  /** What refreshing the cookie by logging in again gives. */
  datatype Relogin = NoCredentials | LoginFailed | LoggedIn(cookie: Option<string>)

  /**
   * `ParsePageWithRetry`: the page is parsed with the cached cookie; a
   * result with nothing parsed is retried once with the configured cookie,
   * else with the cookie of a fresh login.  Returns the counters and the
   * cookies the page was requested with.
   */
  function PageWithRetry(cached: Option<string>, configured: Option<string>, relogin: Relogin, parse: string -> PageStats): (r: (PageStats, seq<string>))
    ensures |r.1| <= 2
    ensures IsBlankOpt(cached) <==> r.1 == []
    ensures |r.1| >= 1 ==> r.1[0] == cached.value
    ensures |r.1| == 2 ==> parse(r.1[0]).parsed <= 0 && !IsBlank(r.1[1])
    ensures |r.1| == 2 <==>
      !IsBlankOpt(cached) && parse(cached.value).parsed <= 0 &&
      (!IsBlankOpt(configured) || (relogin.LoggedIn? && !IsBlankOpt(relogin.cookie)))
    ensures |r.1| == 2 && !IsBlankOpt(configured) ==> r.1[1] == configured.value
    ensures |r.1| == 2 && IsBlankOpt(configured) ==> relogin.LoggedIn? && relogin.cookie == Some(r.1[1])
    ensures r.0 == (if |r.1| == 2 then parse(r.1[1]) else if |r.1| == 1 && parse(r.1[0]).parsed > 0 then parse(r.1[0]) else NoStats)
  {
    if IsBlankOpt(cached) then (NoStats, [])
    else
      var first := parse(cached.value);
      if first.parsed > 0 then (first, [cached.value])
      else
        var newCookie :=
          if !IsBlankOpt(configured) then configured
          else if relogin.LoggedIn? then relogin.cookie
          else None;
        if !IsBlankOpt(newCookie) then (parse(newCookie.value), [cached.value, newCookie.value])
        else (NoStats, [cached.value])
  }

  /** A page that parses something is requested once. */
  lemma SuccessNoRetry(cached: string, configured: Option<string>, relogin: Relogin, parse: string -> PageStats)
    requires !IsBlank(cached) && parse(cached).parsed > 0
    ensures PageWithRetry(Some(cached), configured, relogin, parse) == (parse(cached), [cached])
  {
  }

  // -----------------------------------------------------------------------
  // Rows

  /** `Разрешение: ?</strong>` followed by the resolution. */
  predicate HasResolution(row: string, resolution: string) {
    Contains(row, "Разрешение:</strong>" + resolution) || Contains(row, "Разрешение: </strong>" + resolution)
  }

  /** "1920x1080" adds " [1080p]" to the title, else "1280x720" adds " [720p]". */
  function WithResolution(title: string, row: string): (r: string)
    ensures HasResolution(row, "1920x1080") ==> r == title + " [1080p]"
    ensures !HasResolution(row, "1920x1080") && HasResolution(row, "1280x720") ==> r == title + " [720p]"
    ensures !HasResolution(row, "1920x1080") && !HasResolution(row, "1280x720") ==> r == title
  {
    if HasResolution(row, "1920x1080") then title + " [1080p]"
    else if HasResolution(row, "1280x720") then title + " [720p]"
    else title
  }

  /** `Год выхода: ?</strong>([0-9]{4})` at `k`: the year. */
  function YearAt(row: string, k: nat): (r: Option<nat>)
    ensures r.Some? ==> r.value < 10000
  {
    if !WordAt(row, k, "Год выхода:") then None
    else
      var a := k + 11;
      var b := if a < |row| && row[a] == ' ' then a + 1 else a;
      if WordAt(row, b, "</strong>") && b + 13 <= |row| && AllDigits(row[b + 9..b + 13]) then
        DigitsBound(row[b + 9..b + 13]);
        assert Pow10(4) == 10000;
        Some(DigitsValue(row[b + 9..b + 13]))
      else None
  }

  lemma {:induction false} DigitsBound(s: string)
    requires AllDigits(s)
    ensures DigitsValue(s) < Pow10(|s|)
  {
    if s != [] {
      DigitsBound(s[..|s| - 1]);
    }
  }

  function Pow10(n: nat): nat { if n == 0 then 1 else 10 * Pow10(n - 1) }

  /**
   * The release year of a row, from its leftmost year field; a row
   * without one, or with year 0, is dropped.
   */
  function ReleaseYear(row: string): (r: Option<nat>)
    ensures r.Some? ==> 0 < r.value < 10000
    ensures (forall k :: 0 <= k <= |row| ==> YearAt(row, k).None?) ==> r.None?
  {
    var k := Leftmost((j: nat) => YearAt(row, j), 0, |row| + 1);
    if k.None? then None
    else
      var y := YearAt(row, k.value).value;
      if y == 0 then None else Some(y)
  }

  predicate IsStop(c: char) { c == '/' || c == '[' || c == '(' }

  /** The first position at or after `i` holding '/', '[' or '(', or the end. */
  function RunEnd(s: string, i: nat): (r: nat)
    requires i <= |s|
    ensures i <= r <= |s| && (r == |s| || IsStop(s[r]))
    ensures forall k :: i <= k < r ==> !IsStop(s[k])
    decreases |s| - i
  {
    if i == |s| || IsStop(s[i]) then i else RunEnd(s, i + 1)
  }

  lemma {:induction false} RunEndIs(s: string, i: nat, j: nat)
    requires i <= j <= |s| && (j == |s| || IsStop(s[j]))
    requires forall k :: i <= k < j ==> !IsStop(s[k])
    ensures RunEnd(s, i) == j
    decreases j - i
  {
    if i < j {
      RunEndIs(s, i + 1, j);
    }
  }

  /** `([^/\[\(]+)\([0-9]{4}\)[^/]+/([^/\[\(]+)` at `i`: the original and the Russian part. */
  function YearFormAt(s: string, i: nat): Option<(string, string)> {
    if i >= |s| then None
    else
      var j := RunEnd(s, i);
      if j == i || j + 6 > |s| || s[j] != '(' || !AllDigits(s[j + 1..j + 5]) || s[j + 5] != ')' then None
      else AfterYear(s, i, j)
  }

  /** The part of the year pattern after "Orig(yyyy)", with Orig ending at `j`: `[^/]+/([^/\[\(]+)`. */
  function AfterYear(s: string, i: nat, j: nat): Option<(string, string)>
    requires i <= j && j + 6 <= |s|
  {
    var m := IndexOfChar(s[j + 6..], '/');
    if m < 1 then None
    else
      var g := j + 6 + m + 1;
      var e := RunEnd(s, g);
      if e == g then None else Some((s[i..j], s[g..e]))
  }

  /** `^([^/\[\(]+)/([^/\[\(]+)`: the original and the Russian part. */
  function SlashForm(s: string): Option<(string, string)> {
    var j := RunEnd(s, 0);
    if j == 0 || j == |s| || s[j] != '/' then None
    else
      var e := RunEnd(s, j + 1);
      if e == j + 1 then None else Some((s[..j], s[j + 1..e]))
  }

  /** `Regex.Split(title, "(\[|\/|\(|\|)")[0].Trim()`: the text before the first '[', '/', '(' or '|'. */
  function FirstPiece(s: string): (r: string)
    ensures |r| <= |s|
  {
    var k := FirstPieceEnd(s, 0);
    Trim(s[..k])
  }

  function FirstPieceEnd(s: string, i: nat): (r: nat)
    requires i <= |s|
    ensures i <= r <= |s| && (r == |s| || IsStop(s[r]) || s[r] == '|')
    decreases |s| - i
  {
    if i == |s| || IsStop(s[i]) || s[i] == '|' then i else FirstPieceEnd(s, i + 1)
  }

  predicate UsableForm(m: Option<(string, string)>) {
    m.Some? && !IsBlank(m.value.0) && !IsBlank(m.value.1)
  }

  /**
   * `name` and `originalname` of a title: "Orig (yyyy) ... / Rus" and
   * then "Orig / Rus" give the Russian name and the original; otherwise
   * the name is the text before the first '[', '/', '(' or '|'.
   */
  function Names(title: string): (r: (string, Option<string>))
    ensures r.1.Some? ==> !IsBlank(r.0) && Trim(r.0) == r.0
    ensures r.1.None? ==> r.0 == FirstPiece(title)
  {
    var at := Leftmost((i: nat) => YearFormAt(title, i), 0, |title| + 1);
    var m1 := if at.Some? then YearFormAt(title, at.value) else None;
    var m := if UsableForm(m1) then m1 else SlashForm(title);
    if UsableForm(m) then
      TrimEmptyIffBlank(m.value.1);
      TrimIdempotent(m.value.1);
      (Trim(m.value.1), Some(Trim(m.value.0)))
    else (FirstPiece(title), None)
  }

  /** "Orig / Rus" without brackets gives name Rus and original Orig. */
  lemma NamesSlashForm(o: string, rus: string)
    requires !IsBlank(o) && !IsBlank(rus)
    requires forall k :: 0 <= k < |o| ==> !IsStop(o[k])
    requires forall k :: 0 <= k < |rus| ==> !IsStop(rus[k])
    ensures Names(o + "/" + rus) == (Trim(rus), Some(Trim(o)))
  {
    NoParenNoYearForm(o, rus);
    SlashFormOf(o, rus);
    NamesOfSlash(o + "/" + rus, o, rus);
  }

  /** "Orig (yyyy) ... / Rus" gives name Rus and original Orig, whatever follows the year up to the '/'. */
  lemma NamesYearForm(o: string, y: string, mid: string, rus: string)
    requires !IsBlank(o) && !IsBlank(rus)
    requires forall k :: 0 <= k < |o| ==> !IsStop(o[k])
    requires forall k :: 0 <= k < |rus| ==> !IsStop(rus[k])
    requires |y| == 4 && AllDigits(y)
    requires mid != [] && !HasChar(mid, '/')
    ensures Names(o + "(" + y + ")" + mid + "/" + rus) == (Trim(rus), Some(Trim(o)))
  {
    var s := o + "(" + y + ")" + mid + "/" + rus;
    YearFormOf(o, y, mid, rus);
    NamesOfYearForm(s, o, rus);
  }

  /** A usable year form at the front of the title names the row. */
  lemma NamesOfYearForm(s: string, o: string, rus: string)
    requires YearFormAt(s, 0) == Some((o, rus)) && !IsBlank(o) && !IsBlank(rus)
    ensures Names(s) == (Trim(rus), Some(Trim(o)))
  {
    LeftmostIs((i: nat) => YearFormAt(s, i), 0, |s| + 1, 0);
  }

  /** The year pattern matches "Orig (yyyy) ... / Rus" at its start, with Orig and Rus as the groups. */
  lemma YearFormOf(o: string, y: string, mid: string, rus: string)
    requires o != [] && rus != []
    requires forall k :: 0 <= k < |o| ==> !IsStop(o[k])
    requires forall k :: 0 <= k < |rus| ==> !IsStop(rus[k])
    requires |y| == 4 && AllDigits(y)
    requires mid != [] && !HasChar(mid, '/')
    ensures YearFormAt(o + "(" + y + ")" + mid + "/" + rus, 0) == Some((o, rus))
  {
    YearFormHead(o, y, mid, rus);
    YearFormTail(o + "(" + y + ")", mid, rus);
    YearFormFrom(o + "(" + y + ")" + mid + "/" + rus, |o|, |o| + 6 + |mid| + 1);
  }

  /** The pieces `YearFormAt` inspects, given as facts about positions, decide its match at 0. */
  lemma YearFormFrom(s: string, a: nat, g: nat)
    requires 0 < a && a + 6 <= |s| && RunEnd(s, 0) == a
    requires s[a] == '(' && AllDigits(s[a + 1..a + 5]) && s[a + 5] == ')'
    requires a + 7 < g < |s| && IndexOfChar(s[a + 6..], '/') == g - a - 7 && RunEnd(s, g) == |s|
    ensures YearFormAt(s, 0) == Some((s[..a], s[g..]))
  {
    assert YearFormAt(s, 0) == AfterYear(s, 0, a);
    AfterYearOf(s, a, g);
  }

  lemma AfterYearOf(s: string, a: nat, g: nat)
    requires a + 7 < g < |s| && IndexOfChar(s[a + 6..], '/') == g - a - 7 && RunEnd(s, g) == |s|
    ensures AfterYear(s, 0, a) == Some((s[..a], s[g..]))
  {
    var m := IndexOfChar(s[a + 6..], '/');
    assert a + 6 + m + 1 == g && m >= 1;
    assert AfterYear(s, 0, a) == Some((s[0..a], s[g..|s|]));
    assert s[0..a] == s[..a] && s[g..|s|] == s[g..];
  }

  /** "Orig(yyyy)...": the first run is Orig, followed by the parenthesised year. */
  lemma YearFormHead(o: string, y: string, mid: string, rus: string)
    requires forall k :: 0 <= k < |o| ==> !IsStop(o[k])
    requires |y| == 4
    ensures var s := o + "(" + y + ")" + mid + "/" + rus; RunEnd(s, 0) == |o| && s[..|o|] == o
    ensures var s := o + "(" + y + ")" + mid + "/" + rus; s[|o|] == '(' && s[|o| + 1..|o| + 5] == y && s[|o| + 5] == ')'
  {
    var s := o + "(" + y + ")" + mid + "/" + rus;
    assert forall k :: 0 <= k < |o| ==> s[k] == o[k];
    RunEndIs(s, 0, |o|);
  }

  /** `h + mid + "/" + rus`: the first '/' after `h` follows `mid`, and `rus` runs to the end. */
  lemma YearFormTail(h: string, mid: string, rus: string)
    requires !HasChar(mid, '/') && forall k :: 0 <= k < |rus| ==> !IsStop(rus[k])
    ensures var s := h + mid + "/" + rus; IndexOfChar(s[|h|..], '/') == |mid|
    ensures var s := h + mid + "/" + rus; RunEnd(s, |h| + |mid| + 1) == |s| && s[|h| + |mid| + 1..] == rus
  {
    var s := h + mid + "/" + rus;
    var g := |h| + |mid| + 1;
    assert s[|h|..] == mid + "/" + rus;
    IndexOfCharOfSplit(mid, '/', rus);
    assert forall k :: g <= k < |s| ==> s[k] == rus[k - g];
    RunEndIs(s, g, |s|);
  }

  /** A title with no year form and a usable slash form is named by the slash form. */
  lemma NamesOfSlash(s: string, o: string, rus: string)
    requires forall i: nat :: YearFormAt(s, i).None?
    requires SlashForm(s) == Some((o, rus)) && !IsBlank(o) && !IsBlank(rus)
    ensures Names(s) == (Trim(rus), Some(Trim(o)))
  {
    assert Leftmost((i: nat) => YearFormAt(s, i), 0, |s| + 1).None?;
  }

  /** Without a '(' the year form matches nowhere. */
  lemma NoParenNoYearForm(o: string, rus: string)
    requires forall k :: 0 <= k < |o| ==> !IsStop(o[k])
    requires forall k :: 0 <= k < |rus| ==> !IsStop(rus[k])
    ensures forall i: nat :: YearFormAt(o + "/" + rus, i).None?
  {
    var s := o + "/" + rus;
    forall i: nat ensures YearFormAt(s, i).None? {
      if i < |s| {
        var j := RunEnd(s, i);
        assert forall k :: 0 <= k < |o| ==> s[k] == o[k];
        assert forall k :: |o| < k < |s| ==> s[k] == rus[k - |o| - 1];
      }
    }
  }

  /** "Orig/Rus" with neither part holding a stop character is the slash form. */
  lemma SlashFormOf(o: string, rus: string)
    requires o != [] && rus != []
    requires forall k :: 0 <= k < |o| ==> !IsStop(o[k])
    requires forall k :: 0 <= k < |rus| ==> !IsStop(rus[k])
    ensures SlashForm(o + "/" + rus) == Some((o, rus))
  {
    var s := o + "/" + rus;
    assert forall k :: 0 <= k < |o| ==> s[k] == o[k];
    assert forall k :: |o| < k < |s| ==> s[k] == rus[k - |o| - 1];
    RunEndIs(s, 0, |o|);
    RunEndIs(s, |o| + 1, |s|);
    assert s[..|o|] == o && s[|o| + 1..|s|] == rus;
  }

  /** A row is kept with a link, a title, a release year and a non-blank name. */
  predicate RowKept(urlPath: string, title: string, row: string) {
    !IsBlank(urlPath) && !IsBlank(title) && ReleaseYear(row).Some? && !IsBlank(Names(WithResolution(title, row)).0)
  }

  /**
   * The creation time of a row: `None` when the row has no date text at
   * all, else the parsed time, with an unparsable date (0) replaced by
   * `now` on page 1 and dropping the row on any other page.
   */
  function RowCreateTime(date: Option<int>, page: int, now: int): (r: Option<int>)
    ensures r.Some? <==> date.Some? && (date.value != 0 || page == 1)
    ensures r.Some? && date.value != 0 ==> r.value == date.value
    ensures r.Some? && date.value == 0 ==> r.value == now
  {
    if date.None? then None
    else if date.value != 0 then date
    else if page != 1 then None
    else Some(now)
  }

  /**
   * The torrent one row of the listing becomes, or `None` when the row is
   * skipped.  `urlPath` and `rawTitle` are the groups of the link, `date`
   * the parsed date text and `sid` the seeders.
   */
  function Row(baseHost: string, urlPath: string, rawTitle: string, row: string, date: Option<int>, page: int, now: int, sid: int): (r: Option<Torrent>)
    ensures r.Some? <==> RowCreateTime(date, page, now).Some? && RowKept(urlPath, rawTitle, row)
    ensures r.Some? ==> r.value.url == baseHost + "/" + urlPath + "/"
    ensures r.Some? ==> r.value.title == Some(WithResolution(rawTitle, row))
    ensures r.Some? ==> r.value.trackerName == "animelayer" && r.value.types == Some(["anime"])
    ensures r.Some? ==> r.value.name == Some(Names(WithResolution(rawTitle, row)).0) && !IsBlank(r.value.name.value)
    ensures r.Some? ==> r.value.originalname == Names(WithResolution(rawTitle, row)).1
    ensures r.Some? ==> 0 < r.value.relased < 10000 && r.value.createTime == RowCreateTime(date, page, now).value
    ensures r.Some? ==> r.value.relased == ReleaseYear(row).value && r.value.sid == sid
  {
    var createTime := RowCreateTime(date, page, now);
    if createTime.None? || !RowKept(urlPath, rawTitle, row) then None
    else
      var title := WithResolution(rawTitle, row);
      var names := Names(title);
      Some(Torrent(
        url := baseHost + "/" + urlPath + "/", trackerName := "animelayer",
        title := Some(title), name := Some(names.0), originalname := names.1, sn := "", so := "",
        magnet := None, sizeName := None, types := Some(["anime"]),
        createTime := createTime.value, updateTime := 0, sid := sid,
        relased := ReleaseYear(row).value, quality := 0, hasFfprobe := false, ffprobeTries := 0))
  }

  // -----------------------------------------------------------------------
  // decide

  /**
   * The `decide` callback: an unchanged title is counted as skipped but
   * still returns true; otherwise the downloaded torrent must give both
   * magnet and size.  A null cache entry throws.
   */
  function Decide(existing: Existing, t: Torrent, c: Counters, download: Bencoded): (d: Decision)
    ensures d.Threw? <==> existing == Some(None)
    ensures d.Decided? ==> OneBump(c, d.counters)
    ensures d.Decided? && existing.Some? && existing.value.value.title == t.title ==> d == Decided(true, t, c.(skipped := c.skipped + 1))
    ensures d.Decided? && d.counters.failed > c.failed ==> !d.write && (IsBlankOpt(download.magnet) || IsBlankOpt(download.sizeName))
    ensures d.Decided? && (d.counters.added > c.added || d.counters.updated > c.updated) ==>
      d.write && d.candidate == t.(magnet := download.magnet, sizeName := download.sizeName)
    ensures d.Decided? && d.counters.added > c.added ==> existing.None?
  {
    match existing
    case Some(None) => Threw
    case Some(Some(cached)) =>
      if cached.title == t.title then Decided(true, t, c.(skipped := c.skipped + 1))
      else Downloaded(true, t, c, download)
    case None => Downloaded(false, t, c, download)
  }

  function Downloaded(known: bool, t: Torrent, c: Counters, download: Bencoded): (d: Decision)
    ensures d.Decided? && OneBump(c, d.counters) && d.counters.skipped == c.skipped
    ensures d.write <==> !IsBlankOpt(download.magnet) && !IsBlankOpt(download.sizeName)
    ensures d.write ==> d.candidate == t.(magnet := download.magnet, sizeName := download.sizeName)
    ensures d.write ==> d.counters == (if known then c.(updated := c.updated + 1) else c.(added := c.added + 1))
    ensures !d.write ==> d == Decided(false, t, c.(failed := c.failed + 1))
  {
    if !IsBlankOpt(download.magnet) && !IsBlankOpt(download.sizeName) then
      Decided(true, t.(magnet := download.magnet, sizeName := download.sizeName),
              if known then c.(updated := c.updated + 1) else c.(added := c.added + 1))
    else Decided(false, t, c.(failed := c.failed + 1))
  }
}
