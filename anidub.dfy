/**
 * The Anidub parser: the release-year extraction, the list-page date and
 * link rules, the url-to-types mapping and the `decide` callback with its
 * detail-page and torrent-file fallbacks.  The page loop and its range are
 * those of `Trackers` (see `Trackers.PageRange` and `Trackers.PageLoopWraps`).
 */
module Anidub {
  import opened Common
  import opened FileDbModel
  import opened Trackers

  // -----------------------------------------------------------------------
  // Case-insensitive words

  /** `w` occurs at `i`, ignoring case (`RegexOptions.IgnoreCase`). */
  predicate WordAtIgnoreCase(s: string, i: nat, w: string) {
    i + |w| <= |s| && EqIgnoreCase(s[i..i + |w|], w)
  }

  // -----------------------------------------------------------------------
  // ExtractRelased

  /** `<b>Год:\s*</b>\s*<span>` at `i`: the position after it. */
  function YearLabelAt(s: string, i: nat): (r: Option<nat>)
    ensures r.Some? ==> r.value <= |s|
  {
    if !WordAtIgnoreCase(s, i, "<b>Год:") then None
    else
      var a := SkipWs(s, i + 7);
      if !WordAtIgnoreCase(s, a, "</b>") then None
      else
        var b := SkipWs(s, a + 4);
        if !WordAtIgnoreCase(s, b, "<span>") then None else Some(b + 6)
  }

  /** Four ASCII digits at `y` (`[0-9]{4}`). */
  predicate YearDigitsAt(s: string, y: nat) { y + 4 <= |s| && AllDigits(s[y..y + 4]) }

  /** `<b>Год:\s*</b>\s*<span>\s*<a[^>]*>([0-9]{4})</a>\s*</span>` at `i`: group 1. */
  function LinkedYearAt(s: string, i: nat): (r: Option<string>)
    ensures r.Some? ==> |r.value| == 4 && AllDigits(r.value)
  {
    var tag := YearLabelAt(s, i);
    if tag.None? then None else YearLinkAt(s, SkipWs(s, tag.value))
  }

  /** `<a[^>]*>([0-9]{4})</a>\s*</span>` at `c`: group 1. */
  function YearLinkAt(s: string, c: nat): (r: Option<string>)
    ensures r.Some? ==> |r.value| == 4 && AllDigits(r.value)
  {
    if !WordAtIgnoreCase(s, c, "<a") then None
    else
      var gt := IndexOfChar(s[c + 2..], '>');
      if gt < 0 then None
      else
        var y := c + 2 + gt + 1;
        if YearDigitsAt(s, y) && LinkClosedAt(s, y + 4) then Some(s[y..y + 4]) else None
  }

  /** `</a>\s*</span>` at `e`. */
  predicate LinkClosedAt(s: string, e: nat) {
    WordAtIgnoreCase(s, e, "</a>") && WordAtIgnoreCase(s, SkipWs(s, e + 4), "</span>")
  }

  /** `<b>Год:\s*</b>\s*<span>([0-9]{4})</span>` at `i`: group 1. */
  function PlainYearAt(s: string, i: nat): (r: Option<string>)
    ensures r.Some? ==> |r.value| == 4 && AllDigits(r.value)
  {
    var tag := YearLabelAt(s, i);
    if tag.None? then None
    else
      var y := tag.value;
      if YearDigitsAt(s, y) && WordAtIgnoreCase(s, y + 4, "</span>") then Some(s[y..y + 4]) else None
  }

  /** One of the two patterns at `k`: the linked one or the plain one. */
  function YearPatternAt(html: string, k: nat, linked: bool): Option<string> {
    if linked then LinkedYearAt(html, k) else PlainYearAt(html, k)
  }

  /** The leftmost position from `i` on where the pattern matches. */
  function FirstYear(html: string, i: nat, linked: bool): (r: Option<nat>)
    ensures r.Some? ==> i <= r.value <= |html| && YearPatternAt(html, r.value, linked).Some?
    ensures r.None? ==> forall j :: i <= j <= |html| ==> YearPatternAt(html, j, linked).None?
    decreases |html| + 1 - i
  {
    if i > |html| then None
    else if YearPatternAt(html, i, linked).Some? then Some(i)
    else FirstYear(html, i + 1, linked)
  }

  /** The scan stops at the first match. */
  lemma {:induction false} FirstYearIs(html: string, i: nat, linked: bool, k: nat)
    requires i <= k <= |html| && YearPatternAt(html, k, linked).Some?
    requires forall j :: i <= j < k ==> YearPatternAt(html, j, linked).None?
    ensures FirstYear(html, i, linked) == Some(k)
    decreases k - i
  {
    var here := YearPatternAt(html, i, linked);
    if i < k {
      assert here.None?;
      assert FirstYear(html, i, linked) == FirstYear(html, i + 1, linked);
      FirstYearIs(html, i + 1, linked, k);
    } else {
      assert here.Some?;
    }
  }

  /** The year text of the leftmost match of one of the two patterns, the linked one first. */
  function YearText(html: string): Option<string> {
    var linked := FirstYear(html, 0, true);
    if linked.Some? then LinkedYearAt(html, linked.value)
    else
      var plain := FirstYear(html, 0, false);
      if plain.Some? then PlainYearAt(html, plain.value) else None
  }

  /** A four-digit year counts only when it lies in (1900, currentYear + 1]. */
  function YearOrZero(text: Option<string>, currentYear: int): (r: int)
    requires text.Some? ==> AllDigits(text.value)
    ensures r == 0 || (1900 < r <= currentYear + 1)
  {
    if text.Some? && 1900 < DigitsValue(text.value) <= currentYear + 1 then DigitsValue(text.value) else 0
  }

  /**
   * `ExtractRelased`: the release year of a detail page, 0 when the page
   * is blank, when neither pattern matches, or when the year is not after
   * 1900 or lies beyond next year.
   */
  function ExtractRelased(html: string, currentYear: int): (r: int)
    ensures IsBlank(html) ==> r == 0
    ensures r == 0 || (1900 < r <= currentYear + 1)
  {
    if IsBlank(html) then 0
    else
      var text := YearText(html);
      assert text.Some? ==> AllDigits(text.value);
      YearOrZero(text, currentYear)
  }

  /** The linked pattern takes precedence: where it matches, the plain pattern is never consulted. */
  lemma LinkedPatternFirst(html: string, currentYear: int, k: nat)
    requires !IsBlank(html) && k <= |html|
    requires LinkedYearAt(html, k).Some? && forall j :: 0 <= j < k ==> LinkedYearAt(html, j).None?
    ensures ExtractRelased(html, currentYear) == YearOrZero(LinkedYearAt(html, k), currentYear)
  {
    forall j | 0 <= j < k ensures YearPatternAt(html, j, true).None? {
      assert YearPatternAt(html, j, true) == LinkedYearAt(html, j);
    }
    FirstYearIs(html, 0, true, k);
  }

  /** Without any year label the result is 0. */
  lemma NoLabelNoYear(html: string, currentYear: int)
    requires forall k :: 0 <= k <= |html| ==> YearLabelAt(html, k).None?
    ensures ExtractRelased(html, currentYear) == 0
  {
    forall k | 0 <= k <= |html| ensures YearPatternAt(html, k, true).None? && YearPatternAt(html, k, false).None? {
      assert LinkedYearAt(html, k).None? && PlainYearAt(html, k).None?;
    }
  }

  // -----------------------------------------------------------------------
  // The list page: date, link, types

  /** `-([0-9]{2})-([0-9]{4})` at `j`. */
  predicate MonthYearAt(s: string, j: nat) {
    j + 8 <= |s| && s[j] == '-' && AllDigits(s[j + 1..j + 3]) && s[j + 3] == '-' && AllDigits(s[j + 4..j + 8])
  }

  /** `([0-9]{1,2})-([0-9]{2})-([0-9]{4})` at `i`: the greedy day takes two digits when it can. */
  function DateAt(s: string, i: nat): (r: Option<(string, string, string)>)
    ensures r.Some? ==> (|r.value.0| == 1 || |r.value.0| == 2) && AllDigits(r.value.0)
    ensures r.Some? ==> |r.value.1| == 2 && AllDigits(r.value.1) && |r.value.2| == 4 && AllDigits(r.value.2)
  {
    if i + 1 < |s| && IsDigit(s[i]) && IsDigit(s[i + 1]) && MonthYearAt(s, i + 2) then
      Some((s[i..i + 2], s[i + 3..i + 5], s[i + 6..i + 10]))
    else if i < |s| && IsDigit(s[i]) && MonthYearAt(s, i + 1) then
      Some((s[i..i + 1], s[i + 2..i + 4], s[i + 5..i + 9]))
    else None
  }

  /** `PadLeft(2, '0')` on one or two digits. */
  function PadDay(day: string): (r: string)
    requires |day| == 1 || |day| == 2
    ensures |r| == 2 && r[|r| - |day|..] == day
    ensures |day| == 1 ==> r[0] == '0'
    ensures AllDigits(day) ==> AllDigits(r)
  {
    if |day| == 1 then "0" + day else day
  }

  /** The leftmost "d-MM-yyyy" or "dd-MM-yyyy" in a list-page date, as the "dd.MM.yyyy" text that is parsed. */
  function DateText(dateStr: string): (r: Option<string>)
    ensures r.Some? ==> |r.value| == 10 && r.value[2] == '.' && r.value[5] == '.'
    ensures r.Some? ==> AllDigits(r.value[..2]) && AllDigits(r.value[3..5]) && AllDigits(r.value[6..])
    ensures r.None? <==> forall i :: 0 <= i <= |dateStr| ==> DateAt(dateStr, i).None?
  {
    var f := (i: nat) => DateAt(dateStr, i);
    var at := Leftmost(f, 0, |dateStr| + 1);
    if at.None? then
      assert forall i :: 0 <= i <= |dateStr| ==> f(i) == DateAt(dateStr, i);
      None
    else
      var m := DateAt(dateStr, at.value).value;
      DottedShape(PadDay(m.0), m.1, m.2);
      Some(Dotted(PadDay(m.0), m.1, m.2))
  }

  function Dotted(d: string, m: string, y: string): string { d + "." + m + "." + y }

  lemma DottedShape(d: string, m: string, y: string)
    requires |d| == 2 && |m| == 2 && |y| == 4
    ensures var r := Dotted(d, m, y); |r| == 10 && r[2] == '.' && r[5] == '.' && r[..2] == d && r[3..5] == m && r[6..] == y
  {
  }

  /**
   * A date whose leftmost match starts right after `pre` reads as that
   * match with its day padded to two digits, whatever text follows it.
   */
  lemma DateTextOf(pre: string, d: string, m: string, y: string, post: string)
    requires (|d| == 1 || |d| == 2) && AllDigits(d) && |m| == 2 && AllDigits(m) && |y| == 4 && AllDigits(y)
    requires NoDateBefore(pre + d + "-" + m + "-" + y + post, |pre|)
    ensures DateText(pre + d + "-" + m + "-" + y + post) == Some(PadDay(d) + "." + m + "." + y)
  {
    var s := pre + d + "-" + m + "-" + y + post;
    DateAtOf(pre, d, m, y, post);
    DateTextAt(s, |pre|);
  }

  /** No date match starts before `i`. */
  predicate NoDateBefore(s: string, i: nat) { forall j :: 0 <= j < i ==> DateAt(s, j).None? }

  /** The leftmost date match decides the date text. */
  lemma DateTextAt(s: string, i: nat)
    requires i <= |s| && DateAt(s, i).Some? && NoDateBefore(s, i)
    ensures var g := DateAt(s, i).value; DateText(s) == Some(PadDay(g.0) + "." + g.1 + "." + g.2)
  {
    DateLeftmostAt(s, i);
  }

  lemma DateLeftmostAt(s: string, i: nat)
    requires i <= |s| && DateAt(s, i).Some? && NoDateBefore(s, i)
    ensures Leftmost((j: nat) => DateAt(s, j), 0, |s| + 1) == Some(i)
  {
    LeftmostIs((j: nat) => DateAt(s, j), 0, |s| + 1, i);
  }

  /** `([0-9]{1,2})-([0-9]{2})-([0-9]{4})` matches "d-MM-yyyy" and "dd-MM-yyyy" with those groups. */
  lemma DateAtOf(pre: string, d: string, m: string, y: string, post: string)
    requires (|d| == 1 || |d| == 2) && AllDigits(d) && |m| == 2 && AllDigits(m) && |y| == 4 && AllDigits(y)
    ensures DateAt(pre + d + "-" + m + "-" + y + post, |pre|) == Some((d, m, y))
  {
    var s := pre + d + "-" + m + "-" + y + post;
    var i := |pre|;
    var e := i + |d|;
    assert s[i..e] == d;
    assert s[e] == '-' && s[e + 3] == '-';
    assert s[e + 1..e + 3] == m;
    assert s[e + 4..e + 8] == y;
    assert MonthYearAt(s, e);
    if |d| == 1 {
      assert !IsDigit(s[i + 1]);
    } else {
      assert IsDigit(s[i]) && IsDigit(s[i + 1]);
    }
  }

  /** The creation time of a row: an unparsed date drops the row except on page 1, where it is "now". */
  function RowCreateTime(parsed: int, page: int, now: int): (r: Option<int>)
    ensures parsed != 0 ==> r == Some(parsed)
    ensures parsed == 0 ==> (r.Some? <==> page == 1) && (r.Some? ==> r.value == now)
  {
    if parsed != 0 then Some(parsed) else if page != 1 then None else Some(now)
  }

  /** Links to user pages, searches, the forum, scripts, anchors and anything that is not an ".html" page are skipped. */
  predicate LinkRejected(urlPath: string) {
    Contains(urlPath, "/user/") || Contains(urlPath, "/xfsearch/") || Contains(urlPath, "/forum/") ||
    Contains(urlPath, "javascript:") || StartsWith(urlPath, "#") || !Contains(urlPath, ".html")
  }

  /** A row is kept with a non-blank link that is not rejected and a non-blank title. */
  predicate RowKept(urlPath: string, title: string) {
    !IsBlank(urlPath) && !IsBlank(title) && !LinkRejected(urlPath)
  }

  /** A link holding a navigation word anywhere, or starting with '#', is dropped. */
  lemma NavigationRejected(pre: string, post: string)
    ensures LinkRejected(pre + "/user/" + post) && LinkRejected(pre + "/xfsearch/" + post)
    ensures LinkRejected(pre + "/forum/" + post) && LinkRejected(pre + "javascript:" + post)
    ensures LinkRejected("#" + post)
  {
    WordInside(pre, "/user/", post);
    WordInside(pre, "/xfsearch/", post);
    WordInside(pre, "/forum/", post);
    WordInside(pre, "javascript:", post);
    assert ("#" + post)[..1] == "#";
  }

  /** `TrimStart('/')`. */
  function TrimSlashes(s: string): (r: string)
    ensures |r| <= |s| && r == s[|s| - |r|..]
    ensures r == [] || r[0] != '/'
    ensures forall k :: 0 <= k < |s| - |r| ==> s[k] == '/'
  {
    if s != [] && s[0] == '/' then TrimSlashes(s[1..]) else s
  }

  /** An absolute link is kept; a relative one is joined to the host with exactly one '/'. */
  function FullUrl(host: string, urlPath: string): (r: string)
    ensures StartsWith(urlPath, "http") ==> r == urlPath
    ensures !StartsWith(urlPath, "http") ==>
      StartsWith(r, host + "/") && var rest := r[|host| + 1..]; (rest == [] || rest[0] != '/') && EndsWith(urlPath, rest)
    ensures !StartsWith(urlPath, "http") ==> r == host + "/" + TrimSlashes(urlPath)
  {
    if StartsWith(urlPath, "http") then urlPath
    else
      var rest := TrimSlashes(urlPath);
      var r := host + "/" + rest;
      assert r[..|host + "/"|] == host + "/";
      assert r[|host| + 1..] == rest;
      r
  }

  /** The types of a release from its link, first match wins; "anime" by default. */
  function UrlTypes(urlPath: string): (r: seq<string>)
    ensures Contains(urlPath, "/dorama/") ==> r == ["dorama"]
    ensures !Contains(urlPath, "/dorama/") ==> |r| >= 1 && r[0] == "anime"
    ensures r == ["anime"] <==>
      !Contains(urlPath, "/dorama/") && !Contains(urlPath, "/anime_movie/") && !Contains(urlPath, "/anime-movie/") &&
      !Contains(urlPath, "/anime_ova/") && !Contains(urlPath, "/anime-ova/") &&
      !Contains(urlPath, "/anime_tv/") && !Contains(urlPath, "/anime-tv/")
    ensures r in [["anime"], ["dorama"], ["anime", "movie"], ["anime", "ova"], ["anime", "serial"]]
  {
    if Contains(urlPath, "/dorama/") then ["dorama"]
    else if Contains(urlPath, "/anime_movie/") || Contains(urlPath, "/anime-movie/") then ["anime", "movie"]
    else if Contains(urlPath, "/anime_ova/") || Contains(urlPath, "/anime-ova/") then ["anime", "ova"]
    else if Contains(urlPath, "/anime_tv/") || Contains(urlPath, "/anime-tv/") then ["anime", "serial"]
    else ["anime"]
  }

  // -----------------------------------------------------------------------
  // decide

  /** `href="(magnet:\?[^"]+)"` at `k`: group 1. */
  function MagnetHrefAt(s: string, k: nat): (r: Option<string>)
    ensures r.Some? ==> |r.value| > 8 && (r.value[0] == 'm' || r.value[0] == 'M')
  {
    if !WordAtIgnoreCase(s, k, "href=\"magnet:?") then None
    else
      var q := IndexOfChar(s[k + 14..], '"');
      if q < 1 then None
      else
        assert EqIgnoreCase(s[k..k + 14], "href=\"magnet:?") && s[k + 6] == s[k..k + 14][6];
        Some(s[k + 6..k + 14 + q])
  }

  /** The magnet link of a detail page: the leftmost `href="magnet:?..."`. */
  function MagnetHref(html: string): (r: Option<string>)
    ensures r.Some? ==> !IsBlank(r.value)
  {
    var k := Leftmost((j: nat) => MagnetHrefAt(html, j), 0, |html| + 1);
    if k.None? then None
    else
      var m := MagnetHrefAt(html, k.value).value;
      assert !IsWs(m[0]);
      Some(m)
  }

  /**
   * A fetched detail page: its HTML, the decoded size text of its
   * "Размер" pattern (None when neither size pattern matches) and whether
   * it links to `engine/download.php?id=N`.
   */
  datatype Detail = Detail(html: string, sizeName: Option<string>, hasDownloadLink: bool)

  /**
   * What the network gives for one candidate: the detail page (None when
   * `HttpClient.Get` fails), the torrent at `downloadUri` and the torrent
   * at the page's download link (None when the download fails or is empty).
   */
  datatype Fetch = Fetch(detail: Option<Detail>, direct: Option<Bencoded>, file: Option<Bencoded>)

  /** A torrent file is usable when both its magnet and its size are non-blank. */
  predicate Usable(b: Option<Bencoded>) {
    b.Some? && !IsBlankOpt(b.value.magnet) && !IsBlankOpt(b.value.sizeName)
  }

  function TrimOpt(o: Option<string>): Option<string> {
    if o.Some? then Some(Trim(o.value)) else None
  }

  /** `string.Equals(a, b, OrdinalIgnoreCase)` on nullable strings. */
  predicate EqOptIgnoreCase(a: Option<string>, b: Option<string>) {
    (a.None? && b.None?) || (a.Some? && b.Some? && EqIgnoreCase(a.value, b.value))
  }

  function WithRelased(t: Torrent, relased: int): Torrent {
    if relased > 0 then t.(relased := relased) else t
  }

  function WithSize(t: Torrent, sizeName: Option<string>): Torrent {
    if sizeName.Some? then t.(sizeName := sizeName) else t
  }

  /** The new-or-changed outcome. */
  function Fresh(known: bool): Outcome {
    if known then Updated else Added
  }

  /**
   * The check made for a known release with the same title and a magnet:
   * the detail page's magnet decides between skipping (same magnet, year
   * already known or not found), updating the year, and updating the
   * changed magnet.  `None` when the page or its magnet is missing and the
   * normal flow continues.
   */
  function SameTitleCheck(cached: Torrent, t: Torrent, d: Detail, file: Option<Bencoded>, currentYear: int): (r: Option<(Outcome, Torrent)>)
    requires cached.magnet.Some?
    ensures r.Some? <==> MagnetHref(d.html).Some?
    ensures r.Some? ==> r.value.0 != Added && r.value.0 != Failed
    ensures r.Some? && r.value.0 == Skipped ==> EqIgnoreCase(cached.magnet.value, MagnetHref(d.html).value)
    ensures r.Some? && r.value.0 == Updated ==> r.value.1.magnet == MagnetHref(d.html)
  {
    var relased := ExtractRelased(d.html, currentYear);
    var t1 := WithRelased(t, relased);
    var current := MagnetHref(d.html);
    if current.None? then None
    else
      var same := EqIgnoreCase(cached.magnet.value, current.value);
      if same && cached.relased == 0 && relased > 0 then
        Some((Updated, WithSize(t1.(magnet := current, relased := relased), d.sizeName)))
      else if same then Some((Skipped, t1))
      else
        var t2 := WithSize(t1.(magnet := current), d.sizeName);
        var t3 := if d.hasDownloadLink && file.Some? && !IsBlankOpt(file.value.sizeName) then t2.(sizeName := file.value.sizeName) else t2;
        Some((Updated, t3))
  }

  /**
   * The normal flow: the torrent at `downloadUri` (unless a detail page
   * was already fetched), then the detail page's magnet, then its
   * torrent-file link; a failure otherwise.
   */
  function NormalFlow(known: bool, t: Torrent, f: Fetch, pageFetched: bool, currentYear: int): (r: (Outcome, Torrent))
    ensures r.0 != Skipped
    ensures r.0 == Added ==> !known
    ensures r.0 == Updated ==> known
    ensures r.0 != Failed ==> !IsBlankOpt(r.1.magnet)
    ensures r.0 == Failed ==> r.1.magnet == t.magnet
    ensures r.0 == Failed && (f.detail.None? || !f.detail.value.hasDownloadLink) ==> r.1.sizeName == t.sizeName
    ensures r.0 == Failed && f.detail.Some? && f.detail.value.hasDownloadLink ==>
      r.1.sizeName == (if f.detail.value.sizeName.Some? then f.detail.value.sizeName else t.sizeName)
  {
    if !pageFetched && Usable(f.direct) then
      (Fresh(known), t.(magnet := f.direct.value.magnet, sizeName := f.direct.value.sizeName))
    else if f.detail.None? then (Failed, t)
    else
      var d := f.detail.value;
      var t1 := WithRelased(t, ExtractRelased(d.html, currentYear));
      var m := MagnetHref(d.html);
      if m.Some? then (Fresh(known), WithSize(t1.(magnet := m), d.sizeName))
      // The year is already set on `t1` whenever the page has one, so the
      // second `ExtractRelased` of the torrent-file branch changes nothing.
      else if d.hasDownloadLink && Usable(f.file) then
        (Fresh(known), t1.(magnet := f.file.value.magnet, sizeName := f.file.value.sizeName))
      // The page's size text is read only inside the download-link branch.
      else if d.hasDownloadLink then (Failed, WithSize(t1, d.sizeName))
      else (Failed, t1)
  }

  /** The outcome and the final candidate for a non-null (or missing) cache entry. */
  function Resolve(cached: Option<Torrent>, t: Torrent, f: Fetch, currentYear: int): (r: (Outcome, Torrent))
    ensures r.0 == Added ==> cached.None?
    ensures r.0 == Updated ==> cached.Some?
    ensures r.0 == Skipped ==>
      (cached.Some? && EqOptIgnoreCase(TrimOpt(cached.value.title), TrimOpt(t.title)) && cached.value.magnet.Some? &&
       f.detail.Some? && MagnetHref(f.detail.value.html).Some? &&
       EqIgnoreCase(cached.value.magnet.value, MagnetHref(f.detail.value.html).value))
    ensures (r.0 == Added || r.0 == Updated) ==> !IsBlankOpt(r.1.magnet)
    ensures r.0 == Failed ==> r.1.magnet == t.magnet
    ensures r.0 == Failed && (f.detail.None? || !f.detail.value.hasDownloadLink) ==> r.1.sizeName == t.sizeName
  {
    var check := cached.Some? && EqOptIgnoreCase(TrimOpt(cached.value.title), TrimOpt(t.title)) && !IsBlankOpt(cached.value.magnet);
    if check && f.detail.Some? then
      var same := SameTitleCheck(cached.value, t, f.detail.value, f.file, currentYear);
      if same.Some? then
        assert same.value.0 == Updated ==> !IsBlankOpt(same.value.1.magnet);
        same.value
      else NormalFlow(true, WithRelased(t, ExtractRelased(f.detail.value.html, currentYear)), f, true, currentYear)
    else NormalFlow(cached.Some?, t, f, false, currentYear)
  }

  /**
   * The `decide` callback: it throws on a null cache entry; otherwise it
   * counts exactly one outcome and writes exactly for added and updated.
   */
  function Decide(existing: Existing, t: Torrent, c: Counters, f: Fetch, currentYear: int): (d: Decision)
    ensures d.Threw? <==> existing == Some(None)
    ensures d.Decided? ==> OneBump(c, d.counters)
    ensures d.Decided? ==> (d.write <==> d.counters.added > c.added || d.counters.updated > c.updated)
    ensures d.Decided? && d.counters.added > c.added ==> existing.None?
    ensures d.Decided? && d.counters.updated > c.updated ==> existing.Some?
    ensures d.Decided? && d.write ==> !IsBlankOpt(d.candidate.magnet)
    ensures d.Decided? && d.counters.failed > c.failed ==> d.candidate.magnet == t.magnet
    ensures d.Decided? && d.counters.failed > c.failed && (f.detail.None? || !f.detail.value.hasDownloadLink) ==>
      d.candidate.sizeName == t.sizeName
  {
    match existing
    case Some(None) => Threw
    case Some(Some(cached)) =>
      var r := Resolve(Some(cached), t, f, currentYear);
      Decided(r.0 == Added || r.0 == Updated, r.1, Bump(c, r.0))
    case None =>
      var r := Resolve(None, t, f, currentYear);
      Decided(r.0 == Added || r.0 == Updated, r.1, Bump(c, r.0))
  }

  /** A known release whose detail page shows the magnet it already has, with no new year, is skipped. */
  lemma UnchangedIsSkipped(cached: Torrent, t: Torrent, c: Counters, f: Fetch, currentYear: int)
    requires EqOptIgnoreCase(TrimOpt(cached.title), TrimOpt(t.title)) && !IsBlankOpt(cached.magnet)
    requires f.detail.Some? && MagnetHref(f.detail.value.html).Some?
    requires EqIgnoreCase(cached.magnet.value, MagnetHref(f.detail.value.html).value)
    requires cached.relased != 0 || ExtractRelased(f.detail.value.html, currentYear) == 0
    ensures Decide(Some(Some(cached)), t, c, f, currentYear) == Decided(false, WithRelased(t, ExtractRelased(f.detail.value.html, currentYear)), c.(skipped := c.skipped + 1))
  {
    var d := f.detail.value;
    var x := WithRelased(t, ExtractRelased(d.html, currentYear));
    SameMagnetSkips(cached, t, d, f.file, currentYear);
    ResolveSameTitle(cached, t, f, currentYear, (Skipped, x));
    DecideSkipped(cached, t, c, f, currentYear, x);
  }

  /** A known release under the same title resolves as the same-title check says, when it decides. */
  lemma ResolveSameTitle(cached: Torrent, t: Torrent, f: Fetch, currentYear: int, o: (Outcome, Torrent))
    requires EqOptIgnoreCase(TrimOpt(cached.title), TrimOpt(t.title)) && !IsBlankOpt(cached.magnet) && f.detail.Some?
    requires SameTitleCheck(cached, t, f.detail.value, f.file, currentYear) == Some(o)
    ensures Resolve(Some(cached), t, f, currentYear) == o
  {
  }

  /** A skipped resolution is counted as skipped and not written. */
  lemma DecideSkipped(cached: Torrent, t: Torrent, c: Counters, f: Fetch, currentYear: int, x: Torrent)
    requires Resolve(Some(cached), t, f, currentYear) == (Skipped, x)
    ensures Decide(Some(Some(cached)), t, c, f, currentYear) == Decided(false, x, c.(skipped := c.skipped + 1))
  {
  }

  /** The same-title check skips a page showing the cached magnet when no new year turns up. */
  lemma SameMagnetSkips(cached: Torrent, t: Torrent, d: Detail, file: Option<Bencoded>, currentYear: int)
    requires cached.magnet.Some? && MagnetHref(d.html).Some?
    requires EqIgnoreCase(cached.magnet.value, MagnetHref(d.html).value)
    requires cached.relased != 0 || ExtractRelased(d.html, currentYear) == 0
    ensures SameTitleCheck(cached, t, d, file, currentYear) == Some((Skipped, WithRelased(t, ExtractRelased(d.html, currentYear))))
  {
  }

  /** Without a detail page and without a usable torrent at `downloadUri`, the candidate fails. */
  lemma NothingFetchedFails(existing: Existing, t: Torrent, c: Counters, f: Fetch, currentYear: int)
    requires existing != Some(None) && f.detail.None? && !Usable(f.direct)
    ensures Decide(existing, t, c, f, currentYear) == Decided(false, t, c.(failed := c.failed + 1))
  {
  }
}
