/**
 * The Aniliberty parser: API records become torrent candidates (title,
 * url, types, quality) and a `decide` callback counts each candidate as
 * added, updated or skipped.  The page loop stops at the last page the
 * API reports.
 */
module Aniliberty {
  import opened Common
  import opened FileDbModel
  import opened Trackers

  // -----------------------------------------------------------------------
  // Pages

  /** What `parsePage` returns: its counters and the API's `last_page` (0 when absent), or an escaping exception. */
  datatype PageResult = PageThrew | PageDone(stats: PageStats, lastPage: int)

  /** The `lastPage` variable after the pages `pages`: the latest positive report, initially `int.MaxValue`. */
  function LastPage(pages: seq<int>, fetch: int -> PageResult): int
    decreases |pages|
  {
    if pages == [] then MaxInt32
    else
      var r := fetch(pages[|pages| - 1]);
      if r.PageDone? && r.lastPage > 0 then r.lastPage
      else LastPage(pages[..|pages| - 1], fetch)
  }

  /** Totals of the pages fetched; a page that threw contributes nothing. */
  function Totals(pages: seq<int>, fetch: int -> PageResult): PageStats
    decreases |pages|
  {
    if pages == [] then NoStats
    else
      var r := fetch(pages[|pages| - 1]);
      Plus(Totals(pages[..|pages| - 1], fetch), if r.PageDone? then r.stats else NoStats)
  }

  /** Page `pages[j]` was requested while the last page reported before it allowed it, after a page that did not throw. */
  predicate AllowedAt(pages: seq<int>, fetch: int -> PageResult, j: int)
    requires 0 < j < |pages|
  {
    pages[j] <= LastPage(pages[..j], fetch) && fetch(pages[j - 1]).PageDone?
  }

  predicate AllAllowed(pages: seq<int>, fetch: int -> PageResult) {
    forall j :: 0 < j < |pages| ==> AllowedAt(pages, fetch, j)
  }

  lemma AllowedExtend(pages: seq<int>, fetch: int -> PageResult, page: int)
    requires AllAllowed(pages, fetch)
    requires pages != [] ==> fetch(pages[|pages| - 1]).PageDone? && page <= LastPage(pages, fetch)
    ensures AllAllowed(pages + [page], fetch)
  {
    var ps := pages + [page];
    assert ps[..|pages|] == pages;
    forall j | 0 < j < |ps| ensures AllowedAt(ps, fetch, j) {
      if j < |pages| {
        assert ps[..j] == pages[..j];
        assert AllowedAt(pages, fetch, j);
      }
    }
  }

  /**
   * `Parse`'s page loop from `startPage` to `endPage`: pages are fetched in
   * order; the loop stops after the end page, after a page at or past the
   * last page reported so far, or when a page throws (the exception is
   * caught once, around the whole loop).  It returns the pages fetched.
   */
  method ParsePages(startPage: int, endPage: int, fetch: int -> PageResult) returns (pages: seq<int>, totals: PageStats)
    requires 1 <= startPage <= endPage <= MaxInt32
    ensures pages != [] && forall i :: 0 <= i < |pages| ==> pages[i] == startPage + i
    ensures forall i :: 0 <= i < |pages| ==> pages[i] <= endPage
    ensures AllAllowed(pages, fetch)
    ensures var last := pages[|pages| - 1];
      fetch(last).PageThrew? || last == endPage || last >= LastPage(pages, fetch)
    ensures totals == Totals(pages, fetch)
  {
    pages := [];
    totals := NoStats;
    var lastPage := MaxInt32;
    var page := startPage;
    while page <= endPage && page <= lastPage
      invariant startPage <= page <= endPage + 1
      invariant |pages| == page - startPage && forall i :: 0 <= i < |pages| ==> pages[i] == startPage + i
      invariant lastPage == LastPage(pages, fetch)
      invariant totals == Totals(pages, fetch)
      invariant AllAllowed(pages, fetch)
      invariant pages != [] ==> fetch(pages[|pages| - 1]).PageDone? && pages[|pages| - 1] < lastPage
      decreases endPage - page
    {
      var result := fetch(page);
      AllowedExtend(pages, fetch, page);
      var before := pages;
      pages := pages + [page];
      assert pages[..|before|] == before;
      if result.PageThrew? {
        return;
      }
      totals := Plus(totals, result.stats);
      if result.lastPage > 0 {
        lastPage := result.lastPage;
      }
      if page >= lastPage {
        return;
      }
      page := page + 1;
    }
  }

  /**
   * `Parse(parseFrom, parseTo)`: the normalised range, walked by the page
   * loop; the first page requested is the normalised start.
   */
  method Parse(parseFrom: int, parseTo: int, fetch: int -> PageResult) returns (pages: seq<int>, totals: PageStats)
    requires IsInt32(parseFrom) && IsInt32(parseTo)
    ensures var r := PageRange(parseFrom, parseTo);
      pages != [] && pages[0] == r.0 && (forall i :: 0 <= i < |pages| ==> r.0 <= pages[i] <= r.1)
    ensures AllAllowed(pages, fetch) && totals == Totals(pages, fetch)
  {
    var r := PageRange(parseFrom, parseTo);
    pages, totals := ParsePages(r.0, r.1, fetch);
  }

  /** A page past a positive `last_page` is never requested next. */
  lemma NoPageAfterLast(pages: seq<int>, fetch: int -> PageResult, j: nat)
    requires 0 < j < |pages| && AllAllowed(pages, fetch)
    requires fetch(pages[j - 1]).PageDone? && fetch(pages[j - 1]).lastPage > 0
    ensures pages[j] <= fetch(pages[j - 1]).lastPage
  {
    assert AllowedAt(pages, fetch, j);
    assert pages[..j][j - 1] == pages[j - 1];
  }

  // -----------------------------------------------------------------------
  // API records

  datatype ReleaseName = ReleaseName(main: Option<string>, english: Option<string>)
  datatype Release = Release(name: Option<ReleaseName>, year: Option<int>, typeValue: Option<string>, alias: Option<string>)

  /**
   * One record of the API's torrent list.  `createdAt` and `updatedAt` are
   * the parsed timestamps (`None` when missing or unparsable); `sizeName`
   * is the formatted size.
   */
  datatype ApiTorrent = ApiTorrent(
    id: int, magnet: Option<string>, release: Option<Release>, labelText: Option<string>, hash: Option<string>,
    seeders: int, createdAt: Option<int>, updatedAt: Option<int>, qualityValue: Option<string>, sizeName: string)

  function TrimOpt(o: Option<string>): Option<string> {
    if o.Some? then Some(Trim(o.value)) else None
  }

  function MainName(r: Release): Option<string> { if r.name.Some? then TrimOpt(r.name.value.main) else None }
  function EnglishName(r: Release): Option<string> { if r.name.Some? then TrimOpt(r.name.value.english) else None }

  /** A record is dropped when its magnet is blank, its release is missing or both of its names are blank. */
  predicate Dropped(a: ApiTorrent) {
    IsBlankOpt(a.magnet) || a.release.None? ||
    (IsBlankOpt(MainName(a.release.value)) && IsBlankOpt(EnglishName(a.release.value)))
  }

  /** The base title: both names when both are given and differ, else the first given one. */
  function BaseTitle(name: Option<string>, originalname: Option<string>): (r: string)
    ensures !IsBlankOpt(name) && !IsBlankOpt(originalname) && name.value != originalname.value ==>
      r == name.value + " / " + originalname.value
    ensures !IsBlankOpt(name) && (IsBlankOpt(originalname) || name.value == originalname.value) ==> r == name.value
    ensures IsBlankOpt(name) && !IsBlankOpt(originalname) ==> r == originalname.value
  {
    if !IsBlankOpt(name) && !IsBlankOpt(originalname) && name.value != originalname.value then
      name.value + " / " + originalname.value
    else if !IsBlankOpt(name) then name.value
    else if !IsBlankOpt(originalname) then originalname.value
    else "Unknown"
  }

  /** The title: the base, then " / year" when the year is known, then " / quality" when the label has one. */
  function Title(name: Option<string>, originalname: Option<string>, year: Option<int>, qualityInfo: string): (r: string)
    ensures StartsWith(r, BaseTitle(name, originalname))
    ensures year.None? && IsBlank(qualityInfo) ==> r == BaseTitle(name, originalname)
    ensures !IsBlank(qualityInfo) ==> EndsWith(r, " / " + qualityInfo)
    ensures year.Some? && IsBlank(qualityInfo) ==> EndsWith(r, " / " + IntToString(year.value))
    ensures year.Some? && IsBlank(qualityInfo) ==> r == BaseTitle(name, originalname) + " / " + IntToString(year.value)
    ensures year.None? && !IsBlank(qualityInfo) ==> r == BaseTitle(name, originalname) + " / " + qualityInfo
    ensures year.Some? && !IsBlank(qualityInfo) ==>
      r == BaseTitle(name, originalname) + " / " + IntToString(year.value) + " / " + qualityInfo
  {
    var base := BaseTitle(name, originalname);
    TitleOfParts(base, year, qualityInfo);
    base + YearPart(year) + QualityPart(qualityInfo)
  }

  function YearPart(year: Option<int>): string { if year.Some? then " / " + IntToString(year.value) else "" }

  function QualityPart(qualityInfo: string): string { if !IsBlank(qualityInfo) then " / " + qualityInfo else "" }

  /** The title's parts, case by case. */
  lemma TitleOfParts(base: string, year: Option<int>, qualityInfo: string)
    ensures var r := base + YearPart(year) + QualityPart(qualityInfo);
      StartsWith(r, base) &&
      (year.None? && IsBlank(qualityInfo) ==> r == base) &&
      (!IsBlank(qualityInfo) ==> EndsWith(r, " / " + qualityInfo)) &&
      (year.Some? && IsBlank(qualityInfo) ==> EndsWith(r, " / " + IntToString(year.value))) &&
      (year.Some? && IsBlank(qualityInfo) ==> r == base + " / " + IntToString(year.value)) &&
      (year.None? && !IsBlank(qualityInfo) ==> r == base + " / " + qualityInfo) &&
      (year.Some? && !IsBlank(qualityInfo) ==> r == base + " / " + IntToString(year.value) + " / " + qualityInfo)
  {
    var y := YearPart(year);
    var q := QualityPart(qualityInfo);
    ThreeParts(base, y, q);
    if year.Some? && !IsBlank(qualityInfo) {
      JoinParts(base, " / ", IntToString(year.value), q);
      JoinParts(base + y, " / ", qualityInfo, []);
    } else if year.Some? {
      JoinParts(base, " / ", IntToString(year.value), []);
    } else if !IsBlank(qualityInfo) {
      JoinParts(base, " / ", qualityInfo, []);
    }
  }

  /** Regrouping the separated parts of a title. */
  lemma JoinParts(a: string, sep: string, x: string, rest: string)
    ensures a + (sep + x) + rest == a + sep + x + rest
  {
  }

  /** A title put together from three parts starts with the first and ends with the last non-empty one. */
  lemma ThreeParts(a: string, b: string, c: string)
    ensures StartsWith(a + b + c, a) && EndsWith(a + b + c, c)
    ensures c == [] ==> EndsWith(a + b + c, b)
    ensures b == [] && c == [] ==> a + b + c == a
  {
    assert a + b + c == a + (b + c);
    AppendAffixes(a, b + c);
    AppendAffixes(a + b, c);
    if c == [] {
      assert a + b + c == a + b;
      AppendAffixes(a, b);
    }
  }

  /** The url: the release page when the alias is given, else the API path; always suffixed with the hash. */
  function TorrentUrl(host: string, alias: Option<string>, hash: Option<string>): (r: string)
    ensures EndsWith(r, "?hash=" + OrElse(hash, ""))
    ensures !IsBlankOpt(alias) ==> r == host + "/anime/releases/release/" + alias.value + "?hash=" + OrElse(hash, "")
    ensures IsBlankOpt(alias) ==> r == host + "/api/v1/anime/torrents/" + OrElse(hash, "") + "?hash=" + OrElse(hash, "")
  {
    var baseUrl := if !IsBlankOpt(alias) then host + "/anime/releases/release/" + alias.value
                   else host + "/api/v1/anime/torrents/" + OrElse(hash, "");
    baseUrl + "?hash=" + OrElse(hash, "")
  }

  // -----------------------------------------------------------------------
  // Types

  /** `DetermineTypes`: the release type, compared in upper case. */
  function DetermineTypes(typeValue: Option<string>): (r: seq<string>)
    ensures r == ["dorama"] || (|r| >= 1 && r[0] == "anime")
    ensures IsBlankOpt(typeValue) ==> r == ["anime"]
  {
    if IsBlankOpt(typeValue) then ["anime"]
    else
      var t := Upper(typeValue.value);
      if t == "MOVIE" then ["anime", "movie"]
      else if t == "OVA" || t == "OAD" then ["anime", "ova"]
      else if t == "SPECIAL" then ["anime", "special"]
      else if t == "ONA" || t == "WEB" then ["anime", "ona"]
      else if t == "DORAMA" then ["dorama"]
      else ["anime", "serial"]
  }

  /** Types that differ only in letter case give the same result. */
  lemma DetermineTypesIgnoresCase(a: string, b: string)
    requires Upper(a) == Upper(b)
    ensures DetermineTypes(Some(a)) == DetermineTypes(Some(b))
  {
    assert IsBlank(a) <==> IsBlank(b) by {
      assert forall i :: 0 <= i < |a| ==> (IsWs(a[i]) <==> IsWs(Upper(a)[i]));
      assert forall i :: 0 <= i < |b| ==> (IsWs(b[i]) <==> IsWs(Upper(b)[i]));
    }
  }

  /** A type value that is not blank is classified by its upper-case form. */
  lemma TypesShown(a: string, up: string)
    requires a != [] && !IsWs(a[0]) && Upper(a) == up
    ensures DetermineTypes(Some(a)) ==
      if up == "MOVIE" then ["anime", "movie"]
      else if up == "OVA" || up == "OAD" then ["anime", "ova"]
      else if up == "SPECIAL" then ["anime", "special"]
      else if up == "ONA" || up == "WEB" then ["anime", "ona"]
      else if up == "DORAMA" then ["dorama"]
      else ["anime", "serial"]
  {
    assert !IsBlank(a);
  }

  // -----------------------------------------------------------------------
  // Quality

  /** Three ASCII digits start at `i`. */
  predicate DigitsAt(s: string, i: int) {
    0 <= i && i + 3 <= |s| && IsDigit(s[i]) && IsDigit(s[i + 1]) && IsDigit(s[i + 2])
  }

  /** The leftmost match of `(\d{3,4})`: three digits, and a fourth when it follows. */
  function DigitRun(s: string): (r: Option<string>)
    ensures r.Some? ==> (|r.value| == 3 || |r.value| == 4) && AllDigits(r.value)
    decreases |s|
  {
    if |s| < 3 then None
    else if DigitsAt(s, 0) then
      if |s| >= 4 && IsDigit(s[3]) then Some(s[..4]) else Some(s[..3])
    else DigitRun(s[1..])
  }

  /** There is no run exactly when no three digits follow each other. */
  lemma {:induction false} DigitRunNone(s: string)
    ensures DigitRun(s).None? <==> forall i :: !DigitsAt(s, i)
    decreases |s|
  {
    if |s| >= 3 && !DigitsAt(s, 0) {
      var t := s[1..];
      DigitRunNone(t);
      assert DigitRun(s) == DigitRun(t);
      if DigitRun(t).None? {
        forall i ensures !DigitsAt(s, i) {
          if i >= 1 && i + 3 <= |s| {
            assert !DigitsAt(t, i - 1);
            assert t[i - 1] == s[i] && t[i] == s[i + 1] && t[i + 1] == s[i + 2];
          }
        }
      } else {
        var k :| DigitsAt(t, k);
        assert t[k] == s[k + 1] && t[k + 1] == s[k + 2] && t[k + 2] == s[k + 3];
        assert DigitsAt(s, k + 1);
      }
    }
  }

  /** The normal steps of a quality number. */
  function Step(q: int): int {
    if q >= 2160 then 2160 else if q >= 1080 then 1080 else if q >= 720 then 720 else if q >= 480 then 480 else q
  }

  /** `ParseQuality`: 4k marks mean 2160, else the first 3- or 4-digit number floored to a step; 480 by default. */
  function ParseQuality(qualityValue: Option<string>): (r: int)
    ensures r in {2160, 1080, 720, 480} || 0 <= r < 480
    ensures IsBlankOpt(qualityValue) ==> r == 480
  {
    if IsBlankOpt(qualityValue) then 480
    else
      var q := Trim(Lower(qualityValue.value));
      if Contains(q, "4k") || Contains(q, "2160p") || Contains(q, "uhd") then 2160
      else
        var m := DigitRun(q);
        if m.Some? then Step(DigitsValue(m.value)) else 480
  }

  /** The flooring is a projection: a step maps to itself, so results are fixed points. */
  lemma StepIdempotent(q: int)
    ensures Step(Step(q)) == Step(q)
    ensures q >= 480 ==> Step(q) <= q && Step(q) in {2160, 1080, 720, 480}
  {
  }

  /** A value with no 4k mark, whose first 3- or 4-digit number is `d`, is `d` floored to a step. */
  lemma ParseQualityOfDigits(v: string, q: string, d: string)
    requires !IsBlank(v) && Trim(Lower(v)) == q
    requires !Contains(q, "4k") && !Contains(q, "2160p") && !Contains(q, "uhd") && DigitRun(q) == Some(d)
    ensures ParseQuality(Some(v)) == Step(DigitsValue(d))
  {
  }

  // -----------------------------------------------------------------------
  // Quality info of a label

  /** The first `]` after position `i`, or `|s|`. */
  function CloseAfter(s: string, i: nat): (r: nat)
    requires i < |s|
    ensures i < r <= |s| && (r == |s| || s[r] == ']')
    ensures forall k :: i < k < r ==> s[k] != ']'
    decreases |s| - i
  {
    if i + 1 == |s| || s[i + 1] == ']' then i + 1 else CloseAfter(s, i + 1)
  }

  /** From `i`, the text is one or more `[...]` groups (non-empty within), separated and followed by white space only. */
  predicate GroupsToEnd(s: string, i: nat)
    decreases |s| - i
  {
    i < |s| && s[i] == '[' &&
    var j := CloseAfter(s, i);
    j < |s| && j > i + 1 &&
    var k := SkipWs(s, j + 1);
    (k == |s| || GroupsToEnd(s, k))
  }

  /** The leftmost position from which the groups run to the end, at or after `i`. */
  function FirstGroupsStart(s: string, i: nat): (r: Option<nat>)
    requires i <= |s|
    ensures r.Some? ==> i <= r.value < |s| && GroupsToEnd(s, r.value)
    ensures r.Some? ==> forall k :: i <= k < r.value ==> !GroupsToEnd(s, k)
    ensures r.None? ==> forall k :: i <= k <= |s| ==> !GroupsToEnd(s, k)
    decreases |s| - i
  {
    if i == |s| then None
    else if GroupsToEnd(s, i) then Some(i)
    else FirstGroupsStart(s, i + 1)
  }

  /** `ExtractQualityInfo`: the trailing run of bracket groups, trimmed, or "". */
  function ExtractQualityInfo(labelText: Option<string>): (r: string)
    ensures r != [] ==> r[0] == '[' && r[|r| - 1] == ']'
    ensures IsBlankOpt(labelText) ==> r == []
  {
    if IsBlankOpt(labelText) then []
    else
      var s := labelText.value;
      var start := FirstGroupsStart(s, 0);
      if start.None? then []
      else
        var r := Trim(s[start.value..]);
        GroupsEndWithBracket(s, start.value);
        r
  }

  /** A run of groups trims to a text that starts with `[` and ends with `]`. */
  lemma GroupsEndWithBracket(s: string, i: nat)
    requires GroupsToEnd(s, i)
    ensures var r := Trim(s[i..]); r != [] && r[0] == '[' && r[|r| - 1] == ']'
  {
    var t := s[i..];
    var last := LastClose(s, i);
    var p := last - i;
    assert t[0] == '[' && t[p] == ']';
    assert t[p + 1..] == s[last + 1..];
    TrimBracketed(t, p);
  }

  /** Text from a `[` to a `]` followed by white space only trims to exactly that span. */
  lemma TrimBracketed(t: string, p: nat)
    requires p < |t| && t[0] == '[' && t[p] == ']' && IsBlank(t[p + 1..])
    ensures var r := Trim(t); r != [] && r[0] == '[' && r[|r| - 1] == ']'
  {
    TrimStartIdempotent(t);
    TrimEndOfBlankTail(t, p);
    var r := t[..p + 1];
    assert r[0] == t[0] && r[p] == t[p];
  }

  /** The position of the `]` that closes the last group. */
  function LastClose(s: string, i: nat): (r: nat)
    requires GroupsToEnd(s, i)
    ensures i < r < |s| && s[r] == ']' && IsBlank(s[r + 1..])
    decreases |s| - i
  {
    var j := CloseAfter(s, i);
    var k := SkipWs(s, j + 1);
    if k == |s| then
      var rest := s[j + 1..];
      assert forall m :: 0 <= m < |rest| ==> rest[m] == s[j + 1 + m];
      j
    else LastClose(s, k)
  }

  /** Trimming the end of `t` stops at a non-white character followed by white space only. */
  lemma {:induction false} TrimEndOfBlankTail(t: string, p: nat)
    requires p < |t| && !IsWs(t[p]) && IsBlank(t[p + 1..])
    ensures TrimEnd(t) == t[..p + 1]
    decreases |t|
  {
    if |t| > p + 1 {
      assert IsWs(t[|t| - 1]) by { assert t[p + 1..][|t| - p - 2] == t[|t| - 1]; }
      var u := t[..|t| - 1];
      assert u[p] == t[p];
      var v := u[p + 1..];
      var w := t[p + 1..];
      assert IsBlank(v) by {
        forall m | 0 <= m < |v| ensures IsWs(v[m]) {
          assert v[m] == w[m];
        }
      }
      TrimEndOfBlankTail(u, p);
      assert u[..p + 1] == t[..p + 1];
    }
  }

  // -----------------------------------------------------------------------
  // Candidates

  /**
   * The torrent a kept record becomes.  `host` is the configured host and
   * `now` the current time, which replaces a missing creation time.
   */
  function Candidate(a: ApiTorrent, host: string, now: int): (t: Torrent)
    requires !Dropped(a)
    ensures t.trackerName == "aniliberty" && t.magnet == a.magnet
    ensures t.url == TorrentUrl(host, a.release.value.alias, a.hash)
    ensures t.types == Some(DetermineTypes(a.release.value.typeValue))
    ensures t.title == Some(Title(MainName(a.release.value), EnglishName(a.release.value), a.release.value.year, ExtractQualityInfo(a.labelText)))
    ensures t.createTime != 0 || now == 0
    ensures a.updatedAt.None? ==> t.updateTime == t.createTime
  {
    var r := a.release.value;
    var name := MainName(r);
    var originalname := EnglishName(r);
    var createTime := if a.createdAt.Some? && a.createdAt.value != 0 then a.createdAt.value else now;
    var updateTime := if a.updatedAt.Some? && a.updatedAt.value != 0 then a.updatedAt.value else createTime;
    Torrent(
      url := TorrentUrl(host, r.alias, a.hash),
      trackerName := "aniliberty",
      title := Some(Title(name, originalname, r.year, ExtractQualityInfo(a.labelText))),
      name := name, originalname := originalname, sn := "", so := "",
      magnet := a.magnet, sizeName := Some(a.sizeName),
      types := Some(DetermineTypes(r.typeValue)),
      createTime := createTime, updateTime := updateTime,
      sid := a.seeders, relased := if r.year.Some? then r.year.value else 0,
      quality := ParseQuality(a.qualityValue), hasFfprobe := false, ffprobeTries := 0)
  }

  /** The candidates of the kept records, in order. */
  function Candidates(records: seq<ApiTorrent>, host: string, now: int): seq<Torrent>
    decreases |records|
  {
    if records == [] then []
    else
      var a := records[|records| - 1];
      Candidates(records[..|records| - 1], host, now) + (if Dropped(a) then [] else [Candidate(a, host, now)])
  }

  /**
   * The record loop of `parsePage` with the dropped records skipped: every
   * kept record becomes a candidate, in order.
   */
  method CollectCandidates(records: seq<ApiTorrent>, host: string, now: int) returns (torrents: seq<Torrent>)
    ensures torrents == Candidates(records, host, now)
  {
    torrents := [];
    for i := 0 to |records|
      invariant torrents == Candidates(records[..i], host, now)
    {
      assert records[..i + 1][..i] == records[..i];
      var a := records[i];
      if IsBlankOpt(a.magnet) || a.release.None? {
        continue;
      }
      var name := MainName(a.release.value);
      var originalname := EnglishName(a.release.value);
      if IsBlankOpt(name) && IsBlankOpt(originalname) {
        continue;
      }
      torrents := torrents + [Candidate(a, host, now)];
    }
    assert records[..|records|] == records;
  }

  /** Every candidate has a non-blank magnet, so the dropped records are exactly the ones without a candidate. */
  lemma {:induction false} CandidatesHaveMagnets(records: seq<ApiTorrent>, host: string, now: int)
    ensures forall t :: t in Candidates(records, host, now) ==> !IsBlankOpt(t.magnet) && t.trackerName == "aniliberty"
    ensures |Candidates(records, host, now)| <= |records|
    ensures (forall i :: 0 <= i < |records| ==> !Dropped(records[i])) ==> |Candidates(records, host, now)| == |records|
    decreases |records|
  {
    if records != [] {
      var init := records[..|records| - 1];
      CandidatesHaveMagnets(init, host, now);
      assert forall i :: 0 <= i < |init| ==> init[i] == records[i];
    }
  }

  /** One more record extends the candidates by its own, when it is kept. */
  lemma CandidatesStep(records: seq<ApiTorrent>, i: nat, host: string, now: int)
    requires i < |records|
    ensures Candidates(records[..i + 1], host, now) ==
      Candidates(records[..i], host, now) + (if Dropped(records[i]) then [] else [Candidate(records[i], host, now)])
  {
    assert records[..i + 1][..i] == records[..i];
  }

  lemma KeptExtend(records: seq<ApiTorrent>, i: nat)
    requires i < |records| && !Dropped(records[i])
    requires forall k :: 0 <= k < i ==> !Dropped(records[k])
    ensures forall k :: 0 <= k < i + 1 ==> !Dropped(records[k])
  {
  }

  /**
   * The record loop as written: a dropped record is logged with
   * `ParserLog.WriteFailed(tracker, null, ...)`, which reads `t.url` of the
   * null record and throws; the exception leaves `parsePage` and ends the
   * whole `Parse` run.  `None` is that exception.  One dropped record
   * anywhere loses every candidate of the page and every later page.
   */
  method CollectAsWritten(records: seq<ApiTorrent>, host: string, now: int) returns (r: Option<seq<Torrent>>)
    ensures r.None? <==> exists i :: 0 <= i < |records| && Dropped(records[i])
    ensures r.Some? ==> r.value == Candidates(records, host, now)
  {
    var torrents := [];
    for i := 0 to |records|
      invariant torrents == Candidates(records[..i], host, now)
      invariant forall k :: 0 <= k < i ==> !Dropped(records[k])
    {
      var a := records[i];
      if Dropped(a) {
        assert 0 <= i < |records| && Dropped(records[i]);
        return None;
      }
      CandidatesStep(records, i, host, now);
      torrents := torrents + [Candidate(a, host, now)];
      KeptExtend(records, i);
    }
    assert records[..|records|] == records;
    r := Some(torrents);
  }

  // -----------------------------------------------------------------------
  // decide

  /** `string.Equals(a?.Trim(), b?.Trim(), OrdinalIgnoreCase)`. */
  predicate SameMagnet(a: Option<string>, b: Option<string>) {
    (a.None? && b.None?) || (a.Some? && b.Some? && EqIgnoreCase(Trim(a.value), Trim(b.value)))
  }

  /**
   * The `decide` callback: an entry with the same magnet is skipped; any
   * other candidate is written and counted as updated (an entry exists)
   * or added.  A null cached entry is dereferenced and throws.
   */
  function Decide(existing: Existing, t: Torrent, c: Counters): (d: Decision)
    ensures d.Decided? ==> OneBump(c, d.counters) && d.candidate == t && d.counters.failed == c.failed
    ensures d.Threw? <==> existing == Some(None)
    ensures d.Decided? ==> (!d.write <==> existing.Some? && existing.value.Some? && SameMagnet(existing.value.value.magnet, t.magnet))
    ensures d.Decided? && d.write ==> d.counters == (if existing.Some? then Bump(c, Updated) else Bump(c, Added))
    ensures d.Decided? && !d.write ==> d.counters == Bump(c, Skipped)
  {
    match existing
    case None => Decided(true, t, Bump(c, Added))
    case Some(None) => Threw
    case Some(Some(e)) =>
      if SameMagnet(e.magnet, t.magnet) then Decided(false, t, Bump(c, Skipped))
      else Decided(true, t, Bump(c, Updated))
  }

  /** The counters after deciding every candidate in turn; `None` when a callback throws. */
  function DecideAll(ts: seq<Torrent>, existing: string -> Existing, c: Counters): Option<Counters>
    decreases |ts|
  {
    if ts == [] then Some(c)
    else
      var before := DecideAll(ts[..|ts| - 1], existing, c);
      var t := ts[|ts| - 1];
      if before.None? then None
      else
        var d := Decide(existing(t.url), t, before.value);
        if d.Threw? then None else Some(d.counters)
  }

  /** Each candidate is counted exactly once, and the parser never counts a failure. */
  lemma {:induction false} DecideAllCounts(ts: seq<Torrent>, existing: string -> Existing, c: Counters)
    ensures var r := DecideAll(ts, existing, c); r.Some? ==> Total(r.value) == Total(c) + |ts| && r.value.failed == c.failed
    decreases |ts|
  {
    if ts != [] {
      DecideAllCounts(ts[..|ts| - 1], existing, c);
    }
  }
}
