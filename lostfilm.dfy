/**
 * The LostFilm parser: quality normalisation, the short series name, the
 * pagination clamp of `ParseOutdated`, the stop/filter rule of a page and
 * the `decide` callback that reuses a cached magnet or fetches one.
 */
module Lostfilm {
  import opened Common
  import opened FileDbModel

  // -----------------------------------------------------------------------
  // Quality

  /** `^\d{3,4}p$` with `RegexOptions.IgnoreCase`. */
  predicate IsPixelQuality(q: string) {
    (|q| == 4 || |q| == 5) && AllDigits(q[..|q| - 1]) && (q[|q| - 1] == 'p' || q[|q| - 1] == 'P')
  }

  /** `NormalizeQuality`: "1080"/"720" gain a `p`, "sd" becomes "SD", a pixel quality is lower-cased; blank input is kept. */
  function NormalizeQuality(quality: string): (r: string)
    ensures IsBlank(quality) ==> r == quality
    ensures !IsBlank(quality) ==> r != [] && Trimmed(r)
    ensures !IsBlank(quality) && IsPixelQuality(Trim(quality)) ==> r == Lower(Trim(quality))
    ensures !IsBlank(quality) && EqIgnoreCase(Trim(quality), "sd") ==> r == "SD"
  {
    if IsBlank(quality) then quality
    else
      var q := Trim(quality);
      TrimEmptyIffBlank(quality);
      assert q != [] && Trimmed(q);
      NormalizeTrimmed(q)
  }

  /** The normalisation of an already trimmed, non-blank quality. */
  function NormalizeTrimmed(q: string): (r: string)
    requires q != [] && Trimmed(q)
    ensures r != [] && Trimmed(r)
    ensures IsPixelQuality(q) ==> r == Lower(q)
    ensures EqIgnoreCase(q, "sd") ==> r == "SD"
  {
    if IsPixelQuality(q) then LowerTrimmed(q); Lower(q)
    else if EqIgnoreCase(q, "1080") then "1080p"
    else if EqIgnoreCase(q, "720") then "720p"
    else if EqIgnoreCase(q, "sd") then "SD"
    else q
  }

  /** Lower-casing keeps a string non-empty and free of white space at both ends. */
  lemma LowerTrimmed(q: string)
    requires q != [] && !IsWs(q[0]) && !IsWs(q[|q| - 1])
    ensures Lower(q) != [] && !IsWs(Lower(q)[0]) && !IsWs(Lower(q)[|q| - 1])
  {
  }

  /** A string that `Trim` leaves as it is. */
  predicate Trimmed(s: string) { s == [] || (!IsWs(s[0]) && !IsWs(s[|s| - 1])) }

  lemma TrimmedTrim(s: string)
    requires Trimmed(s)
    ensures Trim(s) == s
  {
    TrimStartIdempotent(s);
    TrimEndIdempotent(s);
  }

  /** A trimmed quality that normalisation maps to itself. */
  lemma NormalizeFixed(r: string)
    requires r != [] && Trimmed(r)
    requires (IsPixelQuality(r) && Lower(r) == r) || r == "SD" ||
             (!IsPixelQuality(r) && !EqIgnoreCase(r, "1080") && !EqIgnoreCase(r, "720") && !EqIgnoreCase(r, "sd"))
    ensures NormalizeQuality(r) == r
  {
    TrimmedTrim(r);
    assert !IsBlank(r) by { assert !IsWs(r[0]); }
    if r == "SD" {
      assert !IsPixelQuality(r) && !EqIgnoreCase(r, "1080") && !EqIgnoreCase(r, "720");
      assert EqIgnoreCase(r, "sd");
    }
  }

  /** Lower-casing a pixel quality keeps it one and is then stable. */
  lemma LowerPixel(q: string)
    requires IsPixelQuality(q)
    ensures IsPixelQuality(Lower(q)) && Lower(Lower(q)) == Lower(q) && Trimmed(Lower(q))
  {
    var r := Lower(q);
    assert forall i :: 0 <= i < |r| - 1 ==> IsDigit(r[i]) by {
      forall i | 0 <= i < |r| - 1 ensures IsDigit(r[i]) {
        assert IsDigit(q[..|q| - 1][i]);
      }
    }
    assert AllDigits(r[..|r| - 1]) by {
      var p := r[..|r| - 1];
      assert forall i :: 0 <= i < |p| ==> p[i] == r[i];
    }
    assert IsDigit(q[0]) by { assert q[0] == q[..|q| - 1][0]; }
  }

  lemma PixelLiteral(r: string)
    requires r == "1080p" || r == "720p"
    ensures IsPixelQuality(r) && Lower(r) == r && Trimmed(r)
  {
    assert AllDigits(r[..|r| - 1]);
    assert forall i :: 0 <= i < |r| ==> LowerChar(r[i]) == r[i];
  }

  /** Normalising twice is normalising once. */
  lemma NormalizeQualityIdempotent(quality: string)
    ensures NormalizeQuality(NormalizeQuality(quality)) == NormalizeQuality(quality)
  {
    if !IsBlank(quality) {
      var q := Trim(quality);
      TrimEmptyIffBlank(quality);
      assert NormalizeQuality(quality) == NormalizeTrimmed(q);
      NormalizeTrimmedStable(q);
    }
  }

  /** What normalisation makes of a trimmed quality, it maps to itself. */
  lemma NormalizeTrimmedStable(q: string)
    requires q != [] && Trimmed(q)
    ensures NormalizeQuality(NormalizeTrimmed(q)) == NormalizeTrimmed(q)
  {
    if IsPixelQuality(q) {
      LowerPixel(q);
      NormalizeFixed(Lower(q));
    } else if EqIgnoreCase(q, "1080") {
      PixelFixed("1080p");
    } else if EqIgnoreCase(q, "720") {
      PixelFixed("720p");
    } else if EqIgnoreCase(q, "sd") {
      NormalizeFixed("SD");
    } else {
      NormalizeFixed(q);
    }
  }

  /** "1080p" and "720p" are their own normalisation. */
  lemma PixelFixed(r: string)
    requires r == "1080p" || r == "720p"
    ensures NormalizeQuality(r) == r
  {
    PixelLiteral(r);
    NormalizeFixed(r);
  }

  /** Quality goes into a title ending in `]` as ", q]", and is appended as " [q]" otherwise. */
  function InsertQuality(title: Option<string>, quality: string): (r: string)
    ensures EndsWith(r, quality + "]")
    ensures title.Some? && EndsWith(TrimEnd(title.value), "]") ==>
      var t := TrimEnd(title.value); r == t[..|t| - 1] + ", " + quality + "]"
    ensures !(title.Some? && EndsWith(TrimEnd(title.value), "]")) ==> r == OrElse(title, "") + " [" + quality + "]"
  {
    if title.Some? && EndsWith(TrimEnd(title.value), "]") then
      var t := TrimEnd(title.value);
      var r := t[..|t| - 1] + ", " + quality + "]";
      assert r[|r| - |quality + "]"|..] == quality + "]";
      r
    else
      var r := OrElse(title, "") + " [" + quality + "]";
      assert r[|r| - |quality + "]"|..] == quality + "]";
      r
  }

  // -----------------------------------------------------------------------
  // Short series name

  const MaxNameLength: nat := 200

  /** `s.IndexOf(sub, StringComparison.OrdinalIgnoreCase)`. */
  function IndexOfIgnoreCase(s: string, sub: string): (r: int)
    ensures r == -1 || 0 <= r <= |s| - |sub|
    ensures r >= 0 ==> EqIgnoreCase(s[r..r + |sub|], sub)
    decreases |s|
  {
    if StartsWithIgnoreCase(s, sub) then 0
    else if s == [] then -1
    else
      var k := IndexOfIgnoreCase(s[1..], sub);
      if k < 0 then -1 else
        EqIgnoreCaseShift(s, sub, k);
        k + 1
  }

  /** A case-insensitive match in the tail of `s` is one in `s`, a position further on. */
  lemma EqIgnoreCaseShift(s: string, sub: string, k: nat)
    requires s != [] && k + |sub| <= |s| - 1
    requires EqIgnoreCase(s[1..][k..k + |sub|], sub)
    ensures EqIgnoreCase(s[k + 1..k + 1 + |sub|], sub)
  {
    assert s[1..][k..k + |sub|] == s[k + 1..k + 1 + |sub|];
  }

  /** The first `]` at or after `i`, or `|s|`. */
  function CloseFrom(s: string, i: nat): (r: nat)
    requires i <= |s|
    ensures i <= r <= |s| && (r == |s| || s[r] == ']')
    decreases |s| - i
  {
    if i == |s| || s[i] == ']' then i else CloseFrom(s, i + 1)
  }

  /** The year bracket `[yyyy]` or `[yyyy, ...]` at `g`, followed by white space only. */
  predicate YearBracketToEnd(t: string, g: nat) {
    g + 5 < |t| && t[g] == '[' && AllDigits(t[g + 1..g + 5]) &&
    var h := g + 5;
    if t[h] == ',' then
      var k := CloseFrom(t, h + 1);
      k < |t| && IsBlank(t[k + 1..])
    else t[h] == ']' && IsBlank(t[h + 1..])
  }

  /** `\s*\d+\s*сезон\s*\d+\s*серия\s*\[\d{4}(?:,[^\]]*)?\]\s*$` matches all of `t`. */
  predicate EpisodeTail(t: string) {
    var a := SkipWs(t, 0);
    var b := SkipDigits(t, a);
    b > a &&
    var c := SkipWs(t, b);
    WordAt(t, c, "сезон") &&
    var d := SkipWs(t, c + 5);
    var e := SkipDigits(t, d);
    e > d &&
    var f := SkipWs(t, e);
    WordAt(t, f, "серия") &&
    YearBracketToEnd(t, SkipWs(t, f + 5))
  }

  /** A slash at `q` that ends the first segment: another slash follows after at least one character, then the episode tail. */
  predicate SegmentSlash(s: string, q: nat) {
    q < |s| && s[q] == '/' &&
    var rest := s[q + 1..];
    var k := IndexOfChar(rest, '/');
    k >= 1 && EpisodeTail(rest[k + 1..])
  }

  /** The first slash at or after `q` that ends the first segment. */
  function FirstSegmentSlash(s: string, q: nat): (r: Option<nat>)
    requires q <= |s|
    ensures r.Some? ==> q <= r.value < |s| && SegmentSlash(s, r.value)
    ensures r.None? ==> forall k :: q <= k < |s| ==> !SegmentSlash(s, k)
  {
    var f := (k: nat) => if SegmentSlash(s, k) then Some(k) else None;
    var r := Leftmost(f, q, |s|);
    assert forall k: nat :: f(k).Some? <==> SegmentSlash(s, k);
    r
  }

  /**
   * Group 1 of `^(.+?)\s*\/\s*[^/]+?\s*\/` followed by the episode tail,
   * trimmed.  The lazy group ends where the white space before the first
   * slash (after position 0) that ends the first segment begins; later
   * slashes only give longer groups.  `.` does not match a line feed, so
   * a group holding one fails, and so do all longer ones.
   */
  function FirstSegment(s: string): (r: Option<string>)
    ensures r.Some? ==> Trimmed(r.value) && |r.value| < |s|
    ensures r.Some? ==> exists q :: 1 <= q < |s| && SegmentSlash(s, q) && r.value == Trim(s[..q])
    ensures (forall q :: 1 <= q < |s| ==> !SegmentSlash(s, q)) ==> r.None?
  {
    if |s| == 0 then None
    else
      var q := FirstSegmentSlash(s, 1);
      if q.None? || HasChar(TrimEnd(s[..q.value]), '\n') then None else Some(Trim(s[..q.value]))
  }

  /** The text before the first " (", trimmed. */
  function CutBeforeParen(s: string): (r: string)
    ensures |r| <= |s|
    ensures Trimmed(s) ==> Trimmed(r)
    ensures IndexOf(s, " (") < 0 ==> r == s
  {
    var idx := IndexOf(s, " (");
    if idx >= 0 then Trim(s[..idx]) else s
  }

  /**
   * Steps 2 and 3: the first segment of the episode format when it has
   * 1 to 200 characters; else the text before " (", cut to 200
   * characters; the trimmed original when that leaves nothing.
   */
  function ShortenTail(s: string, original: string): (r: string)
    ensures Trimmed(s) ==> Trimmed(r)
    ensures |r| <= MaxNameLength || r == Trim(original)
    ensures !IsBlank(original) ==> r != []
    ensures var seg := FirstSegment(s); seg.Some? && 0 < |seg.value| <= MaxNameLength ==> r == seg.value
  {
    TrimEmptyIffBlank(original);
    var seg := FirstSegment(s);
    if seg.Some? && 0 < |seg.value| <= MaxNameLength then seg.value
    else
      var s2 := if seg.Some? then seg.value else s;
      var s3 := CutBeforeParen(s2);
      var s4 := if |s3| > MaxNameLength then Trim(s3[..MaxNameLength]) else s3;
      if |s4| > 0 then s4 else Trim(original)
  }

  const SerialMarker: string := ". Сериал"

  /** The trimmed text before the first ". Сериал" (any case), or all of `s` without one. */
  function NameBeforeMarker(s: string): (r: string)
    ensures Trimmed(r)
  {
    var k := IndexOfIgnoreCase(s, SerialMarker);
    Trim(if k >= 0 then s[..k] else s)
  }

  /**
   * `ShortenSeriesName`: with ". Сериал" (any case) the text before it,
   * cut before " (" and trimmed; else the first segment of
   * "RU / EN / N сезон M серия [yyyy...]"; else the text before " (",
   * at most 200 characters; the trimmed input when a cut leaves nothing.
   * The result is trimmed, non-empty for non-blank input, and has at most
   * 200 characters unless it is the trimmed input itself.
   */
  function ShortenSeriesName(title: Option<string>): (r: string)
    ensures IsBlankOpt(title) ==> r == (if title.Some? then Trim(title.value) else [])
    ensures Trimmed(r)
    ensures !IsBlankOpt(title) ==> r != []
    ensures |r| <= MaxNameLength || (title.Some? && r == Trim(title.value))
  {
    if IsBlankOpt(title) then (if title.Some? then Trim(title.value) else [])
    else
      var t := Trim(title.value);
      assert Trimmed(t);
      ShortenTrimmed(t, title.value)
  }

  /** `ShortenSeriesName` of a non-blank `original` whose trimmed text is `s`. */
  function ShortenTrimmed(s: string, original: string): (r: string)
    ensures Trimmed(s) ==> Trimmed(r)
    ensures !IsBlank(original) ==> r != []
    ensures |r| <= MaxNameLength || r == Trim(original)
  {
    if IndexOfIgnoreCase(s, SerialMarker) >= 0 then
      var s1 := CutBeforeParen(NameBeforeMarker(s));
      if 0 < |s1| <= MaxNameLength then s1 else ShortenTail(s1, original)
    else ShortenTail(s, original)
  }

  /** A non-blank title is shortened from its trimmed text. */
  lemma ShortenNonBlank(title: string)
    requires !IsBlank(title)
    ensures ShortenSeriesName(Some(title)) == ShortenTrimmed(Trim(title), title)
  {
    assert !IsBlankOpt(Some(title));
  }

  lemma SerialFormTrimmed(t: string, original: string)
    requires IndexOfIgnoreCase(t, SerialMarker) >= 0
    requires 0 < |CutBeforeParen(NameBeforeMarker(t))| <= MaxNameLength
    ensures ShortenTrimmed(t, original) == CutBeforeParen(NameBeforeMarker(t))
  {
  }

  /**
   * With ". Сериал", the text before it, cut before " (" when "Название
   * (English)" is given, is the result when 1 to 200 characters remain.
   */
  lemma ShortenSerialForm(title: string)
    requires !IsBlank(title)
    requires IndexOfIgnoreCase(Trim(title), SerialMarker) >= 0
    requires 0 < |CutBeforeParen(NameBeforeMarker(Trim(title)))| <= MaxNameLength
    ensures ShortenSeriesName(Some(title)) == CutBeforeParen(NameBeforeMarker(Trim(title)))
  {
    ShortenNonBlank(title);
    SerialFormTrimmed(Trim(title), title);
  }

  /** Without ". Сериал", a series in the episode format is shortened to its first segment. */
  lemma ShortenEpisodeForm(title: string)
    requires !IsBlank(title)
    requires IndexOfIgnoreCase(Trim(title), SerialMarker) < 0
    requires var seg := FirstSegment(Trim(title)); seg.Some? && 0 < |seg.value| <= MaxNameLength
    ensures ShortenSeriesName(Some(title)) == FirstSegment(Trim(title)).value
  {
    ShortenNonBlank(title);
  }

  lemma OtherFormTrimmed(t: string, original: string)
    requires IndexOfIgnoreCase(t, SerialMarker) < 0 && FirstSegment(t).None?
    requires 0 < |CutBeforeParen(t)| <= MaxNameLength
    ensures ShortenTrimmed(t, original) == CutBeforeParen(t)
  {
    assert ShortenTrimmed(t, original) == ShortenTail(t, original);
  }

  /** Any other title is cut before " (" when that leaves 1 to 200 characters. */
  lemma ShortenOtherForm(title: string)
    requires !IsBlank(title)
    requires IndexOfIgnoreCase(Trim(title), SerialMarker) < 0 && FirstSegment(Trim(title)).None?
    requires 0 < |CutBeforeParen(Trim(title))| <= MaxNameLength
    ensures ShortenSeriesName(Some(title)) == CutBeforeParen(Trim(title))
  {
    ShortenNonBlank(title);
    OtherFormTrimmed(Trim(title), title);
  }

  // -----------------------------------------------------------------------
  // Pagination of ParseOutdated

  /** The largest number in `ns` above `init`, the running maximum of the pagination loop. */
  function MaxAbove(ns: seq<int>, init: int): (r: int)
    ensures r >= init && forall i :: 0 <= i < |ns| ==> ns[i] <= r
    ensures r == init || r in ns
    decreases |ns|
  {
    if ns == [] then init
    else
      var m := MaxAbove(ns[..|ns| - 1], init);
      var x := ns[|ns| - 1];
      assert forall i :: 0 <= i < |ns| - 1 ==> ns[i] == ns[..|ns| - 1][i];
      if x > m then x else m
  }

  /**
   * The pagination clamp: `pageNumbers` are the `page_N` numbers of the
   * first page (`firstPageOk` when it was fetched and is a LostFilm page).
   * Returns the number of pages the loop walks.
   */
  method Pagination(maxpage: int, firstPageOk: bool, pageNumbers: seq<int>) returns (totalPages: int, pages: int)
    ensures 1 <= totalPages <= 100 && pages >= 1
    ensures firstPageOk ==> totalPages == Min(100, MaxAbove(pageNumbers, 1))
    ensures firstPageOk ==> pages == (if maxpage == 0 || maxpage > totalPages then totalPages else Max(1, maxpage))
    ensures !firstPageOk ==> totalPages == 1 && pages == Max(1, maxpage)
  {
    totalPages := 1;
    pages := maxpage;
    if firstPageOk {
      for i := 0 to |pageNumbers|
        invariant totalPages == MaxAbove(pageNumbers[..i], 1)
      {
        assert pageNumbers[..i + 1][..i] == pageNumbers[..i];
        if pageNumbers[i] > totalPages {
          totalPages := pageNumbers[i];
        }
      }
      assert pageNumbers[..|pageNumbers|] == pageNumbers;
      if totalPages > 100 {
        totalPages := 100;
      }
      if pages == 0 {
        pages := totalPages;
      } else if pages > totalPages {
        pages := totalPages;
      }
    }
    if pages < 1 {
      pages := 1;
    }
  }

  /** With the first page read, the walk never passes the last page seen nor 100. */
  lemma PaginationBounded(maxpage: int, pageNumbers: seq<int>, totalPages: int, pages: int)
    requires totalPages == Min(100, MaxAbove(pageNumbers, 1))
    requires pages == (if maxpage == 0 || maxpage > totalPages then totalPages else Max(1, maxpage))
    ensures 1 <= pages <= totalPages <= 100
    ensures forall i :: 0 <= i < |pageNumbers| && pageNumbers[i] <= 100 ==> pageNumbers[i] <= totalPages
  {
  }

  /**
   * The page loop of `ParseOutdated`: pages 1, 2, ... `pages`, stopping
   * after the first page that signals the stop date.
   */
  method WalkPages(pages: int, stop: int -> bool) returns (walked: seq<int>)
    requires pages >= 1
    ensures walked != [] && forall i :: 0 <= i < |walked| ==> walked[i] == i + 1
    ensures |walked| <= pages
    ensures forall i :: 0 <= i < |walked| - 1 ==> !stop(walked[i])
    ensures |walked| < pages ==> stop(walked[|walked| - 1])
  {
    walked := [];
    var page := 1;
    while page <= pages
      invariant 1 <= page <= pages + 1 && |walked| == page - 1
      invariant forall i :: 0 <= i < |walked| ==> walked[i] == i + 1 && !stop(walked[i])
      decreases pages - page
    {
      walked := walked + [page];
      if stop(page) {
        return;
      }
      page := page + 1;
    }
  }

  // -----------------------------------------------------------------------
  // A page: stop rule and date filter

  /** The oldest creation time on a non-empty page. */
  function Oldest(list: seq<Torrent>): (r: int)
    requires list != []
    ensures forall i :: 0 <= i < |list| ==> r <= list[i].createTime
    ensures exists i :: 0 <= i < |list| && r == list[i].createTime
    decreases |list|
  {
    if |list| == 1 then list[0].createTime
    else
      var m := Oldest(list[1..]);
      assert forall i :: 1 <= i < |list| ==> list[i] == list[1..][i - 1];
      if list[0].createTime <= m then list[0].createTime else m
  }

  /** The records created no later than `date`, in order. */
  function NotNewerThan(list: seq<Torrent>, date: int): (r: seq<Torrent>)
    ensures forall t :: t in r <==> t in list && t.createTime <= date
    decreases |list|
  {
    if list == [] then []
    else (if list[0].createTime <= date then [list[0]] else []) + NotNewerThan(list[1..], date)
  }

  /**
   * After collection, a page stops the walk iff a stop date is set and
   * some record on it (before the start-date filter) is that old; a page
   * that stops adds nothing.  Otherwise it hands the records not newer
   * than the start date to `AddOrUpdate`.
   */
  function PageOutcome(list: seq<Torrent>, stopBefore: Option<int>, startFrom: Option<int>): (r: (bool, seq<Torrent>))
    ensures r.0 <==> stopBefore.Some? && exists i :: 0 <= i < |list| && list[i].createTime <= stopBefore.value
    ensures r.0 ==> r.1 == []
    ensures !r.0 && startFrom.Some? ==> forall t :: t in r.1 <==> t in list && t.createTime <= startFrom.value
    ensures !r.0 && startFrom.None? ==> r.1 == list
  {
    var stop := stopBefore.Some? && list != [] && Oldest(list) <= stopBefore.value;
    var kept := if startFrom.Some? && list != [] then NotNewerThan(list, startFrom.value) else list;
    if stop then (true, []) else (false, kept)
  }

  // -----------------------------------------------------------------------
  // decide

  /** What `GetMagnet` returns for a url: the magnet (null on failure), quality and size. */
  datatype MagnetInfo = MagnetInfo(magnet: Option<string>, quality: Option<string>, sizeName: Option<string>)

  datatype LfCounters = LfCounters(added: nat, fromCache: nat, noMagnet: nat)

  datatype LfDecision = LfDecided(write: bool, candidate: Torrent, counters: LfCounters) | LfThrew

  /** A cached record with a magnet: magnet, title and size are copied, the size falling back to the candidate's. */
  function FromCache(t: Torrent, cached: Torrent): Torrent {
    t.(magnet := cached.magnet, title := cached.title,
       sizeName := if cached.sizeName.Some? then cached.sizeName else t.sizeName)
  }

  /** A fetched magnet: magnet and size from the fetch, and the normalised quality in the title. */
  function Fetched(t: Torrent, mag: MagnetInfo): Torrent {
    var t1 := t.(magnet := mag.magnet, sizeName := mag.sizeName);
    if !IsEmptyOpt(mag.quality) then t1.(title := Some(InsertQuality(t.title, NormalizeQuality(mag.quality.value)))) else t1
  }

  /** No usable cache entry: the fetched magnet is taken, or the candidate is skipped without one. */
  function FetchDecision(t: Torrent, c: LfCounters, fetched: MagnetInfo): (d: LfDecision)
    ensures d.LfDecided? && d.write == !IsEmptyOpt(fetched.magnet)
    ensures d.write ==> d.candidate.magnet == fetched.magnet && d.counters == c.(added := c.added + 1)
    ensures !d.write ==> d.candidate == t && d.counters == c.(noMagnet := c.noMagnet + 1)
  {
    if IsEmptyOpt(fetched.magnet) then LfDecided(false, t, c.(noMagnet := c.noMagnet + 1))
    else LfDecided(true, Fetched(t, fetched), c.(added := c.added + 1))
  }

  /**
   * The `decide` callback.  `fetched` is what `GetMagnet` would return for
   * the candidate's url; it is consulted only when the cache has no magnet.
   * A null cached entry is dereferenced and throws.
   */
  function Decide(existing: Existing, t: Torrent, c: LfCounters, fetched: MagnetInfo): (d: LfDecision)
    ensures d.LfThrew? <==> existing == Some(None)
    ensures existing.Some? && existing.value.Some? && !IsEmptyOpt(existing.value.value.magnet) ==>
      d == LfDecided(true, FromCache(t, existing.value.value), c.(fromCache := c.fromCache + 1))
    ensures d.LfDecided? && d.counters.noMagnet > c.noMagnet ==> !d.write && IsEmptyOpt(fetched.magnet)
    ensures d.LfDecided? && d.write ==> !IsEmptyOpt(d.candidate.magnet)
    ensures d.LfDecided? ==> d.counters.added + d.counters.fromCache + d.counters.noMagnet == c.added + c.fromCache + c.noMagnet + 1
  {
    match existing
    case Some(None) => LfThrew
    case Some(Some(cached)) =>
      if !IsEmptyOpt(cached.magnet) then LfDecided(true, FromCache(t, cached), c.(fromCache := c.fromCache + 1))
      else FetchDecision(t, c, fetched)
    case None => FetchDecision(t, c, fetched)
  }

  /** A cached magnet makes the fetch irrelevant: nothing is downloaded. */
  lemma CachedNeedsNoFetch(existing: Existing, t: Torrent, c: LfCounters, f1: MagnetInfo, f2: MagnetInfo)
    requires existing.Some? && existing.value.Some? && !IsEmptyOpt(existing.value.value.magnet)
    ensures Decide(existing, t, c, f1) == Decide(existing, t, c, f2)
  {
  }

  /** Without a cached magnet, a missing fetched magnet skips the candidate. */
  lemma MissingMagnetSkips(existing: Existing, t: Torrent, c: LfCounters, fetched: MagnetInfo)
    requires existing != Some(None)
    requires !(existing.Some? && existing.value.Some? && !IsEmptyOpt(existing.value.value.magnet))
    ensures Decide(existing, t, c, fetched).LfDecided?
    ensures IsEmptyOpt(fetched.magnet) <==> !Decide(existing, t, c, fetched).write
  {
  }
}
