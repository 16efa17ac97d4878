/**
 * What the tracker parsers share: the normalised page range of a `Parse`
 * call, the per-page counters and the loop that sums them, and the
 * counting of `decide` outcomes.
 */
module Trackers {
  import opened Common
  import opened FileDbModel

  const MaxInt32: int := 0x7fff_ffff
  const MinInt32: int := -0x8000_0000

  predicate IsInt32(x: int) { MinInt32 <= x <= MaxInt32 }

  /**
   * The 1-based page range of `Parse(parseFrom, parseTo)`: a non-positive
   * start means page 1, a non-positive end means the start, and the two
   * are swapped when out of order.
   */
  function PageRange(parseFrom: int, parseTo: int): (r: (int, int))
    ensures 1 <= r.0 <= r.1
    ensures var s := if parseFrom > 0 then parseFrom else 1;
            var e := if parseTo > 0 then parseTo else s;
            r == (Min(s, e), Max(s, e))
  {
    var startPage := if parseFrom > 0 then parseFrom else 1;
    var endPage := if parseTo > 0 then parseTo else (if parseFrom > 0 then parseFrom else 1);
    if startPage > endPage then (endPage, startPage) else (startPage, endPage)
  }

  /** Explicit bounds are kept and only put in order. */
  lemma PageRangeOfBounds(parseFrom: int, parseTo: int)
    requires parseFrom > 0 && parseTo > 0
    ensures PageRange(parseFrom, parseTo) == (Min(parseFrom, parseTo), Max(parseFrom, parseTo))
  {
  }

  /** Without arguments the single page 1 is parsed; with only a start, that single page. */
  lemma PageRangeDefaults(parseFrom: int, parseTo: int)
    requires parseTo <= 0
    ensures PageRange(parseFrom, parseTo) == (if parseFrom > 0 then (parseFrom, parseFrom) else (1, 1))
  {
  }

  /** The five counters a page reports. */
  datatype PageStats = PageStats(parsed: int, added: int, updated: int, skipped: int, failed: int)

  const NoStats: PageStats := PageStats(0, 0, 0, 0, 0)

  function Plus(a: PageStats, b: PageStats): PageStats {
    PageStats(a.parsed + b.parsed, a.added + b.added, a.updated + b.updated, a.skipped + b.skipped, a.failed + b.failed)
  }

  /** The totals over the pages `pages`, page by page. */
  function SumStats(pages: seq<int>, fetch: int -> PageStats): PageStats
    decreases |pages|
  {
    if pages == [] then NoStats else Plus(SumStats(pages[..|pages| - 1], fetch), fetch(pages[|pages| - 1]))
  }

  /** The consecutive pages `lo`, `lo + 1`, ..., `hi`. */
  function Pages(lo: int, hi: int): (r: seq<int>)
    ensures |r| == if lo <= hi then hi - lo + 1 else 0
    ensures forall i :: 0 <= i < |r| ==> r[i] == lo + i
    decreases hi - lo
  {
    if lo > hi then [] else Pages(lo, hi - 1) + [hi]
  }

  /**
   * The page loop: every page from `startPage` to `endPage` is fetched
   * once, in order, and the totals are the sums of the pages' counters.
   * Pages are unbounded integers here; see `PageLoopWraps` for 32-bit
   * pages.
   */
  method ParseRange(startPage: int, endPage: int, fetch: int -> PageStats) returns (pages: seq<int>, totals: PageStats)
    ensures pages == Pages(startPage, endPage)
    ensures totals == SumStats(pages, fetch)
  {
    pages := [];
    totals := NoStats;
    var page := startPage;
    while page <= endPage
      invariant startPage <= page <= endPage + 1 || (page == startPage && startPage > endPage)
      invariant pages == Pages(startPage, page - 1)
      invariant totals == SumStats(pages, fetch)
      decreases endPage - page
    {
      var result := fetch(page);
      assert (pages + [page])[..|pages|] == pages;
      pages := pages + [page];
      totals := Plus(totals, result);
      page := page + 1;
    }
  }

  /** `page++` on a C# `int`, which wraps around without a `checked` context. */
  function Inc32(x: int): (r: int)
    requires IsInt32(x)
    ensures IsInt32(r)
  {
    if x == MaxInt32 then MinInt32 else x + 1
  }

  /**
   * The loop condition of `for (page = startPage; page <= endPage; page++)`
   * on 32-bit pages: when `endPage` is `int.MaxValue`, the page after it
   * wraps to `int.MinValue` and still satisfies `page <= endPage`, so the
   * loop never ends.  `Parse(1, int.MaxValue)` is such a call.
   */
  lemma PageLoopWraps()
    ensures PageRange(1, MaxInt32) == (1, MaxInt32)
    ensures Inc32(MaxInt32) <= PageRange(1, MaxInt32).1
  {
  }

  /** Every page the loop fetches lies in the normalised range of `Parse`. */
  lemma ParseRangeBounds(parseFrom: int, parseTo: int, page: int)
    requires var r := PageRange(parseFrom, parseTo); page in Pages(r.0, r.1)
    ensures 1 <= page && (parseFrom > 0 || parseTo > 0 || page == 1)
  {
  }

  // -----------------------------------------------------------------------
  // Torrent files

  /** What `BencodeTo.Magnet` and `BencodeTo.SizeName` give for a downloaded torrent file. */
  datatype Bencoded = Bencoded(magnet: Option<string>, sizeName: Option<string>)

  // -----------------------------------------------------------------------
  // `decide` outcomes

  /** The outcome a `decide` callback counts. */
  datatype Outcome = Added | Updated | Skipped | Failed

  /** The counters after one more outcome. */
  function Bump(c: Counters, o: Outcome): (r: Counters)
    ensures OneBump(c, r)
  {
    match o
    case Added => c.(added := c.added + 1)
    case Updated => c.(updated := c.updated + 1)
    case Skipped => c.(skipped := c.skipped + 1)
    case Failed => c.(failed := c.failed + 1)
  }

  function Total(c: Counters): nat { c.added + c.updated + c.skipped + c.failed }

  /** Each outcome adds one to the total of the counters. */
  lemma BumpTotal(c: Counters, o: Outcome)
    ensures Total(Bump(c, o)) == Total(c) + 1
  {
  }
}
