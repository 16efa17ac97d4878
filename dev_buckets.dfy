/**
 * The per-bucket work of the DevController repair actions.  Each action
 * opens a bucket for writing, walks its dictionary once to collect the
 * entries to remove, fix or re-key, and then applies the removals and
 * updates.  Here the open bucket is a map value and each walk is a loop
 * over its keys in an unspecified order, as .NET dictionary enumeration is.
 */
module DevBuckets {
  import opened Common
  import opened FileDbModel

  /** The URLs whose entry is a null record. */
  function NullUrls(b: Bucket): set<string> {
    set u | u in b && b[u].None?
  }

  /** The bucket with its null entries dropped. */
  function DropNulls(b: Bucket): Bucket {
    map u | u in b && b[u].Some? :: b[u]
  }

  // -----------------------------------------------------------------------
  // RemoveNullValues

  /**
   * Collect the URLs of null entries, then remove them; `removed` is the
   * length of the list, the per-bucket contribution to `totalRemoved`.
   */
  method RemoveNullEntries(db: Bucket) returns (db': Bucket, removed: nat)
    ensures db' == DropNulls(db)
    ensures removed == |NullUrls(db)|
  {
    var keysToRemove: seq<string> := [];
    var rest := db.Keys;
    while rest != {}
      invariant rest <= db.Keys
      invariant Distinct(keysToRemove)
      invariant forall u :: u in keysToRemove <==> u in db && u !in rest && db[u].None?
      decreases |rest|
    {
      var u :| u in rest;
      if db[u].None? {
        keysToRemove := keysToRemove + [u];
      }
      rest := rest - {u};
    }
    assert SetOf(keysToRemove) == NullUrls(db);
    db' := RemoveKeys(db, keysToRemove);
    DistinctCard(keysToRemove);
    removed := |keysToRemove|;
  }

  /** `foreach (var k in keys) Database.Remove(k)`. */
  method RemoveKeys(db: Bucket, keys: seq<string>) returns (db': Bucket)
    ensures db' == db - SetOf(keys)
  {
    db' := db;
    for i := 0 to |keys|
      invariant db' == db - SetOf(keys[..i])
    {
      assert SetOf(keys[..i + 1]) == SetOf(keys[..i]) + {keys[i]};
      db' := db' - {keys[i]};
    }
    assert keys[..|keys|] == keys;
  }

  /** A bucket without null entries is left as it is. */
  lemma DropNullsNoop(b: Bucket)
    requires NullUrls(b) == {}
    ensures DropNulls(b) == b
  {
    assert forall u :: u in b ==> b[u].Some? by {
      forall u | u in b ensures b[u].Some? {
        assert u !in NullUrls(b);
      }
    }
  }

  // -----------------------------------------------------------------------
  // The shared loop of UpdateSearchName and FixEmptySearchFields

  /**
   * The bucket after a repair pass: null entries gone, every other record
   * fixed by `fix`, and records for which `target` names another bucket gone.
   */
  function Repaired(db: Bucket, fix: Torrent -> Torrent, target: Torrent -> Option<string>): Bucket {
    map u | u in db && db[u].Some? && target(db[u].value).None? :: Some(fix(db[u].value))
  }

  /** The `MigrateTorrentToNewKey` call for the record at `u`. */
  function MoveOf(bucketKey: string, db: Bucket, u: string, fix: Torrent -> Torrent, target: Torrent -> Option<string>): Migration
    requires u in db && db[u].Some? && target(db[u].value).Some?
  {
    Migration(bucketKey, u, fix(db[u].value), target(db[u].value).value)
  }

  /** The `MigrateTorrentToNewKey` calls of a repair pass over bucket `bucketKey`. */
  function RepairMoves(bucketKey: string, db: Bucket, fix: Torrent -> Torrent, target: Torrent -> Option<string>): set<Migration> {
    set u | u in db && db[u].Some? && target(db[u].value).Some? :: MoveOf(bucketKey, db, u, fix, target)
  }

  /** A record handed on is a non-null record of the bucket, fixed, going where `target` sends it. */
  lemma RepairMoveShape(bucketKey: string, db: Bucket, fix: Torrent -> Torrent, target: Torrent -> Option<string>, m: Migration)
    requires m in RepairMoves(bucketKey, db, fix, target)
    ensures m.fromKey == bucketKey && m.url in db && db[m.url].Some?
    ensures m.record == fix(db[m.url].value) && target(db[m.url].value) == Some(m.toKey)
  {
    var u :| u in db && db[u].Some? && target(db[u].value).Some? && m == MoveOf(bucketKey, db, u, fix, target);
  }

  /** An entry of the repaired bucket is a non-null record that stays, fixed. */
  lemma RepairedEntry(db: Bucket, fix: Torrent -> Torrent, target: Torrent -> Option<string>, u: string)
    requires u in Repaired(db, fix, target)
    ensures u in db && db[u].Some? && target(db[u].value).None?
    ensures Repaired(db, fix, target)[u] == Some(fix(db[u].value))
  {
  }

  /** Every entry is a record that stays in its bucket and is its own fix. */
  predicate Settled(db: Bucket, fix: Torrent -> Torrent, target: Torrent -> Option<string>) {
    forall u :: u in db ==> db[u].Some? && target(db[u].value).None? && fix(db[u].value) == db[u].value
  }

  lemma RepairSettled(bucketKey: string, db: Bucket, fix: Torrent -> Torrent, target: Torrent -> Option<string>)
    requires Settled(db, fix, target)
    ensures Repaired(db, fix, target) == db
    ensures RepairMoves(bucketKey, db, fix, target) == {} && NullUrls(db) == {}
  {
  }

  /** The URLs whose fixed record moves to another bucket. */
  function MovingUrls(db: Bucket, fix: Torrent -> Torrent, target: Torrent -> Option<string>): set<string> {
    set u | u in db && db[u].Some? && target(db[u].value).Some?
  }

  /** The non-null records whose fix set the flag `which` picks from `flags`. */
  function FlaggedUrls(db: Bucket, flags: Torrent -> (bool, bool), which: int): set<string> {
    set u | u in db && db[u].Some? && Picks(flags(db[u].value), which)
  }

  /** `which` 0: the first flag, 1: the second, otherwise either. */
  predicate Picks(f: (bool, bool), which: int) {
    if which == 0 then f.0 else if which == 1 then f.1 else f.0 || f.1
  }

  /**
   * The state of the repair walk once the keys of `db` outside `rest` are
   * visited: those records are fixed in place, and the lists hold, without
   * repeats, the visited null entries, the visited records to move and the
   * visited records whose fix raised the first, second or either flag.
   */
  ghost predicate Walked(db: Bucket, fix: Torrent -> Torrent, target: Torrent -> Option<string>, flags: Torrent -> (bool, bool),
                         rest: set<string>, live: Bucket, keysToRemove: seq<string>, movingUrls: seq<string>,
                         firsts: seq<string>, seconds: seq<string>, eithers: seq<string>)
  {
    rest <= db.Keys && live.Keys == db.Keys &&
    (forall u :: u in db ==> live[u] == (if u in rest || db[u].None? then db[u] else Some(fix(db[u].value)))) &&
    Lists(keysToRemove, db, rest, NullAt(db)) &&
    Lists(movingUrls, db, rest, MovingAt(db, target)) &&
    Lists(firsts, db, rest, FlaggedAt(db, flags, 0)) &&
    Lists(seconds, db, rest, FlaggedAt(db, flags, 1)) &&
    Lists(eithers, db, rest, FlaggedAt(db, flags, 2))
  }

  /** `xs` holds, without repeats, the visited keys of `db` (those outside `rest`) satisfying `c`. */
  ghost predicate Lists(xs: seq<string>, db: Bucket, rest: set<string>, c: string -> bool) {
    Distinct(xs) && forall u :: u in xs <==> u in db && u !in rest && c(u)
  }

  function NullAt(db: Bucket): string -> bool { u => u in db && db[u].None? }

  function MovingAt(db: Bucket, target: Torrent -> Option<string>): string -> bool {
    u => u in db && db[u].Some? && target(db[u].value).Some?
  }

  function FlaggedAt(db: Bucket, flags: Torrent -> (bool, bool), which: int): string -> bool {
    u => u in db && db[u].Some? && Picks(flags(db[u].value), which)
  }

  /** Visiting `u` appends it to a list exactly when it satisfies the list's condition. */
  lemma ListsStep(xs: seq<string>, db: Bucket, rest: set<string>, c: string -> bool, u: string)
    requires Lists(xs, db, rest, c) && u in rest && u in db
    ensures Lists(if c(u) then xs + [u] else xs, db, rest - {u}, c)
  {
    if c(u) {
      AppendDistinct(xs, u);
    }
  }

  /**
   * The walk over the bucket: every non-null record is fixed in place, the
   * URLs of null entries and of records to move are collected, and the
   * records whose fix raised each of the two flags are counted.
   */
  method WalkForRepair(db: Bucket, fix: Torrent -> Torrent, target: Torrent -> Option<string>, flags: Torrent -> (bool, bool))
    returns (live: Bucket, keysToRemove: seq<string>, movingUrls: seq<string>, nFirst: nat, nSecond: nat, nEither: nat)
    ensures live.Keys == db.Keys
    ensures forall u :: u in db ==> live[u] == (if db[u].None? then db[u] else Some(fix(db[u].value)))
    ensures Distinct(keysToRemove) && SetOf(keysToRemove) == NullUrls(db)
    ensures Distinct(movingUrls) && SetOf(movingUrls) == MovingUrls(db, fix, target)
    ensures nFirst == |FlaggedUrls(db, flags, 0)| && nSecond == |FlaggedUrls(db, flags, 1)|
    ensures nEither == |FlaggedUrls(db, flags, 2)|
  {
    live := db;
    keysToRemove := [];
    movingUrls := [];
    nFirst, nSecond, nEither := 0, 0, 0;
    ghost var firsts: seq<string> := [];
    ghost var seconds: seq<string> := [];
    ghost var eithers: seq<string> := [];
    var rest := db.Keys;
    while rest != {}
      invariant Walked(db, fix, target, flags, rest, live, keysToRemove, movingUrls, firsts, seconds, eithers)
      invariant nFirst == |firsts| && nSecond == |seconds| && nEither == |eithers|
      decreases |rest|
    {
      var u :| u in rest;
      live, keysToRemove, movingUrls, nFirst, nSecond, nEither, firsts, seconds, eithers :=
        VisitForRepair(db, fix, target, flags, rest, u, live, keysToRemove, movingUrls,
                       nFirst, nSecond, nEither, firsts, seconds, eithers);
      rest := rest - {u};
    }
    WalkedCounts(db, fix, target, flags, live, keysToRemove, movingUrls, firsts, seconds, eithers);
  }

  /** One iteration of the repair walk, for the entry at `u`. */
  method VisitForRepair(db: Bucket, fix: Torrent -> Torrent, target: Torrent -> Option<string>, flags: Torrent -> (bool, bool),
                        rest: set<string>, u: string, live: Bucket, keysToRemove: seq<string>, movingUrls: seq<string>,
                        nFirst: nat, nSecond: nat, nEither: nat,
                        ghost firsts: seq<string>, ghost seconds: seq<string>, ghost eithers: seq<string>)
    returns (live': Bucket, keysToRemove': seq<string>, movingUrls': seq<string>, nFirst': nat, nSecond': nat, nEither': nat,
             ghost firsts': seq<string>, ghost seconds': seq<string>, ghost eithers': seq<string>)
    requires Walked(db, fix, target, flags, rest, live, keysToRemove, movingUrls, firsts, seconds, eithers)
    requires nFirst == |firsts| && nSecond == |seconds| && nEither == |eithers|
    requires u in rest
    ensures Walked(db, fix, target, flags, rest - {u}, live', keysToRemove', movingUrls', firsts', seconds', eithers')
    ensures nFirst' == |firsts'| && nSecond' == |seconds'| && nEither' == |eithers'|
  {
    assert live[u] == db[u];
    ListsStep(keysToRemove, db, rest, NullAt(db), u);
    ListsStep(movingUrls, db, rest, MovingAt(db, target), u);
    ListsStep(firsts, db, rest, FlaggedAt(db, flags, 0), u);
    ListsStep(seconds, db, rest, FlaggedAt(db, flags, 1), u);
    ListsStep(eithers, db, rest, FlaggedAt(db, flags, 2), u);
    live', keysToRemove', movingUrls' := live, keysToRemove, movingUrls;
    nFirst', nSecond', nEither', firsts', seconds', eithers' := nFirst, nSecond, nEither, firsts, seconds, eithers;
    if live[u].Some? {
      var t := fix(live[u].value);
      var f := flags(live[u].value);
      if f.0 || f.1 {
        nEither', eithers' := nEither + 1, eithers + [u];
        if f.0 { nFirst', firsts' := nFirst + 1, firsts + [u]; }
        if f.1 { nSecond', seconds' := nSecond + 1, seconds + [u]; }
      }
      if target(live[u].value).Some? {
        movingUrls' := movingUrls + [u];
      }
      live' := live[u := Some(t)];
    } else {
      keysToRemove' := keysToRemove + [u];
    }
  }

  /** At the end of the walk the lists are exactly the sets they stand for. */
  lemma WalkedCounts(db: Bucket, fix: Torrent -> Torrent, target: Torrent -> Option<string>, flags: Torrent -> (bool, bool),
                     live: Bucket, keysToRemove: seq<string>, movingUrls: seq<string>,
                     firsts: seq<string>, seconds: seq<string>, eithers: seq<string>)
    requires Walked(db, fix, target, flags, {}, live, keysToRemove, movingUrls, firsts, seconds, eithers)
    ensures live.Keys == db.Keys
    ensures forall u :: u in db ==> live[u] == (if db[u].None? then db[u] else Some(fix(db[u].value)))
    ensures Distinct(keysToRemove) && SetOf(keysToRemove) == NullUrls(db)
    ensures Distinct(movingUrls) && SetOf(movingUrls) == MovingUrls(db, fix, target)
    ensures |firsts| == |FlaggedUrls(db, flags, 0)| && |seconds| == |FlaggedUrls(db, flags, 1)|
    ensures |eithers| == |FlaggedUrls(db, flags, 2)|
  {
    assert SetOf(keysToRemove) == NullUrls(db) by { ListsDone(keysToRemove, db, NullAt(db)); }
    assert SetOf(movingUrls) == MovingUrls(db, fix, target) by { ListsDone(movingUrls, db, MovingAt(db, target)); }
    assert SetOf(firsts) == FlaggedUrls(db, flags, 0) by { ListsDone(firsts, db, FlaggedAt(db, flags, 0)); }
    assert SetOf(seconds) == FlaggedUrls(db, flags, 1) by { ListsDone(seconds, db, FlaggedAt(db, flags, 1)); }
    assert SetOf(eithers) == FlaggedUrls(db, flags, 2) by { ListsDone(eithers, db, FlaggedAt(db, flags, 2)); }
    DistinctCard(firsts);
    DistinctCard(seconds);
    DistinctCard(eithers);
  }

  /** Once nothing is left to visit, a list holds exactly the keys satisfying its condition. */
  lemma ListsDone(xs: seq<string>, db: Bucket, c: string -> bool)
    requires Lists(xs, db, {}, c)
    ensures Distinct(xs) && forall u :: u in SetOf(xs) <==> u in db && c(u)
  {
  }

  /**
   * One repair pass over a bucket: the walk, then the null entries are
   * removed, then every moving record is removed and handed to
   * `MigrateTorrentToNewKey`.
   */
  method RepairBucket(bucketKey: string, db: Bucket, fix: Torrent -> Torrent, target: Torrent -> Option<string>,
                      flags: Torrent -> (bool, bool))
    returns (db': Bucket, moved: seq<Migration>, nulls: nat, nFirst: nat, nSecond: nat, nEither: nat)
    ensures db' == Repaired(db, fix, target)
    ensures Distinct(moved) && SetOf(moved) == RepairMoves(bucketKey, db, fix, target)
    ensures |moved| == |MovingUrls(db, fix, target)|
    ensures nulls == |NullUrls(db)|
    ensures nFirst == |FlaggedUrls(db, flags, 0)| && nSecond == |FlaggedUrls(db, flags, 1)|
    ensures nEither == |FlaggedUrls(db, flags, 2)|
  {
    var live, keysToRemove, movingUrls;
    live, keysToRemove, movingUrls, nFirst, nSecond, nEither := WalkForRepair(db, fix, target, flags);
    db' := RemoveKeys(live, keysToRemove);
    db' := RemoveKeys(db', movingUrls);
    RepairedAfterRemovals(db, fix, target, live, keysToRemove, movingUrls);
    MovesForSet(bucketKey, db, movingUrls, fix, target);
    moved := MovesFor(bucketKey, db, movingUrls, fix, target);
    DistinctCard(keysToRemove);
    DistinctCard(movingUrls);
    nulls := |keysToRemove|;
  }

  /** Removing the null entries and then the moving records from the fixed bucket leaves the repaired bucket. */
  lemma RepairedAfterRemovals(db: Bucket, fix: Torrent -> Torrent, target: Torrent -> Option<string>,
                              live: Bucket, keysToRemove: seq<string>, movingUrls: seq<string>)
    requires live.Keys == db.Keys
    requires forall u :: u in db ==> live[u] == (if db[u].None? then db[u] else Some(fix(db[u].value)))
    requires SetOf(keysToRemove) == NullUrls(db) && SetOf(movingUrls) == MovingUrls(db, fix, target)
    ensures live - SetOf(keysToRemove) - SetOf(movingUrls) == Repaired(db, fix, target)
  {
  }

  /** The `MigrateTorrentToNewKey` calls for the URLs `urls` of moving records, in their order. */
  function MovesFor(bucketKey: string, db: Bucket, urls: seq<string>, fix: Torrent -> Torrent, target: Torrent -> Option<string>): (r: seq<Migration>)
    requires forall j :: 0 <= j < |urls| ==> urls[j] in db && db[urls[j]].Some? && target(db[urls[j]].value).Some?
    ensures |r| == |urls| && forall j :: 0 <= j < |urls| ==> r[j] == MoveOf(bucketKey, db, urls[j], fix, target)
  {
    seq(|urls|, j requires 0 <= j < |urls| => MoveOf(bucketKey, db, urls[j], fix, target))
  }

  /** The calls for all moving URLs, each once, are exactly the moves of the pass. */
  lemma MovesForSet(bucketKey: string, db: Bucket, urls: seq<string>, fix: Torrent -> Torrent, target: Torrent -> Option<string>)
    requires Distinct(urls) && SetOf(urls) == MovingUrls(db, fix, target)
    ensures forall j :: 0 <= j < |urls| ==> urls[j] in db && db[urls[j]].Some? && target(db[urls[j]].value).Some?
    ensures var moved := MovesFor(bucketKey, db, urls, fix, target);
      Distinct(moved) && SetOf(moved) == RepairMoves(bucketKey, db, fix, target)
  {
    assert forall j :: 0 <= j < |urls| ==> urls[j] in SetOf(urls) && urls[j] in MovingUrls(db, fix, target);
    var moved := MovesFor(bucketKey, db, urls, fix, target);
    forall u | u in MovingUrls(db, fix, target) ensures MoveOf(bucketKey, db, u, fix, target) in moved {
      assert u in SetOf(urls);
      var j :| 0 <= j < |urls| && urls[j] == u;
      assert moved[j] == MoveOf(bucketKey, db, u, fix, target);
    }
  }
}
