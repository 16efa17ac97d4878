/**
 * The two DevController actions that give records a new URL key inside
 * their own bucket: MigrateAnilibertyUrls (append the magnet's info hash)
 * and FixAnimelayerDuplicates (http to https).  Both first walk the bucket
 * to fill a `toUpdate` list and then apply each entry as
 * `Remove(oldUrl); torrent.url = newUrl; Database[newUrl] = torrent`.
 */
module DevRekeys {
  import opened Common
  import opened FileDbModel
  import opened DevBuckets

  /** One `toUpdate` entry: the old key, the new key and the record. */
  datatype Rekey = Rekey(from: string, to: string, record: Torrent)

  /** The bucket after applying `ups` in list order. */
  function ApplyAll(db: Bucket, ups: seq<Rekey>): Bucket
    decreases |ups|
  {
    if ups == [] then db
    else ApplyAll((db - {ups[0].from})[ups[0].to := Some(ups[0].record.(url := ups[0].to))], ups[1..])
  }

  function Sources(ups: seq<Rekey>): set<string>
    decreases |ups|
  {
    if ups == [] then {} else {ups[0].from} + Sources(ups[1..])
  }

  function Targets(ups: seq<Rekey>): set<string>
    decreases |ups|
  {
    if ups == [] then {} else {ups[0].to} + Targets(ups[1..])
  }

  lemma {:induction false} SourcesTargetsAppend(ups: seq<Rekey>, x: Rekey)
    ensures Sources(ups + [x]) == Sources(ups) + {x.from}
    ensures Targets(ups + [x]) == Targets(ups) + {x.to}
    decreases |ups|
  {
    if ups != [] {
      assert (ups + [x])[1..] == ups[1..] + [x];
      SourcesTargetsAppend(ups[1..], x);
    }
  }

  lemma {:induction false} TargetsIndex(ups: seq<Rekey>, k: string)
    ensures k in Targets(ups) <==> exists j :: 0 <= j < |ups| && ups[j].to == k
    decreases |ups|
  {
    if ups != [] {
      TargetsIndex(ups[1..], k);
      if k in Targets(ups[1..]) {
        var j :| 0 <= j < |ups[1..]| && ups[1..][j].to == k;
        assert ups[j + 1].to == k;
      }
      if exists j :: 0 <= j < |ups| && ups[j].to == k {
        var j :| 0 <= j < |ups| && ups[j].to == k;
        if j > 0 { assert ups[1..][j - 1].to == k; }
      }
    }
  }

  /** The `foreach` over `toUpdate`. */
  method ApplyRekeys(db: Bucket, ups: seq<Rekey>) returns (db': Bucket)
    ensures db' == ApplyAll(db, ups)
  {
    db' := db;
    for i := 0 to |ups|
      invariant ApplyAll(db', ups[i..]) == ApplyAll(db, ups)
    {
      assert ups[i..][1..] == ups[i + 1..];
      var r := ups[i];
      db' := db' - {r.from};
      db' := db'[r.to := Some(r.record.(url := r.to))];
    }
  }

  /**
   * A key that no step writes: it survives, with its entry, exactly when it
   * was there and no step removes it.
   */
  lemma {:induction false} ApplyAllNotTarget(db: Bucket, ups: seq<Rekey>, k: string)
    requires k !in Targets(ups)
    ensures k in ApplyAll(db, ups) <==> k in db && k !in Sources(ups)
    ensures k in ApplyAll(db, ups) ==> ApplyAll(db, ups)[k] == db[k]
    decreases |ups|
  {
    if ups != [] {
      ApplyAllNotTarget((db - {ups[0].from})[ups[0].to := Some(ups[0].record.(url := ups[0].to))], ups[1..], k);
    }
  }

  /**
   * A key that some step writes and no step removes ends up holding the
   * record of one of the steps that write it, with its `url` set to the key.
   */
  lemma {:induction false} ApplyAllTarget(db: Bucket, ups: seq<Rekey>, k: string)
    requires k in Targets(ups) && k !in Sources(ups)
    ensures k in ApplyAll(db, ups)
    ensures exists j :: 0 <= j < |ups| && ups[j].to == k && ApplyAll(db, ups)[k] == Some(ups[j].record.(url := k))
    decreases |ups|
  {
    var db1 := (db - {ups[0].from})[ups[0].to := Some(ups[0].record.(url := ups[0].to))];
    assert ApplyAll(db, ups) == ApplyAll(db1, ups[1..]);
    if k in Targets(ups[1..]) {
      ApplyAllTarget(db1, ups[1..], k);
      var j :| 0 <= j < |ups[1..]| && ups[1..][j].to == k && ApplyAll(db1, ups[1..])[k] == Some(ups[1..][j].record.(url := k));
      assert ups[j + 1].to == k;
    } else {
      ApplyAllNotTarget(db1, ups[1..], k);
      assert ups[0].to == k;
    }
  }

  /** `string.Equals(torrent.trackerName, name, StringComparison.OrdinalIgnoreCase)`. */
  predicate IsTracker(t: Torrent, name: string) { EqIgnoreCase(t.trackerName, name) }

  /** The 40-digit hash of the first `urn:btih:` in a non-blank magnet (BitTorrent BEP 9). */
  function MagnetHash(t: Torrent): (r: Option<string>)
    ensures r.Some? ==> |r.value| == 40 && !t.magnet.None?
  {
    if IsBlankOpt(t.magnet) then None else FindHexAfter(t.magnet.value, "urn:btih:", 40)
  }

  // -----------------------------------------------------------------------
  // MigrateAnilibertyUrls

  /** The new key: `&hash=` when the URL already has a query, `?hash=` otherwise. */
  function HashedUrl(u: string, h: string): string {
    if HasChar(u, '?') then u + "&hash=" + h else u + "?hash=" + h
  }

  /** How MigrateAnilibertyUrls treats the entry at `u`. */
  datatype UrlMigration = NotAniliberty | AlreadyHashed | NoHash | ToHashed(newUrl: string)

  function ClassifyAniliberty(u: string, e: Option<Torrent>): UrlMigration {
    if e.None? || !IsTracker(e.value, "aniliberty") then NotAniliberty
    else if Contains(u, "?hash=") then AlreadyHashed
    else match MagnetHash(e.value)
      case None => NoHash
      case Some(h) => ToHashed(HashedUrl(u, h))
  }

  /** The URLs of aniliberty records. */
  function AnilibertyUrls(db: Bucket): set<string> {
    set u | u in db && ClassifyAniliberty(u, db[u]) != NotAniliberty
  }

  /** The URLs of aniliberty records whose key already has `?hash=`. */
  function HashedUrls(db: Bucket): set<string> {
    set u | u in db && ClassifyAniliberty(u, db[u]) == AlreadyHashed
  }

  /** The URLs of aniliberty records whose magnet yields no hash. */
  function UnhashableUrls(db: Bucket): set<string> {
    set u | u in db && ClassifyAniliberty(u, db[u]) == NoHash
  }

  /** The URLs of aniliberty records that are re-keyed. */
  function RehashedUrls(db: Bucket): set<string> {
    set u | u in db && ClassifyAniliberty(u, db[u]).ToHashed?
  }

  /**
   * `ups` is a valid `toUpdate` list for `db`: one step per URL classified
   * `ToHashed`, each carrying that URL's record and new key, in any order.
   */
  predicate IsAnilibertyPlan(db: Bucket, ups: seq<Rekey>) {
    (forall j :: 0 <= j < |ups| ==>
       ups[j].from in db && db[ups[j].from].Some? && ups[j].record == db[ups[j].from].value &&
       ClassifyAniliberty(ups[j].from, db[ups[j].from]) == ToHashed(ups[j].to)) &&
    (forall i, j :: 0 <= i < j < |ups| ==> ups[i].from != ups[j].from) &&
    (forall u :: u in db && ClassifyAniliberty(u, db[u]).ToHashed? ==> u in Sources(ups))
  }

  /** A valid plan re-keys every re-keyable URL exactly once. */
  lemma AnilibertyPlanSize(db: Bucket, ups: seq<Rekey>)
    requires IsAnilibertyPlan(db, ups)
    ensures |ups| == |RehashedUrls(db)|
  {
    var srcs := seq(|ups|, j requires 0 <= j < |ups| => ups[j].from);
    forall u | u in RehashedUrls(db) ensures u in srcs {
      SourcesIndex(ups, u);
      var j :| 0 <= j < |ups| && ups[j].from == u;
      assert srcs[j] == u;
    }
    assert SetOf(srcs) == RehashedUrls(db);
    DistinctCard(srcs);
  }

  /**
   * MigrateAnilibertyUrls on one bucket.  `processed` counts aniliberty
   * records, `skipped` those whose key already has `?hash=`, `errors` those
   * without a hash; every other aniliberty record is re-keyed.
   */
  method MigrateAnilibertyBucket(db: Bucket) returns (db': Bucket, ups: seq<Rekey>, processed: nat, skipped: nat, errors: nat)
    ensures IsAnilibertyPlan(db, ups)
    ensures db' == ApplyAll(db, ups)
    ensures processed == skipped + errors + |ups|
    ensures processed == |AnilibertyUrls(db)|
    ensures skipped == |HashedUrls(db)|
    ensures errors == |UnhashableUrls(db)|
    ensures |ups| == |RehashedUrls(db)|
  {
    ups, processed, skipped, errors := WalkAniliberty(db);
    db' := ApplyRekeys(db, ups);
  }

  /** The walk of MigrateAnilibertyUrls over one bucket: it fills `toUpdate` and the counters. */
  method WalkAniliberty(db: Bucket) returns (ups: seq<Rekey>, processed: nat, skipped: nat, errors: nat)
    ensures IsAnilibertyPlan(db, ups)
    ensures processed == skipped + errors + |ups|
    ensures processed == |AnilibertyUrls(db)|
    ensures skipped == |HashedUrls(db)|
    ensures errors == |UnhashableUrls(db)|
    ensures |ups| == |RehashedUrls(db)|
  {
    ghost var skipList, errList, moveList;
    ups, processed, skipped, errors, skipList, errList, moveList :=
      WalkClassified(db, map u | u in db :: ClassifyAniliberty(u, db[u]));
    WalkAnilibertyCounts(db, skipList, errList, moveList);
  }

  /**
   * The loop of the walk, given the classification `cls` of every entry
   * (the filter chain of the loop body: tracker, `?hash=` in the key, hash
   * in the magnet).
   */
  method WalkClassified(db: Bucket, cls: map<string, UrlMigration>)
    returns (ups: seq<Rekey>, processed: nat, skipped: nat, errors: nat,
             ghost skipList: seq<string>, ghost errList: seq<string>, ghost moveList: seq<string>)
    requires cls.Keys == db.Keys
    requires forall u :: u in db && cls[u] != NotAniliberty ==> db[u].Some?
    ensures forall j :: 0 <= j < |ups| ==>
      ups[j].from in db && db[ups[j].from].Some? && ups[j].record == db[ups[j].from].value &&
      cls[ups[j].from] == ToHashed(ups[j].to)
    ensures forall i, j :: 0 <= i < j < |ups| ==> ups[i].from != ups[j].from
    ensures forall u :: u in Sources(ups) <==> u in db && cls[u].ToHashed?
    ensures processed == skipped + errors + |ups|
    ensures Distinct(skipList) && Distinct(errList) && Distinct(moveList)
    ensures |skipList| == skipped && |errList| == errors && |moveList| == |ups|
    ensures forall u :: u in skipList <==> u in db && cls[u] == AlreadyHashed
    ensures forall u :: u in errList <==> u in db && cls[u] == NoHash
    ensures forall u :: u in moveList <==> u in db && cls[u].ToHashed?
  {
    ups := [];
    processed, skipped, errors := 0, 0, 0;
    skipList, errList, moveList := [], [], [];
    var rest := db.Keys;
    while rest != {}
      invariant ClassifiedWalked(db, cls, rest, ups, processed, skipped, errors, skipList, errList, moveList)
      decreases |rest|
    {
      var u :| u in rest;
      ClassifiedVisit(db, cls, rest, ups, processed, skipped, errors, skipList, errList, moveList, u);
      var c := cls[u];
      if c != NotAniliberty {
        processed := processed + 1;
        if c == AlreadyHashed {
          skipped := skipped + 1;
          skipList := skipList + [u];
        } else if c == NoHash {
          errors := errors + 1;
          errList := errList + [u];
        } else {
          ups := ups + [Rekey(u, c.newUrl, db[u].value)];
          moveList := moveList + [u];
        }
      }
      rest := rest - {u};
    }
    ClassifiedDone(db, cls, ups, moveList);
  }

  /** The state of the walk once the keys of `db` outside `rest` are visited. */
  ghost predicate ClassifiedWalked(db: Bucket, cls: map<string, UrlMigration>, rest: set<string>, ups: seq<Rekey>,
                                   processed: nat, skipped: nat, errors: nat,
                                   skipList: seq<string>, errList: seq<string>, moveList: seq<string>)
  {
    cls.Keys == db.Keys && (forall u :: u in db && cls[u] != NotAniliberty ==> db[u].Some?) &&
    rest <= db.Keys &&
    processed == skipped + errors + |ups| &&
    |moveList| == |ups| && (forall j :: 0 <= j < |ups| ==> moveList[j] == ups[j].from) &&
    (forall j :: 0 <= j < |ups| ==>
       ups[j].from in db && db[ups[j].from].Some? && ups[j].record == db[ups[j].from].value &&
       cls[ups[j].from] == ToHashed(ups[j].to)) &&
    Distinct(skipList) && Distinct(errList) && Distinct(moveList) &&
    |skipList| == skipped && |errList| == errors &&
    (forall u :: u in skipList <==> u in db && u !in rest && cls[u] == AlreadyHashed) &&
    (forall u :: u in errList <==> u in db && u !in rest && cls[u] == NoHash) &&
    (forall u :: u in moveList <==> u in db && u !in rest && cls[u].ToHashed?)
  }

  /** Visiting `u` counts it and files it by its classification. */
  lemma ClassifiedVisit(db: Bucket, cls: map<string, UrlMigration>, rest: set<string>, ups: seq<Rekey>,
                        processed: nat, skipped: nat, errors: nat,
                        skipList: seq<string>, errList: seq<string>, moveList: seq<string>, u: string)
    requires ClassifiedWalked(db, cls, rest, ups, processed, skipped, errors, skipList, errList, moveList) && u in rest
    ensures var c := cls[u];
      ClassifiedWalked(db, cls, rest - {u},
                       if c.ToHashed? then ups + [Rekey(u, c.newUrl, db[u].value)] else ups,
                       if c != NotAniliberty then processed + 1 else processed,
                       if c == AlreadyHashed then skipped + 1 else skipped,
                       if c == NoHash then errors + 1 else errors,
                       if c == AlreadyHashed then skipList + [u] else skipList,
                       if c == NoHash then errList + [u] else errList,
                       if c.ToHashed? then moveList + [u] else moveList)
  {
    var c := cls[u];
    if c == AlreadyHashed {
      AppendDistinct(skipList, u);
      ClassifiedSkip(db, cls, rest, ups, processed, skipped, errors, skipList, errList, moveList, u);
    } else if c == NoHash {
      AppendDistinct(errList, u);
      ClassifiedError(db, cls, rest, ups, processed, skipped, errors, skipList, errList, moveList, u);
    } else if c.ToHashed? {
      AppendDistinct(moveList, u);
      ClassifiedMove(db, cls, rest, ups, processed, skipped, errors, skipList, errList, moveList, u);
    }
  }

  lemma ClassifiedSkip(db: Bucket, cls: map<string, UrlMigration>, rest: set<string>, ups: seq<Rekey>,
                       processed: nat, skipped: nat, errors: nat,
                       skipList: seq<string>, errList: seq<string>, moveList: seq<string>, u: string)
    requires ClassifiedWalked(db, cls, rest, ups, processed, skipped, errors, skipList, errList, moveList) && u in rest
    requires cls[u] == AlreadyHashed && Distinct(skipList + [u])
    ensures ClassifiedWalked(db, cls, rest - {u}, ups, processed + 1, skipped + 1, errors, skipList + [u], errList, moveList)
  {
  }

  lemma ClassifiedError(db: Bucket, cls: map<string, UrlMigration>, rest: set<string>, ups: seq<Rekey>,
                        processed: nat, skipped: nat, errors: nat,
                        skipList: seq<string>, errList: seq<string>, moveList: seq<string>, u: string)
    requires ClassifiedWalked(db, cls, rest, ups, processed, skipped, errors, skipList, errList, moveList) && u in rest
    requires cls[u] == NoHash && Distinct(errList + [u])
    ensures ClassifiedWalked(db, cls, rest - {u}, ups, processed + 1, skipped, errors + 1, skipList, errList + [u], moveList)
  {
  }

  lemma ClassifiedMove(db: Bucket, cls: map<string, UrlMigration>, rest: set<string>, ups: seq<Rekey>,
                       processed: nat, skipped: nat, errors: nat,
                       skipList: seq<string>, errList: seq<string>, moveList: seq<string>, u: string)
    requires ClassifiedWalked(db, cls, rest, ups, processed, skipped, errors, skipList, errList, moveList) && u in rest
    requires cls[u].ToHashed? && Distinct(moveList + [u])
    ensures ClassifiedWalked(db, cls, rest - {u}, ups + [Rekey(u, cls[u].newUrl, db[u].value)], processed + 1, skipped, errors,
                             skipList, errList, moveList + [u])
  {
  }

  /** At the end of the walk the sources of the re-keys are the listed moves, each once. */
  lemma ClassifiedDone(db: Bucket, cls: map<string, UrlMigration>, ups: seq<Rekey>, moveList: seq<string>)
    requires Distinct(moveList) && |moveList| == |ups| && forall j :: 0 <= j < |ups| ==> moveList[j] == ups[j].from
    ensures forall i, j :: 0 <= i < j < |ups| ==> ups[i].from != ups[j].from
    ensures forall u :: u in Sources(ups) <==> u in moveList
  {
    forall i, j | 0 <= i < j < |ups| ensures ups[i].from != ups[j].from {
      assert moveList[i] != moveList[j];
    }
    forall u ensures u in Sources(ups) <==> u in moveList {
      SourcesIndex(ups, u);
    }
  }

  /** The lists the walk collects have the sizes of the URL sets they enumerate. */
  lemma WalkAnilibertyCounts(db: Bucket, skipList: seq<string>, errList: seq<string>, moveList: seq<string>)
    requires Distinct(skipList) && Distinct(errList) && Distinct(moveList)
    requires forall u :: u in skipList <==> u in db && ClassifyAniliberty(u, db[u]) == AlreadyHashed
    requires forall u :: u in errList <==> u in db && ClassifyAniliberty(u, db[u]) == NoHash
    requires forall u :: u in moveList <==> u in db && ClassifyAniliberty(u, db[u]).ToHashed?
    ensures |skipList| == |HashedUrls(db)| && |errList| == |UnhashableUrls(db)| && |moveList| == |RehashedUrls(db)|
    ensures |AnilibertyUrls(db)| == |skipList| + |errList| + |moveList|
  {
    assert SetOf(skipList) == HashedUrls(db);
    assert SetOf(errList) == UnhashableUrls(db);
    assert SetOf(moveList) == RehashedUrls(db);
    DistinctCard(skipList);
    DistinctCard(errList);
    DistinctCard(moveList);
    AnilibertyPartition(db);
  }

  /** Every aniliberty record is skipped, an error, or re-keyed. */
  lemma AnilibertyPartition(db: Bucket)
    ensures |AnilibertyUrls(db)| == |HashedUrls(db)| + |UnhashableUrls(db)| + |RehashedUrls(db)|
  {
    assert AnilibertyUrls(db) == HashedUrls(db) + UnhashableUrls(db) + RehashedUrls(db);
    assert HashedUrls(db) * UnhashableUrls(db) == {};
    assert (HashedUrls(db) + UnhashableUrls(db)) * RehashedUrls(db) == {};
  }

  /** A key re-keyed from a URL without '?' carries `?hash=`, so a second run skips it. */
  lemma HashedUrlSkippedNextRun(u: string, h: string)
    requires !HasChar(u, '?')
    ensures Contains(HashedUrl(u, h), "?hash=")
    ensures HashedUrl(u, h) == u + "?hash=" + h
  {
    var s := u + "?hash=" + h;
    assert s[|u|..|u| + 6] == "?hash=";
    OccursContains(s, "?hash=", |u|);
  }

  /**
   * When no re-keyed URL has a '?', the pass is exactly: every re-keyed URL
   * is gone, every new key holds a record re-keyed to it (with `url` set),
   * and every other entry is as it was.
   */
  lemma MigrateAnilibertyOutcome(db: Bucket, ups: seq<Rekey>, k: string)
    requires IsAnilibertyPlan(db, ups)
    requires forall j :: 0 <= j < |ups| ==> !HasChar(ups[j].from, '?')
    ensures k in Sources(ups) ==> k !in Targets(ups) && k !in ApplyAll(db, ups)
    ensures k !in Sources(ups) && k !in Targets(ups) ==>
      (k in ApplyAll(db, ups) <==> k in db) && (k in db ==> ApplyAll(db, ups)[k] == db[k])
    ensures k in Targets(ups) ==>
      k in ApplyAll(db, ups) &&
      exists j :: 0 <= j < |ups| && ups[j].to == k && ApplyAll(db, ups)[k] == Some(db[ups[j].from].value.(url := k))
  {
    TargetsIndex(ups, k);
    if k in Targets(ups) {
      var j :| 0 <= j < |ups| && ups[j].to == k;
      var h := MagnetHash(ups[j].record).value;
      assert k == HashedUrl(ups[j].from, h);
      HashedUrlSkippedNextRun(ups[j].from, h);
      SourcesIndex(ups, k);
      forall i | 0 <= i < |ups| ensures ups[i].from != k {
        assert !Contains(ups[i].from, "?hash=");
      }
      ApplyAllTarget(db, ups, k);
    } else {
      ApplyAllNotTarget(db, ups, k);
    }
  }

  // -----------------------------------------------------------------------
  // FixAnimelayerDuplicates

  /** `url.Replace("http://", "https://", StringComparison.OrdinalIgnoreCase)`. */
  function HttpsTwin(u: string): string {
    ReplaceAllIgnoreCase(u, "http://", "https://")
  }

  /** An animelayer record under a key that starts with `http://` and not with `https://` (any case). */
  predicate IsHttpAnimelayer(u: string, e: Option<Torrent>) {
    e.Some? && IsTracker(e.value, "animelayer") &&
    !StartsWithIgnoreCase(u, "https://") && StartsWithIgnoreCase(u, "http://")
  }

  /** How the second pass treats the entry at `u`. */
  datatype HttpFix = Untouched | DropHttp | ToHttps(newUrl: string)

  function ClassifyAnimelayer(db: Bucket, u: string): HttpFix
    requires u in db
  {
    if !IsHttpAnimelayer(u, db[u]) then Untouched
    else if HttpsTwin(u) in db then DropHttp
    else ToHttps(HttpsTwin(u))
  }

  /** The twin of an `http://` key starts with `https://`. */
  lemma HttpsTwinIsHttps(u: string)
    requires StartsWithIgnoreCase(u, "http://")
    ensures StartsWith(HttpsTwin(u), "https://") && StartsWithIgnoreCase(HttpsTwin(u), "https://")
  {
    var t := HttpsTwin(u);
    assert t == "https://" + HttpsTwin(u[7..]);
    assert t[..8] == "https://";
  }

  /** A valid `toUpdate` list: one step per http key whose twin is not already there. */
  predicate IsAnimelayerPlan(db: Bucket, ups: seq<Rekey>) {
    (forall j :: 0 <= j < |ups| ==>
       ups[j].from in db && db[ups[j].from].Some? && ups[j].record == db[ups[j].from].value &&
       ClassifyAnimelayer(db, ups[j].from) == ToHttps(ups[j].to)) &&
    (forall i, j :: 0 <= i < j < |ups| ==> ups[i].from != ups[j].from) &&
    (forall u :: u in db && ClassifyAnimelayer(db, u).ToHttps? ==> u in Sources(ups))
  }

  /** The http animelayer keys of bucket `db` whose https twin is already there. */
  function DroppedHttp(db: Bucket): set<string> {
    set u | u in db && ClassifyAnimelayer(db, u) == DropHttp
  }

  /** The http animelayer keys of bucket `db` that move to their https twin. */
  function MovedHttp(db: Bucket): set<string> {
    set u | u in db && ClassifyAnimelayer(db, u).ToHttps?
  }

  /** A valid plan re-keys every http key without a twin exactly once. */
  lemma AnimelayerPlanSize(db: Bucket, ups: seq<Rekey>)
    requires IsAnimelayerPlan(db, ups)
    ensures |ups| == |MovedHttp(db)|
  {
    var srcs := seq(|ups|, j requires 0 <= j < |ups| => ups[j].from);
    forall u | u in MovedHttp(db) ensures u in srcs {
      SourcesIndex(ups, u);
      var j :| 0 <= j < |ups| && ups[j].from == u;
      assert srcs[j] == u;
    }
    assert SetOf(srcs) == MovedHttp(db);
    DistinctCard(srcs);
  }

  /** The walk of the second pass: it fills `toRemove` and `toUpdate`. */
  method WalkAnimelayer(db: Bucket) returns (toRemove: seq<string>, ups: seq<Rekey>)
    ensures Distinct(toRemove)
    ensures forall u :: u in toRemove <==> u in db && ClassifyAnimelayer(db, u) == DropHttp
    ensures IsAnimelayerPlan(db, ups)
  {
    toRemove := [];
    ups := [];
    var rest := db.Keys;
    while rest != {}
      invariant AnimelayerWalked(db, rest, toRemove, ups)
      decreases |rest|
    {
      var u :| u in rest;
      AnimelayerVisit(db, rest, toRemove, ups, u);
      var entry := db[u];
      if entry.Some? && IsTracker(entry.value, "animelayer") && !StartsWithIgnoreCase(u, "https://") {
        if StartsWithIgnoreCase(u, "http://") {
          var newUrl := HttpsTwin(u);
          if newUrl in db {
            toRemove := toRemove + [u];
          } else {
            ups := ups + [Rekey(u, newUrl, entry.value)];
          }
        }
      }
      rest := rest - {u};
    }
  }

  /** The state of the second pass's walk once the keys of `db` outside `rest` are visited. */
  ghost predicate AnimelayerWalked(db: Bucket, rest: set<string>, toRemove: seq<string>, ups: seq<Rekey>) {
    rest <= db.Keys &&
    Distinct(toRemove) &&
    (forall u :: u in toRemove <==> u in db && u !in rest && ClassifyAnimelayer(db, u) == DropHttp) &&
    (forall j :: 0 <= j < |ups| ==>
       ups[j].from in db && ups[j].from !in rest && db[ups[j].from].Some? && ups[j].record == db[ups[j].from].value &&
       ClassifyAnimelayer(db, ups[j].from) == ToHttps(ups[j].to)) &&
    (forall i, j :: 0 <= i < j < |ups| ==> ups[i].from != ups[j].from) &&
    (forall u :: u in Sources(ups) <==> u in db && u !in rest && ClassifyAnimelayer(db, u).ToHttps?)
  }

  /** Visiting `u` files it under `toRemove` or `toUpdate` by its classification. */
  lemma AnimelayerVisit(db: Bucket, rest: set<string>, toRemove: seq<string>, ups: seq<Rekey>, u: string)
    requires AnimelayerWalked(db, rest, toRemove, ups) && u in rest
    ensures var c := ClassifyAnimelayer(db, u);
      AnimelayerWalked(db, rest - {u}, if c == DropHttp then toRemove + [u] else toRemove,
                       if c.ToHttps? then ups + [Rekey(u, c.newUrl, db[u].value)] else ups)
  {
    var c := ClassifyAnimelayer(db, u);
    if c == DropHttp {
      AppendDistinct(toRemove, u);
    } else if c.ToHttps? {
      var x := Rekey(u, c.newUrl, db[u].value);
      SourcesTargetsAppend(ups, x);
      assert u !in Sources(ups);
      forall j | 0 <= j < |ups| ensures ups[j].from != u {
        SourcesIndex(ups, ups[j].from);
      }
    }
  }

  /**
   * The second pass of FixAnimelayerDuplicates on one bucket: http keys
   * whose https twin exists are removed, the others re-keyed to the twin.
   */
  method FixAnimelayerBucket(db: Bucket) returns (db': Bucket, toRemove: seq<string>, ups: seq<Rekey>)
    ensures Distinct(toRemove)
    ensures forall u :: u in toRemove <==> u in db && ClassifyAnimelayer(db, u) == DropHttp
    ensures IsAnimelayerPlan(db, ups)
    ensures db' == ApplyAll(db - SetOf(toRemove), ups)
  {
    toRemove, ups := WalkAnimelayer(db);
    db' := RemoveKeys(db, toRemove);
    db' := ApplyRekeys(db', ups);
  }

  lemma {:induction false} SourcesIndex(ups: seq<Rekey>, k: string)
    ensures k in Sources(ups) <==> exists j :: 0 <= j < |ups| && ups[j].from == k
    decreases |ups|
  {
    if ups != [] {
      SourcesIndex(ups[1..], k);
      if k in Sources(ups[1..]) {
        var j :| 0 <= j < |ups[1..]| && ups[1..][j].from == k;
        assert ups[j + 1].from == k;
      }
      if exists j :: 0 <= j < |ups| && ups[j].from == k {
        var j :| 0 <= j < |ups| && ups[j].from == k;
        if j > 0 { assert ups[1..][j - 1].from == k; }
      }
    }
  }

  /** No new key of the pass is an old key, and none is a key the pass removes. */
  lemma AnimelayerTargetsFresh(db: Bucket, ups: seq<Rekey>, k: string)
    requires IsAnimelayerPlan(db, ups)
    requires k in Targets(ups)
    ensures k !in db && k !in Sources(ups)
  {
    TargetsIndex(ups, k);
    var j :| 0 <= j < |ups| && ups[j].to == k;
    HttpsTwinIsHttps(ups[j].from);
    SourcesIndex(ups, k);
    forall i | 0 <= i < |ups| ensures ups[i].from != k {
      assert !StartsWithIgnoreCase(ups[i].from, "https://");
    }
  }

  /**
   * What the pass leaves at key `k`: an http animelayer key is gone, its
   * twin holds either its old entry (when it already existed) or a record
   * re-keyed to it, and every other entry is as it was.
   */
  lemma FixAnimelayerOutcome(db: Bucket, toRemove: seq<string>, ups: seq<Rekey>, k: string)
    requires forall u :: u in toRemove <==> u in db && ClassifyAnimelayer(db, u) == DropHttp
    requires IsAnimelayerPlan(db, ups)
    ensures var r := ApplyAll(db - SetOf(toRemove), ups);
      (k in db && IsHttpAnimelayer(k, db[k]) ==> k !in r) &&
      (k in db && !IsHttpAnimelayer(k, db[k]) ==> k in r && r[k] == db[k]) &&
      (k !in db ==> (k in r <==> k in Targets(ups))) &&
      (k in Targets(ups) ==> exists j :: 0 <= j < |ups| && ups[j].to == k && r[k] == Some(db[ups[j].from].value.(url := k)))
  {
    var db0 := db - SetOf(toRemove);
    if k in Targets(ups) {
      AnimelayerTargetsFresh(db, ups, k);
      ApplyAllTarget(db0, ups, k);
    } else {
      ApplyAllNotTarget(db0, ups, k);
      if k in db {
        SourcesIndex(ups, k);
        if IsHttpAnimelayer(k, db[k]) {
          assert k in toRemove || k in Sources(ups);
        } else {
          assert k !in toRemove;
          forall j | 0 <= j < |ups| ensures ups[j].from != k {
            assert ClassifyAnimelayer(db, ups[j].from).ToHttps?;
          }
        }
      }
    }
  }

  /** Pass 1 counts animelayer records and those whose key has no `/torrent/<hex>` id. */
  predicate HasTorrentId(u: string) { FindHexAfter(u, "/torrent/", 1).Some? }

  function AnimelayerUrls(db: Bucket): set<string> {
    set u | u in db && db[u].Some? && IsTracker(db[u].value, "animelayer")
  }

  function AnimelayerUrlsWithoutId(db: Bucket): set<string> {
    set u | u in db && db[u].Some? && IsTracker(db[u].value, "animelayer") && !HasTorrentId(u)
  }

  /** The first pass of FixAnimelayerDuplicates on one bucket (its id map is never read). */
  method CountAnimelayer(db: Bucket) returns (processed: nat, errors: nat)
    ensures processed == |AnimelayerUrls(db)|
    ensures errors == |AnimelayerUrlsWithoutId(db)|
    ensures errors <= processed
  {
    processed, errors := 0, 0;
    ghost var procList: seq<string> := [];
    ghost var errList: seq<string> := [];
    var rest := db.Keys;
    while rest != {}
      invariant rest <= db.Keys
      invariant Distinct(procList) && Distinct(errList)
      invariant processed == |procList| && errors == |errList|
      invariant forall u :: u in procList <==> u in db && u !in rest && db[u].Some? && IsTracker(db[u].value, "animelayer")
      invariant forall u :: u in errList <==> u in db && u !in rest && db[u].Some? && IsTracker(db[u].value, "animelayer") && !HasTorrentId(u)
      decreases |rest|
    {
      var u :| u in rest;
      if db[u].Some? && IsTracker(db[u].value, "animelayer") {
        processed := processed + 1;
        procList := procList + [u];
        if !HasTorrentId(u) {
          errors := errors + 1;
          errList := errList + [u];
        }
      }
      rest := rest - {u};
    }
    assert SetOf(procList) == AnimelayerUrls(db);
    assert SetOf(errList) == AnimelayerUrlsWithoutId(db);
    DistinctCard(procList);
    DistinctCard(errList);
    SubsetCard(SetOf(errList), SetOf(procList));
  }
}
