/**
 * The DevController repair actions over the whole store.  Each action
 * walks a snapshot of the master index (`masterDb.ToArray()`, here the
 * parameter `order`) and does its per-bucket work, which the DevBuckets,
 * DevRekeys and DevDedup modules model; this module threads that work
 * through the store and accumulates the counters the action reports.
 *
 * All actions first refuse callers other than 127.0.0.1 (LocalhostGuard);
 * the methods below are what runs once the guard has let a call through.
 */
module DevController {
  import opened Common
  import opened FileDbModel
  import opened DevBuckets
  import opened DevRecords
  import opened DevRekeys
  import opened DevDedup

  // -----------------------------------------------------------------------
  // The localhost guard

  /** What the guard at the head of every action does. */
  datatype Access = Allowed | BadIp | NullReference

  /**
   * `RemoteIpAddress.ToString() != "127.0.0.1"` (or `RemoteIpAddress?.ToString()`
   * when `nullSafe`): only the IPv4 loopback address is let through, and a
   * missing address is refused with `badip` by the null-safe form and throws
   * in the other.
   */
  function LocalhostGuard(remoteIp: Option<string>, nullSafe: bool): (r: Access)
    ensures r == Allowed <==> remoteIp == Some("127.0.0.1")
    ensures r == NullReference <==> remoteIp.None? && !nullSafe
  {
    match remoteIp
    case None => if nullSafe then BadIp else NullReference
    case Some(ip) => if ip == "127.0.0.1" then Allowed else BadIp
  }

  // -----------------------------------------------------------------------
  // Store-level bookkeeping

  /** The keys of a non-empty list are those of its prefix and its last key. */
  lemma RunOthersPrefix(ks: seq<string>)
    requires ks != []
    ensures SetOf(ks) == SetOf(ks[..|ks| - 1]) + {ks[|ks| - 1]}
  {
    assert ks == ks[..|ks| - 1] + [ks[|ks| - 1]];
  }

  /** The keys of an enumeration prefix, one more at each step. */
  lemma PrefixStep(order: seq<string>, i: int)
    requires Distinct(order) && 0 <= i < |order|
    ensures SetOf(order[..i + 1]) == SetOf(order[..i]) + {order[i]}
    ensures order[i] !in SetOf(order[..i])
    ensures order[..i + 1][..i] == order[..i] && order[..i + 1][i] == order[i]
  {
    assert order[..i + 1] == order[..i] + [order[i]];
    forall j | 0 <= j < i ensures order[..i][j] != order[i] {
      assert order[..i][j] == order[j];
    }
  }

  /** The last key of a repeat-free enumeration is not among the earlier ones. */
  lemma PrefixLast(ks: seq<string>)
    requires Distinct(ks) && ks != []
    ensures Distinct(ks[..|ks| - 1])
    ensures ks[|ks| - 1] !in SetOf(ks[..|ks| - 1])
    ensures SetOf(ks) == SetOf(ks[..|ks| - 1]) + {ks[|ks| - 1]}
  {
    var p := ks[..|ks| - 1];
    assert ks == p + [ks[|ks| - 1]];
    forall j | 0 <= j < |p| ensures p[j] != ks[|ks| - 1] {
      assert p[j] == ks[j];
    }
  }

  // -----------------------------------------------------------------------
  // RemoveNullValues

  predicate HasNulls(bs: map<string, Bucket>, k: string) { NullUrls(Open(bs, k)) != {} }

  function NullsIn(bs: map<string, Bucket>): string -> bool { k => HasNulls(bs, k) }

  function NullCount(bs: map<string, Bucket>): string -> nat { k => |NullUrls(Open(bs, k))| }

  /** The store and the counters of RemoveNullValues part-way through. */
  datatype NullsRun = NullsRun(st: DbState, removed: nat, affectedFiles: nat)

  /** RemoveNullValues on bucket `k`: a bucket with null entries loses them, is saved and counted. */
  function NullsStep(r: NullsRun, k: string): NullsRun {
    var b := Open(r.st.buckets, k);
    var n := |NullUrls(b)|;
    if n > 0 then
      NullsRun(r.st.(buckets := r.st.buckets[k := DropNulls(b)], dirty := r.st.dirty + {k}), r.removed + n, r.affectedFiles + 1)
    else r
  }

  /** RemoveNullValues over the keys `ks`, in that order. */
  function RunNulls(st: DbState, ks: seq<string>): NullsRun
    decreases |ks|
  {
    if ks == [] then NullsRun(st, 0, 0) else NullsStep(RunNulls(st, ks[..|ks| - 1]), ks[|ks| - 1])
  }

  /** RemoveNullValues: the loop over the master index. */
  method RemoveNullValues(db: Store, order: seq<string>) returns (removed: nat, affectedFiles: nat)
    requires Enumerates(order, db.master)
    modifies db
    ensures NullsRun(db.State(), removed, affectedFiles) == RunNulls(old(db.State()), order)
  {
    removed, affectedFiles := 0, 0;
    for i := 0 to |order|
      invariant NullsRun(db.State(), removed, affectedFiles) == RunNulls(old(db.State()), order[..i])
    {
      var k := order[i];
      assert order[..i + 1][..i] == order[..i];
      var b', n := RemoveNullEntries(Open(db.buckets, k));
      if n > 0 {
        db.buckets := db.buckets[k := b'];
        removed := removed + n;
        affectedFiles := affectedFiles + 1;
        db.dirty := db.dirty + {k};
      }
    }
    assert order[..|order|] == order;
  }

  /**
   * Over an enumeration without repeats every listed bucket loses its null
   * entries and nothing else, and the set of buckets stays the same.
   */
  lemma {:induction false} RunNullsBuckets(st: DbState, ks: seq<string>, k: string)
    requires Distinct(ks)
    ensures var r := RunNulls(st, ks);
      r.st.buckets.Keys == st.buckets.Keys &&
      Open(r.st.buckets, k) == if k in ks then DropNulls(Open(st.buckets, k)) else Open(st.buckets, k)
    decreases |ks|
  {
    if ks != [] {
      var p, last := ks[..|ks| - 1], ks[|ks| - 1];
      PrefixLast(ks);
      RunNullsBuckets(st, p, k);
      RunNullsBuckets(st, p, last);
      if k == last && !HasNulls(st.buckets, k) {
        DropNullsNoop(Open(st.buckets, k));
      }
    }
  }

  /**
   * Over an enumeration without repeats exactly the buckets with a null
   * entry are saved, the master index and the moves are untouched,
   * `removed` is the number of null entries and `affectedFiles` the number
   * of buckets that had one.
   */
  lemma {:induction false} RunNullsCounts(st: DbState, ks: seq<string>)
    requires Distinct(ks)
    ensures var r := RunNulls(st, ks);
      r.st.master == st.master && r.st.migrations == st.migrations &&
      r.st.dirty == st.dirty + Filter(SetOf(ks), NullsIn(st.buckets)) &&
      r.removed == SumOver(ks, NullCount(st.buckets)) &&
      r.affectedFiles == CountOf(ks, NullsIn(st.buckets))
    decreases |ks|
  {
    if ks == [] {
      assert SetOf(ks) == {};
    } else {
      var p, k := ks[..|ks| - 1], ks[|ks| - 1];
      PrefixLast(ks);
      RunNullsCounts(st, p);
      RunNullsBuckets(st, p, k);
      FilterAdd(SetOf(p), NullsIn(st.buckets), k);
    }
  }

  /**
   * RemoveNullValues over the whole master index: afterwards no bucket of
   * the index holds a null entry, every non-null record is where it was,
   * and `affectedFiles` is the number of buckets that had a null entry.
   */
  lemma RemoveNullValuesClean(st: DbState, order: seq<string>, k: string)
    requires Enumerates(order, st.master)
    ensures var r := RunNulls(st, order);
      (k in st.master ==> NullUrls(Open(r.st.buckets, k)) == {}) &&
      (forall u :: u in Open(st.buckets, k) && Open(st.buckets, k)[u].Some? ==>
         u in Open(r.st.buckets, k) && Open(r.st.buckets, k)[u] == Open(st.buckets, k)[u]) &&
      (forall u :: u in Open(r.st.buckets, k) ==> u in Open(st.buckets, k) && Open(r.st.buckets, k)[u] == Open(st.buckets, k)[u]) &&
      r.affectedFiles == |Filter(st.master, NullsIn(st.buckets))|
  {
    RunNullsBuckets(st, order, k);
    RunNullsCounts(st, order);
    CountOfDistinct(order, NullsIn(st.buckets));
    assert Filter(st.master, NullsIn(st.buckets)) == set k | k in order && NullsIn(st.buckets)(k);
  }

  // -----------------------------------------------------------------------
  // UpdateSearchName and FixEmptySearchFields

  /** The two actions that fix records in place and move those whose key changed. */
  datatype Pass = SearchNames | EmptyFields

  function FixOf(pass: Pass, searchName: string -> string): Torrent -> Torrent {
    match pass
    case SearchNames => (t: Torrent) => RenamedForSearch(t, searchName)
    case EmptyFields => (t: Torrent) => FixSearchFields(t, searchName).record
  }

  function TargetOf(pass: Pass, k: string, keyFor: (string, string) -> string, searchName: string -> string): Torrent -> Option<string> {
    match pass
    case SearchNames => SearchNameTarget(k, keyFor, searchName)
    case EmptyFields => EmptyFieldsTarget(k, keyFor, searchName)
  }

  /** The fix of each pass, applied to one record. */
  lemma FixOfApply(pass: Pass, searchName: string -> string, t: Torrent)
    ensures FixOf(pass, searchName)(t) ==
      if pass == SearchNames then RenamedForSearch(t, searchName) else FixSearchFields(t, searchName).record
  {
  }

  /** The `fixedSn` / `fixedSo` flags FixEmptySearchFields counts; UpdateSearchName counts nothing. */
  function FlagsOf(pass: Pass, searchName: string -> string): Torrent -> (bool, bool) {
    match pass
    case SearchNames => (t: Torrent) => (false, false)
    case EmptyFields => (t: Torrent) => (FixSearchFields(t, searchName).fixedSn, FixSearchFields(t, searchName).fixedSo)
  }

  /** What a pass does to one bucket, and the per-bucket counts it reports. */
  datatype Outcome = Outcome(bucket: Bucket, moves: set<Migration>, nMoved: nat, nulls: nat, nSn: nat, nSo: nat, nAny: nat)

  /**
   * The pass on bucket `k`, whose contents are `b`: the repaired bucket,
   * the records handed to `MigrateTorrentToNewKey`, and the numbers of
   * moved records, null entries and records whose `_sn`, `_so` or either
   * was fixed.
   */
  function PassOutcome(b: Bucket, pass: Pass, k: string, keyFor: (string, string) -> string, searchName: string -> string): Outcome {
    var fix, target, flags := FixOf(pass, searchName), TargetOf(pass, k, keyFor, searchName), FlagsOf(pass, searchName);
    Outcome(Repaired(b, fix, target), RepairMoves(k, b, fix, target), |MovingUrls(b, fix, target)|, |NullUrls(b)|,
            |FlaggedUrls(b, flags, 0)|, |FlaggedUrls(b, flags, 1)|, |FlaggedUrls(b, flags, 2)|)
  }

  /**
   * The pass saves bucket `k`: UpdateSearchName always; FixEmptySearchFields
   * when it moved a record, had a null entry or ended empty.
   */
  predicate Affected(pass: Pass, o: Outcome) {
    pass == SearchNames || o.nMoved > 0 || o.nulls > 0 || |o.bucket| == 0
  }

  /** The per-bucket work of a pass, for the bucket `k` holding `b`. */
  method PassBucket(b: Bucket, pass: Pass, k: string, keyFor: (string, string) -> string, searchName: string -> string)
    returns (o: Outcome)
    ensures o == PassOutcome(b, pass, k, keyFor, searchName)
  {
    var fix, target, flags := FixOf(pass, searchName), TargetOf(pass, k, keyFor, searchName), FlagsOf(pass, searchName);
    var b', moved, nulls, nSn, nSo, nAny := RepairBucket(k, b, fix, target, flags);
    o := Outcome(b', SetOf(moved), |moved|, nulls, nSn, nSo, nAny);
  }

  /** The per-bucket work of `pass`, as a function of the bucket and its key. */
  function PassFn(pass: Pass, keyFor: (string, string) -> string, searchName: string -> string): (Bucket, string) -> Outcome {
    (b: Bucket, k: string) => PassOutcome(b, pass, k, keyFor, searchName)
  }

  /** The store and the counters of a repair pass part-way through. */
  datatype RepairRun = RepairRun(st: DbState, totalFixed: nat, snFixed: nat, soFixed: nat, migrated: nat, affectedBuckets: nat)

  /**
   * The store after the pass did `o` on bucket `k`: the bucket replaced,
   * the moves handed on, an emptied bucket dropped from the master index,
   * an affected bucket saved and counted.
   */
  function Record(r: RepairRun, pass: Pass, k: string, o: Outcome): RepairRun {
    var affected := Affected(pass, o);
    RepairRun(
      DbState(r.st.buckets[k := o.bucket],
              if |o.bucket| == 0 then r.st.master - {k} else r.st.master,
              if affected then r.st.dirty + {k} else r.st.dirty,
              r.st.migrations + o.moves),
      r.totalFixed + o.nAny, r.snFixed + o.nSn, r.soFixed + o.nSo, r.migrated + o.nMoved,
      if affected then r.affectedBuckets + 1 else r.affectedBuckets)
  }

  /**
   * The pass over the keys `ks`, in that order, each bucket read as the
   * pass finds it and worked on by `out`.
   */
  function RunRepair(st: DbState, pass: Pass, out: (Bucket, string) -> Outcome, ks: seq<string>): RepairRun
    decreases |ks|
  {
    if ks == [] then RepairRun(st, 0, 0, 0, 0, 0)
    else
      var r := RunRepair(st, pass, out, ks[..|ks| - 1]);
      var k := ks[|ks| - 1];
      Record(r, pass, k, out(Open(r.st.buckets, k), k))
  }

  /** The loop over the master index that both passes share. */
  method RepairLoop(st: DbState, pass: Pass, order: seq<string>, keyFor: (string, string) -> string, searchName: string -> string)
    returns (r: RepairRun)
    ensures r == RunRepair(st, pass, PassFn(pass, keyFor, searchName), order)
  {
    ghost var out := PassFn(pass, keyFor, searchName);
    r := RepairRun(st, 0, 0, 0, 0, 0);
    for i := 0 to |order|
      invariant r == RunRepair(st, pass, out, order[..i])
    {
      var k := order[i];
      var o := PassBucket(Open(r.st.buckets, k), pass, k, keyFor, searchName);
      RepairLoopStep(st, pass, out, order, i, o);
      r := RecordOutcome(r, pass, k, o);
    }
    assert order[..|order|] == order;
  }

  /** The bookkeeping after the work `o` on bucket `k`. */
  method RecordOutcome(r: RepairRun, pass: Pass, k: string, o: Outcome) returns (r': RepairRun)
    ensures r' == Record(r, pass, k, o)
  {
    var emptied := |o.bucket| == 0;
    var affected := pass == SearchNames || o.nMoved > 0 || o.nulls > 0 || emptied;
    var master := if emptied then r.st.master - {k} else r.st.master;
    var dirty := if affected then r.st.dirty + {k} else r.st.dirty;
    r' := RepairRun(DbState(r.st.buckets[k := o.bucket], master, dirty, r.st.migrations + o.moves),
                    r.totalFixed + o.nAny, r.snFixed + o.nSn, r.soFixed + o.nSo, r.migrated + o.nMoved,
                    if affected then r.affectedBuckets + 1 else r.affectedBuckets);
  }

  /** One more key of the order is one more step of the run. */
  lemma RepairLoopStep(st: DbState, pass: Pass, out: (Bucket, string) -> Outcome, order: seq<string>, i: int, o: Outcome)
    requires 0 <= i < |order|
    requires o == out(Open(RunRepair(st, pass, out, order[..i]).st.buckets, order[i]), order[i])
    ensures RunRepair(st, pass, out, order[..i + 1]) == Record(RunRepair(st, pass, out, order[..i]), pass, order[i], o)
  {
    assert order[..i + 1][..i] == order[..i];
  }

  /** UpdateSearchName: the pass over the master index; it reports nothing. */
  method UpdateSearchName(db: Store, order: seq<string>)
    requires Enumerates(order, db.master)
    modifies db
    ensures db.State() == RunRepair(old(db.State()), SearchNames, PassFn(SearchNames, db.keyFor, db.searchName), order).st
  {
    var r := RepairLoop(db.State(), SearchNames, order, db.keyFor, db.searchName);
    db.Save(r.st);
  }

  /** FixEmptySearchFields: the pass over the master index and the counters it reports. */
  method FixEmptySearchFields(db: Store, order: seq<string>)
    returns (totalFixed: nat, snFixed: nat, soFixed: nat, migrated: nat, affectedBuckets: nat)
    requires Enumerates(order, db.master)
    modifies db
    ensures RepairRun(db.State(), totalFixed, snFixed, soFixed, migrated, affectedBuckets) ==
            RunRepair(old(db.State()), EmptyFields, PassFn(EmptyFields, db.keyFor, db.searchName), order)
  {
    var r := RepairLoop(db.State(), EmptyFields, order, db.keyFor, db.searchName);
    db.Save(r.st);
    totalFixed, snFixed, soFixed, migrated, affectedBuckets := r.totalFixed, r.snFixed, r.soFixed, r.migrated, r.affectedBuckets;
  }

  /**
   * Over an enumeration without repeats each listed bucket is replaced by
   * what `out` makes of it as it was before the pass; the others are
   * untouched, and no bucket appears beyond the listed ones.
   */
  lemma {:induction false} RunRepairBuckets(st: DbState, pass: Pass, out: (Bucket, string) -> Outcome, ks: seq<string>, k: string)
    requires Distinct(ks)
    ensures var r := RunRepair(st, pass, out, ks);
      r.st.buckets.Keys == st.buckets.Keys + SetOf(ks) &&
      Open(r.st.buckets, k) == if k in ks then out(Open(st.buckets, k), k).bucket else Open(st.buckets, k)
    decreases |ks|
  {
    if ks != [] {
      var p, last := ks[..|ks| - 1], ks[|ks| - 1];
      PrefixLast(ks);
      RunRepairBuckets(st, pass, out, p, k);
      RunRepairBuckets(st, pass, out, p, last);
    }
  }

  /** The keys of `keys` whose bucket the pass leaves empty: they leave the master index. */
  function EmptiedKeys(st: DbState, out: (Bucket, string) -> Outcome, keys: set<string>): set<string> {
    Filter(keys, k => |out(Open(st.buckets, k), k).bucket| == 0)
  }

  /** The keys of `keys` whose bucket the pass saves. */
  function AffectedKeys(st: DbState, pass: Pass, out: (Bucket, string) -> Outcome, keys: set<string>): set<string> {
    Filter(keys, k => Affected(pass, out(Open(st.buckets, k), k)))
  }

  /** Every record handed on from a bucket of `keys`. */
  function MovesOf(st: DbState, out: (Bucket, string) -> Outcome, keys: set<string>): set<Migration> {
    set k, m | k in keys && m in out(Open(st.buckets, k), k).moves :: m
  }

  /** Over an enumeration without repeats exactly the emptied buckets leave the master index. */
  lemma {:induction false} RunRepairMaster(st: DbState, pass: Pass, out: (Bucket, string) -> Outcome, ks: seq<string>)
    requires Distinct(ks)
    ensures RunRepair(st, pass, out, ks).st.master == st.master - EmptiedKeys(st, out, SetOf(ks))
    decreases |ks|
  {
    if ks == [] {
      assert SetOf(ks) == {};
    } else {
      var p, k := ks[..|ks| - 1], ks[|ks| - 1];
      PrefixLast(ks);
      RunRepairMaster(st, pass, out, p);
      RunRepairBuckets(st, pass, out, p, k);
      FilterAdd(SetOf(p), k => |out(Open(st.buckets, k), k).bucket| == 0, k);
    }
  }

  /** Over an enumeration without repeats exactly the affected buckets are saved. */
  lemma {:induction false} RunRepairDirty(st: DbState, pass: Pass, out: (Bucket, string) -> Outcome, ks: seq<string>)
    requires Distinct(ks)
    ensures RunRepair(st, pass, out, ks).st.dirty == st.dirty + AffectedKeys(st, pass, out, SetOf(ks))
    decreases |ks|
  {
    if ks == [] {
      assert SetOf(ks) == {};
    } else {
      var p, k := ks[..|ks| - 1], ks[|ks| - 1];
      PrefixLast(ks);
      RunRepairDirty(st, pass, out, p);
      RunRepairBuckets(st, pass, out, p, k);
      FilterAdd(SetOf(p), k => Affected(pass, out(Open(st.buckets, k), k)), k);
    }
  }

  /** Over an enumeration without repeats the records handed on are those of every listed bucket. */
  lemma {:induction false} RunRepairMigrations(st: DbState, pass: Pass, out: (Bucket, string) -> Outcome, ks: seq<string>)
    requires Distinct(ks)
    ensures RunRepair(st, pass, out, ks).st.migrations == st.migrations + MovesOf(st, out, SetOf(ks))
    decreases |ks|
  {
    if ks == [] {
      assert MovesOf(st, out, SetOf(ks)) == {};
    } else {
      var p, k := ks[..|ks| - 1], ks[|ks| - 1];
      PrefixLast(ks);
      RunRepairMigrations(st, pass, out, p);
      RunRepairBuckets(st, pass, out, p, k);
      var o := out(Open(st.buckets, k), k);
      assert MovesOf(st, out, SetOf(ks)) == MovesOf(st, out, SetOf(p)) + o.moves by {
        forall m | m in o.moves ensures m in MovesOf(st, out, SetOf(ks)) {
          assert k in SetOf(ks);
        }
      }
    }
  }

  /** Whether bucket `k` counts towards `affectedBuckets` (1) or not (0). */
  function AffectedCount(st: DbState, pass: Pass, out: (Bucket, string) -> Outcome): string -> nat {
    k => if Affected(pass, out(Open(st.buckets, k), k)) then 1 else 0
  }

  /**
   * Over an enumeration without repeats each counter is the sum of its
   * per-bucket counts over the buckets as they were before the pass, and
   * `affectedBuckets` is the number of affected buckets.
   */
  lemma {:induction false} RunRepairCounters(st: DbState, pass: Pass, out: (Bucket, string) -> Outcome, ks: seq<string>)
    requires Distinct(ks)
    ensures var r := RunRepair(st, pass, out, ks);
      r.totalFixed == SumOver(ks, k => out(Open(st.buckets, k), k).nAny) &&
      r.snFixed == SumOver(ks, k => out(Open(st.buckets, k), k).nSn) &&
      r.soFixed == SumOver(ks, k => out(Open(st.buckets, k), k).nSo) &&
      r.migrated == SumOver(ks, k => out(Open(st.buckets, k), k).nMoved) &&
      r.affectedBuckets == SumOver(ks, AffectedCount(st, pass, out))
    decreases |ks|
  {
    if ks != [] {
      var p, k := ks[..|ks| - 1], ks[|ks| - 1];
      PrefixLast(ks);
      RunRepairCounters(st, pass, out, p);
      RunRepairBuckets(st, pass, out, p, k);
    }
  }

  /**
   * Both passes hand a record to `MigrateTorrentToNewKey` only for a record
   * that was not null in the bucket, fixed as the pass fixes it, and only
   * towards its recomputed key when that key is non-empty, names another
   * bucket and has ':' after its first character; FixEmptySearchFields
   * moves only records whose `_sn` or `_so` it fixed.
   */
  lemma PassMovesAreKeyChanges(k: string, b: Bucket, pass: Pass, keyFor: (string, string) -> string, searchName: string -> string, m: Migration)
    requires m in PassOutcome(b, pass, k, keyFor, searchName).moves
    ensures m.fromKey == k && m.url in b && b[m.url].Some?
    ensures m.record == FixOf(pass, searchName)(b[m.url].value)
    ensures IsNewBucketKey(k, m.toKey) && m.toKey == KeyOf(m.record, keyFor)
    ensures pass == EmptyFields ==>
      FixSearchFields(b[m.url].value, searchName).fixedSn || FixSearchFields(b[m.url].value, searchName).fixedSo
  {
    var fix, target := FixOf(pass, searchName), TargetOf(pass, k, keyFor, searchName);
    assert m in RepairMoves(k, b, fix, target);
    RepairMoveShape(k, b, fix, target, m);
    TargetSome(pass, k, keyFor, searchName, b[m.url].value, m.toKey);
  }

  /** Either pass sends a record only to the recomputed key of its fix. */
  lemma TargetSome(pass: Pass, k: string, keyFor: (string, string) -> string, searchName: string -> string, t: Torrent, key: string)
    requires TargetOf(pass, k, keyFor, searchName)(t) == Some(key)
    ensures IsNewBucketKey(k, key) && key == KeyOf(FixOf(pass, searchName)(t), keyFor)
    ensures pass == EmptyFields ==> FixSearchFields(t, searchName).fixedSn || FixSearchFields(t, searchName).fixedSo
  {
    match pass
    case SearchNames => SearchNameTargetSome(k, keyFor, searchName, t, key);
    case EmptyFields => EmptyFieldsTargetSome(k, keyFor, searchName, t, key);
  }

  /**
   * A record left in a bucket by UpdateSearchName has a name and an
   * original name, search fields computed from them, and a recomputed key
   * that would not move it.
   */
  lemma UpdateSearchNameSettles(b: Bucket, k: string, keyFor: (string, string) -> string, searchName: string -> string, u: string)
    requires u in PassOutcome(b, SearchNames, k, keyFor, searchName).bucket
    ensures var r := PassOutcome(b, SearchNames, k, keyFor, searchName).bucket[u];
      r.Some? && r.value.name.Some? && r.value.originalname.Some? &&
      r.value.sn == searchName(r.value.name.value) && r.value.so == searchName(r.value.originalname.value) &&
      !IsNewBucketKey(k, KeyOf(r.value, keyFor))
  {
    var fix, target := FixOf(SearchNames, searchName), TargetOf(SearchNames, k, keyFor, searchName);
    assert PassOutcome(b, SearchNames, k, keyFor, searchName).bucket == Repaired(b, fix, target);
    RepairedEntry(b, fix, target, u);
    var t := b[u].value;
    FixOfApply(SearchNames, searchName, t);
    SearchNameTargetNone(k, keyFor, searchName, t);
  }

  /** A record UpdateSearchName keeps is its own fix and stays put. */
  lemma SearchNamesFixedPoint(t: Torrent, k: string, keyFor: (string, string) -> string, searchName: string -> string)
    requires SearchNameTarget(k, keyFor, searchName)(t).None?
    ensures var once := RenamedForSearch(t, searchName);
      RenamedForSearch(once, searchName) == once && SearchNameTarget(k, keyFor, searchName)(once).None?
  {
    RenamedForSearchIdempotent(t, searchName);
  }

  /** A second UpdateSearchName over a bucket it has processed changes nothing and moves nothing. */
  lemma UpdateSearchNameIdempotent(b: Bucket, k: string, keyFor: (string, string) -> string, searchName: string -> string)
    ensures var once := PassOutcome(b, SearchNames, k, keyFor, searchName);
      var twice := PassOutcome(once.bucket, SearchNames, k, keyFor, searchName);
      twice.bucket == once.bucket && twice.moves == {} && twice.nulls == 0
  {
    var fix, target := FixOf(SearchNames, searchName), TargetOf(SearchNames, k, keyFor, searchName);
    var once := Repaired(b, fix, target);
    PassOutcomeParts(b, SearchNames, k, keyFor, searchName);
    AllSearchNamesSettled(b, k, keyFor, searchName, fix, target);
    RepairSettled(k, once, fix, target);
    PassOutcomeParts(once, SearchNames, k, keyFor, searchName);
  }

  /** Every record UpdateSearchName leaves in a bucket stays put and is its own fix. */
  lemma AllSearchNamesSettled(b: Bucket, k: string, keyFor: (string, string) -> string, searchName: string -> string,
                              fix: Torrent -> Torrent, target: Torrent -> Option<string>)
    requires fix == FixOf(SearchNames, searchName) && target == TargetOf(SearchNames, k, keyFor, searchName)
    ensures Settled(Repaired(b, fix, target), fix, target)
  {
    var once := Repaired(b, fix, target);
    forall u | u in once ensures once[u].Some? && target(once[u].value).None? && fix(once[u].value) == once[u].value {
      SearchNamesSettled(b, k, keyFor, searchName, fix, target, u);
    }
  }

  /** The bucket, the moves and the null count of a pass's outcome. */
  lemma PassOutcomeParts(b: Bucket, pass: Pass, k: string, keyFor: (string, string) -> string, searchName: string -> string)
    ensures var o := PassOutcome(b, pass, k, keyFor, searchName);
      var fix, target := FixOf(pass, searchName), TargetOf(pass, k, keyFor, searchName);
      o.bucket == Repaired(b, fix, target) && o.moves == RepairMoves(k, b, fix, target) && o.nulls == |NullUrls(b)|
  {
  }

  /** A record UpdateSearchName leaves in a bucket stays put and is its own fix. */
  lemma SearchNamesSettled(b: Bucket, k: string, keyFor: (string, string) -> string, searchName: string -> string,
                           fix: Torrent -> Torrent, target: Torrent -> Option<string>, u: string)
    requires fix == FixOf(SearchNames, searchName) && target == TargetOf(SearchNames, k, keyFor, searchName)
    requires u in Repaired(b, fix, target)
    ensures var r := Repaired(b, fix, target)[u];
      r.Some? && target(r.value).None? && fix(r.value) == r.value
  {
    RepairedEntry(b, fix, target, u);
    var t := b[u].value;
    FixOfApply(SearchNames, searchName, t);
    SearchNamesFixedPoint(t, k, keyFor, searchName);
    FixOfApply(SearchNames, searchName, Repaired(b, fix, target)[u].value);
  }

  // -----------------------------------------------------------------------
  // FindDuplicateKeys

  /**
   * A master-index key of the form "X:X": its first ':' is neither the
   * first nor the last character, the two sides agree ignoring case, and
   * with `excludeNumeric` the first side is not all digits.
   */
  predicate IsSelfDuplicateKey(key: string, excludeNumeric: bool) {
    var colon := IndexOfChar(key, ':');
    0 < colon < |key| - 1 &&
    EqIgnoreCase(key[..colon], key[colon + 1..]) &&
    !(excludeNumeric && AllDigits(key[..colon]))
  }

  /** A non-null record of the tracker called `name` (ignoring case). */
  predicate RecordOfTracker(e: Option<Torrent>, name: string) {
    e.Some? && EqIgnoreCase(e.value.trackerName, name)
  }

  /** `db.Values.Any(t => t != null && t.trackerName equals tracker.Trim() ignoring case)`. */
  predicate HasTrackerRecord(b: Bucket, tracker: string) {
    exists u :: u in b && RecordOfTracker(b[u], Trim(tracker))
  }

  /** A key FindDuplicateKeys reports. */
  predicate Reported(bs: map<string, Bucket>, key: string, tracker: Option<string>, excludeNumeric: bool) {
    IsSelfDuplicateKey(key, excludeNumeric) && (IsBlankOpt(tracker) || HasTrackerRecord(Open(bs, key), tracker.value))
  }

  /** The `hasTracker` scan of one bucket. */
  method AnyTrackerRecord(b: Bucket, tracker: string) returns (found: bool)
    ensures found <==> HasTrackerRecord(b, tracker)
  {
    var name := Trim(tracker);
    var rest := b.Keys;
    found := false;
    while rest != {} && !found
      invariant rest <= b.Keys
      invariant found ==> HasTrackerRecord(b, tracker)
      invariant !found ==> forall u :: u in b && u !in rest ==> !RecordOfTracker(b[u], name)
      decreases |rest|
    {
      var u :| u in rest;
      found := RecordOfTracker(b[u], name);
      rest := rest - {u};
    }
  }

  /** `Reported` as a filter on keys. */
  function ReportedIn(bs: map<string, Bucket>, tracker: Option<string>, excludeNumeric: bool): string -> bool {
    key => Reported(bs, key, tracker, excludeNumeric)
  }

  /** The test FindDuplicateKeys applies to one master key. */
  method ReportKey(bs: map<string, Bucket>, key: string, tracker: Option<string>, excludeNumeric: bool) returns (keep: bool)
    ensures keep == Reported(bs, key, tracker, excludeNumeric)
  {
    keep := false;
    if IsSelfDuplicateKey(key, excludeNumeric) {
      keep := true;
      if !IsBlankOpt(tracker) {
        keep := AnyTrackerRecord(Open(bs, key), tracker.value);
      }
    }
  }

  /**
   * FindDuplicateKeys (read-only): the reported keys are the keys of
   * `order` of the form "X:X" (with the tracker filter when one is given),
   * in `order`'s order, each with its bucket's size; over the master index
   * they are exactly the reported master keys, each once.
   */
  method FindDuplicateKeys(bs: map<string, Bucket>, order: seq<string>, tracker: Option<string>, excludeNumeric: bool)
    returns (keys: seq<string>, counts: seq<nat>)
    ensures keys == SeqFilter(order, ReportedIn(bs, tracker, excludeNumeric))
    ensures |counts| == |keys| && forall j :: 0 <= j < |keys| ==> counts[j] == |Open(bs, keys[j])|
    ensures forall key :: key in keys <==> key in order && Reported(bs, key, tracker, excludeNumeric)
    ensures Distinct(order) ==> Distinct(keys)
  {
    ghost var p := ReportedIn(bs, tracker, excludeNumeric);
    keys, counts := [], [];
    for i := 0 to |order|
      invariant keys == SeqFilter(order[..i], p)
      invariant |counts| == |keys| && forall j :: 0 <= j < |keys| ==> counts[j] == |Open(bs, keys[j])|
    {
      var key := order[i];
      assert order[..i + 1][..i] == order[..i];
      var keep := ReportKey(bs, key, tracker, excludeNumeric);
      assert keep == p(key);
      if keep {
        keys, counts := keys + [key], counts + [|Open(bs, key)|];
      }
    }
    assert order[..|order|] == order;
    SeqFilterMembers(order, p);
  }

  /**
   * A key built as `p + ":" + q` from a `p` without ':' is reported exactly
   * when both sides are non-empty, agree ignoring case, and (with
   * `excludeNumeric`) `p` is not all digits.
   */
  lemma SelfDuplicateKeyShape(p: string, q: string, excludeNumeric: bool)
    requires !HasChar(p, ':')
    ensures IsSelfDuplicateKey(p + ":" + q, excludeNumeric) <==>
      p != [] && q != [] && EqIgnoreCase(p, q) && !(excludeNumeric && AllDigits(p))
  {
    var key := p + ":" + q;
    IndexOfCharOfSplit(p, ':', q);
    assert key[..|p|] == p;
    assert key[|p| + 1..] == q;
  }

  // -----------------------------------------------------------------------
  // RemoveBucket

  /** The reply of RemoveBucket. */
  datatype RemoveBucketReply =
    | KeyRequired
    | KeyNotFound(key: string)
    | BucketRemoved(key: string, migrated: nat, removed: nat, newKey: Option<string>)

  /** The records RemoveBucket hands to `MigrateTorrentToNewKey`. */
  function ClearMoves(k: string, b: Bucket, doMigrate: bool, rename: Torrent -> Torrent, newKey: string): set<Migration> {
    if doMigrate then set u | u in b && b[u].Some? :: Migration(k, u, rename(b[u].value), newKey) else {}
  }

  /** The entries RemoveBucket removes outright: null ones, and all of them when not migrating. */
  function RemovedAt(b: Bucket, doMigrate: bool): string -> bool { u => u in b && (b[u].None? || !doMigrate) }

  /** The entries RemoveBucket hands on when migrating: the non-null ones. */
  function MigratedAt(b: Bucket, doMigrate: bool): string -> bool { u => u in b && b[u].Some? && doMigrate }

  /** `moved` holds, in order, the move of the record at each URL of `urls`. */
  ghost predicate ClearedMoves(moved: seq<Migration>, urls: seq<string>, k: string, b: Bucket, rename: Torrent -> Torrent, newKey: string) {
    |moved| == |urls| &&
    forall j :: 0 <= j < |moved| ==>
      urls[j] in b && b[urls[j]].Some? && moved[j] == Migration(k, urls[j], rename(b[urls[j]].value), newKey)
  }

  /** The walk of RemoveBucket with the URLs of `rest` still to visit. */
  ghost predicate Cleared(k: string, b: Bucket, doMigrate: bool, rename: Torrent -> Torrent, newKey: string,
                          rest: set<string>, toRemove: seq<string>, movedUrls: seq<string>, moved: seq<Migration>) {
    rest <= b.Keys &&
    Lists(toRemove, b, rest, RemovedAt(b, doMigrate)) &&
    Lists(movedUrls, b, rest, MigratedAt(b, doMigrate)) &&
    ClearedMoves(moved, movedUrls, k, b, rename, newKey) &&
    |toRemove| + |movedUrls| + |rest| == |b|
  }

  /** Visiting `u` puts it on exactly one of the two lists. */
  lemma ClearVisit(k: string, b: Bucket, doMigrate: bool, rename: Torrent -> Torrent, newKey: string,
                   rest: set<string>, toRemove: seq<string>, movedUrls: seq<string>, moved: seq<Migration>, u: string)
    requires Cleared(k, b, doMigrate, rename, newKey, rest, toRemove, movedUrls, moved) && u in rest
    ensures b[u].None? || !doMigrate ==>
      Cleared(k, b, doMigrate, rename, newKey, rest - {u}, toRemove + [u], movedUrls, moved)
    ensures b[u].Some? && doMigrate ==>
      Cleared(k, b, doMigrate, rename, newKey, rest - {u}, toRemove, movedUrls + [u],
              moved + [Migration(k, u, rename(b[u].value), newKey)])
  {
    ListsStep(toRemove, b, rest, RemovedAt(b, doMigrate), u);
    ListsStep(movedUrls, b, rest, MigratedAt(b, doMigrate), u);
    assert |rest - {u}| == |rest| - 1;
    if b[u].Some? && doMigrate {
      var m, us := moved + [Migration(k, u, rename(b[u].value), newKey)], movedUrls + [u];
      forall j | 0 <= j < |m|
        ensures us[j] in b && b[us[j]].Some? && m[j] == Migration(k, us[j], rename(b[us[j]].value), newKey)
      {
        if j < |moved| { assert m[j] == moved[j] && us[j] == movedUrls[j]; }
      }
    }
  }

  /** At the end of the walk the moves are those of ClearMoves and the counts add up. */
  lemma ClearDone(k: string, b: Bucket, doMigrate: bool, rename: Torrent -> Torrent, newKey: string,
                  toRemove: seq<string>, movedUrls: seq<string>, moved: seq<Migration>)
    requires Cleared(k, b, doMigrate, rename, newKey, {}, toRemove, movedUrls, moved)
    ensures Distinct(moved) && SetOf(moved) == ClearMoves(k, b, doMigrate, rename, newKey)
    ensures |toRemove| == (if doMigrate then |NullUrls(b)| else |b|)
  {
    forall i, j | 0 <= i < j < |moved| ensures moved[i] != moved[j] {
      assert movedUrls[i] != movedUrls[j];
    }
    forall m | m in ClearMoves(k, b, doMigrate, rename, newKey) ensures m in moved {
      var u :| u in b && b[u].Some? && m == Migration(k, u, rename(b[u].value), newKey);
      assert MigratedAt(b, doMigrate)(u);
      var j :| 0 <= j < |movedUrls| && movedUrls[j] == u;
      assert moved[j] == m;
    }
    if doMigrate {
      assert SetOf(toRemove) == NullUrls(b);
    } else {
      assert SetOf(toRemove) == b.Keys;
    }
    DistinctCard(toRemove);
  }

  /**
   * The walk and the removals of RemoveBucket on bucket `k`: null entries
   * are removed, other records are renamed and moved when migrating and
   * removed otherwise.  The bucket ends empty.
   */
  method ClearBucket(k: string, b: Bucket, doMigrate: bool, rename: Torrent -> Torrent, newKey: string)
    returns (moved: seq<Migration>, removed: nat)
    ensures Distinct(moved) && SetOf(moved) == ClearMoves(k, b, doMigrate, rename, newKey)
    ensures removed == (if doMigrate then |NullUrls(b)| else |b|)
    ensures |moved| + removed == |b|
  {
    var toRemove: seq<string> := [];
    moved := [];
    ghost var movedUrls: seq<string> := [];
    var rest := b.Keys;
    while rest != {}
      invariant Cleared(k, b, doMigrate, rename, newKey, rest, toRemove, movedUrls, moved)
      decreases |rest|
    {
      var u :| u in rest;
      ClearVisit(k, b, doMigrate, rename, newKey, rest, toRemove, movedUrls, moved, u);
      if b[u].None? || !doMigrate {
        toRemove := toRemove + [u];
      } else {
        moved := moved + [Migration(k, u, rename(b[u].value), newKey)];
        movedUrls := movedUrls + [u];
      }
      rest := rest - {u};
    }
    removed := |toRemove|;
    ClearDone(k, b, doMigrate, rename, newKey, toRemove, movedUrls, moved);
  }

  /** The renaming RemoveBucket applies to each moved record. */
  function MoveRenaming(name: string, orig: string, searchName: string -> string): Torrent -> Torrent {
    t => RenamedForMove(t, name, orig, searchName)
  }

  /**
   * The part of RemoveBucket after the key checks, on an indexed key `k`:
   * the bucket is emptied, dropped from the master index and saved; with
   * `doMigrate` its records go, renamed, towards `KeyForTorrent(name, orig)`.
   */
  method EmptyBucket(db: Store, k: string, doMigrate: bool, name: string, orig: string)
    returns (migrated: nat, removed: nat, newKey: string)
    modifies db
    ensures db.buckets == old(db.buckets)[k := map[]]
    ensures db.master == old(db.master) - {k} && db.dirty == old(db.dirty) + {k}
    ensures migrated + removed == |Open(old(db.buckets), k)|
    ensures doMigrate ==>
      newKey == db.keyFor(name, orig) && removed == |NullUrls(Open(old(db.buckets), k))| &&
      db.migrations == old(db.migrations) + ClearMoves(k, Open(old(db.buckets), k), true, MoveRenaming(name, orig, db.searchName), newKey)
    ensures !doMigrate ==> migrated == 0 && removed == |Open(old(db.buckets), k)| && db.migrations == old(db.migrations)
  {
    newKey := if doMigrate then db.keyFor(name, orig) else "";
    var moved;
    moved, removed := ClearBucket(k, Open(db.buckets, k), doMigrate, MoveRenaming(name, orig, db.searchName), newKey);
    migrated := |moved|;
    db.Save(DbState(db.buckets[k := map[]], db.master - {k}, db.dirty + {k}, db.migrations + SetOf(moved)));
  }

  /**
   * RemoveBucket(key, migrateName, migrateOriginalname).  A blank key or
   * one without ':' is refused, and so is a trimmed key missing from the
   * master index; both leave the store untouched.  Otherwise the bucket is
   * emptied, its key leaves the master index and the bucket is saved; with
   * both migrate names every non-null record takes those names and their
   * search forms and is handed to `MigrateTorrentToNewKey` towards
   * `KeyForTorrent(migrateName, migrateOriginalname)`.
   */
  method RemoveBucket(db: Store, key: Option<string>, migrateName: Option<string>, migrateOriginalname: Option<string>)
    returns (reply: RemoveBucketReply)
    modifies db
    ensures IsBlankOpt(key) || IndexOfChar(key.value, ':') < 0 ==> reply == KeyRequired && unchanged(db)
    ensures !IsBlankOpt(key) && IndexOfChar(key.value, ':') >= 0 && Trim(key.value) !in old(db.master) ==>
      reply == KeyNotFound(Trim(key.value)) && unchanged(db)
    ensures reply.BucketRemoved? ==>
      var k := Trim(key.value);
      var b := Open(old(db.buckets), k);
      var doMigrate := !IsBlankOpt(migrateName) && !IsBlankOpt(migrateOriginalname);
      !IsBlankOpt(key) && IndexOfChar(key.value, ':') >= 0 && k in old(db.master) &&
      reply.key == k &&
      db.buckets == old(db.buckets)[k := map[]] &&
      db.master == old(db.master) - {k} &&
      db.dirty == old(db.dirty) + {k} &&
      reply.migrated + reply.removed == |b| &&
      (doMigrate ==>
        var newKey := db.keyFor(migrateName.value, migrateOriginalname.value);
        reply.newKey == Some(newKey) && reply.removed == |NullUrls(b)| &&
        db.migrations == old(db.migrations) +
          ClearMoves(k, b, true, MoveRenaming(migrateName.value, migrateOriginalname.value, db.searchName), newKey)) &&
      (!doMigrate ==> reply.newKey.None? && reply.migrated == 0 && reply.removed == |b| && db.migrations == old(db.migrations))
    ensures !IsBlankOpt(key) && IndexOfChar(key.value, ':') >= 0 && Trim(key.value) in old(db.master) ==> reply.BucketRemoved?
  {
    if IsBlankOpt(key) || IndexOfChar(key.value, ':') < 0 {
      return KeyRequired;
    }
    var k := Trim(key.value);
    if k !in db.master {
      return KeyNotFound(k);
    }
    var doMigrate := !IsBlankOpt(migrateName) && !IsBlankOpt(migrateOriginalname);
    var migrated, removed, newKey := EmptyBucket(db, k, doMigrate, OrElse(migrateName, ""), OrElse(migrateOriginalname, ""));
    reply := BucketRemoved(k, migrated, removed, if doMigrate then Some(newKey) else None);
  }

  // -----------------------------------------------------------------------
  // MigrateAnilibertyUrls

  /** The store and the counters of MigrateAnilibertyUrls part-way through. */
  datatype AnilibertyRun = AnilibertyRun(st: DbState, processed: nat, updated: nat, skipped: nat, errors: nat)

  /**
   * MigrateAnilibertyUrls on bucket `k` with the `toUpdate` list `plan`:
   * the re-keys applied, the bucket saved when the list is not empty, and
   * the counts of aniliberty records, of re-keys, of keys already hashed
   * and of records without a hash added up.
   */
  function AnilibertyStep(r: AnilibertyRun, k: string, plan: seq<Rekey>): AnilibertyRun {
    var b := Open(r.st.buckets, k);
    AnilibertyRun(r.st.(buckets := r.st.buckets[k := ApplyAll(b, plan)], dirty := if |plan| > 0 then r.st.dirty + {k} else r.st.dirty),
                  r.processed + |AnilibertyUrls(b)|, r.updated + |plan|, r.skipped + |HashedUrls(b)|, r.errors + |UnhashableUrls(b)|)
  }

  /** MigrateAnilibertyUrls over the keys `ks` with the lists `plans`, in that order. */
  function RunAniliberty(st: DbState, ks: seq<string>, plans: seq<seq<Rekey>>): AnilibertyRun
    requires |plans| == |ks|
    decreases |ks|
  {
    if ks == [] then AnilibertyRun(st, 0, 0, 0, 0)
    else AnilibertyStep(RunAniliberty(st, ks[..|ks| - 1], plans[..|ks| - 1]), ks[|ks| - 1], plans[|ks| - 1])
  }

  /** Each list is a valid `toUpdate` list for its bucket as it was before the action. */
  ghost predicate AnilibertyPlans(st: DbState, ks: seq<string>, plans: seq<seq<Rekey>>) {
    |plans| == |ks| && forall j :: 0 <= j < |ks| ==> IsAnilibertyPlan(Open(st.buckets, ks[j]), plans[j])
  }

  /** The per-bucket work of MigrateAnilibertyUrls on the store `r` has reached. */
  method AnilibertyBucket(r: AnilibertyRun, k: string) returns (r': AnilibertyRun, ghost plan: seq<Rekey>)
    ensures IsAnilibertyPlan(Open(r.st.buckets, k), plan)
    ensures r' == AnilibertyStep(r, k, plan)
  {
    var b', ups, processed, skipped, errors := MigrateAnilibertyBucket(Open(r.st.buckets, k));
    plan := ups;
    var dirty := if |ups| > 0 then r.st.dirty + {k} else r.st.dirty;
    r' := AnilibertyRun(r.st.(buckets := r.st.buckets[k := b'], dirty := dirty),
                        r.processed + processed, r.updated + |ups|, r.skipped + skipped, r.errors + errors);
  }

  /**
   * The buckets after MigrateAnilibertyUrls over keys without repeats:
   * each listed bucket has its list applied, the others are untouched.
   */
  lemma {:induction false} RunAnilibertyOthers(st: DbState, ks: seq<string>, plans: seq<seq<Rekey>>, k: string)
    requires |plans| == |ks| && k !in ks
    ensures var r := RunAniliberty(st, ks, plans);
      r.st.buckets.Keys == st.buckets.Keys + SetOf(ks) && Open(r.st.buckets, k) == Open(st.buckets, k)
    decreases |ks|
  {
    if ks != [] {
      RunOthersPrefix(ks);
      RunAnilibertyOthers(st, ks[..|ks| - 1], plans[..|ks| - 1], k);
    }
  }

  lemma {:induction false} RunAnilibertyListed(st: DbState, ks: seq<string>, plans: seq<seq<Rekey>>, j: int)
    requires Distinct(ks) && |plans| == |ks| && 0 <= j < |ks|
    ensures Open(RunAniliberty(st, ks, plans).st.buckets, ks[j]) == ApplyAll(Open(st.buckets, ks[j]), plans[j])
    decreases |ks|
  {
    var p, k := ks[..|ks| - 1], ks[|ks| - 1];
    PrefixLast(ks);
    if j == |ks| - 1 {
      RunAnilibertyOthers(st, p, plans[..|ks| - 1], k);
    } else {
      assert p[j] == ks[j] && plans[..|ks| - 1][j] == plans[j];
      assert ks[j] != k by { assert p[j] in SetOf(p); }
      RunAnilibertyListed(st, p, plans[..|ks| - 1], j);
    }
  }

  /**
   * The rest of MigrateAnilibertyUrls over keys without repeats and valid
   * lists: exactly the buckets with a record to re-key are saved, and the
   * master index and the moves are untouched.
   */
  lemma {:induction false} RunAnilibertyIndex(st: DbState, ks: seq<string>, plans: seq<seq<Rekey>>)
    requires Distinct(ks) && AnilibertyPlans(st, ks, plans)
    ensures var r := RunAniliberty(st, ks, plans);
      r.st.master == st.master && r.st.migrations == st.migrations &&
      r.st.dirty == st.dirty + Filter(SetOf(ks), Rehashes(st.buckets))
    decreases |ks|
  {
    if ks == [] {
      assert SetOf(ks) == {};
    } else {
      var p, k := ks[..|ks| - 1], ks[|ks| - 1];
      var q := plans[..|ks| - 1];
      PrefixLast(ks);
      AnilibertyPlansPrefix(st, ks, plans);
      RunAnilibertyIndex(st, p, q);
      var r0 := RunAniliberty(st, p, q);
      assert RunAniliberty(st, ks, plans) == AnilibertyStep(r0, k, plans[|ks| - 1]);
      assert |plans[|ks| - 1]| > 0 <==> Rehashes(st.buckets)(k) by {
        RunAnilibertyOthers(st, p, q, k);
        AnilibertyPlanSize(Open(st.buckets, k), plans[|ks| - 1]);
      }
      FilterAdd(SetOf(p), Rehashes(st.buckets), k);
    }
  }

  /** Over keys without repeats and valid lists `totalUpdated` is the number of re-keyable records. */
  lemma {:induction false} RunAnilibertyUpdated(st: DbState, ks: seq<string>, plans: seq<seq<Rekey>>)
    requires Distinct(ks) && AnilibertyPlans(st, ks, plans)
    ensures RunAniliberty(st, ks, plans).updated == SumOver(ks, AnilibertyCount(st.buckets, 3))
    decreases |ks|
  {
    if ks != [] {
      var p, k := ks[..|ks| - 1], ks[|ks| - 1];
      var q := plans[..|ks| - 1];
      PrefixLast(ks);
      AnilibertyPlansPrefix(st, ks, plans);
      RunAnilibertyUpdated(st, p, q);
      assert |plans[|ks| - 1]| == AnilibertyCount(st.buckets, 3)(k) by {
        RunAnilibertyOthers(st, p, q, k);
        AnilibertyPlanSize(Open(st.buckets, k), plans[|ks| - 1]);
      }
    }
  }

  /** The counts MigrateAnilibertyUrls reports over keys without repeats are sums of per-bucket counts. */
  lemma {:induction false} RunAnilibertySums(st: DbState, ks: seq<string>, plans: seq<seq<Rekey>>)
    requires Distinct(ks) && |plans| == |ks|
    ensures var r := RunAniliberty(st, ks, plans);
      r.processed == SumOver(ks, AnilibertyCount(st.buckets, 0)) &&
      r.skipped == SumOver(ks, AnilibertyCount(st.buckets, 1)) &&
      r.errors == SumOver(ks, AnilibertyCount(st.buckets, 2))
    decreases |ks|
  {
    if ks != [] {
      var p, k := ks[..|ks| - 1], ks[|ks| - 1];
      PrefixLast(ks);
      RunAnilibertySums(st, p, plans[..|ks| - 1]);
      RunAnilibertyOthers(st, p, plans[..|ks| - 1], k);
    }
  }

  /** The per-bucket counts: aniliberty records, keys already hashed, records without a hash, re-keys. */
  function AnilibertyCount(bs: map<string, Bucket>, which: int): string -> nat {
    k => var b := Open(bs, k);
      if which == 0 then |AnilibertyUrls(b)|
      else if which == 1 then |HashedUrls(b)|
      else if which == 2 then |UnhashableUrls(b)|
      else |RehashedUrls(b)|
  }

  /** The buckets holding a record to re-key. */
  function Rehashes(bs: map<string, Bucket>): string -> bool { k => RehashedUrls(Open(bs, k)) != {} }

  /** The lists of all keys but the last are valid for those keys. */
  lemma AnilibertyPlansPrefix(st: DbState, ks: seq<string>, plans: seq<seq<Rekey>>)
    requires ks != [] && AnilibertyPlans(st, ks, plans)
    ensures AnilibertyPlans(st, ks[..|ks| - 1], plans[..|ks| - 1])
  {
    var p := ks[..|ks| - 1];
    forall j | 0 <= j < |p| ensures IsAnilibertyPlan(Open(st.buckets, p[j]), plans[..|ks| - 1][j]) {
      assert p[j] == ks[j];
    }
  }

  /** One more bucket of the loop: its list joins the valid lists and the run takes one step. */
  lemma AnilibertyLoopStep(st: DbState, ks: seq<string>, plans: seq<seq<Rekey>>, k: string, plan: seq<Rekey>)
    requires AnilibertyPlans(st, ks, plans) && k !in ks
    requires IsAnilibertyPlan(Open(RunAniliberty(st, ks, plans).st.buckets, k), plan)
    ensures AnilibertyPlans(st, ks + [k], plans + [plan])
    ensures RunAniliberty(st, ks + [k], plans + [plan]) == AnilibertyStep(RunAniliberty(st, ks, plans), k, plan)
  {
    RunAnilibertyOthers(st, ks, plans, k);
    var ks', plans' := ks + [k], plans + [plan];
    assert ks'[..|ks'| - 1] == ks && plans'[..|ks'| - 1] == plans;
    forall j | 0 <= j < |ks'| ensures IsAnilibertyPlan(Open(st.buckets, ks'[j]), plans'[j]) {
      if j < |ks| { assert ks'[j] == ks[j] && plans'[j] == plans[j]; }
    }
  }

  /** The loop of MigrateAnilibertyUrls over the master index. */
  method AnilibertyLoop(st: DbState, order: seq<string>) returns (r: AnilibertyRun, ghost plans: seq<seq<Rekey>>)
    requires Distinct(order)
    ensures AnilibertyPlans(st, order, plans)
    ensures r == RunAniliberty(st, order, plans)
  {
    r := AnilibertyRun(st, 0, 0, 0, 0);
    plans := [];
    for i := 0 to |order|
      invariant AnilibertyPlans(st, order[..i], plans)
      invariant r == RunAniliberty(st, order[..i], plans)
    {
      var k := order[i];
      PrefixStep(order, i);
      ghost var plan;
      r, plan := AnilibertyBucket(r, k);
      AnilibertyLoopStep(st, order[..i], plans, k, plan);
      assert order[..i + 1] == order[..i] + [k];
      plans := plans + [plan];
    }
    assert order[..|order|] == order;
  }

  /**
   * MigrateAnilibertyUrls: in every bucket of the master index each
   * aniliberty record whose key has no `?hash=` and whose magnet has an
   * info hash moves to the key with the hash appended; `plans` are the
   * `toUpdate` lists the walks built, one per bucket.
   */
  method MigrateAnilibertyUrls(db: Store, order: seq<string>)
    returns (totalProcessed: nat, totalUpdated: nat, totalSkipped: nat, totalErrors: nat, ghost plans: seq<seq<Rekey>>)
    requires Enumerates(order, db.master)
    modifies db
    ensures AnilibertyPlans(old(db.State()), order, plans)
    ensures AnilibertyRun(db.State(), totalProcessed, totalUpdated, totalSkipped, totalErrors) ==
            RunAniliberty(old(db.State()), order, plans)
  {
    var r;
    r, plans := AnilibertyLoop(db.State(), order);
    db.Save(r.st);
    totalProcessed, totalUpdated, totalSkipped, totalErrors := r.processed, r.updated, r.skipped, r.errors;
  }

  // -----------------------------------------------------------------------
  // RemoveDuplicateAniliberty

  function AnilibertyProcessed(bs: map<string, Bucket>): string -> nat { k => |AnilibertyUrls(Open(bs, k))| }

  /**
   * The first pass of RemoveDuplicateAniliberty (read-only): the
   * aniliberty records with a magnet hash of the listed buckets, in
   * collection order, and the number of aniliberty records.
   */
  method CollectAniliberty(bs: map<string, Bucket>, order: seq<string>) returns (entries: seq<Entry>, totalProcessed: nat)
    requires Distinct(order)
    ensures Distinct(entries)
    ensures forall e :: e in entries <==> e.bucket in order && EntryOf(bs, e)
    ensures totalProcessed == SumOver(order, AnilibertyProcessed(bs))
  {
    entries := [];
    totalProcessed := 0;
    for i := 0 to |order|
      invariant Distinct(entries)
      invariant forall e :: e in entries <==> e.bucket in order[..i] && EntryOf(bs, e)
      invariant totalProcessed == SumOver(order[..i], AnilibertyProcessed(bs))
    {
      var k := order[i];
      PrefixStep(order, i);
      var es, processed := CollectBucket(k, Open(bs, k));
      forall e | e in es ensures EntryOf(bs, e) {
        assert e.url in Open(bs, k);
      }
      forall x, y | x in entries && y in es ensures x != y {
        assert x.bucket in SetOf(order[..i]);
      }
      DistinctConcat(entries, es);
      entries := entries + es;
      totalProcessed := totalProcessed + processed;
    }
    assert order[..|order|] == order;
  }

  /** The buckets RemoveDuplicateAniliberty removes a record from. */
  function LoserBuckets(entries: seq<Entry>): set<string> {
    set e | e in Losers(entries) :: e.bucket
  }

  /**
   * RemoveDuplicateAniliberty: `entries` are the aniliberty records with a
   * magnet hash of the master index in collection order; the losers of
   * every hash group are removed from their buckets, which are saved;
   * nothing else changes.  `totalProcessed` counts the aniliberty records
   * and `totalRemoved` the removals.
   */
  method RemoveDuplicateAniliberty(db: Store, order: seq<string>)
    returns (totalProcessed: nat, totalRemoved: nat, ghost entries: seq<Entry>)
    requires Enumerates(order, db.master)
    modifies db
    ensures Distinct(entries)
    ensures forall e :: e in entries <==> e.bucket in old(db.master) && EntryOf(old(db.buckets), e)
    ensures db.State() == old(db.State()).(buckets := Pruned(old(db.buckets), Places(Losers(entries))),
                                           dirty := old(db.dirty) + LoserBuckets(entries))
    ensures totalProcessed == SumOver(order, AnilibertyProcessed(old(db.buckets)))
    ensures totalRemoved == |Losers(entries)|
  {
    var collected;
    collected, totalProcessed := CollectAniliberty(db.buckets, order);
    entries := collected;
    var bs';
    bs', totalRemoved := RemoveLosers(db.buckets, collected);
    db.buckets := bs';
    db.dirty := db.dirty + LoserBuckets(collected);
  }

  lemma DistinctConcat<T>(a: seq<T>, b: seq<T>)
    requires Distinct(a) && Distinct(b)
    requires forall x, y :: x in a && y in b ==> x != y
    ensures Distinct(a + b)
  {
    forall i, j | 0 <= i < j < |a + b| ensures (a + b)[i] != (a + b)[j] {
      if i < |a| && j >= |a| {
        assert (a + b)[i] in a && (a + b)[j] in b;
      }
    }
  }

  // -----------------------------------------------------------------------
  // FixAnimelayerDuplicates

  function AnimelayerCount(bs: map<string, Bucket>, which: int): string -> nat {
    k => if which == 0 then |AnimelayerUrls(Open(bs, k))| else |AnimelayerUrlsWithoutId(Open(bs, k))|
  }

  /**
   * The first pass of FixAnimelayerDuplicates (read-only): the number of
   * animelayer records and of those whose key carries no torrent id.
   */
  method CountAnimelayerRecords(bs: map<string, Bucket>, order: seq<string>) returns (totalProcessed: nat, totalErrors: nat)
    ensures totalProcessed == SumOver(order, AnimelayerCount(bs, 0))
    ensures totalErrors == SumOver(order, AnimelayerCount(bs, 1))
    ensures totalErrors <= totalProcessed
  {
    totalProcessed, totalErrors := 0, 0;
    for i := 0 to |order|
      invariant totalProcessed == SumOver(order[..i], AnimelayerCount(bs, 0))
      invariant totalErrors == SumOver(order[..i], AnimelayerCount(bs, 1))
      invariant totalErrors <= totalProcessed
    {
      var k := order[i];
      assert order[..i + 1][..i] == order[..i];
      var processed, errors := CountAnimelayer(Open(bs, k));
      totalProcessed, totalErrors := totalProcessed + processed, totalErrors + errors;
    }
    assert order[..|order|] == order;
  }

  /** The store and the counters of the second pass part-way through. */
  datatype AnimelayerRun = AnimelayerRun(st: DbState, fixed: nat, removed: nat)

  /**
   * The second pass on bucket `k` with the `toUpdate` list `plan`: http
   * keys whose twin exists dropped, the list applied, the bucket saved when
   * either happened, and both counts added up.
   */
  function AnimelayerStep(r: AnimelayerRun, k: string, plan: seq<Rekey>): AnimelayerRun {
    var b := Open(r.st.buckets, k);
    var dropped := DroppedHttp(b);
    AnimelayerRun(r.st.(buckets := r.st.buckets[k := ApplyAll(b - dropped, plan)],
                        dirty := if |dropped| > 0 || |plan| > 0 then r.st.dirty + {k} else r.st.dirty),
                  r.fixed + |plan|, r.removed + |dropped|)
  }

  /** The second pass over the keys `ks` with the lists `plans`, in that order. */
  function RunAnimelayer(st: DbState, ks: seq<string>, plans: seq<seq<Rekey>>): AnimelayerRun
    requires |plans| == |ks|
    decreases |ks|
  {
    if ks == [] then AnimelayerRun(st, 0, 0)
    else AnimelayerStep(RunAnimelayer(st, ks[..|ks| - 1], plans[..|ks| - 1]), ks[|ks| - 1], plans[|ks| - 1])
  }

  /** Each list is a valid `toUpdate` list for its bucket as it was before the pass. */
  ghost predicate AnimelayerPlans(st: DbState, ks: seq<string>, plans: seq<seq<Rekey>>) {
    |plans| == |ks| && forall j :: 0 <= j < |ks| ==> IsAnimelayerPlan(Open(st.buckets, ks[j]), plans[j])
  }

  /** The second pass on one bucket of the store `r` has reached. */
  method AnimelayerBucket(r: AnimelayerRun, k: string) returns (r': AnimelayerRun, ghost plan: seq<Rekey>)
    ensures IsAnimelayerPlan(Open(r.st.buckets, k), plan)
    ensures r' == AnimelayerStep(r, k, plan)
  {
    var b := Open(r.st.buckets, k);
    var b', toRemove, ups := FixAnimelayerBucket(b);
    assert SetOf(toRemove) == DroppedHttp(b);
    DistinctCard(toRemove);
    plan := ups;
    var dirty := if |toRemove| > 0 || |ups| > 0 then r.st.dirty + {k} else r.st.dirty;
    r' := AnimelayerRun(r.st.(buckets := r.st.buckets[k := b'], dirty := dirty), r.fixed + |ups|, r.removed + |toRemove|);
  }

  /**
   * The buckets after the second pass over keys without repeats: each
   * listed bucket loses its http keys whose twin exists and has its list
   * applied; the others are untouched.
   */
  lemma {:induction false} RunAnimelayerOthers(st: DbState, ks: seq<string>, plans: seq<seq<Rekey>>, k: string)
    requires |plans| == |ks| && k !in ks
    ensures var r := RunAnimelayer(st, ks, plans);
      r.st.buckets.Keys == st.buckets.Keys + SetOf(ks) && Open(r.st.buckets, k) == Open(st.buckets, k)
    decreases |ks|
  {
    if ks != [] {
      RunOthersPrefix(ks);
      RunAnimelayerOthers(st, ks[..|ks| - 1], plans[..|ks| - 1], k);
    }
  }

  lemma {:induction false} RunAnimelayerListed(st: DbState, ks: seq<string>, plans: seq<seq<Rekey>>, j: int)
    requires Distinct(ks) && |plans| == |ks| && 0 <= j < |ks|
    ensures Open(RunAnimelayer(st, ks, plans).st.buckets, ks[j]) == ApplyAll(Open(st.buckets, ks[j]) - DroppedHttp(Open(st.buckets, ks[j])), plans[j])
    decreases |ks|
  {
    var p, k := ks[..|ks| - 1], ks[|ks| - 1];
    PrefixLast(ks);
    if j == |ks| - 1 {
      RunAnimelayerOthers(st, p, plans[..|ks| - 1], k);
    } else {
      assert p[j] == ks[j] && plans[..|ks| - 1][j] == plans[j];
      assert ks[j] != k by { assert p[j] in SetOf(p); }
      RunAnimelayerListed(st, p, plans[..|ks| - 1], j);
    }
  }

  /** The buckets the second pass saves. */
  function HttpFixes(bs: map<string, Bucket>): string -> bool {
    k => DroppedHttp(Open(bs, k)) != {} || MovedHttp(Open(bs, k)) != {}
  }

  function DroppedCount(bs: map<string, Bucket>): string -> nat { k => |DroppedHttp(Open(bs, k))| }

  function MovedCount(bs: map<string, Bucket>): string -> nat { k => |MovedHttp(Open(bs, k))| }

  /**
   * The rest of the second pass over keys without repeats and valid lists:
   * the buckets with an http key to drop or move are saved, and the master
   * index and the moves are untouched.
   */
  lemma {:induction false} RunAnimelayerIndex(st: DbState, ks: seq<string>, plans: seq<seq<Rekey>>)
    requires Distinct(ks) && AnimelayerPlans(st, ks, plans)
    ensures var r := RunAnimelayer(st, ks, plans);
      r.st.master == st.master && r.st.migrations == st.migrations &&
      r.st.dirty == st.dirty + Filter(SetOf(ks), HttpFixes(st.buckets))
    decreases |ks|
  {
    if ks == [] {
      assert SetOf(ks) == {};
    } else {
      var p, k := ks[..|ks| - 1], ks[|ks| - 1];
      var q := plans[..|ks| - 1];
      PrefixLast(ks);
      AnimelayerPlansPrefix(st, ks, plans);
      RunAnimelayerIndex(st, p, q);
      var r0 := RunAnimelayer(st, p, q);
      var plan := plans[|ks| - 1];
      var b := Open(st.buckets, k);
      assert Open(r0.st.buckets, k) == b by { RunAnimelayerOthers(st, p, q, k); }
      var affected := |DroppedHttp(b)| > 0 || |plan| > 0;
      var r := RunAnimelayer(st, ks, plans);
      assert r.st.master == r0.st.master && r.st.migrations == r0.st.migrations &&
             r.st.dirty == if affected then r0.st.dirty + {k} else r0.st.dirty by {
        assert r == AnimelayerStep(r0, k, plan);
      }
      assert affected == HttpFixes(st.buckets)(k) by {
        AnimelayerPlanSize(b, plan);
        assert |DroppedHttp(b)| > 0 <==> DroppedHttp(b) != {};
        assert |MovedHttp(b)| > 0 <==> MovedHttp(b) != {};
      }
      FilterStep(st.dirty, SetOf(p), HttpFixes(st.buckets), k, r0.st.dirty, r.st.dirty);
    }
  }

  /** Over keys without repeats and valid lists `totalFixed` counts the re-keys and `totalRemoved` the dropped keys. */
  lemma {:induction false} RunAnimelayerCounts(st: DbState, ks: seq<string>, plans: seq<seq<Rekey>>)
    requires Distinct(ks) && AnimelayerPlans(st, ks, plans)
    ensures var r := RunAnimelayer(st, ks, plans);
      r.fixed == SumOver(ks, MovedCount(st.buckets)) && r.removed == SumOver(ks, DroppedCount(st.buckets))
    decreases |ks|
  {
    if ks != [] {
      var p, k := ks[..|ks| - 1], ks[|ks| - 1];
      var q := plans[..|ks| - 1];
      PrefixLast(ks);
      AnimelayerPlansPrefix(st, ks, plans);
      RunAnimelayerCounts(st, p, q);
      var r0 := RunAnimelayer(st, p, q);
      assert RunAnimelayer(st, ks, plans) == AnimelayerStep(r0, k, plans[|ks| - 1]);
      assert |plans[|ks| - 1]| == MovedCount(st.buckets)(k) && |DroppedHttp(Open(r0.st.buckets, k))| == DroppedCount(st.buckets)(k) by {
        RunAnimelayerOthers(st, p, q, k);
        AnimelayerPlanSize(Open(st.buckets, k), plans[|ks| - 1]);
      }
    }
  }

  /** The lists of all keys but the last are valid for those keys. */
  lemma AnimelayerPlansPrefix(st: DbState, ks: seq<string>, plans: seq<seq<Rekey>>)
    requires ks != [] && AnimelayerPlans(st, ks, plans)
    ensures AnimelayerPlans(st, ks[..|ks| - 1], plans[..|ks| - 1])
  {
    var p := ks[..|ks| - 1];
    forall j | 0 <= j < |p| ensures IsAnimelayerPlan(Open(st.buckets, p[j]), plans[..|ks| - 1][j]) {
      assert p[j] == ks[j];
    }
  }

  /** One more bucket of the loop: its list joins the valid lists and the run takes one step. */
  lemma AnimelayerLoopStep(st: DbState, ks: seq<string>, plans: seq<seq<Rekey>>, k: string, plan: seq<Rekey>)
    requires AnimelayerPlans(st, ks, plans) && k !in ks
    requires IsAnimelayerPlan(Open(RunAnimelayer(st, ks, plans).st.buckets, k), plan)
    ensures AnimelayerPlans(st, ks + [k], plans + [plan])
    ensures RunAnimelayer(st, ks + [k], plans + [plan]) == AnimelayerStep(RunAnimelayer(st, ks, plans), k, plan)
  {
    RunAnimelayerOthers(st, ks, plans, k);
    var ks', plans' := ks + [k], plans + [plan];
    assert ks'[..|ks'| - 1] == ks && plans'[..|ks'| - 1] == plans;
    forall j | 0 <= j < |ks'| ensures IsAnimelayerPlan(Open(st.buckets, ks'[j]), plans'[j]) {
      if j < |ks| { assert ks'[j] == ks[j] && plans'[j] == plans[j]; }
    }
  }

  /** The second pass of FixAnimelayerDuplicates over the master index. */
  method AnimelayerLoop(st: DbState, order: seq<string>) returns (r: AnimelayerRun, ghost plans: seq<seq<Rekey>>)
    requires Distinct(order)
    ensures AnimelayerPlans(st, order, plans)
    ensures r == RunAnimelayer(st, order, plans)
  {
    r := AnimelayerRun(st, 0, 0);
    plans := [];
    for i := 0 to |order|
      invariant AnimelayerPlans(st, order[..i], plans)
      invariant r == RunAnimelayer(st, order[..i], plans)
    {
      var k := order[i];
      PrefixStep(order, i);
      ghost var plan;
      r, plan := AnimelayerBucket(r, k);
      AnimelayerLoopStep(st, order[..i], plans, k, plan);
      assert order[..i + 1] == order[..i] + [k];
      plans := plans + [plan];
    }
    assert order[..|order|] == order;
  }

  /**
   * FixAnimelayerDuplicates: the counting pass and then the http-to-https
   * pass over the master index; `plans` are the `toUpdate` lists the
   * second pass built, one per bucket.
   */
  method FixAnimelayerDuplicates(db: Store, order: seq<string>)
    returns (totalProcessed: nat, totalFixed: nat, totalRemoved: nat, totalErrors: nat, ghost plans: seq<seq<Rekey>>)
    requires Enumerates(order, db.master)
    modifies db
    ensures totalProcessed == SumOver(order, AnimelayerCount(old(db.buckets), 0))
    ensures totalErrors == SumOver(order, AnimelayerCount(old(db.buckets), 1))
    ensures AnimelayerPlans(old(db.State()), order, plans)
    ensures AnimelayerRun(db.State(), totalFixed, totalRemoved) == RunAnimelayer(old(db.State()), order, plans)
  {
    totalProcessed, totalErrors := CountAnimelayerRecords(db.buckets, order);
    var r;
    r, plans := AnimelayerLoop(db.State(), order);
    db.Save(r.st);
    totalFixed, totalRemoved := r.fixed, r.removed;
  }
}
