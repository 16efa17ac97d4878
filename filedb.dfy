/**
 * The torrent store as the repair actions and tracker parsers see it.
 *
 * The store is a master index of bucket keys ("name:originalname") and,
 * for every key, a bucket: a dictionary from torrent URL to a torrent
 * record, where a corrupt entry holds a null record.  The FileDB class
 * that persists buckets is not part of this model: its state is the
 * abstract state below, and calls into it that this model does not
 * interpret (moving a record into another bucket) are recorded rather than
 * executed.
 */
module FileDbModel {
  import opened Common

  /** The fields of a torrent record that the modelled code reads or writes. */
  datatype Torrent = Torrent(
    url: string,
    trackerName: string,
    title: Option<string>,
    name: Option<string>,
    originalname: Option<string>,
    sn: string,                  // `_sn`, the search form of `name` (null is "")
    so: string,                  // `_so`, the search form of `originalname` (null is "")
    magnet: Option<string>,
    sizeName: Option<string>,
    types: Option<seq<string>>,
    createTime: int,             // timestamps in seconds; 0 is `default(DateTime)`
    updateTime: int,
    sid: int,
    relased: int,
    quality: int,
    hasFfprobe: bool,            // `ffprobe != null`
    ffprobeTries: int)           // `ffprobe_tryingdata`

  /** One bucket: URL to record; `None` is a null (corrupt) entry. */
  type Bucket = map<string, Option<Torrent>>

  /** What `FileDB.OpenRead`/`OpenWrite` yield for a key: a missing bucket is empty. */
  function Open(bs: map<string, Bucket>, k: string): Bucket {
    if k in bs then bs[k] else map[]
  }

  /** A call `FileDB.MigrateTorrentToNewKey(record, toKey)` for the record stored at `url` in bucket `fromKey`. */
  datatype Migration = Migration(fromKey: string, url: string, record: Torrent, toKey: string)

  /** `order` lists every key of `keys` exactly once (`masterDb.ToArray()`). */
  predicate Enumerates(order: seq<string>, keys: set<string>) {
    Distinct(order) && SetOf(order) == keys
  }

  /** Where a cached entry for a URL stands: absent, present but null, or a record. */
  type Existing = Option<Option<Torrent>>

  /** The counters the tracker parsers keep while merging candidates. */
  datatype Counters = Counters(added: nat, updated: nat, skipped: nat, failed: nat)

  /** Exactly one of the four counters went up by one. */
  predicate OneBump(before: Counters, after: Counters) {
    (after == before.(added := before.added + 1)) ||
    (after == before.(updated := before.updated + 1)) ||
    (after == before.(skipped := before.skipped + 1)) ||
    (after == before.(failed := before.failed + 1))
  }

  /**
   * The result of a `decide` callback handed to `FileDB.AddOrUpdate`:
   * whether the candidate is written, the candidate as the callback left it
   * and the counters, or an exception that escapes the callback.
   */
  datatype Decision = Decided(write: bool, candidate: Torrent, counters: Counters) | Threw

  /** The four parts of the store's state, as a value. */
  datatype DbState = DbState(buckets: map<string, Bucket>, master: set<string>, dirty: set<string>, migrations: set<Migration>)

  /**
   * The abstract FileDB state.  `dirty` holds the buckets whose write
   * handle had `savechanges` set; `migrations` records every record handed
   * to `FileDB.MigrateTorrentToNewKey`, whose effect on the target bucket is
   * not modelled.  `FileDB.KeyForTorrent` and `StringConvert.SearchName` are
   * uninterpreted functions fixed for the life of the store.
   */
  class Store {
    var buckets: map<string, Bucket>
    var master: set<string>
    var dirty: set<string>
    var migrations: set<Migration>
    const keyFor: (string, string) -> string
    const searchName: string -> string

    /** The current state as a value. */
    function State(): DbState
      reads this
    {
      DbState(buckets, master, dirty, migrations)
    }

    constructor (buckets0: map<string, Bucket>, master0: set<string>,
                 keyFor: (string, string) -> string, searchName: string -> string)
      ensures buckets == buckets0 && master == master0
      ensures dirty == {} && migrations == {}
      ensures this.keyFor == keyFor && this.searchName == searchName
    {
      buckets := buckets0;
      master := master0;
      dirty := {};
      migrations := {};
      this.keyFor := keyFor;
      this.searchName := searchName;
    }

    /** Writes a whole state back: the buckets, the index and the bookkeeping. */
    method Save(st: DbState)
      modifies this
      ensures State() == st
    {
      buckets, master, dirty, migrations := st.buckets, st.master, st.dirty, st.migrations;
    }
  }
}
