/**
 * The store of media-track metadata (the streams ffprobe reports for a
 * torrent): which content types are never probed, where a hash's file
 * lives and how the loader turns the file path back into the hash, the
 * in-memory cache that only ever holds results with streams, and the set
 * of audio languages of a torrent.
 */
module TracksDb {
  import opened Common

  // -----------------------------------------------------------------------
  // theBad

  /** Content types that are never probed: none at all, sport, TV shows and documentary series. */
  predicate TheBad(types: Option<seq<string>>) {
    types.None? || |types.value| == 0 ||
    "sport" in types.value || "tvshow" in types.value || "docuserial" in types.value
  }

  /** A null or empty array is bad, and an ordinary type is good. */
  lemma TheBadMissing()
    ensures TheBad(None) && TheBad(Some([])) && !TheBad(Some(["movie", "serial"]))
  {
  }

  /** An array with a type other than the three is good exactly when it holds none of them. */
  lemma TheBadIff(types: seq<string>)
    requires types != []
    ensures TheBad(Some(types)) <==> exists i :: 0 <= i < |types| && types[i] in {"sport", "tvshow", "docuserial"}
  {
    if "sport" in types {
      var i :| 0 <= i < |types| && types[i] == "sport";
    } else if "tvshow" in types {
      var i :| 0 <= i < |types| && types[i] == "tvshow";
    } else if "docuserial" in types {
      var i :| 0 <= i < |types| && types[i] == "docuserial";
    }
  }

  // -----------------------------------------------------------------------
  // pathDb and the key rebuilt at load

  const Root: string := "Data/tracks"

  /** The directory of a hash: its first two characters, then its third. */
  function Folder1(h: string): string
    requires |h| >= 2
  {
    Root + "/" + h[..2]
  }

  function Folder2(h: string): string
    requires |h| >= 3
  {
    Folder1(h) + "/" + [h[2]]
  }

  /** `pathDb(infohash)`: the file of a hash is named by the rest of it. */
  function PathDb(h: string): (p: string)
    requires |h| >= 3
    ensures p == Folder2(h) + "/" + h[3..]
  {
    Root + "/" + h[..2] + "/" + [h[2]] + "/" + h[3..]
  }

  /** `Path.GetFileName`: the text after the last `/`. */
  function FileName(path: string): (r: string)
    ensures EndsWith(path, r) && !HasChar(r, '/')
    decreases |path|
  {
    if path == [] then []
    else if path[|path| - 1] == '/' then []
    else
      var r := FileName(path[..|path| - 1]);
      var s := r + [path[|path| - 1]];
      assert !HasChar(s, '/') by {
        forall j | 0 <= j < |s| ensures s[j] != '/' {
          if j < |r| { assert s[j] == r[j]; }
        }
      }
      assert path == path[..|path| - 1] + [path[|path| - 1]];
      s
  }

  /** A path ending in `/` and a name without `/` has that name. */
  lemma {:induction false} FileNameOf(dir: string, name: string)
    requires !HasChar(name, '/')
    ensures FileName(dir + "/" + name) == name
    decreases |name|
  {
    var path := dir + "/" + name;
    if name == [] {
      assert path[|path| - 1] == '/';
    } else {
      var init := name[..|name| - 1];
      assert path[..|path| - 1] == dir + "/" + init;
      assert path[|path| - 1] == name[|name| - 1];
      assert !HasChar(init, '/') by {
        forall j | 0 <= j < |init| ensures init[j] != '/' { assert init[j] == name[j]; }
      }
      FileNameOf(dir, init);
      assert init + [name[|name| - 1]] == name;
    }
  }

  /**
   * The key the loader builds from the directories and the file it finds:
   * `folder1.Substring(12) + folder2.Substring(folder1.Length + 1) + GetFileName(file)`.
   */
  function RebuiltKey(folder1: string, folder2: string, file: string): string
    requires |folder1| >= 12 && |folder2| >= |folder1| + 1
  {
    folder1[12..] + folder2[|folder1| + 1..] + FileName(file)
  }

  /** Round trip: the loader rebuilds the hash it was stored under, for hashes without `/`. */
  lemma PathDbRoundTrip(h: string)
    requires |h| >= 3 && !HasChar(h, '/')
    ensures |Folder1(h)| >= 12 && |Folder2(h)| >= |Folder1(h)| + 1
    ensures RebuiltKey(Folder1(h), Folder2(h), PathDb(h)) == h
  {
    var f1 := Folder1(h);
    var f2 := Folder2(h);
    assert f1[12..] == h[..2];
    assert f2[|f1| + 1..] == [h[2]];
    assert !HasChar(h[3..], '/') by {
      forall j | 0 <= j < |h[3..]| ensures h[3..][j] != '/' { assert h[3..][j] == h[j + 3]; }
    }
    FileNameOf(f2, h[3..]);
    assert h[..2] + [h[2]] + h[3..] == h;
  }

  /** Different hashes are stored in different files. */
  lemma PathDbInjective(a: string, b: string)
    requires |a| >= 3 && |b| >= 3 && !HasChar(a, '/') && !HasChar(b, '/')
    requires PathDb(a) == PathDb(b)
    ensures a == b
  {
    PathDbRoundTrip(a);
    PathDbRoundTrip(b);
    assert Folder1(a) == PathDb(a)[..14] && Folder1(b) == PathDb(b)[..14];
    assert Folder2(a) == PathDb(a)[..16] && Folder2(b) == PathDb(b)[..16];
  }

  // -----------------------------------------------------------------------
  // The in-memory cache

  /** One stream of an ffprobe report: `codec_type` and `tags.language`. */
  datatype Stream = Stream(codecType: Option<string>, language: Option<string>)

  /** An ffprobe report; `streams` may be missing. */
  datatype Ffprobe = Ffprobe(streams: Option<seq<Stream>>)

  predicate HasStreams(res: Option<Ffprobe>) {
    res.Some? && res.value.streams.Some? && |res.value.streams.value| > 0
  }

  /** A metadata file on disk: absent, unreadable or malformed, or parsed (possibly to `null`). */
  datatype StoredFile = NoFile | Unreadable | Parsed(res: Option<Ffprobe>)

  /** The hash map `Database`, keyed by info-hash. */
  class TracksStore {
    var database: map<string, Ffprobe>

    /** Every cached report has at least one stream. */
    predicate Valid()
      reads this
    {
      forall k :: k in database ==> HasStreams(Some(database[k]))
    }

    constructor ()
      ensures database == map[] && Valid()
    {
      database := map[];
    }

    /**
     * `Configuration`: the files found at load, as (rebuilt key, parsed
     * report) pairs in directory order.  Only reports with streams enter,
     * and `TryAdd` keeps the first report of a key.
     */
    method Configuration(files: seq<(string, StoredFile)>)
      requires Valid()
      modifies this
      ensures Valid()
      ensures database == Loaded(old(database), files)
    {
      for i := 0 to |files|
        invariant Valid()
        invariant database == Loaded(old(database), files[..i])
      {
        assert files[..i + 1][..i] == files[..i];
        var (key, f) := files[i];
        if f.Parsed? && HasStreams(f.res) && key !in database {
          database := database[key := f.res.value];
        }
      }
      assert files[..|files|] == files;
    }

    /**
     * `Get`: bad types give `null` without a lookup; a cached hash gives its
     * streams; otherwise the file is read, and a report with streams is
     * cached and returned.  `infohash` is the hash of the magnet link
     * (magnet parsing is not modelled).
     */
    method Get(infohash: string, types: Option<seq<string>>, stored: StoredFile) returns (r: Option<seq<Stream>>)
      requires Valid()
      modifies this
      ensures Valid()
      ensures types.Some? && TheBad(types) ==> r.None? && database == old(database)
      ensures !(types.Some? && TheBad(types)) ==> (r, database) == GetResult(old(database), infohash, stored)
    {
      if types.Some? && TheBad(types) {
        return None;
      }
      if infohash in database {
        return database[infohash].streams;
      }
      if !stored.Parsed? || !HasStreams(stored.res) {
        return None;
      }
      database := database[infohash := stored.res.value];
      r := stored.res.value.streams;
    }

    /**
     * The store part of `Add`: after the gates, `probe` is the report the
     * probe produced (if any); only one with streams is cached, replacing
     * an older one.  The wipe on the server, the file write and the
     * logging are not modelled.
     */
    method Add(infohash: string, types: Option<seq<string>>, servers: nat, probe: Option<Ffprobe>)
      requires Valid()
      modifies this
      ensures Valid()
      ensures database == (if AddStores(infohash, types, servers, probe) then old(database)[infohash := probe.value] else old(database))
    {
      if types.Some? && TheBad(types) {
        return;
      }
      if servers == 0 {
        return;
      }
      if infohash == [] {
        return;
      }
      if !HasStreams(probe) {
        return;
      }
      database := database[infohash := probe.value];
    }
  }

  /** The cache after loading `files`. */
  function Loaded(db: map<string, Ffprobe>, files: seq<(string, StoredFile)>): map<string, Ffprobe>
    decreases |files|
  {
    if files == [] then db
    else
      var before := Loaded(db, files[..|files| - 1]);
      var (key, f) := files[|files| - 1];
      if f.Parsed? && HasStreams(f.res) && key !in before then before[key := f.res.value] else before
  }

  /** What `Get` returns and the cache after it, when the types pass. */
  function GetResult(db: map<string, Ffprobe>, infohash: string, stored: StoredFile): (Option<seq<Stream>>, map<string, Ffprobe>) {
    if infohash in db then (db[infohash].streams, db)
    else if !stored.Parsed? || !HasStreams(stored.res) then (None, db)
    else (stored.res.value.streams, db[infohash := stored.res.value])
  }

  /** Whether `Add` caches its probe result. */
  predicate AddStores(infohash: string, types: Option<seq<string>>, servers: nat, probe: Option<Ffprobe>) {
    !(types.Some? && TheBad(types)) && servers > 0 && infohash != [] && HasStreams(probe)
  }

  /** Loading keeps every cached report with streams, and only adds such reports. */
  lemma {:induction false} LoadedOnlyStreams(db: map<string, Ffprobe>, files: seq<(string, StoredFile)>, k: string)
    requires k in Loaded(db, files)
    ensures (k in db && Loaded(db, files)[k] == db[k]) ||
            exists i :: 0 <= i < |files| && files[i].0 == k && files[i].1.Parsed? && HasStreams(files[i].1.res) &&
                        Loaded(db, files)[k] == files[i].1.res.value
    decreases |files|
  {
    if files != [] {
      var init := files[..|files| - 1];
      var before := Loaded(db, init);
      if k in before {
        LoadedOnlyStreams(db, init, k);
        if !(k in db && before[k] == db[k]) {
          var i :| 0 <= i < |init| && init[i].0 == k && init[i].1.Parsed? && HasStreams(init[i].1.res) &&
                   before[k] == init[i].1.res.value;
          assert files[i] == init[i];
        }
      }
    }
  }

  /** The first file of a key with streams wins at load. */
  lemma {:induction false} LoadedFirstWins(db: map<string, Ffprobe>, files: seq<(string, StoredFile)>, i: nat)
    requires i < |files| && files[i].1.Parsed? && HasStreams(files[i].1.res) && files[i].0 !in db
    requires forall j :: 0 <= j < i ==> files[j].0 != files[i].0 || !files[j].1.Parsed? || !HasStreams(files[j].1.res)
    ensures files[i].0 in Loaded(db, files) && Loaded(db, files)[files[i].0] == files[i].1.res.value
    decreases |files|
  {
    var init := files[..|files| - 1];
    if i < |init| {
      LoadedFirstWins(db, init, i);
    } else {
      LoadedMissing(db, init, files[i].0);
    }
  }

  /** A key no loaded file carries with streams stays as it was. */
  lemma {:induction false} LoadedMissing(db: map<string, Ffprobe>, files: seq<(string, StoredFile)>, k: string)
    requires forall j :: 0 <= j < |files| ==> files[j].0 != k || !files[j].1.Parsed? || !HasStreams(files[j].1.res)
    ensures (k in Loaded(db, files) <==> k in db)
    ensures k in db ==> Loaded(db, files)[k] == db[k]
    decreases |files|
  {
    if files != [] {
      LoadedMissing(db, files[..|files| - 1], k);
    }
  }

  /** `Get` on a cached hash returns its streams, which are non-empty, and changes nothing. */
  lemma GetCached(db: map<string, Ffprobe>, infohash: string, stored: StoredFile)
    requires infohash in db && HasStreams(Some(db[infohash]))
    ensures GetResult(db, infohash, stored) == (db[infohash].streams, db)
    ensures GetResult(db, infohash, stored).0.Some? && |GetResult(db, infohash, stored).0.value| > 0
  {
  }

  /** `Get` on an uncached hash returns something exactly when the file holds a report with streams, and then caches it. */
  lemma GetUncached(db: map<string, Ffprobe>, infohash: string, stored: StoredFile)
    requires infohash !in db
    ensures GetResult(db, infohash, stored).0.Some? <==> stored.Parsed? && HasStreams(stored.res)
    ensures GetResult(db, infohash, stored).0.Some? ==> GetResult(db, infohash, stored).1 == db[infohash := stored.res.value]
    ensures GetResult(db, infohash, stored).0.None? ==> GetResult(db, infohash, stored).1 == db
  {
  }

  // -----------------------------------------------------------------------
  // Languages

  /** The audio languages of the streams: non-empty `tags.language` of streams with codec type `audio`. */
  function AudioLanguages(streams: seq<Stream>): set<string>
    decreases |streams|
  {
    if streams == [] then {}
    else
      var s := streams[|streams| - 1];
      AudioLanguages(streams[..|streams| - 1]) +
      (if s.language.Some? && s.language.value != [] && s.codecType == Some("audio") then {s.language.value} else {})
  }

  /** A language is an audio language exactly when some audio stream carries it. */
  lemma {:induction false} AudioLanguagesIff(streams: seq<Stream>, l: string)
    ensures l in AudioLanguages(streams) <==>
      l != [] && exists i :: 0 <= i < |streams| && streams[i].language == Some(l) && streams[i].codecType == Some("audio")
    decreases |streams|
  {
    if streams != [] {
      var init := streams[..|streams| - 1];
      AudioLanguagesIff(init, l);
      if exists i :: 0 <= i < |init| && init[i].language == Some(l) && init[i].codecType == Some("audio") {
        var i :| 0 <= i < |init| && init[i].language == Some(l) && init[i].codecType == Some("audio");
        assert streams[i] == init[i];
      }
      if exists i :: 0 <= i < |streams| && streams[i].language == Some(l) && streams[i].codecType == Some("audio") {
        var i :| 0 <= i < |streams| && streams[i].language == Some(l) && streams[i].codecType == Some("audio");
        if i < |init| { assert init[i] == streams[i]; }
      }
    }
  }

  /** The union `Languages` builds, before its emptiness test. */
  function LanguageUnion(languages: Option<seq<string>>, streams: Option<seq<Stream>>): set<string> {
    (if languages.Some? then SetOf(languages.value) else {}) +
    (if streams.Some? then AudioLanguages(streams.value) else {})
  }

  /** The loop over the torrent's own languages. */
  method AddOwn(ls: seq<string>) returns (result: set<string>)
    ensures result == SetOf(ls)
  {
    result := {};
    for i := 0 to |ls|
      invariant result == SetOf(ls[..i])
    {
      assert SetOf(ls[..i + 1]) == SetOf(ls[..i]) + {ls[i]} by {
        assert ls[..i + 1] == ls[..i] + [ls[i]];
      }
      result := result + {ls[i]};
    }
    assert ls[..|ls|] == ls;
  }

  /** The loop over the streams, adding audio languages to `own`. */
  method AddAudio(own: set<string>, ss: seq<Stream>) returns (result: set<string>)
    ensures result == own + AudioLanguages(ss)
  {
    result := own;
    for i := 0 to |ss|
      invariant result == own + AudioLanguages(ss[..i])
    {
      assert ss[..i + 1][..i] == ss[..i];
      var item := ss[i];
      if item.language.Some? && item.language.value != [] && item.codecType == Some("audio") {
        result := result + {item.language.value};
      }
    }
    assert ss[..|ss|] == ss;
  }

  /**
   * `Languages(t, streams)`: the torrent's own languages plus the audio
   * languages of the streams, or `null` when there are none.
   */
  method Languages(languages: Option<seq<string>>, streams: Option<seq<Stream>>) returns (r: Option<set<string>>)
    ensures r.None? <==> LanguageUnion(languages, streams) == {}
    ensures r.Some? ==> r.value == LanguageUnion(languages, streams)
  {
    var result: set<string> := {};
    if languages.Some? {
      result := AddOwn(languages.value);
    }
    if streams.Some? {
      result := AddAudio(result, streams.value);
    }
    if |result| == 0 {
      return None;
    }
    r := Some(result);
  }
}
