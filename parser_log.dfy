/**
 * The parser log's record shaping: the dictionary of a torrent's key
 * fields, the structured line `message | k=v, k=v`, the statistics line
 * and the four record lines (added, updated, skipped, failed).  The file
 * append and the clock are left out: `Write` returns the line it would
 * append, and timestamps come in as parameters.
 */
module ParserLog {
  import opened Common
  import opened FileDbModel
  import AppInit

  // -----------------------------------------------------------------------
  // Dictionaries

  /**
   * A `Dictionary<string, object>` in enumeration order, each value as
   * `{kv.Value}` renders it.  Entries are only ever added or overwritten,
   * so the order is the order of first insertion.
   */
  type Entries = seq<(string, string)>

  /** The position of key `k` in `d`, or -1. */
  function IndexOfKey(d: Entries, k: string): (r: int)
    ensures -1 <= r < |d|
    ensures r >= 0 ==> d[r].0 == k && forall j :: 0 <= j < r ==> d[j].0 != k
    ensures r < 0 ==> forall j :: 0 <= j < |d| ==> d[j].0 != k
    decreases |d|
  {
    if d == [] then -1
    else if d[|d| - 1].0 != k then
      var r := IndexOfKey(d[..|d| - 1], k);
      assert forall j :: 0 <= j < |d| - 1 ==> d[..|d| - 1][j] == d[j];
      r
    else
      var r := IndexOfKey(d[..|d| - 1], k);
      assert forall j :: 0 <= j < |d| - 1 ==> d[..|d| - 1][j] == d[j];
      if r >= 0 then r else |d| - 1
  }

  /** The first index holding `k` is the only candidate. */
  lemma IndexOfKeyIs(d: Entries, k: string, i: nat)
    requires i < |d| && d[i].0 == k
    requires forall j :: 0 <= j < i ==> d[j].0 != k
    ensures IndexOfKey(d, k) == i
  {
  }

  predicate HasKey(d: Entries, k: string) { IndexOfKey(d, k) >= 0 }

  /** No key occurs twice, as in any dictionary. */
  predicate WellFormed(d: Entries) { forall i, j :: 0 <= i < j < |d| ==> d[i].0 != d[j].0 }

  /** `data[k]` when present. */
  function Lookup(d: Entries, k: string): (r: Option<string>)
    ensures r.None? <==> !HasKey(d, k)
  {
    var i := IndexOfKey(d, k);
    if i < 0 then None else Some(d[i].1)
  }

  /** `data[k] = v`: overwrites in place when `k` is present, else appends. */
  function Put(d: Entries, k: string, v: string): (r: Entries)
    ensures !HasKey(d, k) ==> r == d + [(k, v)]
    ensures HasKey(d, k) ==> |r| == |d| && forall j :: 0 <= j < |d| ==> r[j].0 == d[j].0
    ensures WellFormed(d) ==> WellFormed(r)
  {
    var i := IndexOfKey(d, k);
    if i < 0 then d + [(k, v)] else d[i := (k, v)]
  }

  /** After `data[k] = v`, `k` holds `v` and every other key what it held. */
  lemma PutLookup(d: Entries, k: string, v: string, other: string)
    ensures Lookup(Put(d, k, v), other) == if other == k then Some(v) else Lookup(d, other)
  {
    var r := Put(d, k, v);
    var i := IndexOfKey(d, k);
    if i < 0 {
      if other == k {
        IndexOfKeyIs(r, k, |d|);
      } else {
        var m := IndexOfKey(d, other);
        if m >= 0 { IndexOfKeyIs(r, other, m); }
      }
    } else {
      if other == k {
        IndexOfKeyIs(r, k, i);
      } else {
        var m := IndexOfKey(d, other);
        if m >= 0 { IndexOfKeyIs(r, other, m); }
      }
    }
  }

  /** `foreach (var kv in keys) data[kv.Key] = kv.Value;` */
  function MergeAll(d: Entries, keys: Entries): Entries
    decreases |keys|
  {
    if keys == [] then d
    else
      var last := keys[|keys| - 1];
      Put(MergeAll(d, keys[..|keys| - 1]), last.0, last.1)
  }

  /** Merging keys that the dictionary does not hold appends them, in order. */
  lemma {:induction false} MergeAllFresh(d: Entries, keys: Entries)
    requires WellFormed(keys)
    requires forall i :: 0 <= i < |keys| ==> !HasKey(d, keys[i].0)
    ensures MergeAll(d, keys) == d + keys
    decreases |keys|
  {
    if keys != [] {
      var init := keys[..|keys| - 1];
      var last := keys[|keys| - 1];
      MergeAllFresh(d, init);
      assert forall j :: 0 <= j < |d + init| ==> (d + init)[j].0 != last.0 by {
        forall j | 0 <= j < |d + init| ensures (d + init)[j].0 != last.0 {
          if j >= |d| { assert (d + init)[j] == keys[j - |d|]; }
        }
      }
      assert d + init + [last] == d + keys;
    }
  }

  /** The merge loop of the `WriteX` methods. */
  method Merge(data: Entries, keys: Entries) returns (r: Entries)
    ensures r == MergeAll(data, keys)
  {
    r := data;
    for i := 0 to |keys|
      invariant r == MergeAll(data, keys[..i])
    {
      assert keys[..i + 1][..i] == keys[..i];
      r := Put(r, keys[i].0, keys[i].1);
    }
    assert keys[..|keys|] == keys;
  }

  // -----------------------------------------------------------------------
  // Conditional inserts

  /** A field table: each key with the value it is logged with, or `None` when it is left out. */
  type Fields = seq<(string, Option<string>)>

  function FieldKeys(f: Fields): (r: seq<string>)
    ensures |r| == |f|
  {
    seq(|f|, i requires 0 <= i < |f| => f[i].0)
  }

  /** The present fields, in table order. */
  function Present(f: Fields): (r: Entries)
    ensures |r| <= |f|
    ensures forall j :: 0 <= j < |r| ==> r[j].0 in FieldKeys(f)
    decreases |f|
  {
    if f == [] then []
    else
      var init := Present(f[..|f| - 1]);
      var last := f[|f| - 1];
      assert FieldKeys(f[..|f| - 1]) == FieldKeys(f)[..|f| - 1];
      assert FieldKeys(f)[|f| - 1] == last.0;
      if last.1.Some? then init + [(last.0, last.1.value)] else init
  }

  /**
   * The sequence of `if (cond) data[key] = value;` statements of a table
   * with distinct keys, applied to an empty dictionary.
   */
  method Fill(f: Fields) returns (data: Entries)
    requires Distinct(FieldKeys(f))
    ensures data == Present(f)
  {
    data := [];
    for i := 0 to |f|
      invariant data == Present(f[..i])
    {
      assert f[..i + 1][..i] == f[..i];
      if f[i].1.Some? {
        assert !HasKey(data, f[i].0) by {
          forall j | 0 <= j < |data| ensures data[j].0 != f[i].0 {
            assert data[j].0 in FieldKeys(f[..i]);
            var m :| 0 <= m < i && FieldKeys(f[..i])[m] == data[j].0;
            assert FieldKeys(f)[m] == data[j].0 && FieldKeys(f)[i] == f[i].0;
          }
        }
        data := Put(data, f[i].0, f[i].1.value);
      }
    }
    assert f[..|f|] == f;
  }

  /** With distinct keys the present fields form a dictionary, each key holding its table value. */
  lemma {:induction false} PresentMeaning(f: Fields)
    requires Distinct(FieldKeys(f))
    ensures WellFormed(Present(f))
    ensures forall i :: 0 <= i < |f| ==> Lookup(Present(f), f[i].0) == f[i].1
    decreases |f|
  {
    if f != [] {
      InitKeys(f);
      PresentMeaning(f[..|f| - 1]);
      PresentMeaningStep(f);
    }
  }

  /** The present fields of a table mean what the table says. */
  ghost predicate PresentMeans(f: Fields) {
    WellFormed(Present(f)) && forall i :: 0 <= i < |f| ==> Lookup(Present(f), f[i].0) == f[i].1
  }

  /** One more field of a table with distinct keys keeps the present fields meaning what the table says. */
  lemma PresentMeaningStep(f: Fields)
    requires f != [] && Distinct(FieldKeys(f))
    requires PresentMeans(f[..|f| - 1])
    ensures PresentMeans(f)
  {
    var init, last := f[..|f| - 1], f[|f| - 1];
    var p := Present(init);
    LastKeyFresh(f);
    if last.1.Some? {
      assert Present(f) == Put(p, last.0, last.1.value);
      forall i | 0 <= i < |f| ensures Lookup(Present(f), f[i].0) == f[i].1 {
        PutLookup(p, last.0, last.1.value, f[i].0);
        if i < |f| - 1 { assert FieldKeys(f)[i] != FieldKeys(f)[|f| - 1] && f[i] == init[i]; }
      }
    } else {
      assert Present(f) == p;
      forall i | 0 <= i < |f| ensures Lookup(Present(f), f[i].0) == f[i].1 {
        if i < |f| - 1 { assert f[i] == init[i]; }
      }
    }
  }

  /** The keys of all fields but the last are the keys of the table but the last. */
  lemma InitKeys(f: Fields)
    requires f != [] && Distinct(FieldKeys(f))
    ensures Distinct(FieldKeys(f[..|f| - 1]))
    ensures FieldKeys(f[..|f| - 1]) == FieldKeys(f)[..|f| - 1]
  {
    var init := f[..|f| - 1];
    assert forall i :: 0 <= i < |init| ==> FieldKeys(init)[i] == FieldKeys(f)[i];
  }

  /** The last key of a table with distinct keys is not among the earlier present fields. */
  lemma LastKeyFresh(f: Fields)
    requires f != [] && Distinct(FieldKeys(f))
    ensures !HasKey(Present(f[..|f| - 1]), f[|f| - 1].0)
  {
    var init, last := f[..|f| - 1], f[|f| - 1];
    InitKeys(f);
    var p := Present(init);
    forall j | 0 <= j < |p| ensures p[j].0 != last.0 {
      assert p[j].0 in FieldKeys(init);
      var m :| 0 <= m < |init| && FieldKeys(init)[m] == p[j].0;
      assert FieldKeys(f)[m] == p[j].0 && FieldKeys(f)[|f| - 1] == last.0;
    }
    assert IndexOfKey(p, last.0) < 0;
  }

  // -----------------------------------------------------------------------
  // Torrent keys

  /** `s.Length > n ? s.Substring(0, n) + "..." : s`. */
  function Truncate(s: string, n: nat): (r: string)
    ensures |r| <= n + 3 && |r| <= |s| + 3
    ensures |s| <= n ==> r == s
    ensures |s| > n ==> StartsWith(r, s[..n]) && EndsWith(r, "...")
  {
    if |s| > n then
      var r := s[..n] + "...";
      assert r[..n] == s[..n];
      assert r[|r| - 3..] == "...";
      r
    else s
  }

  /** The logged form of a magnet link: its 40-digit btih hash, or "yes". */
  function MagnetKey(magnet: string): (r: string)
    ensures r == "yes" || (|r| == 40 && forall i :: 0 <= i < 40 ==> IsHexDigit(r[i]))
    ensures r == "yes" <==> FindHexAfter(magnet, "btih:", 40).None?
  {
    var h := FindHexAfter(magnet, "btih:", 40);
    if h.Some? then h.value else "yes"
  }

  /** How the two timestamps are rendered: `yyyy-MM-dd` and `yyyy-MM-dd HH:mm:ss`. */
  datatype Clock = Clock(day: int -> string, stamp: int -> string)

  /** A text field: left out when blank, else transformed. */
  function TextField(o: Option<string>, f: string -> string): Option<string> {
    if IsBlankOpt(o) then None else Some(f(o.value))
  }

  /** The fields `ExtractTorrentKeys` inserts, in its order, with the conditions it checks. */
  function TorrentFields(t: Torrent, clock: Clock): (f: Fields)
    ensures FieldKeys(f) == ["name", "originalname", "_sn", "_so", "magnet", "createTime", "updateTime", "size", "types"]
  {
    [("name", TextField(t.name, s => Truncate(s, 50))),
     ("originalname", TextField(t.originalname, s => Truncate(s, 50))),
     ("_sn", TextField(Some(t.sn), s => s)),
     ("_so", TextField(Some(t.so), s => s)),
     ("magnet", TextField(t.magnet, MagnetKey)),
     ("createTime", if t.createTime == 0 then None else Some(clock.day(t.createTime))),
     ("updateTime", if t.updateTime == 0 then None else Some(clock.stamp(t.updateTime))),
     ("size", TextField(t.sizeName, s => s)),
     ("types", if t.types.None? || t.types.value == [] then None else Some(Join(t.types.value, ",")))]
  }

  lemma TorrentKeysDistinct(t: Torrent, clock: Clock)
    ensures Distinct(FieldKeys(TorrentFields(t, clock)))
  {
    var k := FieldKeys(TorrentFields(t, clock));
    forall i, j | 0 <= i < j < |k| ensures k[i] != k[j] {
      assert |k[i]| != |k[j]| || k[i][1] != k[j][1] || k[i][2] != k[j][2];
    }
  }

  /** The dictionary `ExtractTorrentKeys(t)` returns. */
  function TorrentKeys(t: Torrent, clock: Clock): Entries {
    Present(TorrentFields(t, clock))
  }

  /** `ExtractTorrentKeys`. */
  method ExtractTorrentKeys(t: Torrent, clock: Clock) returns (data: Entries)
    ensures data == TorrentKeys(t, clock)
  {
    TorrentKeysDistinct(t, clock);
    data := Fill(TorrentFields(t, clock));
  }

  /**
   * Every key of `ExtractTorrentKeys` is present exactly when its field
   * is set (a non-blank string, a non-default time, a non-empty list),
   * with its logged value, and no key occurs twice.
   */
  lemma TorrentKeysMeaning(t: Torrent, clock: Clock)
    ensures WellFormed(TorrentKeys(t, clock))
    ensures Lookup(TorrentKeys(t, clock), "name") == if IsBlankOpt(t.name) then None else Some(Truncate(t.name.value, 50))
    ensures Lookup(TorrentKeys(t, clock), "originalname") == if IsBlankOpt(t.originalname) then None else Some(Truncate(t.originalname.value, 50))
    ensures Lookup(TorrentKeys(t, clock), "magnet") == if IsBlankOpt(t.magnet) then None else Some(MagnetKey(t.magnet.value))
    ensures Lookup(TorrentKeys(t, clock), "createTime") == if t.createTime == 0 then None else Some(clock.day(t.createTime))
    ensures Lookup(TorrentKeys(t, clock), "updateTime") == if t.updateTime == 0 then None else Some(clock.stamp(t.updateTime))
    ensures Lookup(TorrentKeys(t, clock), "size") == if IsBlankOpt(t.sizeName) then None else t.sizeName
    ensures Lookup(TorrentKeys(t, clock), "types").Some? <==> t.types.Some? && t.types.value != []
  {
    TorrentKeysDistinct(t, clock);
    PresentMeaning(TorrentFields(t, clock));
    TorrentKeyAt(t, clock, 0);
    TorrentKeyAt(t, clock, 1);
    TorrentKeyAt(t, clock, 4);
    TorrentKeyAt(t, clock, 5);
    TorrentKeyAt(t, clock, 6);
    TorrentKeyAt(t, clock, 7);
    TorrentKeyAt(t, clock, 8);
  }

  /** The table entry `i` of `ExtractTorrentKeys`, looked up by its key. */
  lemma TorrentKeyAt(t: Torrent, clock: Clock, i: nat)
    requires i < 9
    requires forall j :: 0 <= j < |TorrentFields(t, clock)| ==>
      Lookup(TorrentKeys(t, clock), TorrentFields(t, clock)[j].0) == TorrentFields(t, clock)[j].1
    ensures i == 0 ==> Lookup(TorrentKeys(t, clock), "name") == if IsBlankOpt(t.name) then None else Some(Truncate(t.name.value, 50))
    ensures i == 1 ==> Lookup(TorrentKeys(t, clock), "originalname") == if IsBlankOpt(t.originalname) then None else Some(Truncate(t.originalname.value, 50))
    ensures i == 4 ==> Lookup(TorrentKeys(t, clock), "magnet") == if IsBlankOpt(t.magnet) then None else Some(MagnetKey(t.magnet.value))
    ensures i == 5 ==> Lookup(TorrentKeys(t, clock), "createTime") == if t.createTime == 0 then None else Some(clock.day(t.createTime))
    ensures i == 6 ==> Lookup(TorrentKeys(t, clock), "updateTime") == if t.updateTime == 0 then None else Some(clock.stamp(t.updateTime))
    ensures i == 7 ==> Lookup(TorrentKeys(t, clock), "size") == if IsBlankOpt(t.sizeName) then None else t.sizeName
    ensures i == 8 ==> (Lookup(TorrentKeys(t, clock), "types").Some? <==> t.types.Some? && t.types.value != [])
  {
    var f := TorrentFields(t, clock);
    assert FieldKeys(f)[i] == f[i].0;
  }

  /** Only the nine keys of the table ever appear. */
  lemma TorrentKeysOnly(t: Torrent, clock: Clock, k: string)
    requires k !in ["name", "originalname", "_sn", "_so", "magnet", "createTime", "updateTime", "size", "types"]
    ensures !HasKey(TorrentKeys(t, clock), k)
  {
    var d := TorrentKeys(t, clock);
    assert forall j :: 0 <= j < |d| ==> d[j].0 != k;
  }

  // -----------------------------------------------------------------------
  // Lines

  function Pairs(d: Entries): (r: seq<string>)
    ensures |r| == |d|
  {
    seq(|d|, i requires 0 <= i < |d| => d[i].0 + "=" + d[i].1)
  }

  /** The text after the timestamp: the message, then ` | k=v, k=v` when there is data. */
  function Line(message: string, data: Entries): (r: string)
    ensures data == [] <==> r == message
    ensures data != [] ==> StartsWith(r, message + " | ") && r[|message| + 3..] == Join(Pairs(data), ", ")
  {
    if data == [] then message
    else
      var r := message + " | " + Join(Pairs(data), ", ");
      assert r[..|message| + 3] == message + " | ";
      r
  }

  /** One entry gives `message | key=value`. */
  lemma LineOfOne(message: string, k: string, v: string)
    ensures Line(message, [(k, v)]) == message + " | " + k + "=" + v
  {
    assert Pairs([(k, v)]) == [k + "=" + v];
  }

  /**
   * `Write(trackerName, message, data)`: the line appended to the
   * tracker's log, or nothing when its log is switched off.  `time` is the
   * rendered `DateTime.Now`.
   */
  function Write(conf: Option<AppInit.LogConf>, trackerName: string, time: string, message: string, data: Entries): (r: Option<string>)
    ensures r.Some? <==> AppInit.TrackerLogEnabled(conf, Some(trackerName))
    ensures r.Some? ==> StartsWith(r.value, "[" + time + "] " + message) && EndsWith(r.value, "\n")
  {
    if !AppInit.TrackerLogEnabled(conf, Some(trackerName)) then None
    else
      var line := Line(message, data);
      var r := "[" + time + "] " + line + "\n";
      assert r[..|time| + 3 + |message|] == "[" + time + "] " + message;
      assert r[|r| - 1..] == "\n";
      Some(r)
  }

  /** `Write(trackerName, message)` without data is the structured write with an empty dictionary. */
  lemma PlainWrite(conf: Option<AppInit.LogConf>, trackerName: string, time: string, message: string)
    ensures Write(conf, trackerName, time, message, []) ==
      if AppInit.TrackerLogEnabled(conf, Some(trackerName)) then Some("[" + time + "] " + message + "\n") else None
  {
  }

  // -----------------------------------------------------------------------
  // Statistics

  function Positive(n: int): Option<string> { if n > 0 then Some(IntToString(n)) else None }

  /** The counters `WriteStats` may log, in its order; only those greater than zero are set. */
  function StatFields(parsed: int, processed: int, updated: int, failed: int): (f: Fields)
    ensures FieldKeys(f) == ["parsed", "processed", "updated", "failed"]
  {
    [("parsed", Positive(parsed)), ("processed", Positive(processed)), ("updated", Positive(updated)), ("failed", Positive(failed))]
  }

  /** The dictionary of `WriteStats`. */
  method StatsData(parsed: int, processed: int, updated: int, failed: int) returns (data: Entries)
    ensures data == Present(StatFields(parsed, processed, updated, failed))
  {
    var f := StatFields(parsed, processed, updated, failed);
    var k := FieldKeys(f);
    assert forall i, j :: 0 <= i < j < |k| ==> k[i] != k[j] by {
      forall i, j | 0 <= i < j < |k| ensures k[i] != k[j] {
        assert |k[i]| != |k[j]| || k[i][0] != k[j][0];
      }
    }
    data := Fill(f);
  }

  /** `WriteStats`: the structured write of the positive counters. */
  method WriteStats(conf: Option<AppInit.LogConf>, trackerName: string, time: string, message: string,
                    parsed: int, processed: int, updated: int, failed: int) returns (line: Option<string>)
    ensures line == Write(conf, trackerName, time, message, Present(StatFields(parsed, processed, updated, failed)))
  {
    var data := StatsData(parsed, processed, updated, failed);
    line := Write(conf, trackerName, time, message, data);
  }

  /** A counter is logged exactly when it is positive, with its decimal value. */
  lemma StatsMeaning(parsed: int, processed: int, updated: int, failed: int)
    ensures Lookup(Present(StatFields(parsed, processed, updated, failed)), "parsed") == Positive(parsed)
    ensures Lookup(Present(StatFields(parsed, processed, updated, failed)), "failed") == Positive(failed)
    ensures Present(StatFields(parsed, processed, updated, failed)) == [] <==> parsed <= 0 && processed <= 0 && updated <= 0 && failed <= 0
  {
    var f := StatFields(parsed, processed, updated, failed);
    var k := FieldKeys(f);
    assert Distinct(k) by {
      forall i, j | 0 <= i < j < |k| ensures k[i] != k[j] {
        assert |k[i]| != |k[j]| || k[i][0] != k[j][0];
      }
    }
    PresentMeaning(f);
    PresentEmpty(f);
    assert f[0].0 == "parsed" && f[3].0 == "failed";
    assert (forall i :: 0 <= i < |f| ==> f[i].1.None?) <==> f[0].1.None? && f[1].1.None? && f[2].1.None? && f[3].1.None? by {
      if f[0].1.None? && f[1].1.None? && f[2].1.None? && f[3].1.None? {
        forall i | 0 <= i < |f| ensures f[i].1.None? {
          assert i == 0 || i == 1 || i == 2 || i == 3;
        }
      }
    }
  }

  /** Nothing is inserted exactly when every field is left out. */
  lemma {:induction false} PresentEmpty(f: Fields)
    ensures Present(f) == [] <==> forall i :: 0 <= i < |f| ==> f[i].1.None?
    decreases |f|
  {
    if f != [] {
      PresentEmpty(f[..|f| - 1]);
      assert forall i :: 0 <= i < |f| - 1 ==> f[..|f| - 1][i] == f[i];
    }
  }

  // -----------------------------------------------------------------------
  // Record lines

  /** Which of `WriteAdded`, `WriteUpdated`, `WriteSkipped`, `WriteFailed`. */
  datatype RecordKind = AddedRecord | UpdatedRecord | SkippedRecord | FailedRecord

  function Verb(kind: RecordKind): string {
    match kind
    case AddedRecord => "added"
    case UpdatedRecord => "updated"
    case SkippedRecord => "skipped"
    case FailedRecord => "failed"
  }

  function Message(kind: RecordKind): string { "Torrent " + Verb(kind) }

  /** The keys a record line starts with: action and url always, title and reason when set; `WriteAdded` has no reason. */
  function HeadFields(kind: RecordKind, t: Torrent, reason: Option<string>): (f: Fields)
    ensures FieldKeys(f) == ["action", "url", "title", "reason"]
  {
    [("action", Some(Verb(kind))), ("url", Some(t.url)),
     ("title", TextField(t.title, s => Truncate(s, 60))),
     ("reason", if kind == AddedRecord then None else TextField(reason, s => s))]
  }

  /** The full table of a record line: its head, then the torrent's keys. */
  function RecordFields(kind: RecordKind, t: Torrent, reason: Option<string>, clock: Clock): Fields {
    HeadFields(kind, t, reason) + TorrentFields(t, clock)
  }

  lemma RecordKeysDistinct(kind: RecordKind, t: Torrent, reason: Option<string>, clock: Clock)
    ensures Distinct(FieldKeys(RecordFields(kind, t, reason, clock)))
  {
    var a := HeadFields(kind, t, reason);
    var b := TorrentFields(t, clock);
    var k := FieldKeys(a + b);
    assert k == FieldKeys(a) + FieldKeys(b);
    forall i, j | 0 <= i < j < |k| ensures k[i] != k[j] {
      assert |k[i]| != |k[j]| || k[i][0] != k[j][0] || k[i][1] != k[j][1] || k[i][2] != k[j][2];
    }
  }

  lemma {:induction false} PresentAppend(a: Fields, b: Fields)
    ensures Present(a + b) == Present(a) + Present(b)
    decreases |b|
  {
    if b == [] {
      assert a + b == a;
    } else {
      assert (a + b)[..|a + b| - 1] == a + b[..|b| - 1];
      PresentAppend(a, b[..|b| - 1]);
    }
  }

  lemma HeadDistinct(kind: RecordKind, t: Torrent, reason: Option<string>)
    ensures Distinct(FieldKeys(HeadFields(kind, t, reason)))
  {
    var k := FieldKeys(HeadFields(kind, t, reason));
    forall i, j | 0 <= i < j < |k| ensures k[i] != k[j] {
      assert |k[i]| != |k[j]| || k[i][0] != k[j][0];
    }
  }

  /** Merging the torrent's keys into the head appends them: together they are the record's table. */
  lemma RecordDataIsMerge(kind: RecordKind, t: Torrent, reason: Option<string>, clock: Clock)
    ensures MergeAll(Present(HeadFields(kind, t, reason)), TorrentKeys(t, clock)) == RecordData(kind, t, reason, clock)
  {
    var a := HeadFields(kind, t, reason);
    var b := TorrentFields(t, clock);
    RecordKeysDistinct(kind, t, reason, clock);
    TorrentKeysDistinct(t, clock);
    PresentMeaning(b);
    var head := Present(a);
    var keys := Present(b);
    forall i | 0 <= i < |keys| ensures !HasKey(head, keys[i].0) {
      assert keys[i].0 in FieldKeys(b);
      forall j | 0 <= j < |head| ensures head[j].0 != keys[i].0 {
        assert head[j].0 in FieldKeys(a);
        var m :| 0 <= m < 4 && FieldKeys(a)[m] == head[j].0;
        var n :| 0 <= n < 9 && FieldKeys(b)[n] == keys[i].0;
        assert FieldKeys(a + b)[m] == head[j].0 && FieldKeys(a + b)[4 + n] == keys[i].0;
      }
    }
    MergeAllFresh(head, keys);
    PresentAppend(a, b);
  }

  /** The dictionary of a record line. */
  function RecordData(kind: RecordKind, t: Torrent, reason: Option<string>, clock: Clock): Entries {
    Present(RecordFields(kind, t, reason, clock))
  }

  /** What a `WriteX` call does: throw on a null torrent, append a line, or nothing when logging is off. */
  datatype WriteOutcome = Thrown | Appended(line: string) | Silent

  /**
   * `WriteAdded`/`WriteUpdated`/`WriteSkipped`/`WriteFailed`: the head
   * dictionary, the merged torrent keys, and the structured write.  A null
   * torrent throws while the dictionary is built, before logging is
   * consulted.
   */
  method WriteRecord(conf: Option<AppInit.LogConf>, trackerName: string, time: string, kind: RecordKind,
                     t: Option<Torrent>, reason: Option<string>, clock: Clock) returns (r: WriteOutcome)
    ensures t.None? <==> r.Thrown?
    ensures t.Some? && !AppInit.TrackerLogEnabled(conf, Some(trackerName)) ==> r.Silent?
    ensures t.Some? && AppInit.TrackerLogEnabled(conf, Some(trackerName)) ==>
      r == Appended("[" + time + "] " + Line(Message(kind), RecordData(kind, t.value, reason, clock)) + "\n")
  {
    if t.None? {
      return Thrown;
    }
    var torrent := t.value;
    HeadDistinct(kind, torrent, reason);
    var head := Fill(HeadFields(kind, torrent, reason));
    var keys := ExtractTorrentKeys(torrent, clock);
    RecordDataIsMerge(kind, torrent, reason, clock);
    var data := Merge(head, keys);
    var line := Write(conf, trackerName, time, Message(kind), data);
    if line.Some? {
      r := Appended(line.value);
    } else {
      r := Silent;
    }
  }

  /**
   * A record line's dictionary holds no key twice, begins with the action
   * and the url, carries the reason exactly when one is given (and never
   * for an added torrent), and logs the magnet as its hash.
   */
  lemma RecordDataShape(kind: RecordKind, t: Torrent, reason: Option<string>, clock: Clock)
    ensures WellFormed(RecordData(kind, t, reason, clock))
    ensures |RecordData(kind, t, reason, clock)| >= 2 && RecordData(kind, t, reason, clock)[..2] == [("action", Verb(kind)), ("url", t.url)]
    ensures Lookup(RecordData(kind, t, reason, clock), "magnet") == if IsBlankOpt(t.magnet) then None else Some(MagnetKey(t.magnet.value))
    ensures Lookup(RecordData(kind, t, reason, clock), "reason").Some? <==> kind != AddedRecord && !IsBlankOpt(reason)
  {
    RecordDataLookups(kind, t, reason, clock);
    var a := HeadFields(kind, t, reason);
    HeadPrefix(kind, t, reason);
    PresentAppend(a, TorrentFields(t, clock));
    var p := Present(a);
    assert (p + Present(TorrentFields(t, clock)))[..2] == p[..2];
  }

  /** The dictionary of a record line holds no key twice and logs the magnet and the reason as the table says. */
  lemma RecordDataLookups(kind: RecordKind, t: Torrent, reason: Option<string>, clock: Clock)
    ensures WellFormed(RecordData(kind, t, reason, clock))
    ensures Lookup(RecordData(kind, t, reason, clock), "magnet") == if IsBlankOpt(t.magnet) then None else Some(MagnetKey(t.magnet.value))
    ensures Lookup(RecordData(kind, t, reason, clock), "reason").Some? <==> kind != AddedRecord && !IsBlankOpt(reason)
  {
    var f := RecordFields(kind, t, reason, clock);
    RecordKeysDistinct(kind, t, reason, clock);
    PresentMeaning(f);
    assert f[3].0 == "reason" && f[8].0 == "magnet";
  }

  /** The head of a record line starts with the action and the url. */
  lemma HeadPrefix(kind: RecordKind, t: Torrent, reason: Option<string>)
    ensures var p := Present(HeadFields(kind, t, reason));
      |p| >= 2 && p[..2] == [("action", Verb(kind)), ("url", t.url)]
  {
    var a := HeadFields(kind, t, reason);
    var h := a[..2];
    assert a == h + a[2..];
    PresentAppend(h, a[2..]);
    assert h[..1] == [a[0]] && h[..1][..0] == [];
    assert Present(h) == [("action", Verb(kind)), ("url", t.url)];
  }

  /** A record line logs a non-blank title cut at 60 characters, and no title when it is blank. */
  lemma RecordTitle(kind: RecordKind, t: Torrent, reason: Option<string>, clock: Clock)
    ensures Lookup(RecordData(kind, t, reason, clock), "title") == if IsBlankOpt(t.title) then None else Some(Truncate(t.title.value, 60))
  {
    var f := RecordFields(kind, t, reason, clock);
    RecordKeysDistinct(kind, t, reason, clock);
    PresentMeaning(f);
    assert f[2].0 == "title";
  }
}
