/**
 * RemoveDuplicateAniliberty: aniliberty records from all buckets are
 * grouped by the lower-cased info hash of their magnet; in every group the
 * most recently updated record (ties: smallest URL) is kept and the others
 * are removed from their buckets.
 */
module DevDedup {
  import opened Common
  import opened FileDbModel
  import opened DevRekeys

  /** One collected record: where it is, its group key and its sort key. */
  datatype Entry = Entry(bucket: string, url: string, hash: string, updateTime: int)

  /** The group key of a record, when it is an aniliberty record with a hash. */
  function DedupHash(t: Torrent): Option<string> {
    if !IsTracker(t, "aniliberty") then None
    else match MagnetHash(t)
      case None => None
      case Some(h) => Some(Lower(h))
  }

  /** `e` is the entry collected for the record at `e.url` in bucket `b`. */
  predicate EntryOfBucket(b: Bucket, e: Entry) {
    e.url in b && b[e.url].Some? && DedupHash(b[e.url].value) == Some(e.hash) &&
    e.updateTime == b[e.url].value.updateTime
  }

  /** `e` is the entry collected for a record of the store `bs`. */
  predicate EntryOf(bs: map<string, Bucket>, e: Entry) {
    e.bucket in bs && EntryOfBucket(bs[e.bucket], e)
  }

  // -----------------------------------------------------------------------
  // First pass

  /**
   * The first pass over one bucket: `processed` counts its aniliberty
   * records, `es` lists an entry for each of them that has a hash.
   */
  method CollectBucket(k: string, b: Bucket) returns (es: seq<Entry>, processed: nat)
    ensures Distinct(es)
    ensures forall e :: e in es <==> e.bucket == k && EntryOfBucket(b, e)
    ensures processed == |AnilibertyUrls(b)|
  {
    es := [];
    processed := 0;
    ghost var procList: seq<string> := [];
    var rest := b.Keys;
    while rest != {}
      invariant rest <= b.Keys
      invariant Distinct(es) && Distinct(procList) && processed == |procList|
      invariant forall e :: e in es <==> e.bucket == k && e.url !in rest && EntryOfBucket(b, e)
      invariant forall u :: u in procList <==> u in b && u !in rest && b[u].Some? && IsTracker(b[u].value, "aniliberty")
      decreases |rest|
    {
      var u :| u in rest;
      var entry := b[u];
      if entry.Some? && IsTracker(entry.value, "aniliberty") {
        processed := processed + 1;
        procList := procList + [u];
        var hash := DedupHash(entry.value);
        if hash.Some? {
          es := es + [Entry(k, u, hash.value, entry.value.updateTime)];
        }
      }
      rest := rest - {u};
    }
    assert SetOf(procList) == AnilibertyUrls(b);
    DistinctCard(procList);
  }

  // -----------------------------------------------------------------------
  // Grouping and the keeper

  /** The entries of `s` with hash `h`, in the order of `s`. */
  function GroupOf(s: seq<Entry>, h: string): seq<Entry>
    decreases |s|
  {
    if s == [] then []
    else GroupOf(s[..|s| - 1], h) + (if s[|s| - 1].hash == h then [s[|s| - 1]] else [])
  }

  lemma {:induction false} GroupOfMembers(s: seq<Entry>, h: string)
    ensures forall e :: e in GroupOf(s, h) <==> e in s && e.hash == h
    ensures Distinct(s) ==> Distinct(GroupOf(s, h))
    decreases |s|
  {
    if s != [] {
      var t := s[..|s| - 1];
      GroupOfMembers(t, h);
      assert s == t + [s[|s| - 1]];
      if Distinct(s) {
        assert Distinct(t);
        assert s[|s| - 1] !in t;
      }
    }
  }

  /**
   * `a` sorts before `b` in `OrderByDescending(updateTime).ThenBy(url)`:
   * later update first, then smaller URL.
   */
  predicate Outranks(a: Entry, b: Entry) {
    a.updateTime > b.updateTime || (a.updateTime == b.updateTime && LexLess(a.url, b.url))
  }

  lemma OutranksNegativelyTransitive(a: Entry, b: Entry, c: Entry)
    requires Outranks(a, c)
    ensures Outranks(a, b) || Outranks(b, c)
  {
    if a.updateTime == c.updateTime && b.updateTime == a.updateTime {
      LexLessTotal(a.url, b.url);
      if LexLess(b.url, a.url) {
        LexLessTransitive(b.url, a.url, c.url);
      }
    }
  }

  /**
   * `sorted[0]` of the stable sort of a group: an entry no member outranks,
   * and that outranks every member before it.
   */
  function Keeper(g: seq<Entry>): (r: Entry)
    requires g != []
    ensures r in g
    ensures forall i :: 0 <= i < |g| ==> !Outranks(g[i], r)
    ensures exists i :: 0 <= i < |g| && g[i] == r && forall j :: 0 <= j < i ==> Outranks(r, g[j])
    decreases |g|
  {
    if |g| == 1 then
      LexLessIrreflexive(g[0].url);
      g[0]
    else
      var k := Keeper(g[1..]);
      if Outranks(k, g[0]) then
        assert forall i :: 1 <= i < |g| ==> g[i] == g[1..][i - 1];
        var i :| 0 <= i < |g[1..]| && g[1..][i] == k && forall j :: 0 <= j < i ==> Outranks(k, g[1..][j]);
        assert g[i + 1] == k;
        LexLessAsymmetric(k.url, g[0].url);
        k
      else
        assert forall i :: 1 <= i < |g| ==> !Outranks(g[i], g[0]) by {
          forall i | 1 <= i < |g| ensures !Outranks(g[i], g[0]) {
            assert g[i] == g[1..][i - 1];
            if Outranks(g[i], g[0]) {
              OutranksNegativelyTransitive(g[i], k, g[0]);
            }
          }
        }
        LexLessIrreflexive(g[0].url);
        g[0]
  }

  /** The entries removed: every member of a group other than its keeper. */
  function Losers(entries: seq<Entry>): set<Entry> {
    set e | e in entries && GroupOf(entries, e.hash) != [] && e != Keeper(GroupOf(entries, e.hash))
  }

  /** Each hash keeps exactly one record, its group's keeper; a group of one loses nothing. */
  lemma OneSurvivorPerHash(entries: seq<Entry>, h: string)
    requires GroupOf(entries, h) != []
    ensures Keeper(GroupOf(entries, h)) in entries && Keeper(GroupOf(entries, h)) !in Losers(entries)
    ensures forall e :: e in entries && e.hash == h && e !in Losers(entries) ==> e == Keeper(GroupOf(entries, h))
    ensures forall e :: GroupOf(entries, h) == [e] ==> e !in Losers(entries)
  {
    GroupOfMembers(entries, h);
  }

  // -----------------------------------------------------------------------
  // Second pass

  /** `hashMap`: every hash with its group. */
  method GroupByHash(entries: seq<Entry>) returns (groups: map<string, seq<Entry>>)
    ensures forall h :: h in groups <==> GroupOf(entries, h) != []
    ensures forall h :: h in groups ==> groups[h] == GroupOf(entries, h)
  {
    groups := map[];
    for i := 0 to |entries|
      invariant forall h :: h in groups <==> GroupOf(entries[..i], h) != []
      invariant forall h :: h in groups ==> groups[h] == GroupOf(entries[..i], h)
    {
      var e := entries[i];
      assert entries[..i + 1][..i] == entries[..i];
      if e.hash !in groups {
        groups := groups[e.hash := []];
      }
      groups := groups[e.hash := groups[e.hash] + [e]];
    }
    assert entries[..|entries|] == entries;
  }

  /** The places (bucket, URL) of a set of entries. */
  function Places(es: set<Entry>): set<(string, string)> {
    set e | e in es :: (e.bucket, e.url)
  }

  /** The store with the records at the places `p` removed. */
  function Pruned(bs: map<string, Bucket>, p: set<(string, string)>): map<string, Bucket> {
    map k | k in bs :: map u | u in bs[k] && (k, u) !in p :: bs[k][u]
  }

  lemma PrunedNothing(bs: map<string, Bucket>)
    ensures Pruned(bs, {}) == bs
  {
    forall k | k in bs ensures Pruned(bs, {})[k] == bs[k] {
      assert Pruned(bs, {})[k].Keys == bs[k].Keys;
    }
  }

  /** Removing one more place from a pruned store. */
  lemma PrunedStep(bs: map<string, Bucket>, gone: set<Entry>, e: Entry)
    requires e.bucket in bs
    ensures var cur := Pruned(bs, Places(gone));
      Pruned(bs, Places(gone + {e})) == cur[e.bucket := cur[e.bucket] - {e.url}]
  {
    var cur := Pruned(bs, Places(gone));
    var p := Places(gone + {e});
    assert p == Places(gone) + {(e.bucket, e.url)};
    forall k | k in bs ensures Pruned(bs, p)[k] == cur[e.bucket := cur[e.bucket] - {e.url}][k] {
      if k == e.bucket {
        assert Pruned(bs, p)[k].Keys == cur[k].Keys - {e.url};
      }
    }
  }

  /** Two entries collected for the same place are the same entry. */
  lemma PlaceDeterminesEntry(bs: map<string, Bucket>, x: Entry, y: Entry)
    requires EntryOf(bs, x) && EntryOf(bs, y)
    requires x.bucket == y.bucket && x.url == y.url
    ensures x == y
  {
  }

  /**
   * The second pass of RemoveDuplicateAniliberty over the store `bs`, for
   * the entries collected from it: the records of the losers are removed
   * and counted.
   */
  method RemoveLosers(bs: map<string, Bucket>, entries: seq<Entry>) returns (bs': map<string, Bucket>, removed: nat)
    requires Distinct(entries)
    requires forall e :: e in entries ==> EntryOf(bs, e)
    ensures bs' == Pruned(bs, Places(Losers(entries)))
    ensures removed == |Losers(entries)|
  {
    var groups := GroupByHash(entries);
    bs' := bs;
    removed := 0;
    ghost var gone: set<Entry> := {};
    PrunedNothing(bs);
    assert Places(gone) == {};
    var hs := groups.Keys;
    while hs != {}
      invariant hs <= groups.Keys
      invariant bs' == Pruned(bs, Places(gone)) && removed == |gone|
      invariant forall e :: e in gone <==> e in Losers(entries) && e.hash !in hs
      decreases |hs|
    {
      var h :| h in hs;
      var g := groups[h];
      GroupOfMembers(entries, h);
      var keep := Keeper(g);
      bs', removed, gone := RemoveGroup(bs, entries, bs', removed, gone, h, g, keep);
      hs := hs - {h};
    }
    assert gone == Losers(entries);
  }

  /** The `foreach` over `toRemove` of one group: every member but the keeper. */
  method RemoveGroup(bs: map<string, Bucket>, entries: seq<Entry>, bs0: map<string, Bucket>, removed0: nat,
                     ghost gone0: set<Entry>, h: string, g: seq<Entry>, keep: Entry)
    returns (bs': map<string, Bucket>, removed: nat, ghost gone: set<Entry>)
    requires forall e :: e in entries ==> EntryOf(bs, e)
    requires Distinct(g) && forall e :: e in g <==> e in entries && e.hash == h
    requires bs0 == Pruned(bs, Places(gone0)) && removed0 == |gone0|
    requires forall e :: e in gone0 ==> e in entries && e.hash != h
    ensures bs' == Pruned(bs, Places(gone)) && removed == |gone|
    ensures forall e :: e in gone <==> e in gone0 || (e in g && e != keep)
  {
    bs', removed, gone := bs0, removed0, gone0;
    for i := 0 to |g|
      invariant bs' == Pruned(bs, Places(gone)) && removed == |gone|
      invariant forall e :: e in gone <==> e in gone0 || (e in g[..i] && e != keep)
    {
      var e := g[i];
      assert g[..i + 1] == g[..i] + [e];
      if e != keep {
        assert e !in gone by {
          assert forall j :: 0 <= j < i ==> g[j] != e;
        }
        bs', removed, gone := RemoveEntry(bs, entries, bs', removed, gone, e);
      }
    }
    assert g[..|g|] == g;
  }

  /**
   * `if (fdb.Database.ContainsKey(url)) { Remove(url); totalRemoved++; }`
   * for a collected entry not removed yet, whose URL is therefore still
   * in its bucket.
   */
  method RemoveEntry(bs: map<string, Bucket>, entries: seq<Entry>, cur: map<string, Bucket>, removed0: nat,
                     ghost gone0: set<Entry>, e: Entry)
    returns (cur': map<string, Bucket>, removed: nat, ghost gone: set<Entry>)
    requires forall x :: x in entries ==> EntryOf(bs, x)
    requires cur == Pruned(bs, Places(gone0)) && removed0 == |gone0|
    requires forall x :: x in gone0 ==> x in entries
    requires e in entries && e !in gone0
    ensures cur' == Pruned(bs, Places(gone)) && removed == |gone|
    ensures gone == gone0 + {e}
  {
    assert (e.bucket, e.url) !in Places(gone0) by {
      forall x | x in gone0 ensures (x.bucket, x.url) != (e.bucket, e.url) {
        if x.bucket == e.bucket && x.url == e.url {
          PlaceDeterminesEntry(bs, x, e);
        }
      }
    }
    assert e.url in cur[e.bucket];
    PrunedStep(bs, gone0, e);
    cur' := cur[e.bucket := cur[e.bucket] - {e.url}];
    removed := removed0 + 1;
    gone := gone0 + {e};
  }

  /**
   * What the second pass leaves: the keeper of every group stays, every
   * other collected record is gone, and records that were not collected
   * are untouched.
   */
  lemma PrunedLosers(bs: map<string, Bucket>, entries: seq<Entry>)
    requires forall e :: e in entries ==> EntryOf(bs, e)
    ensures var bs' := Pruned(bs, Places(Losers(entries)));
      bs'.Keys == bs.Keys &&
      (forall e :: e in entries ==> e.bucket in bs' && (e.url in bs'[e.bucket] <==> e !in Losers(entries))) &&
      (forall k, u :: k in bs && u in bs[k] && (forall e :: e in entries ==> e.bucket != k || e.url != u) ==>
         u in bs'[k] && bs'[k][u] == bs[k][u])
  {
    var bs' := Pruned(bs, Places(Losers(entries)));
    forall e | e in entries ensures e.url in bs'[e.bucket] <==> e !in Losers(entries) {
      if e.url !in bs'[e.bucket] {
        var x :| x in Losers(entries) && (x.bucket, x.url) == (e.bucket, e.url);
        PlaceDeterminesEntry(bs, x, e);
      }
    }
  }
}
