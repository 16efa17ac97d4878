/**
 * What the DevController repair actions do to one torrent record: the
 * name and search-field fixes of UpdateSearchName, FixEmptySearchFields
 * and RemoveBucket, and the rule that decides whether a record must move
 * to another bucket.
 */
module DevRecords {
  import opened Common
  import opened FileDbModel

  /**
   * The condition under which a recomputed bucket key moves a record:
   * non-empty, different from the bucket being processed, and with its
   * first ':' after the first character.
   */
  predicate IsNewBucketKey(bucketKey: string, newKey: string) {
    newKey != "" && newKey != bucketKey && IndexOfChar(newKey, ':') > 0
  }

  /** `FileDB.KeyForTorrent(t.name, t.originalname)` (null names read as ""). */
  function KeyOf(t: Torrent, keyFor: (string, string) -> string): string {
    keyFor(OrElse(t.name, ""), OrElse(t.originalname, ""))
  }

  // -----------------------------------------------------------------------
  // UpdateSearchName

  /**
   * UpdateSearchName on one record: a blank name becomes `title ?? ""`, a
   * blank originalname becomes `title ?? name`, and both search fields
   * are recomputed from the (possibly fixed) names.
   */
  function RenamedForSearch(t: Torrent, searchName: string -> string): (r: Torrent)
    ensures r.name.Some? && r.originalname.Some?
  {
    var name := if IsBlankOpt(t.name) then Some(OrElse(t.title, "")) else t.name;
    var orig := if IsBlankOpt(t.originalname) then Some(OrElse(t.title, name.value)) else t.originalname;
    t.(name := name, originalname := orig, sn := searchName(name.value), so := searchName(orig.value))
  }

  /** UpdateSearchName moves a record whenever its recomputed key names another bucket. */
  function SearchNameTarget(bucketKey: string, keyFor: (string, string) -> string, searchName: string -> string): Torrent -> Option<string> {
    t => var k := KeyOf(RenamedForSearch(t, searchName), keyFor); if IsNewBucketKey(bucketKey, k) then Some(k) else None
  }

  /** UpdateSearchName sends a record only to its recomputed key. */
  lemma SearchNameTargetSome(bucketKey: string, keyFor: (string, string) -> string, searchName: string -> string, t: Torrent, key: string)
    requires SearchNameTarget(bucketKey, keyFor, searchName)(t) == Some(key)
    ensures IsNewBucketKey(bucketKey, key) && key == KeyOf(RenamedForSearch(t, searchName), keyFor)
  {
  }

  /** A record UpdateSearchName keeps has a recomputed key that would not move it. */
  lemma SearchNameTargetNone(bucketKey: string, keyFor: (string, string) -> string, searchName: string -> string, t: Torrent)
    requires SearchNameTarget(bucketKey, keyFor, searchName)(t).None?
    ensures !IsNewBucketKey(bucketKey, KeyOf(RenamedForSearch(t, searchName), keyFor))
  {
  }

  /**
   * The fixes keep every filled-in name, fall back to the title for blank
   * ones, leave all fields but the four touched alone, and make the search
   * fields agree with the names.
   */
  lemma RenamedForSearchFields(t: Torrent, searchName: string -> string)
    ensures var r := RenamedForSearch(t, searchName);
      (!IsBlankOpt(t.name) ==> r.name == t.name) &&
      (IsBlankOpt(t.name) ==> r.name == Some(OrElse(t.title, ""))) &&
      (!IsBlankOpt(t.originalname) ==> r.originalname == t.originalname) &&
      (IsBlankOpt(t.originalname) && t.title.Some? ==> r.originalname == t.title) &&
      (IsBlankOpt(t.originalname) && t.title.None? ==> r.originalname == r.name) &&
      r.sn == searchName(r.name.value) && r.so == searchName(r.originalname.value) &&
      r.(name := t.name, originalname := t.originalname, sn := t.sn, so := t.so) == t
  {
  }

  /** Running UpdateSearchName's per-record fix twice is the same as once. */
  lemma RenamedForSearchIdempotent(t: Torrent, searchName: string -> string)
    ensures RenamedForSearch(RenamedForSearch(t, searchName), searchName) == RenamedForSearch(t, searchName)
  {
  }

  // -----------------------------------------------------------------------
  // FixEmptySearchFields

  /** A record after FixEmptySearchFields, and whether `_sn` / `_so` were (re)computed. */
  datatype FieldFix = FieldFix(record: Torrent, fixedSn: bool, fixedSo: bool)

  /**
   * FixEmptySearchFields on one record.  A blank `_sn` is computed from
   * name, else title; a blank `_so` from originalname, else name, else
   * title.  Then blank names are filled (`name := title ?? ""`,
   * `originalname := name`) and a search field still blank is computed
   * from the filled name.
   */
  function FixSearchFields(t: Torrent, searchName: string -> string): (r: FieldFix)
    ensures r.record.name.Some? && r.record.originalname.Some?
  {
    var sn1 := if !IsBlank(t.sn) then t.sn
      else if !IsBlankOpt(t.name) then searchName(t.name.value)
      else if !IsBlankOpt(t.title) then searchName(t.title.value)
      else t.sn;
    var fixedSn1 := IsBlank(t.sn) && (!IsBlankOpt(t.name) || !IsBlankOpt(t.title));
    var so1 := if !IsBlank(t.so) then t.so
      else if !IsBlankOpt(t.originalname) then searchName(t.originalname.value)
      else if !IsBlankOpt(t.name) then searchName(t.name.value)
      else if !IsBlankOpt(t.title) then searchName(t.title.value)
      else t.so;
    var fixedSo1 := IsBlank(t.so) && (!IsBlankOpt(t.originalname) || !IsBlankOpt(t.name) || !IsBlankOpt(t.title));
    var name := if IsBlankOpt(t.name) then Some(OrElse(t.title, "")) else t.name;
    var orig := if IsBlankOpt(t.originalname) then name else t.originalname;
    var sn2 := if IsBlank(sn1) && !IsBlank(name.value) then searchName(name.value) else sn1;
    var so2 := if IsBlank(so1) && !IsBlank(orig.value) then searchName(orig.value) else so1;
    FieldFix(t.(name := name, originalname := orig, sn := sn2, so := so2),
             fixedSn1 || (IsBlank(sn1) && !IsBlank(name.value)),
             fixedSo1 || (IsBlank(so1) && !IsBlank(orig.value)))
  }

  /** FixEmptySearchFields moves a record only when a search field was fixed and its key changed. */
  function EmptyFieldsTarget(bucketKey: string, keyFor: (string, string) -> string, searchName: string -> string): Torrent -> Option<string> {
    t => var f := FixSearchFields(t, searchName);
      var k := KeyOf(f.record, keyFor);
      if (f.fixedSn || f.fixedSo) && IsNewBucketKey(bucketKey, k) then Some(k) else None
  }

  /** FixEmptySearchFields sends a record only to its recomputed key, and only after fixing a search field. */
  lemma EmptyFieldsTargetSome(bucketKey: string, keyFor: (string, string) -> string, searchName: string -> string, t: Torrent, key: string)
    requires EmptyFieldsTarget(bucketKey, keyFor, searchName)(t) == Some(key)
    ensures IsNewBucketKey(bucketKey, key) && key == KeyOf(FixSearchFields(t, searchName).record, keyFor)
    ensures FixSearchFields(t, searchName).fixedSn || FixSearchFields(t, searchName).fixedSo
  {
  }

  /** No field that was filled in is overwritten, and only the four name fields change. */
  lemma FixKeepsFilledFields(t: Torrent, searchName: string -> string)
    ensures var f := FixSearchFields(t, searchName);
      (!IsBlank(t.sn) ==> f.record.sn == t.sn && !f.fixedSn) &&
      (!IsBlank(t.so) ==> f.record.so == t.so && !f.fixedSo) &&
      (!IsBlankOpt(t.name) ==> f.record.name == t.name) &&
      (!IsBlankOpt(t.originalname) ==> f.record.originalname == t.originalname) &&
      f.record.(name := t.name, originalname := t.originalname, sn := t.sn, so := t.so) == t
  {
  }

  /** A blank `_sn` is taken from name, else from title; with both blank it stays unfixed. */
  lemma FixSnFallback(t: Torrent, searchName: string -> string)
    requires IsBlank(t.sn)
    ensures var f := FixSearchFields(t, searchName);
      (!IsBlankOpt(t.name) ==> f.fixedSn && f.record.sn == searchName(t.name.value)) &&
      (IsBlankOpt(t.name) && !IsBlankOpt(t.title) ==> f.fixedSn && f.record.sn == searchName(t.title.value)) &&
      (IsBlankOpt(t.name) && IsBlankOpt(t.title) ==> !f.fixedSn && f.record.sn == t.sn)
  {
  }

  /** A blank `_so` is taken from originalname, else name, else title; with all blank it stays unfixed. */
  lemma FixSoFallback(t: Torrent, searchName: string -> string)
    requires IsBlank(t.so)
    ensures var f := FixSearchFields(t, searchName);
      (!IsBlankOpt(t.originalname) ==> f.fixedSo && f.record.so == searchName(t.originalname.value)) &&
      (IsBlankOpt(t.originalname) && !IsBlankOpt(t.name) ==> f.fixedSo && f.record.so == searchName(t.name.value)) &&
      (IsBlankOpt(t.originalname) && IsBlankOpt(t.name) && !IsBlankOpt(t.title) ==>
         f.fixedSo && f.record.so == searchName(t.title.value)) &&
      (IsBlankOpt(t.originalname) && IsBlankOpt(t.name) && IsBlankOpt(t.title) ==> !f.fixedSo && f.record.so == t.so)
  {
  }

  // -----------------------------------------------------------------------
  // RemoveBucket

  /** RemoveBucket with both migrate names: the record takes the given names and their search forms. */
  function RenamedForMove(t: Torrent, migrateName: string, migrateOriginalname: string, searchName: string -> string): Torrent {
    t.(name := Some(migrateName), originalname := Some(migrateOriginalname),
       sn := searchName(migrateName), so := searchName(migrateOriginalname))
  }
}
