/**
 * Configuration helpers of the application: redaction of secrets in the
 * configuration's JSON tree, the choice of configuration file, the
 * reload decision of the configuration cache, the Torrserver list and
 * the per-tracker parser-log switch.
 */
module AppInit {
  import opened Common

  // -----------------------------------------------------------------------
  // Redaction

  /** A JSON token; `JNumber` and `JBool` keep their rendered text. */
  datatype Json =
    | JNull
    | JUndefined
    | JString(s: string)
    | JNumber(text: string)
    | JBool(b: bool)
    | JArray(items: seq<Json>)
    | JObject(props: seq<(string, Json)>)

  const SensitiveKeys: seq<string> := ["apikey", "devkey", "cookie", "u", "p", "username", "password"]

  const Mask: string := "***"

  /** Membership in the case-insensitive set of sensitive names. */
  predicate Sensitive(name: string) {
    exists k :: k in SensitiveKeys && EqIgnoreCase(name, k)
  }

  /** The value is not null or undefined and `ToString()` of it is not empty. */
  predicate HasText(v: Json) {
    match v
    case JNull => false
    case JUndefined => false
    case JString(s) => s != []
    case JNumber(t) => t != []
    case JBool(_) => true
    case JArray(_) => true   // "[]" at least
    case JObject(_) => true  // "{}" at least
  }

  predicate Masked(name: string, v: Json) { Sensitive(name) && HasText(v) }

  /** The tree `RedactSensitive` leaves behind. */
  function Redacted(j: Json): Json
    decreases j
  {
    match j
    case JObject(props) =>
      JObject(seq(|props|, i requires 0 <= i < |props| =>
        (props[i].0, if Masked(props[i].0, props[i].1) then JString(Mask) else Redacted(props[i].1))))
    case JArray(items) => JArray(seq(|items|, i requires 0 <= i < |items| => Redacted(items[i])))
    case _ => j
  }

  /** `RedactSensitive`: every property in turn, descending into the values it does not mask. */
  method RedactSensitive(token: Json) returns (r: Json)
    ensures r == Redacted(token)
    decreases token
  {
    match token {
      case JObject(props) =>
        var out: seq<(string, Json)> := [];
        for i := 0 to |props|
          invariant |out| == i
          invariant forall k :: 0 <= k < i ==>
            out[k] == (props[k].0, if Masked(props[k].0, props[k].1) then JString(Mask) else Redacted(props[k].1))
        {
          var name := props[i].0;
          var value := props[i].1;
          if Sensitive(name) && HasText(value) {
            out := out + [(name, JString(Mask))];
          } else {
            var v := RedactSensitive(value);
            out := out + [(name, v)];
          }
        }
        r := JObject(out);
      case JArray(items) =>
        var out: seq<Json> := [];
        for i := 0 to |items|
          invariant |out| == i
          invariant forall k :: 0 <= k < i ==> out[k] == Redacted(items[k])
        {
          var v := RedactSensitive(items[i]);
          out := out + [v];
        }
        r := JArray(out);
      case _ =>
        r := token;
    }
  }

  /** No secret is left: every sensitive property with text holds the mask, at any depth. */
  predicate Clean(j: Json)
    decreases j
  {
    match j
    case JObject(props) =>
      forall i :: 0 <= i < |props| ==>
        (Masked(props[i].0, props[i].1) ==> props[i].1 == JString(Mask)) && Clean(props[i].1)
    case JArray(items) => forall i :: 0 <= i < |items| ==> Clean(items[i])
    case _ => true
  }

  lemma {:induction false} RedactedClean(j: Json)
    ensures Clean(Redacted(j))
    decreases j
  {
    match j
    case JObject(props) =>
      forall i | 0 <= i < |props| ensures Clean(Redacted(j).props[i].1) {
        if !Masked(props[i].0, props[i].1) {
          RedactedClean(props[i].1);
        }
      }
    case JArray(items) =>
      forall i | 0 <= i < |items| ensures Clean(Redacted(j).items[i]) {
        RedactedClean(items[i]);
      }
    case _ =>
  }

  /** The same shape: names and their order, array lengths, and every scalar outside a masked value. */
  predicate SameShape(a: Json, b: Json)
    decreases a
  {
    match a
    case JObject(ps) =>
      b.JObject? && |b.props| == |ps| &&
      forall i :: 0 <= i < |ps| ==>
        (b.props[i].0 == ps[i].0 && (Masked(ps[i].0, ps[i].1) || SameShape(ps[i].1, b.props[i].1)))
    case JArray(items) => b.JArray? && |b.items| == |items| && forall i :: 0 <= i < |items| ==> SameShape(items[i], b.items[i])
    case _ => b == a
  }

  /** Redaction keeps names, order and non-sensitive content. */
  lemma {:induction false} RedactedShape(j: Json)
    ensures SameShape(j, Redacted(j))
    decreases j
  {
    match j
    case JObject(props) =>
      forall i | 0 <= i < |props| && !Masked(props[i].0, props[i].1)
        ensures SameShape(props[i].1, Redacted(j).props[i].1)
      {
        RedactedShape(props[i].1);
      }
    case JArray(items) =>
      forall i | 0 <= i < |items| ensures SameShape(items[i], Redacted(j).items[i]) {
        RedactedShape(items[i]);
      }
    case _ =>
  }

  /** A clean tree is left as it is. */
  lemma {:induction false} RedactCleanUnchanged(j: Json)
    requires Clean(j)
    ensures Redacted(j) == j
    decreases j
  {
    match j
    case JObject(props) =>
      var r := Redacted(j).props;
      forall i | 0 <= i < |props| ensures r[i] == props[i] {
        if !Masked(props[i].0, props[i].1) {
          RedactCleanUnchanged(props[i].1);
        }
      }
      assert r == props;
    case JArray(items) =>
      var r := Redacted(j).items;
      forall i | 0 <= i < |items| ensures r[i] == items[i] {
        RedactCleanUnchanged(items[i]);
      }
      assert r == items;
    case _ =>
  }

  /** Redacting twice is redacting once. */
  lemma RedactIdempotent(j: Json)
    ensures Redacted(Redacted(j)) == Redacted(j)
  {
    RedactedClean(j);
    RedactCleanUnchanged(Redacted(j));
  }

  /**
   * The names are matched without regard to case: a name is sensitive
   * exactly when its lower-cased form is one of the listed names, and a
   * value is masked only when it also has text.
   */
  lemma SensitiveIffLower(name: string, v: Json)
    ensures Sensitive(name) <==> Lower(name) in SensitiveKeys
    ensures Masked(name, v) <==> Lower(name) in SensitiveKeys && HasText(v)
  {
    forall k | k in SensitiveKeys ensures EqIgnoreCase(name, k) <==> Lower(name) == k {
      SensitiveKeysLower(k);
      EqIgnoreCaseLower(name, k);
    }
  }

  lemma SensitiveKeysLower(k: string)
    requires k in SensitiveKeys
    ensures LowerLetters(k)
  {
  }

  // -----------------------------------------------------------------------
  // The configuration file

  const ConfigFileYaml: string := "init.yaml"
  const ConfigFileJson: string := "init.conf"

  /** The chosen file and its last write time; `(null, default)` when neither exists. */
  datatype Source = Source(path: Option<string>, lastWrite: int)

  /**
   * `GetConfigSource`.  `yamlWrite` and `jsonWrite` are the files' last
   * write times, `None` when a file does not exist.
   */
  function GetConfigSource(yamlWrite: Option<int>, jsonWrite: Option<int>): (src: Source)
    ensures yamlWrite.Some? ==> src == Source(Some(ConfigFileYaml), yamlWrite.value)
    ensures yamlWrite.None? && jsonWrite.Some? ==> src == Source(Some(ConfigFileJson), jsonWrite.value)
    ensures src.path.None? <==> yamlWrite.None? && jsonWrite.None?
    ensures src.path.None? ==> src.lastWrite == 0
  {
    if yamlWrite.Some? then Source(Some(ConfigFileYaml), yamlWrite.value)
    else if jsonWrite.Some? then Source(Some(ConfigFileJson), jsonWrite.value)
    else Source(None, 0)
  }

  /** The configuration installed: the default one, or the one read from a file at a write time. */
  datatype Conf = DefaultConf | FileConf(path: string, lastWrite: int)

  /** What reading the file yields: an exception, a `null` object (an empty or `null` document), or a configuration. */
  datatype Load = Throws | Null | Loaded

  /** The cached triple `(conf, path, lastWrite)`. */
  datatype Cache = Cache(conf: Option<Conf>, path: Option<string>, lastWrite: int)

  const Initial: Cache := Cache(None, None, 0)

  /** One call of `updateConf`: the new cache and the label it logs, when it logs. */
  function UpdateConf(c: Cache, src: Source, load: Load): (Cache, Option<string>) {
    if c.conf.None? then
      if src.path.None? then (Cache(Some(DefaultConf), None, 0), Some("config (default)"))
      else if load.Throws? then (c, None)
      else (Cache(if load.Loaded? then Some(FileConf(src.path.value, src.lastWrite)) else None, src.path, src.lastWrite),
            Some("config (start)"))
    else if src.path.None? then (c, None)
    else if c.path != src.path || c.lastWrite != src.lastWrite then
      if load.Throws? then (c, None)
      else (Cache(if load.Loaded? then Some(FileConf(src.path.value, src.lastWrite)) else None, src.path, src.lastWrite),
            Some(if c.path.Some? then "config (reload)" else "config (start)"))
    else (c, None)
  }

  /** The first call without any file installs the default configuration. */
  lemma FirstCallDefault(load: Load)
    ensures UpdateConf(Initial, Source(None, 0), load) == (Cache(Some(DefaultConf), None, 0), Some("config (default)"))
  {
  }

  /** Once a configuration is installed, a missing file keeps it. */
  lemma MissingFileKeeps(c: Cache, lastWrite: int, load: Load)
    requires c.conf.Some?
    ensures UpdateConf(c, Source(None, lastWrite), load) == (c, None)
  {
  }

  /** Once a configuration is installed, the file is read again only when its path or write time differs. */
  lemma ReloadOnlyOnChange(c: Cache, src: Source, load: Load)
    requires c.conf.Some?
    ensures UpdateConf(c, src, load).0 != c ==> src.path.Some? && (c.path != src.path || c.lastWrite != src.lastWrite)
    ensures src.path.Some? && (c.path != src.path || c.lastWrite != src.lastWrite) && load.Loaded? ==>
      UpdateConf(c, src, load).0 == Cache(Some(FileConf(src.path.value, src.lastWrite)), src.path, src.lastWrite)
  {
  }

  /** Calling again with the same file does nothing once a configuration has been read from it. */
  lemma UpdateConfStable(c: Cache, src: Source, load: Load, again: Load)
    requires load.Loaded?
    ensures var c1 := UpdateConf(c, src, load).0; UpdateConf(c1, src, again) == (c1, None)
  {
  }

  /** The mutable cache; `conf` is `AppInit.conf`. */
  class ConfCache {
    var cache: Cache

    constructor()
      ensures cache == Initial
    {
      cache := Initial;
    }

    function Current(): Option<Conf>
      reads this
    {
      cache.conf
    }

    /** `updateConf`: assigns the three fields as the decision says; returns the logged logged. */
    method Update(src: Source, load: Load) returns (logged: Option<string>)
      modifies this
      ensures (cache, logged) == UpdateConf(old(cache), src, load)
    {
      if cache.conf.None? {
        if src.path.None? {
          cache := Cache(Some(DefaultConf), None, 0);
          return Some("config (default)");
        }
        if load.Throws? {
          return None;
        }
        var loaded := if load.Loaded? then Some(FileConf(src.path.value, src.lastWrite)) else None;
        cache := Cache(loaded, src.path, src.lastWrite);
        return Some("config (start)");
      }
      if src.path.None? {
        return None;
      }
      if cache.path != src.path || cache.lastWrite != src.lastWrite {
        var isReload := cache.path.Some?;
        if load.Throws? {
          return None;
        }
        var loaded := if load.Loaded? then Some(FileConf(src.path.value, src.lastWrite)) else None;
        cache := Cache(loaded, src.path, src.lastWrite);
        logged := Some(if isReload then "config (reload)" else "config (start)");
        return;
      }
      logged := None;
    }
  }

  // -----------------------------------------------------------------------
  // Torrserver list

  /** A `tservers` entry as configured. */
  datatype TorrserverEntry = TorrserverEntry(url: Option<string>, username: Option<string>, password: Option<string>)

  /** A usable server: trimmed url, and credentials `null` when blank. */
  datatype Server = Server(url: string, username: Option<string>, password: Option<string>)

  predicate Usable(e: Option<TorrserverEntry>) { e.Some? && !IsBlankOpt(e.value.url) }

  function Credential(o: Option<string>): (r: Option<string>)
    ensures r.None? <==> IsBlankOpt(o)
    ensures r.Some? ==> r.value == Trim(o.value) && r.value != []
  {
    if IsBlankOpt(o) then None
    else
      TrimEmptyIffBlank(o.value);
      Some(Trim(o.value))
  }

  function ServerOf(e: TorrserverEntry): Server
    requires !IsBlankOpt(e.url)
  {
    Server(Trim(e.url.value), Credential(e.username), Credential(e.password))
  }

  /** The servers of the usable entries, in order. */
  function Servers(es: seq<Option<TorrserverEntry>>): seq<Server>
    decreases |es|
  {
    if es == [] then []
    else
      var e := es[|es| - 1];
      Servers(es[..|es| - 1]) + (if Usable(e) then [ServerOf(e.value)] else [])
  }

  /** `GetTorrserverList`; `tservers` is `None` for a null array (or a null configuration). */
  method GetTorrserverList(tservers: Option<seq<Option<TorrserverEntry>>>) returns (list: seq<Server>)
    ensures tservers.None? ==> list == []
    ensures tservers.Some? ==> list == Servers(tservers.value)
  {
    if tservers.None? || |tservers.value| == 0 {
      return [];
    }
    var es := tservers.value;
    list := [];
    for i := 0 to |es|
      invariant list == Servers(es[..i])
    {
      assert es[..i + 1][..i] == es[..i];
      var t := es[i];
      if t.None? || IsBlankOpt(t.value.url) {
        continue;
      }
      var url := Trim(t.value.url.value);
      var username := if IsBlankOpt(t.value.username) then None else Some(Trim(t.value.username.value));
      var password := if IsBlankOpt(t.value.password) then None else Some(Trim(t.value.password.value));
      list := list + [Server(url, username, password)];
    }
    assert es[..|es|] == es;
  }

  /** Every listed server has a non-empty, trimmed url. */
  lemma {:induction false} ServersWellFormed(es: seq<Option<TorrserverEntry>>)
    ensures forall s :: s in Servers(es) ==> s.url != [] && !IsWs(s.url[0]) && !IsWs(s.url[|s.url| - 1])
    decreases |es|
  {
    if es != [] {
      ServersWellFormed(es[..|es| - 1]);
      var e := es[|es| - 1];
      if Usable(e) {
        TrimEmptyIffBlank(e.value.url.value);
      }
    }
  }

  /** One server per usable entry, in the entries' order. */
  lemma {:induction false} ServersCount(es: seq<Option<TorrserverEntry>>)
    ensures |Servers(es)| <= |es|
    ensures |Servers(es)| == |es| <==> forall i :: 0 <= i < |es| ==> Usable(es[i])
    decreases |es|
  {
    if es != [] {
      var init := es[..|es| - 1];
      ServersCount(init);
      ServersLastCount(es);
      AllUsableSplit(es, init);
    }
  }

  /** The last entry adds one server when it is usable and none otherwise. */
  lemma ServersLastCount(es: seq<Option<TorrserverEntry>>)
    requires es != []
    ensures |Servers(es)| == |Servers(es[..|es| - 1])| + (if Usable(es[|es| - 1]) then 1 else 0)
  {
  }

  /** All entries are usable exactly when all but the last are and the last is. */
  lemma AllUsableSplit(es: seq<Option<TorrserverEntry>>, init: seq<Option<TorrserverEntry>>)
    requires es != [] && init == es[..|es| - 1]
    ensures (forall i :: 0 <= i < |es| ==> Usable(es[i])) <==>
      (forall i :: 0 <= i < |init| ==> Usable(init[i])) && Usable(es[|es| - 1])
  {
    assert forall i :: 0 <= i < |init| ==> init[i] == es[i];
  }

  /** Appending an entry appends its server exactly when it is usable. */
  lemma ServersAppend(es: seq<Option<TorrserverEntry>>, e: Option<TorrserverEntry>)
    ensures Servers(es + [e]) == Servers(es) + (if Usable(e) then [ServerOf(e.value)] else [])
  {
    assert (es + [e])[..|es|] == es;
  }

  // -----------------------------------------------------------------------
  // Parser log switch

  /** The trackers whose settings the switch consults, by lower-case name. */
  const LoggedTrackers: seq<string> :=
    ["baibako", "bitru", "kinozal", "megapeer", "nnmclub", "rutor", "rutracker", "selezen", "toloka", "mazepa", "torrentby", "lostfilm"]

  /** What the switch reads of the configuration; `trackerLog(n)` is the `log` flag of tracker `n`'s settings. */
  datatype LogConf = LogConf(logParsers: bool, log: bool, trackerLog: string -> bool)

  /** `TrackerLogEnabled(trackerName)`. */
  function TrackerLogEnabled(conf: Option<LogConf>, trackerName: Option<string>): (r: bool)
    ensures r ==> conf.Some? && (conf.value.logParsers || conf.value.log) && !IsBlankOpt(trackerName)
    ensures r <==> conf.Some? && (conf.value.logParsers || conf.value.log) && !IsBlankOpt(trackerName) &&
                   Lower(trackerName.value) in LoggedTrackers && conf.value.trackerLog(Lower(trackerName.value))
  {
    var enabled := conf.Some? && (conf.value.logParsers || conf.value.log);
    if !enabled || IsBlankOpt(trackerName) then false
    else
      var n := Lower(trackerName.value);
      if n in LoggedTrackers then conf.value.trackerLog(n) else false
  }

  /** The switch has no case for these trackers, so their parser log never runs. */
  lemma UnlistedTrackersNeverLog(conf: Option<LogConf>)
    ensures !TrackerLogEnabled(conf, Some("aniliberty"))
    ensures !TrackerLogEnabled(conf, Some("anidub"))
    ensures !TrackerLogEnabled(conf, Some("animelayer"))
  {
    UnlistedName(conf, "aniliberty");
    UnlistedName(conf, "anidub");
    UnlistedName(conf, "animelayer");
  }

  /** A lower-case name the switch does not list never has its log enabled. */
  lemma UnlistedName(conf: Option<LogConf>, n: string)
    requires n == "aniliberty" || n == "anidub" || n == "animelayer"
    ensures !TrackerLogEnabled(conf, Some(n))
  {
    LowerCaseName(n);
    assert n !in LoggedTrackers;
  }

  /** The three unlisted names are already lower case. */
  lemma LowerCaseName(n: string)
    requires n == "aniliberty" || n == "anidub" || n == "animelayer"
    ensures Lower(n) == n
  {
  }

  /** The tracker name is matched without regard to case: any name logs as its lower-cased form does. */
  lemma TrackerNameCase(c: Option<LogConf>, n: string)
    ensures TrackerLogEnabled(c, Some(n)) == TrackerLogEnabled(c, Some(Lower(n)))
  {
    assert Lower(Lower(n)) == Lower(n);
    assert IsBlank(Lower(n)) == IsBlank(n);
  }
}
