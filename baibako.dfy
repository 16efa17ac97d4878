/**
 * The Baibako parser: which cookie is used, the cookie assembled from a
 * login response, the 0-based page range, the title cleanup and quality
 * filter of a row, the types of a release and the `decide` callback.
 */
module Baibako {
  import opened Common
  import opened FileDbModel
  import opened Trackers

  // -----------------------------------------------------------------------
  // Cookies

  /** `Cookie`: a non-blank configured cookie wins over the cached login cookie; none without either. */
  function Cookie(configured: Option<string>, cached: Option<string>): (r: Option<string>)
    ensures !IsBlankOpt(configured) ==> r == configured
    ensures IsBlankOpt(configured) ==> r == cached
    ensures r.None? <==> IsBlankOpt(configured) && cached.None?
  {
    if !IsBlankOpt(configured) then configured else cached
  }

  /** `new Regex(key + "([^;]+)(;|$)").Match(line).Groups[1].Value`: the leftmost value, "" without a match. */
  function CookieValue(line: string, key: string): string {
    var m := CookieMatch(line, key);
    if m.Some? then m.value else []
  }

  /** The value the login loop holds for `key` after `lines`: the one of the last non-blank line mentioning it. */
  function LastValue(lines: seq<string>, key: string): Option<string>
    decreases |lines|
  {
    if lines == [] then None
    else
      var line := lines[|lines| - 1];
      if !IsBlank(line) && Contains(line, key) then Some(CookieValue(line, key))
      else LastValue(lines[..|lines| - 1], key)
  }

  /** The cached login cookie, only when session, user id and password hash are all non-blank. */
  function Assemble(sessid: Option<string>, uid: Option<string>, pass: Option<string>): (r: Option<string>)
    ensures r.Some? <==> !IsBlankOpt(sessid) && !IsBlankOpt(uid) && !IsBlankOpt(pass)
    ensures r.Some? ==> StartsWith(r.value, "PHPSESSID=" + sessid.value + "; uid=")
    ensures r.Some? ==> r.value == "PHPSESSID=" + sessid.value + "; uid=" + uid.value + "; pass=" + pass.value
  {
    if !IsBlankOpt(sessid) && !IsBlankOpt(uid) && !IsBlankOpt(pass) then
      var r := "PHPSESSID=" + sessid.value + "; uid=" + uid.value + "; pass=" + pass.value;
      assert r[..|"PHPSESSID=" + sessid.value + "; uid="|] == "PHPSESSID=" + sessid.value + "; uid=";
      Some(r)
    else None
  }

  /** The Set-Cookie loop of `TakeLogin`: each value is the last one seen. */
  method LoginCookie(lines: seq<string>) returns (cookie: Option<string>)
    ensures cookie == Assemble(LastValue(lines, "PHPSESSID="), LastValue(lines, "uid="), LastValue(lines, "pass="))
  {
    var sessid: Option<string> := None;
    var passCookie: Option<string> := None;
    var uid: Option<string> := None;
    for i := 0 to |lines|
      invariant sessid == LastValue(lines[..i], "PHPSESSID=")
      invariant passCookie == LastValue(lines[..i], "pass=")
      invariant uid == LastValue(lines[..i], "uid=")
    {
      assert lines[..i + 1][..i] == lines[..i];
      var line := lines[i];
      if IsBlank(line) {
        continue;
      }
      if Contains(line, "PHPSESSID=") {
        sessid := Some(CookieValue(line, "PHPSESSID="));
      }
      if Contains(line, "pass=") {
        passCookie := Some(CookieValue(line, "pass="));
      }
      if Contains(line, "uid=") {
        uid := Some(CookieValue(line, "uid="));
      }
    }
    assert lines[..|lines|] == lines;
    cookie := Assemble(sessid, uid, passCookie);
  }

  /** The session id can be read back from the assembled cookie. */
  lemma SessionRoundTrip(sessid: string, uid: string, pass: string)
    requires !IsBlank(sessid) && !IsBlank(uid) && !IsBlank(pass) && !HasChar(sessid, ';')
    ensures var c := Assemble(Some(sessid), Some(uid), Some(pass)); c.Some? && CookieValue(c.value, "PHPSESSID=") == sessid
  {
    var rest := " uid=" + uid + "; pass=" + pass;
    assert Assemble(Some(sessid), Some(uid), Some(pass)).value == "PHPSESSID=" + sessid + [';'] + rest;
    CookieMatchAtStart("PHPSESSID=", sessid, rest);
  }

  /** The user id reads back from the assembled cookie when the session id does not contain "uid=". */
  lemma UidRoundTrip(sessid: string, uid: string, pass: string)
    requires !IsBlank(sessid) && !IsBlank(uid) && !IsBlank(pass)
    requires !HasChar(sessid, ';') && !HasChar(uid, ';') && KeyFree(sessid, "uid=")
    ensures var c := Assemble(Some(sessid), Some(uid), Some(pass)); c.Some? && CookieValue(c.value, "uid=") == uid
  {
    var t0, t1, key, rest := "PHPSESSID=", "; ", "uid=", "; pass=" + pass;
    assert Assemble(Some(sessid), Some(uid), Some(pass)).value == t0 + sessid + t1 + key + uid + rest;
    LiteralsWithout(t0, t1, [], key);
    ValueAfterOne(t0, sessid, t1, key, uid, rest);
  }

  /** The password hash reads back from the assembled cookie when neither earlier value contains "pass=". */
  lemma PassRoundTrip(sessid: string, uid: string, pass: string)
    requires !IsBlank(sessid) && !IsBlank(uid) && !IsBlank(pass)
    requires !HasChar(sessid, ';') && !HasChar(uid, ';') && !HasChar(pass, ';')
    requires KeyFree(sessid, "pass=") && KeyFree(uid, "pass=")
    ensures var c := Assemble(Some(sessid), Some(uid), Some(pass)); c.Some? && CookieValue(c.value, "pass=") == pass
  {
    var t0, t1, t2, key := "PHPSESSID=", "; uid=", "; ", "pass=";
    assert Assemble(Some(sessid), Some(uid), Some(pass)).value == t0 + sessid + t1 + uid + t2 + key + pass;
    LiteralsWithout(t0, t1, t2, key);
    ValueAfterTwo(t0, sessid, t1, uid, t2, key, pass);
  }

  /** The fixed text of the cookie holds neither ';' in the keys nor the keys' first letters where it matters. */
  lemma LiteralsWithout(t0: string, t1: string, t2: string, key: string)
    requires t0 == "PHPSESSID=" && (t1 == "; " || t1 == "; uid=") && (t2 == [] || t2 == "; ") && (key == "uid=" || key == "pass=")
    requires key == "uid=" ==> t1 == "; "
    ensures key != [] && !HasChar(key, ';') && !HasChar(t0, key[0]) && !HasChar(t1, key[0]) && !HasChar(t2, key[0])
    ensures t1[0] == ';' && (t2 != [] ==> t2[0] == ';')
  {
  }

  /** `t0 + v0 + t1 + key + v + rest`: the first occurrence of `key` is the one before `v`. */
  lemma ValueAfterOne(t0: string, v0: string, t1: string, key: string, v: string, rest: string)
    requires key != [] && !HasChar(key, ';') && !HasChar(t0, key[0]) && !HasChar(t1, key[0])
    requires t1 != [] && t1[0] == ';' && KeyFree(v0, key)
    requires v != [] && !HasChar(v, ';') && (rest == [] || rest[0] == ';')
    ensures CookieMatch(t0 + v0 + t1 + key + v + rest, key) == Some(v)
  {
    var line := t0 + v0 + t1 + key + v + rest;
    var n := |t0| + |v0| + |t1|;
    assert line[..n] == t0 + v0 + t1;
    KeyFreeStart(line, key, t0, v0, t1);
    assert line[n..n + |key|] == key && line[n + |key|..n + |key| + |v|] == v;
    assert n + |key| + |v| < |line| ==> line[n + |key| + |v|] == rest[0];
    CookieMatchAfter(line, key, n, v);
  }

  /** `t0 + v0 + t1 + v1 + t2 + key + v`: the first occurrence of `key` is the one before `v`. */
  lemma ValueAfterTwo(t0: string, v0: string, t1: string, v1: string, t2: string, key: string, v: string)
    requires key != [] && !HasChar(key, ';') && !HasChar(t0, key[0]) && !HasChar(t1, key[0]) && !HasChar(t2, key[0])
    requires t1 != [] && t1[0] == ';' && t2 != [] && t2[0] == ';' && KeyFree(v0, key) && KeyFree(v1, key)
    requires v != [] && !HasChar(v, ';')
    ensures CookieMatch(t0 + v0 + t1 + v1 + t2 + key + v, key) == Some(v)
  {
    var line := t0 + v0 + t1 + v1 + t2 + key + v;
    var m := |t0| + |v0| + |t1|;
    var n := m + |v1| + |t2|;
    assert line[..m] == t0 + v0 + t1;
    KeyFreeStart(line, key, t0, v0, t1);
    assert line[m..n] == v1 + t2;
    KeyFreeStep(line, key, m, v1, t2);
    assert line[n..n + |key|] == key && line[n + |key|..] == v;
    CookieMatchAfter(line, key, n, v);
  }

  /** A line opening with `t0 + v0 + t1` has no occurrence of `key` starting inside that opening. */
  lemma KeyFreeStart(line: string, key: string, t0: string, v0: string, t1: string)
    requires key != [] && !HasChar(key, ';') && !HasChar(t0, key[0]) && !HasChar(t1, key[0])
    requires t1 != [] && t1[0] == ';' && KeyFree(v0, key)
    requires |t0| + |v0| + |t1| <= |line| && line[..|t0| + |v0| + |t1|] == t0 + v0 + t1
    ensures NoKeyBefore(line, key, |t0| + |v0| + |t1|)
  {
    var a := |t0| + |v0|;
    assert line[0..|t0|] == t0 && line[|t0|..a] == v0 && line[a] == ';' && line[a..a + |t1|] == t1;
    NoKeyText(line, key, 0, t0);
    NoKeyValue(line, key, |t0|, v0);
    NoKeyText(line, key, a, t1);
  }

  /** An occurrence-free prefix stays so across a further value and separator. */
  lemma KeyFreeStep(line: string, key: string, m: nat, v1: string, t2: string)
    requires NoKeyBefore(line, key, m) && key != [] && !HasChar(key, ';') && !HasChar(t2, key[0])
    requires t2 != [] && t2[0] == ';' && KeyFree(v1, key)
    requires m + |v1| + |t2| <= |line| && line[m..m + |v1| + |t2|] == v1 + t2
    ensures NoKeyBefore(line, key, m + |v1| + |t2|)
  {
    var b := m + |v1|;
    var w := line[m..m + |v1| + |t2|];
    assert w[..|v1|] == v1 && w[|v1|..] == t2;
    assert line[m..b] == w[..|v1|];
    assert line[b..b + |t2|] == w[|v1|..];
    assert line[b] == t2[0];
    NoKeyValue(line, key, m, v1);
    NoKeyText(line, key, b, t2);
  }

  // -----------------------------------------------------------------------
  // Pages

  /** The 0-based page range: a negative start is 0, a negative end is the start, then the two are ordered. */
  function PageRange(parseFrom: int, parseTo: int): (r: (int, int))
    ensures 0 <= r.0 <= r.1
    ensures var s := if parseFrom >= 0 then parseFrom else 0;
            var e := if parseTo >= 0 then parseTo else s;
            r == (Min(s, e), Max(s, e))
  {
    var startPage := if parseFrom >= 0 then parseFrom else 0;
    var endPage := if parseTo >= 0 then parseTo else (if parseFrom >= 0 then parseFrom else 0);
    if startPage > endPage then (endPage, startPage) else (startPage, endPage)
  }

  /** With both bounds negative, or with the defaults (0, 0), only page 0, the first page, is parsed. */
  lemma PageRangeDefault()
    ensures PageRange(-1, -1) == (0, 0)
    ensures PageRange(0, 0) == (0, 0)
  {
  }

  /** The same 32-bit wrap-around as the 1-based loops: `Parse(0, int.MaxValue)` never ends. */
  lemma PageLoopWraps()
    ensures PageRange(0, MaxInt32) == (0, MaxInt32)
    ensures Inc32(MaxInt32) <= PageRange(0, MaxInt32).1
  {
  }

  // -----------------------------------------------------------------------
  // Rows

  /** The "(Обновляемая)", "(Золото)" and "(Оновлюється)" markers are removed. */
  function DropMarkers(title: string): string {
    ReplaceAll(ReplaceAll(ReplaceAll(title, "(Обновляемая)", ""), "(Золото)", ""), "(Оновлюється)", "")
  }

  /** The length of the run of spaces ending at position `e`. */
  function SpacesBefore(s: string, e: nat): (n: nat)
    requires e <= |s|
    ensures n <= e && forall k :: e - n <= k < e ==> s[k] == ' '
    ensures n < e ==> s[e - n - 1] != ' '
  {
    if e > 0 && s[e - 1] == ' ' then SpacesBefore(s, e - 1) + 1 else 0
  }

  /**
   * `Regex.Replace(title, "/( +| )?$", "")`: a '/' followed only by spaces
   * up to the end, or up to a final line feed (where `$` also matches),
   * is removed.  A string ending in a line feed cannot match at its very
   * end, so the position before the line feed is the only candidate.
   */
  function DropTrailingSlash(s: string): (r: string)
    ensures |r| <= |s|
  {
    var e := if s != [] && s[|s| - 1] == '\n' then |s| - 1 else |s|;
    var n := SpacesBefore(s, e);
    if n < e && s[e - n - 1] == '/' then s[..e - n - 1] + s[e..] else s
  }

  /** The cleaned title of a row. */
  function CleanTitle(title: string): (r: string)
    ensures Trim(r) == r
  {
    var r := Trim(DropTrailingSlash(DropMarkers(title)));
    TrimIdempotent(DropTrailingSlash(DropMarkers(title)));
    r
  }

  /** A trailing " / " is removed: "Name / s01e01 1080p /" cleans to "Name / s01e01 1080p". */
  lemma TrailingSlashDropped(p: string, spaces: nat)
    requires p != [] && p[|p| - 1] != ' ' && p[|p| - 1] != '/'
    ensures DropTrailingSlash(p + "/" + seq(spaces, _ => ' ')) == p
  {
    var sp: string := seq(spaces, _ => ' ');
    var s := p + "/" + sp;
    var n := SpacesBefore(s, |s|);
    assert n == spaces by {
      SpacesRun(s, |p| + 1, spaces);
    }
    assert s[..|p|] == p;
  }

  /** A title without markers loses its trailing '/' and spaces, and is trimmed. */
  lemma CleanTitleDropsSlash(p: string, spaces: nat)
    requires p != [] && p[|p| - 1] != ' ' && p[|p| - 1] != '/'
    requires var s := p + "/" + seq(spaces, _ => ' ');
      !Contains(s, "(Обновляемая)") && !Contains(s, "(Золото)") && !Contains(s, "(Оновлюється)")
    ensures CleanTitle(p + "/" + seq(spaces, _ => ' ')) == Trim(p)
  {
    TrailingSlashDropped(p, spaces);
  }

  lemma {:induction false} SpacesRun(s: string, start: nat, spaces: nat)
    requires start + spaces == |s| && start > 0 && s[start - 1] != ' '
    requires forall k :: start <= k < |s| ==> s[k] == ' '
    ensures SpacesBefore(s, |s|) == spaces
  {
    SpacesRunAt(s, start, |s|);
  }

  lemma {:induction false} SpacesRunAt(s: string, start: nat, e: nat)
    requires 0 < start <= e <= |s| && s[start - 1] != ' '
    requires forall k :: start <= k < e ==> s[k] == ' '
    ensures SpacesBefore(s, e) == e - start
    decreases e
  {
    if e > start {
      SpacesRunAt(s, start, e - 1);
    }
  }

  /** Only 1080p and 720p releases are kept. */
  predicate QualityKept(title: string) {
    Contains(title, "1080p") || Contains(title, "720p")
  }

  /** A title holding "1080p" or "720p" anywhere is kept. */
  lemma QualityKeptWith(pre: string, post: string)
    ensures QualityKept(pre + "1080p" + post) && QualityKept(pre + "720p" + post)
  {
    WordInside(pre, "1080p", post);
    WordInside(pre, "720p", post);
  }

  /** The types of a release: a serial when the title has a season or episode marker, a movie otherwise. */
  function Types(title: string, isSerial: string -> bool): (r: seq<string>)
    ensures r == ["serial"] || r == ["movie"]
    ensures r == ["serial"] <==> isSerial(title)
  {
    if isSerial(title) then ["serial"] else ["movie"]
  }

  // -----------------------------------------------------------------------
  // typesChanged

  /**
   * `typesChanged`: both null is no change, exactly one null is a change;
   * otherwise a change is a different length or a new type missing from
   * the old ones.
   */
  predicate TypesDiffer(newTypes: Option<seq<string>>, oldTypes: Option<seq<string>>) {
    if newTypes.Some? && oldTypes.Some? then
      |newTypes.value| != |oldTypes.value| || exists i :: 0 <= i < |newTypes.value| && newTypes.value[i] !in oldTypes.value
    else newTypes.Some? || oldTypes.Some?
  }

  /** The comparison loop, which stops at the first new type the old ones lack. */
  method TypesChanged(newTypes: Option<seq<string>>, oldTypes: Option<seq<string>>) returns (changed: bool)
    ensures changed == TypesDiffer(newTypes, oldTypes)
  {
    changed := false;
    if newTypes.Some? && oldTypes.Some? {
      if |newTypes.value| != |oldTypes.value| {
        changed := true;
      } else {
        var ts := newTypes.value;
        var i := 0;
        while i < |ts|
          invariant 0 <= i <= |ts|
          invariant forall k :: 0 <= k < i ==> ts[k] in oldTypes.value
          invariant !changed
        {
          if ts[i] !in oldTypes.value {
            changed := true;
            return;
          }
          i := i + 1;
        }
      }
    } else if newTypes.Some? || oldTypes.Some? {
      changed := true;
    }
  }

  /** Unchanged types compare as unchanged. */
  lemma TypesDifferReflexive(types: Option<seq<string>>)
    ensures !TypesDiffer(types, types)
  {
    if types.Some? {
      assert forall i :: 0 <= i < |types.value| ==> types.value[i] in types.value;
    }
  }

  /** For the one-element lists Baibako stores, a change is exactly a different type. */
  lemma TypesDifferSingle(a: string, b: string)
    ensures TypesDiffer(Some([a]), Some([b])) <==> a != b
  {
    if a != b {
      assert [a][0] !in [b];
    }
  }

  // -----------------------------------------------------------------------
  // decide

  /** What downloading `downloadUri` gives: nothing, an exception, or a file. */
  datatype Download =
    | Empty
    | Raised
    | Data(looksLikeHtml: bool, magnet: Option<string>, sizeName: Option<string>)

  function TrimOpt(o: Option<string>): Option<string> {
    if o.Some? then Some(Trim(o.value)) else None
  }

  /** `string.Equals(a, b, OrdinalIgnoreCase)` on nullable strings. */
  predicate EqOptIgnoreCase(a: Option<string>, b: Option<string>) {
    (a.None? && b.None?) || (a.Some? && b.Some? && EqIgnoreCase(a.value, b.value))
  }

  predicate Extracted(d: Download) {
    d.Data? && !IsBlankOpt(d.magnet) && !IsBlankOpt(d.sizeName)
  }

  /** A known release with the same title: types first, then the downloaded magnet and size. */
  function SameTitle(cached: Torrent, t: Torrent, d: Download): (r: (Outcome, Torrent))
    ensures r.0 != Added
    ensures r.0 == Updated && !TypesDiffer(t.types, cached.types) ==> Extracted(d) && r.1 == t.(magnet := d.magnet, sizeName := d.sizeName)
    ensures TypesDiffer(t.types, cached.types) ==> r == (Updated, t)
  {
    if TypesDiffer(t.types, cached.types) then (Updated, t)
    else match d
      case Raised => (Failed, t)
      case Empty => (Skipped, t)
      case Data(_, magnet, sizeName) =>
        if !Extracted(d) then (Skipped, t)
        else
          var magnetChanged := !EqOptIgnoreCase(TrimOpt(cached.magnet), TrimOpt(magnet));
          var sizeChanged := !EqOptIgnoreCase(TrimOpt(cached.sizeName), TrimOpt(sizeName));
          if !magnetChanged && !sizeChanged then (Skipped, t)
          else (Updated, t.(magnet := magnet, sizeName := sizeName))
  }

  /** A new release or a changed title: the download must give a torrent with magnet and size. */
  function NewData(known: bool, t: Torrent, d: Download): (r: (Outcome, Torrent))
    ensures r.0 != Skipped
    ensures r.0 == Added ==> !known
    ensures r.0 == Updated ==> known
    ensures r.0 != Failed <==> Extracted(d) && !d.looksLikeHtml
  {
    match d
    case Data(looksLikeHtml, magnet, sizeName) =>
      if looksLikeHtml then (Failed, t)
      else if Extracted(d) then (if known then Updated else Added, t.(magnet := magnet, sizeName := sizeName))
      else (Failed, t)
    case _ => (Failed, t)
  }

  /**
   * The `decide` callback.  Every path counts one outcome; a null cache
   * entry throws inside the `try` and is counted as failed.
   */
  function Decide(existing: Existing, t: Torrent, c: Counters, d: Download): (r: Decision)
    ensures r.Decided?
    ensures OneBump(c, r.counters)
    ensures r.write <==> r.counters.added > c.added || r.counters.updated > c.updated
    ensures existing == Some(None) ==> r == Decided(false, t, c.(failed := c.failed + 1))
    ensures r.counters.added > c.added ==> existing.None?
    ensures r.write ==> (existing.Some? && TypesDiffer(t.types, existing.value.value.types)) || Extracted(d)
  {
    match existing
    case Some(None) => Decided(false, t, c.(failed := c.failed + 1))
    case Some(Some(cached)) =>
      var o := if EqOptIgnoreCase(TrimOpt(cached.title), TrimOpt(t.title)) then SameTitle(cached, t, d) else NewData(true, t, d);
      Decided(o.0 == Added || o.0 == Updated, o.1, Bump(c, o.0))
    case None =>
      var o := NewData(false, t, d);
      Decided(o.0 == Added || o.0 == Updated, o.1, Bump(c, o.0))
  }

  /** A known release with the same title and types keeps its data when the download shows the same magnet and size. */
  lemma UnchangedIsSkipped(cached: Torrent, t: Torrent, c: Counters, d: Download)
    requires EqOptIgnoreCase(TrimOpt(cached.title), TrimOpt(t.title)) && !TypesDiffer(t.types, cached.types)
    requires Extracted(d) && EqOptIgnoreCase(TrimOpt(cached.magnet), TrimOpt(d.magnet)) && EqOptIgnoreCase(TrimOpt(cached.sizeName), TrimOpt(d.sizeName))
    ensures Decide(Some(Some(cached)), t, c, d) == Decided(false, t, c.(skipped := c.skipped + 1))
  {
  }

  /** For a known release with the same title, a failed extraction is a skip, never an overwrite. */
  lemma FailedExtractionKeeps(cached: Torrent, t: Torrent, c: Counters, d: Download)
    requires EqOptIgnoreCase(TrimOpt(cached.title), TrimOpt(t.title)) && !TypesDiffer(t.types, cached.types)
    requires d != Raised && !Extracted(d)
    ensures Decide(Some(Some(cached)), t, c, d) == Decided(false, t, c.(skipped := c.skipped + 1))
  {
  }
}
