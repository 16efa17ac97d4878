/**
 * The background job that probes torrents for media tracks.  Each task
 * code picks records by age (1: the last days, 2: the last month, 3: the
 * last year, 4: older, 5: recently updated); the job collects the
 * candidates of every bucket, orders them by update time, newest first,
 * and probes those whose metadata is not cached yet, counting each try.
 *
 * Times are integers in seconds.  The clock, the calendar step back by
 * months and the job's own running time are parameters.
 */
module TracksCron {
  import opened Common
  import opened TracksDb

  const Day: int := 86400

  /** The settings the job reads. */
  datatype Settings = Settings(
    tracks: bool, tracksmod: int, tracksOnlyNew: bool,
    dayWindowDays: int, monthWindowDays: int, yearWindowMonths: int, updatesWindowDays: int)

  /** The clamped windows. */
  datatype Windows = Windows(dayDays: int, monthDays: int, yearMonths: int, updatesDays: int)

  /** `Math.Max(lo, Math.Min(hi, x))` for each window. */
  function ClampWindows(s: Settings): (w: Windows)
    ensures 1 <= w.dayDays <= 365 && 2 <= w.monthDays <= 365 && 1 <= w.yearMonths <= 120 && 1 <= w.updatesDays <= 365
    ensures 1 <= s.dayWindowDays <= 365 ==> w.dayDays == s.dayWindowDays
    ensures 2 <= s.monthWindowDays <= 365 ==> w.monthDays == s.monthWindowDays
    ensures 1 <= s.yearWindowMonths <= 120 ==> w.yearMonths == s.yearWindowMonths
    ensures 1 <= s.updatesWindowDays <= 365 ==> w.updatesDays == s.updatesWindowDays
  {
    Windows(Clamp(s.dayWindowDays, 1, 365), Clamp(s.monthWindowDays, 2, 365),
            Clamp(s.yearWindowMonths, 1, 120), Clamp(s.updatesWindowDays, 1, 365))
  }

  /** The gates that skip a whole iteration of the job. */
  predicate IterationSkipped(task: int, s: Settings, servers: nat) {
    !s.tracks || servers == 0 || (s.tracksmod == 1 && (task == 3 || task == 4)) || (s.tracksOnlyNew && task != 1)
  }

  /** With `tracksOnlyNew`, only the day task runs; with `tracksmod` 1, the year and older tasks never run. */
  lemma SkippedTasks(task: int, s: Settings, servers: nat)
    ensures s.tracksOnlyNew && task != 1 ==> IterationSkipped(task, s, servers)
    ensures s.tracksmod == 1 && (task == 3 || task == 4) ==> IterationSkipped(task, s, servers)
    ensures !IterationSkipped(task, s, servers) ==> s.tracks && servers > 0
  {
  }

  /** What the job reads of a torrent record. */
  datatype Record = Record(
    magnet: Option<string>, createTime: int, updateTime: int, types: Option<seq<string>>,
    hasFfprobe: bool, sid: int, tryingData: int)

  /**
   * The per-task switch.  `yearAgo` is `now.AddMonths(-yearMonths)`, a
   * calendar step the model takes as given.
   */
  predicate Selected(task: int, t: Record, now: int, w: Windows, yearAgo: int) {
    if task == 1 then t.createTime >= now - w.dayDays * Day
    else if task == 2 then t.createTime < now - Day && t.createTime >= now - w.monthDays * Day
    else if task == 3 then t.createTime < now - w.monthDays * Day && t.createTime >= yearAgo
    else if task == 4 then t.createTime < yearAgo
    else if task == 5 then t.updateTime >= now - w.updatesDays * Day
    else false
  }

  /** The month and year tasks never select the same record, and neither do the year and older tasks. */
  lemma TasksDisjoint(t: Record, now: int, w: Windows, yearAgo: int)
    ensures !(Selected(2, t, now, w, yearAgo) && Selected(3, t, now, w, yearAgo))
    ensures !(Selected(3, t, now, w, yearAgo) && Selected(4, t, now, w, yearAgo))
    ensures forall task :: !(1 <= task <= 5) ==> !Selected(task, t, now, w, yearAgo)
  {
  }

  /**
   * When the year window reaches further back than the month window, every
   * record older than a day falls to exactly one of the month, year and
   * older tasks.
   */
  lemma TasksCover(t: Record, now: int, w: Windows, yearAgo: int)
    requires yearAgo <= now - w.monthDays * Day && t.createTime < now - Day
    ensures Selected(2, t, now, w, yearAgo) || Selected(3, t, now, w, yearAgo) || Selected(4, t, now, w, yearAgo)
    ensures !(Selected(2, t, now, w, yearAgo) && Selected(4, t, now, w, yearAgo))
  {
  }

  /**
   * The clamps allow a month window longer than the year window (365 days
   * against one month); then a record can be picked by both the month task
   * and the older task.
   */
  lemma MonthOlderOverlap()
    ensures var w := Windows(1, 365, 1, 1);
      var t := Record(Some("m"), 100 * Day, 0, None, false, 0, 0);
      Selected(2, t, 400 * Day, w, 370 * Day) && Selected(4, t, 400 * Day, w, 370 * Day)
  {
  }

  /** A record is a candidate: it has a magnet, is selected, has good types and no probe yet, and is fresh enough. */
  predicate Collected(task: int, t: Record, now: int, today: int, w: Windows, yearAgo: int) {
    !IsEmptyOpt(t.magnet) && Selected(task, t, now, w, yearAgo) && !TheBad(t.types) && !t.hasFfprobe &&
    (task == 1 || (t.sid > 0 && t.updateTime > today - 20 * Day))
  }

  /** The candidates among `records`, in enumeration order. */
  function Candidates(task: int, records: seq<Record>, now: int, today: int, w: Windows, yearAgo: int): seq<Record>
    decreases |records|
  {
    if records == [] then []
    else
      var t := records[|records| - 1];
      Candidates(task, records[..|records| - 1], now, today, w, yearAgo) +
      (if Collected(task, t, now, today, w, yearAgo) then [t] else [])
  }

  /** Exactly the records that pass the filter are collected. */
  lemma {:induction false} CandidatesMembers(task: int, records: seq<Record>, now: int, today: int, w: Windows, yearAgo: int, t: Record)
    ensures t in Candidates(task, records, now, today, w, yearAgo) <==> t in records && Collected(task, t, now, today, w, yearAgo)
    decreases |records|
  {
    if records != [] {
      var init := records[..|records| - 1];
      CandidatesMembers(task, init, now, today, w, yearAgo, t);
      assert records == init + [records[|records| - 1]];
    }
  }

  /** The collection loops over every bucket's records (`records` lists them bucket by bucket). */
  method Collect(task: int, records: seq<Record>, now: int, today: int, w: Windows, yearAgo: int) returns (torrents: seq<Record>)
    ensures torrents == Candidates(task, records, now, today, w, yearAgo)
  {
    torrents := [];
    for i := 0 to |records|
      invariant torrents == Candidates(task, records[..i], now, today, w, yearAgo)
    {
      assert records[..i + 1][..i] == records[..i];
      var t := records[i];
      if IsEmptyOpt(t.magnet) {
        continue;
      }
      var isok := Selected(task, t, now, w, yearAgo);
      if isok {
        if TheBad(t.types) || t.hasFfprobe {
          continue;
        }
        if task == 1 || (t.sid > 0 && t.updateTime > today - 20 * Day) {
          torrents := torrents + [t];
        }
      }
    }
    assert records[..|records|] == records;
  }

  // -----------------------------------------------------------------------
  // OrderByDescending(updateTime)

  predicate SortedDesc(l: seq<Record>) {
    forall i, j :: 0 <= i < j < |l| ==> l[i].updateTime >= l[j].updateTime
  }

  /** Inserts `x` before the first record that is not newer than it. */
  function InsertDesc(x: Record, l: seq<Record>): seq<Record>
    decreases |l|
  {
    if l == [] then [x]
    else if l[0].updateTime <= x.updateTime then [x] + l
    else [l[0]] + InsertDesc(x, l[1..])
  }

  /** `OrderByDescending(i => i.updateTime)`, as an insertion sort. */
  function SortDesc(s: seq<Record>): seq<Record>
    decreases |s|
  {
    if s == [] then [] else InsertDesc(s[0], SortDesc(s[1..]))
  }

  /** Inserting keeps the multiset of records, plus `x`. */
  lemma {:induction false} InsertDescPerm(x: Record, l: seq<Record>)
    ensures multiset(InsertDesc(x, l)) == multiset(l) + multiset{x}
    decreases |l|
  {
    if l != [] && l[0].updateTime > x.updateTime {
      InsertDescPerm(x, l[1..]);
      assert l == [l[0]] + l[1..];
    }
  }

  /** Inserting below a bound stays below it. */
  lemma {:induction false} InsertDescBound(x: Record, l: seq<Record>, b: int)
    requires x.updateTime <= b && forall j :: 0 <= j < |l| ==> l[j].updateTime <= b
    ensures forall j :: 0 <= j < |InsertDesc(x, l)| ==> InsertDesc(x, l)[j].updateTime <= b
    decreases |l|
  {
    if l != [] && l[0].updateTime > x.updateTime {
      var rest := l[1..];
      assert forall j :: 0 <= j < |rest| ==> rest[j] == l[j + 1];
      InsertDescBound(x, rest, b);
    }
  }

  /** Inserting into a sorted sequence keeps it sorted. */
  lemma {:induction false} InsertDescSorted(x: Record, l: seq<Record>)
    requires SortedDesc(l)
    ensures SortedDesc(InsertDesc(x, l))
    decreases |l|
  {
    if l != [] && l[0].updateTime > x.updateTime {
      var rest := l[1..];
      assert forall j :: 0 <= j < |rest| ==> rest[j] == l[j + 1];
      InsertDescSorted(x, rest);
      InsertDescBound(x, rest, l[0].updateTime);
    }
  }

  /** The processing order is sorted newest first and is a permutation of the candidates. */
  lemma {:induction false} SortDescCorrect(s: seq<Record>)
    ensures SortedDesc(SortDesc(s)) && multiset(SortDesc(s)) == multiset(s)
    decreases |s|
  {
    if s != [] {
      SortDescCorrect(s[1..]);
      InsertDescPerm(s[0], SortDesc(s[1..]));
      InsertDescSorted(s[0], SortDesc(s[1..]));
      assert s == [s[0]] + s[1..];
    }
  }

  // -----------------------------------------------------------------------
  // The processing loop

  /** Tasks 3 to 5 give up on a record after three tries. */
  predicate RetryCapped(task: int, t: Record) {
    (task == 3 || task == 4 || task == 5) && t.tryingData >= 3
  }

  /**
   * How many records the loop reaches: tasks 2 to 4 stop when their time
   * budget (10 days, 2 months) is spent, which happens at position
   * `deadline`.
   */
  function Reached(task: int, deadline: nat, n: nat): nat {
    if task == 2 || task == 3 || task == 4 then Min(deadline, n) else n
  }

  /** The loop's state: re-counted records, magnets handed to `Add`, and magnets whose tracks are known. */
  datatype Progress = Progress(out: seq<Record>, added: seq<string>, known: set<string>)

  /**
   * One record: skipped at the retry cap or when `Get` finds its tracks;
   * otherwise its try count goes up by one and it is probed.  `stores(m)`
   * tells whether the probe of `m` yields streams, after which `Get` finds
   * them.
   */
  function Step(task: int, p: Progress, t: Record, stores: string -> bool): Progress
    requires t.magnet.Some?
  {
    var m := t.magnet.value;
    if RetryCapped(task, t) || m in p.known then Progress(p.out + [t], p.added, p.known)
    else Progress(p.out + [t.(tryingData := t.tryingData + 1)], p.added + [m], if stores(m) then p.known + {m} else p.known)
  }

  predicate AllHaveMagnet(order: seq<Record>) {
    forall i :: 0 <= i < |order| ==> order[i].magnet.Some?
  }

  /** The loop over the first records of `order`. */
  function Steps(task: int, order: seq<Record>, known: set<string>, stores: string -> bool): (p: Progress)
    requires AllHaveMagnet(order)
    ensures |p.out| == |order|
    decreases |order|
  {
    if order == [] then Progress([], [], known)
    else Step(task, Steps(task, order[..|order| - 1], known, stores), order[|order| - 1], stores)
  }

  /** One record's work in the loop. */
  method ProcessOne(task: int, p: Progress, t: Record, stores: string -> bool) returns (q: Progress)
    requires t.magnet.Some?
    ensures q == Step(task, p, t, stores)
  {
    q := p;
    if RetryCapped(task, t) {
      q := Progress(q.out + [t], q.added, q.known);
      return;
    }
    var m := t.magnet.value;
    if m !in q.known {
      var counted := t.(tryingData := t.tryingData + 1);
      q := Progress(q.out + [counted], q.added + [m], if stores(m) then q.known + {m} else q.known);
    } else {
      q := Progress(q.out + [t], q.added, q.known);
    }
  }

  /**
   * The loop over the ordered candidates.  The records it does not reach
   * keep their counts; `known` holds the magnets whose tracks `Get` finds
   * before the loop.
   */
  method Process(task: int, order: seq<Record>, deadline: nat, known: set<string>, stores: string -> bool)
    returns (out: seq<Record>, added: seq<string>)
    requires AllHaveMagnet(order)
    ensures var n := Reached(task, deadline, |order|);
      out == Steps(task, order[..n], known, stores).out + order[n..] &&
      added == Steps(task, order[..n], known, stores).added
  {
    var n := Reached(task, deadline, |order|);
    var p := Progress([], [], known);
    var i := 0;
    while i < |order|
      invariant 0 <= i <= n
      invariant p == Steps(task, order[..i], known, stores)
      decreases |order| - i
    {
      if task == 2 && i >= deadline {
        break;
      }
      if (task == 3 || task == 4) && i >= deadline {
        break;
      }
      assert order[..i + 1][..i] == order[..i];
      p := ProcessOne(task, p, order[i], stores);
      i := i + 1;
    }
    assert i == n;
    out := p.out + order[i..];
    added := p.added;
  }

  /** Whether the loop probes the `i`-th record: it is reached, not capped, and its tracks are not yet known. */
  predicate Probed(task: int, order: seq<Record>, known: set<string>, stores: string -> bool, i: nat)
    requires AllHaveMagnet(order) && i < |order|
  {
    !RetryCapped(task, order[i]) && order[i].magnet.value !in Steps(task, order[..i], known, stores).known
  }

  /**
   * Each record's try count goes up by exactly one when it is probed and
   * stays otherwise, and the magnets probed are those of the probed
   * records, in order.
   */
  lemma {:induction false} StepsEffect(task: int, order: seq<Record>, known: set<string>, stores: string -> bool, i: nat)
    requires AllHaveMagnet(order) && i < |order|
    ensures var p := Steps(task, order, known, stores);
      p.out[i] == (if Probed(task, order, known, stores, i) then order[i].(tryingData := order[i].tryingData + 1) else order[i])
    decreases |order|
  {
    var init := order[..|order| - 1];
    assert AllHaveMagnet(init);
    if i < |init| {
      StepsEffect(task, init, known, stores, i);
      assert init[..i] == order[..i];
      assert init[i] == order[i];
    } else {
      assert order[..i] == init;
    }
  }

  /** Tasks 3 to 5 never probe a record with three or more tries. */
  lemma RetryCap(task: int, order: seq<Record>, known: set<string>, stores: string -> bool, i: nat)
    requires AllHaveMagnet(order) && i < |order|
    requires (task == 3 || task == 4 || task == 5) && order[i].tryingData >= 3
    ensures Steps(task, order, known, stores).out[i] == order[i]
  {
    StepsEffect(task, order, known, stores, i);
  }

  /** A probe happens only for a magnet whose tracks were not known, and only once per magnet that yields streams. */
  lemma {:induction false} ProbedMagnets(task: int, order: seq<Record>, known: set<string>, stores: string -> bool, m: string)
    requires AllHaveMagnet(order)
    requires m in Steps(task, order, known, stores).added
    ensures m !in known && exists i :: 0 <= i < |order| && order[i].magnet == Some(m)
    decreases |order|
  {
    var init := order[..|order| - 1];
    assert AllHaveMagnet(init);
    var before := Steps(task, init, known, stores);
    if m in before.added {
      ProbedMagnets(task, init, known, stores, m);
      var i :| 0 <= i < |init| && init[i].magnet == Some(m);
      assert order[i] == init[i];
    } else {
      KnownGrows(task, init, known, stores);
    }
  }

  /** The known magnets only grow. */
  lemma {:induction false} KnownGrows(task: int, order: seq<Record>, known: set<string>, stores: string -> bool)
    requires AllHaveMagnet(order)
    ensures known <= Steps(task, order, known, stores).known
    decreases |order|
  {
    if order != [] {
      assert AllHaveMagnet(order[..|order| - 1]);
      KnownGrows(task, order[..|order| - 1], known, stores);
    }
  }

  /**
   * One iteration of `Run`: the gates, the collection, the ordering and
   * the processing loop.  It returns the magnets handed to `Add`.
   */
  method RunIteration(task: int, s: Settings, servers: nat, records: seq<Record>, now: int, today: int, yearAgo: int,
                      deadline: nat, known: set<string>, stores: string -> bool)
    returns (added: seq<string>)
    ensures IterationSkipped(task, s, servers) ==> added == []
    ensures !IterationSkipped(task, s, servers) ==>
      var order := SortDesc(Candidates(task, records, now, today, ClampWindows(s), yearAgo));
      AllHaveMagnet(order) && added == Steps(task, order[..Reached(task, deadline, |order|)], known, stores).added
  {
    if IterationSkipped(task, s, servers) {
      return [];
    }
    var w := ClampWindows(s);
    var torrents := Collect(task, records, now, today, w, yearAgo);
    var order := SortDesc(torrents);
    SortDescCorrect(torrents);
    forall i | 0 <= i < |order| ensures order[i].magnet.Some? {
      assert order[i] in multiset(torrents);
      CandidatesMembers(task, records, now, today, w, yearAgo, order[i]);
    }
    var out;
    out, added := Process(task, order, deadline, known, stores);
  }

  // -----------------------------------------------------------------------
  // RunOnce

  /** RunOnce's filter: a magnet, created within the window, good types, no probe, tracks not cached. */
  predicate OnceCandidate(t: Record, now: int, windowDays: int, known: set<string>) {
    !IsEmptyOpt(t.magnet) && t.createTime >= now - windowDays * Day && !TheBad(t.types) && !t.hasFfprobe &&
    t.magnet.value !in known
  }

  function OnceCandidates(records: seq<Record>, now: int, windowDays: int, known: set<string>): seq<Record>
    decreases |records|
  {
    if records == [] then []
    else
      var t := records[|records| - 1];
      OnceCandidates(records[..|records| - 1], now, windowDays, known) + (if OnceCandidate(t, now, windowDays, known) then [t] else [])
  }

  /** Exactly the records that pass RunOnce's filter are collected. */
  lemma {:induction false} OnceCandidatesMembers(records: seq<Record>, now: int, windowDays: int, known: set<string>, t: Record)
    ensures t in OnceCandidates(records, now, windowDays, known) <==> t in records && OnceCandidate(t, now, windowDays, known)
    decreases |records|
  {
    if records != [] {
      OnceCandidatesMembers(records[..|records| - 1], now, windowDays, known, t);
      assert records == records[..|records| - 1] + [records[|records| - 1]];
    }
  }

  /** The magnets of records, in order. */
  function Magnets(ts: seq<Record>): seq<string>
    requires AllHaveMagnet(ts)
    decreases |ts|
  {
    if ts == [] then [] else Magnets(ts[..|ts| - 1]) + [ts[|ts| - 1].magnet.value]
  }

  method CollectOnce(records: seq<Record>, now: int, windowDays: int, known: set<string>) returns (torrents: seq<Record>)
    ensures torrents == OnceCandidates(records, now, windowDays, known)
  {
    torrents := [];
    for i := 0 to |records|
      invariant torrents == OnceCandidates(records[..i], now, windowDays, known)
    {
      assert records[..i + 1][..i] == records[..i];
      var t := records[i];
      if IsEmptyOpt(t.magnet) { continue; }
      if t.createTime < now - windowDays * Day { continue; }
      if TheBad(t.types) || t.hasFfprobe { continue; }
      if t.magnet.value in known { continue; }
      torrents := torrents + [t];
    }
    assert records[..|records|] == records;
  }

  /** The probe loop of RunOnce: every collected magnet, newest first. */
  method AddAll(order: seq<Record>) returns (added: seq<string>)
    requires AllHaveMagnet(order)
    ensures added == Magnets(order)
  {
    added := [];
    for i := 0 to |order|
      invariant added == Magnets(order[..i])
    {
      assert order[..i + 1][..i] == order[..i];
      added := added + [order[i].magnet.value];
    }
    assert order[..|order|] == order;
  }

  /**
   * `RunOnce(windowDays)`: without tracks or servers nothing happens;
   * otherwise every candidate is probed once, newest first.  `known` is
   * where `Get` finds tracks at collection time.
   */
  method RunOnce(tracks: bool, servers: nat, records: seq<Record>, now: int, windowDays: int, known: set<string>)
    returns (added: seq<string>)
    ensures !tracks || servers == 0 ==> added == []
    ensures tracks && servers > 0 ==>
      var order := SortDesc(OnceCandidates(records, now, windowDays, known));
      AllHaveMagnet(order) && added == Magnets(order)
  {
    if !tracks || servers == 0 {
      return [];
    }
    var torrents := CollectOnce(records, now, windowDays, known);
    var order := SortDesc(torrents);
    SortDescCorrect(torrents);
    forall i | 0 <= i < |order| ensures order[i].magnet.Some? {
      assert order[i] in multiset(torrents);
      OnceCandidatesMembers(records, now, windowDays, known, order[i]);
    }
    added := AddAll(order);
  }
}
