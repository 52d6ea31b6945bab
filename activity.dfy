/** The activity classifier of backend/server.js: `getLatestMtime`, which
    scans a directory and its immediate sub-directories for `.json` files,
    and `getTeamActivity`, which buckets the age of a team's latest write
    into active / recent / stale. Times are integer milliseconds. */
module Activity {
  import opened Js
  import opened FileTree

  const HourMs: int := 3600000
  const DayMs: int := 86400000

  /** The mtimes a scan of one sub-directory's listing looks at: every name
      ending in `.json`, whatever kind of entry it is, in listing order. */
  function JsonStats(es: seq<Entry>): seq<int>
    decreases |es|
  {
    if es == [] then []
    else
      var e := es[|es| - 1];
      JsonStats(es[..|es| - 1]) + (if IsJsonName(e.name) then [StatMtime(e)] else [])
  }

  /** The mtimes one entry of the scanned directory contributes: a regular
      `.json` file its own, a sub-directory the `.json` names inside it, and
      nothing else. */
  function Contribution(e: Entry): seq<int> {
    match e
    case File(n, t, _) => if IsJsonName(n) then [t] else []
    case Dir(_, _, children) => JsonStats(children)
    case Special(_, _, _) => []
  }

  /** Every mtime the scan of a listing looks at, in scan order. */
  function Scanned(es: seq<Entry>): seq<int>
    decreases |es|
  {
    if es == [] then [] else Scanned(es[..|es| - 1]) + Contribution(es[|es| - 1])
  }

  /** The largest of `ts` and 0: the scan starts from `latest = 0`. */
  function MaxFromZero(ts: seq<int>): (m: int)
    ensures m >= 0
    ensures forall t | t in ts :: t <= m
    ensures m == 0 || m in ts
    decreases |ts|
  {
    if ts == [] then 0
    else
      var m := MaxFromZero(ts[..|ts| - 1]);
      assert ts == ts[..|ts| - 1] + [ts[|ts| - 1]];
      if ts[|ts| - 1] > m then ts[|ts| - 1] else m
  }

  /** What `getLatestMtime` returns for a directory whose listing is `dir`
      (`None`: the listing fails). */
  function LatestMtimeOf(dir: Option<seq<Entry>>): (latest: int)
    ensures latest >= 0
    ensures dir.None? ==> latest == 0
    ensures dir.Some? ==> forall t | t in Scanned(dir.value) :: t <= latest
    ensures latest == 0 || (dir.Some? && latest in Scanned(dir.value))
  {
    match dir
    case None => 0
    case Some(es) => MaxFromZero(Scanned(es))
  }

  lemma MaxFromZeroSnoc(ts: seq<int>, t: int)
    ensures MaxFromZero(ts + [t]) == if t > MaxFromZero(ts) then t else MaxFromZero(ts)
  {
    assert (ts + [t])[..|ts|] == ts;
  }

  /** The inner loop of `getLatestMtime` over one sub-directory's listing,
      continuing from the running maximum `start` of the mtimes `before`. */
  method ScanSubdirectory(children: seq<Entry>, start: int, ghost before: seq<int>) returns (latest: int)
    requires start == MaxFromZero(before)
    ensures latest == MaxFromZero(before + JsonStats(children))
  {
    latest := start;
    var j := 0;
    assert before + JsonStats(children[..0]) == before;
    while j < |children|
      invariant 0 <= j <= |children|
      invariant latest == MaxFromZero(before + JsonStats(children[..j]))
    {
      assert children[..j + 1][..j] == children[..j];
      if IsJsonName(children[j].name) {
        var mt := StatMtime(children[j]);
        assert before + JsonStats(children[..j + 1]) == before + JsonStats(children[..j]) + [mt];
        MaxFromZeroSnoc(before + JsonStats(children[..j]), mt);
        if mt > latest {
          latest := mt;
        }
      } else {
        assert JsonStats(children[..j + 1]) == JsonStats(children[..j]);
      }
      j := j + 1;
    }
    assert children[..|children|] == children;
  }

  /** One step of the outer loop of `getLatestMtime`: a regular `.json`
      file is compared directly, a sub-directory is scanned, anything else
      is skipped. */
  method ScanEntry(e: Entry, start: int, ghost before: seq<int>) returns (latest: int)
    requires start == MaxFromZero(before)
    ensures latest == MaxFromZero(before + Contribution(e))
  {
    latest := start;
    if e.File? && IsJsonName(e.name) {
      assert Contribution(e) == [e.mtime];
      MaxFromZeroSnoc(before, e.mtime);
      if e.mtime > latest {
        latest := e.mtime;
      }
    } else if e.Dir? {
      latest := ScanSubdirectory(e.entries, latest, before);
    } else {
      assert before + Contribution(e) == before;
    }
  }

  /** `getLatestMtime`: the nested scan, updating `latest` in place. */
  method LatestMtime(dir: Option<seq<Entry>>) returns (latest: int)
    ensures latest == LatestMtimeOf(dir)
  {
    latest := 0;
    if dir.None? {
      return;
    }
    var es := dir.value;
    var i := 0;
    while i < |es|
      invariant 0 <= i <= |es|
      invariant latest == MaxFromZero(Scanned(es[..i]))
    {
      ghost var before := Scanned(es[..i]);
      assert es[..i + 1][..i] == es[..i];
      assert Scanned(es[..i + 1]) == before + Contribution(es[i]);
      latest := ScanEntry(es[i], latest, before);
      i := i + 1;
    }
    assert es[..|es|] == es;
  }

  /** A listing with everything below its sub-directories' own entries
      removed: the part of the tree the scan can see. */
  function Shallow(es: seq<Entry>): (r: seq<Entry>)
    ensures |r| == |es|
    ensures forall i | 0 <= i < |es| ::
              if es[i].Dir? then r[i] == Dir(es[i].name, es[i].mtime, Flat(es[i].entries)) else r[i] == es[i]
    decreases |es|
  {
    if es == [] then []
    else
      var e := es[|es| - 1];
      Shallow(es[..|es| - 1]) + [if e.Dir? then Dir(e.name, e.mtime, Flat(e.entries)) else e]
  }

  /** A sub-directory's listing with the contents of its own directories
      dropped. */
  function Flat(es: seq<Entry>): (r: seq<Entry>)
    ensures |r| == |es|
    ensures forall i | 0 <= i < |es| ::
              if es[i].Dir? then r[i] == Dir(es[i].name, es[i].mtime, []) else r[i] == es[i]
    decreases |es|
  {
    if es == [] then []
    else
      var e := es[|es| - 1];
      Flat(es[..|es| - 1]) + [if e.Dir? then Dir(e.name, e.mtime, []) else e]
  }

  lemma {:induction false} JsonStatsIgnoresDepth(es: seq<Entry>)
    ensures JsonStats(Flat(es)) == JsonStats(es)
    decreases |es|
  {
    if es != [] {
      var f := Flat(es);
      assert f[..|f| - 1] == Flat(es[..|es| - 1]);
      JsonStatsIgnoresDepth(es[..|es| - 1]);
    }
  }

  /** Files more than one sub-directory down never affect the scan. */
  lemma {:induction false} ScanIgnoresDepth(es: seq<Entry>)
    ensures Scanned(Shallow(es)) == Scanned(es)
    ensures LatestMtimeOf(Some(Shallow(es))) == LatestMtimeOf(Some(es))
    decreases |es|
  {
    if es != [] {
      var s := Shallow(es);
      assert s[..|s| - 1] == Shallow(es[..|es| - 1]);
      ScanIgnoresDepth(es[..|es| - 1]);
      if es[|es| - 1].Dir? {
        JsonStatsIgnoresDepth(es[|es| - 1].entries);
      }
    }
  }

  datatype Status = Active | Recent | Stale

  /** The order the team list uses: `{ active: 0, recent: 1, stale: 2 }`. */
  function Rank(s: Status): nat {
    match s
    case Active => 0
    case Recent => 1
    case Stale => 2
  }

  /** The status of a team whose latest write is `ageMs` old. */
  function StatusOf(ageMs: int): (s: Status)
    ensures s == Active <==> ageMs < HourMs
    ensures s == Recent <==> HourMs <= ageMs < DayMs
    ensures s == Stale <==> DayMs <= ageMs
  {
    if ageMs < HourMs then Active
    else if ageMs < DayMs then Recent
    else Stale
  }

  /** With the latest write fixed, a later clock never yields a fresher
      status. */
  lemma StatusRankMonotone(lastActivity: int, now1: int, now2: int)
    requires now1 <= now2
    ensures Rank(StatusOf(now1 - lastActivity)) <= Rank(StatusOf(now2 - lastActivity))
  {
  }

  /** `lastActivityIso` stands for `lastActivityISO`: the instant the ISO
      string denotes, or `None` for `null`. */
  datatype Snapshot = Snapshot(lastActivity: int, lastActivityIso: Option<int>, status: Status)

  /** `getTeamActivity(team)` at clock reading `now`. */
  function TeamActivity(root: Entry, l: Layout, team: string, now: int): (a: Snapshot)
    ensures var teamLatest := LatestMtimeOf(ReadDir(root, TeamDir(l, team)));
            var taskLatest := LatestMtimeOf(ReadDir(root, TaskDir(l, team)));
            && a.lastActivity >= teamLatest && a.lastActivity >= taskLatest
            && (a.lastActivity == teamLatest || a.lastActivity == taskLatest)
    ensures a.lastActivity >= 0
    ensures a.lastActivityIso.None? <==> a.lastActivity == 0
    ensures a.lastActivityIso.Some? ==> a.lastActivityIso.value == a.lastActivity
    ensures a.status == StatusOf(now - a.lastActivity)
  {
    var teamMtime := LatestMtimeOf(ReadDir(root, TeamDir(l, team)));
    var taskMtime := LatestMtimeOf(ReadDir(root, TaskDir(l, team)));
    var lastActivity := if teamMtime >= taskMtime then teamMtime else taskMtime;
    Snapshot(lastActivity, if lastActivity != 0 then Some(lastActivity) else None,
             StatusOf(now - lastActivity))
  }

  /** A team with no `.json` file in reach of either scan has never been
      active: no ISO time, and stale once the clock is a day past the epoch. */
  lemma NoJsonMeansStale(root: Entry, l: Layout, team: string, now: int)
    requires forall es | ReadDir(root, TeamDir(l, team)) == Some(es) :: Scanned(es) == []
    requires forall es | ReadDir(root, TaskDir(l, team)) == Some(es) :: Scanned(es) == []
    requires now >= DayMs
    ensures TeamActivity(root, l, team, now).lastActivity == 0
    ensures TeamActivity(root, l, team, now).lastActivityIso == None
    ensures TeamActivity(root, l, team, now).status == Stale
  {
  }
}
