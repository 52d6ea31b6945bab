/** Change classification of backend/server.js: `parseChange`, which tells
    the teams root from the tasks root by a string-prefix test and takes the
    path relative to that root, and the `teamName` the watcher handler reads
    off the relative path. Paths are POSIX paths with `/` as separator. */
module Watcher {
  import opened Js
  import opened FileTree

  const Sep: char := '/'

  /** `s.split('/')` */
  function Split(s: string): (parts: seq<string>)
    ensures |parts| >= 1
    ensures Sep !in parts[0] && parts[0] <= s && (|parts[0]| == |s| || s[|parts[0]|] == Sep)
    decreases |s|
  {
    if s == [] then [""]
    else
      var rest := Split(s[1..]);
      if s[0] == Sep then [""] + rest else [[s[0]] + rest[0]] + rest[1..]
  }

  /** `parts.join('/')` */
  function Join(parts: seq<string>): string {
    if parts == [] then ""
    else if |parts| == 1 then parts[0]
    else parts[0] + [Sep] + Join(parts[1..])
  }

  predicate ProperSegment(s: string) {
    s != "" && s != "." && s != ".." && Sep !in s
  }

  predicate ProperSegments(ps: seq<string>) {
    forall i | 0 <= i < |ps| :: ProperSegment(ps[i])
  }

  /** The absolute path with the given segments. */
  function PathOf(segs: seq<string>): string {
    [Sep] + Join(segs)
  }

  /** A normalised absolute path, as the watcher reports them: no empty,
      `.` or `..` segment, no trailing separator. */
  predicate Normal(p: string) {
    |p| >= 2 && p[0] == Sep && ProperSegments(Split(p[1..]))
  }

  function Segments(p: string): seq<string>
    requires Normal(p)
  {
    Split(p[1..])
  }

  /** Both roots are normalised absolute paths. */
  predicate ValidLayout(l: Layout) {
    |l.teamsDir| >= 1 && ProperSegments(l.teamsDir) && |l.tasksDir| >= 1 && ProperSegments(l.tasksDir)
  }

  function CommonPrefixLength(a: seq<string>, b: seq<string>): (k: nat)
    ensures k <= |a| && k <= |b| && a[..k] == b[..k]
    ensures k < |a| && k < |b| ==> a[k] != b[k]
  {
    if a == [] || b == [] || a[0] != b[0] then 0
    else
      var k := 1 + CommonPrefixLength(a[1..], b[1..]);
      assert a[..k] == [a[0]] + a[1..][..k - 1];
      assert b[..k] == [b[0]] + b[1..][..k - 1];
      k
  }

  function Ups(n: nat): (r: seq<string>)
    ensures |r| == n
  {
    if n == 0 then [] else [".."] + Ups(n - 1)
  }

  /** One step of `path.resolve`: an empty or `.` step stays, `..` climbs
      out of the last segment (the root stays the root), and any other step
      descends into it. */
  function Step(at: seq<string>, step: string): seq<string> {
    if step == "" || step == "." then at
    else if step == ".." then (if at == [] then [] else at[..|at| - 1])
    else at + [step]
  }

  /** `path.resolve(at, ...steps)` on segments. */
  function Walk(at: seq<string>, steps: seq<string>): seq<string>
    decreases |steps|
  {
    if steps == [] then at else Walk(Step(at, steps[0]), steps[1..])
  }

  lemma {:induction false} WalkAppend(at: seq<string>, a: seq<string>, b: seq<string>)
    ensures Walk(at, a + b) == Walk(Walk(at, a), b)
    decreases |a|
  {
    if a == [] {
      assert a + b == b;
    } else {
      assert (a + b)[0] == a[0];
      assert (a + b)[1..] == a[1..] + b;
      WalkAppend(Step(at, a[0]), a[1..], b);
    }
  }

  lemma {:induction false} WalkUps(at: seq<string>, n: nat)
    requires n <= |at|
    ensures Walk(at, Ups(n)) == at[..|at| - n]
  {
    if n == 0 {
      assert at[..|at|] == at;
    } else {
      var up := at[..|at| - 1];
      assert Ups(n)[0] == ".." && Ups(n)[1..] == Ups(n - 1);
      WalkUps(up, n - 1);
      assert up[..|up| - (n - 1)] == at[..|at| - n];
    }
  }

  lemma {:induction false} WalkDescend(at: seq<string>, xs: seq<string>)
    requires ProperSegments(xs)
    ensures Walk(at, xs) == at + xs
    decreases |xs|
  {
    if xs != [] {
      assert forall i | 0 <= i < |xs| - 1 :: xs[1..][i] == xs[i + 1];
      WalkDescend(at + [xs[0]], xs[1..]);
      assert at + [xs[0]] + xs[1..] == at + xs;
    }
  }

  /** `path.relative(from, to)` of two normalised absolute paths, given by
      their segments: up out of what `from` does not share with `to`, then
      down the rest of `to`. Resolving the result against `from` gives back
      `to`. */
  function Relative(from: seq<string>, to: seq<string>): (r: string)
    ensures ProperSegments(to) ==> Walk(from, Split(r)) == to
  {
    var k := CommonPrefixLength(from, to);
    var steps := Ups(|from| - k) + to[k..];
    RelativeWalk(from, to, k, steps);
    Join(steps)
  }

  lemma RelativeWalk(from: seq<string>, to: seq<string>, k: nat, steps: seq<string>)
    requires k == CommonPrefixLength(from, to) && steps == Ups(|from| - k) + to[k..]
    ensures ProperSegments(to) ==> Walk(from, Split(Join(steps))) == to
  {
    if ProperSegments(to) {
      if steps == [] {
        assert |from| == k == |to|;
        assert from == from[..k] && to == to[..k];
        WalkEmpty(from);
      } else {
        StepsSeparatorFree(from, to, k, steps);
        SplitJoin(steps);
        WalkRelative(from, to, k);
      }
    }
  }

  /** `path.resolve(from, '')` is `from`. */
  lemma WalkEmpty(at: seq<string>)
    ensures Walk(at, Split(Join([]))) == at
  {
    assert Split(Join([])) == [""];
  }

  lemma StepsSeparatorFree(from: seq<string>, to: seq<string>, k: nat, steps: seq<string>)
    requires ProperSegments(to) && k <= |from| && k <= |to|
    requires steps == Ups(|from| - k) + to[k..]
    ensures forall i | 0 <= i < |steps| :: Sep !in steps[i]
  {
    forall i | 0 <= i < |steps| ensures Sep !in steps[i] {
      if i >= |from| - k {
        assert steps[i] == to[k + i - (|from| - k)];
      } else {
        UpsAll(|from| - k, i);
      }
    }
  }

  lemma WalkRelative(from: seq<string>, to: seq<string>, k: nat)
    requires ProperSegments(to) && k <= |from| && k <= |to| && from[..k] == to[..k]
    ensures Walk(from, Ups(|from| - k) + to[k..]) == to
  {
    var down := to[k..];
    WalkAppend(from, Ups(|from| - k), down);
    WalkUps(from, |from| - k);
    assert |from| - (|from| - k) == k;
    SuffixProper(to, k);
    WalkDescend(to[..k], down);
    assert to[..k] + down == to;
  }

  lemma SuffixProper(ps: seq<string>, k: nat)
    requires ProperSegments(ps) && k <= |ps|
    ensures ProperSegments(ps[k..])
  {
    assert forall i | 0 <= i < |ps| - k :: ps[k..][i] == ps[k + i];
  }

  lemma {:induction false} UpsAll(n: nat, i: nat)
    requires i < n
    ensures Ups(n)[i] == ".."
  {
    if i > 0 {
      UpsAll(n - 1, i - 1);
    }
  }

  datatype Area = Teams | Tasks

  datatype Parsed = Parsed(area: Area, file: string)

  /** `parseChange(filePath)` */
  function ParseChange(l: Layout, filePath: string): (c: Parsed)
    requires ValidLayout(l) && Normal(filePath)
    ensures c.area == Teams <==> StartsWith(filePath, PathOf(l.teamsDir))
  {
    if StartsWith(filePath, PathOf(l.teamsDir)) then Parsed(Teams, Relative(l.teamsDir, Segments(filePath)))
    else Parsed(Tasks, Relative(l.tasksDir, Segments(filePath)))
  }

  /** `parts[0] || null` with `parts = file.split('/')`: the part of the
      relative path before its first separator, `None` when that is empty. */
  function TeamNameOf(file: string): (r: Option<string>)
    ensures r.None? <==> file == "" || file[0] == Sep
    ensures r.Some? ==> r.value != "" && Sep !in r.value && StartsWith(file, r.value)
                        && (|file| == |r.value| || file[|r.value|] == Sep)
  {
    var first := Split(file)[0];
    if first == "" then None else Some(first)
  }

  // ---- properties of the path text ----

  lemma {:induction false} SplitPrefix(a: string, t: string)
    requires Sep !in a
    ensures Split(a + t) == [a + Split(t)[0]] + Split(t)[1..]
    decreases |a|
  {
    if a == [] {
      assert a + t == t;
      assert a + Split(t)[0] == Split(t)[0];
      assert Split(a + t) == [Split(t)[0]] + Split(t)[1..];
    } else {
      var s := a + t;
      assert s[0] == a[0] && a[0] != Sep;
      assert s[1..] == a[1..] + t;
      var rest := Split(s[1..]);
      assert Split(s) == [[s[0]] + rest[0]] + rest[1..];
      SplitPrefix(a[1..], t);
      assert rest[0] == a[1..] + Split(t)[0];
      assert rest[1..] == Split(t)[1..];
      assert [a[0]] + (a[1..] + Split(t)[0]) == a + Split(t)[0];
    }
  }

  /** Splitting undoes joining segments that hold no separator. */
  lemma {:induction false} SplitJoin(ps: seq<string>)
    requires |ps| >= 1
    requires forall i | 0 <= i < |ps| :: Sep !in ps[i]
    ensures Split(Join(ps)) == ps
  {
    if |ps| == 1 {
      SplitPrefix(ps[0], "");
      assert ps[0] + "" == ps[0];
    } else {
      var rest := Join(ps[1..]);
      SplitJoin(ps[1..]);
      assert Join(ps) == ps[0] + ([Sep] + rest);
      SplitPrefix(ps[0], [Sep] + rest);
      assert ([Sep] + rest)[1..] == rest;
      assert Split([Sep] + rest) == [""] + ps[1..];
      assert ps[0] + "" == ps[0];
    }
  }

  lemma JoinCons(x: string, y: string, rest: seq<string>)
    ensures Join([x + y] + rest) == x + Join([y] + rest)
  {
    if rest != [] {
      assert ([x + y] + rest)[1..] == rest;
      assert ([y] + rest)[1..] == rest;
    }
  }

  /** Joining undoes splitting. */
  lemma {:induction false} JoinSplit(s: string)
    ensures Join(Split(s)) == s
    decreases |s|
  {
    if s != [] {
      var rest := Split(s[1..]);
      JoinSplit(s[1..]);
      if s[0] == Sep {
        assert ([""] + rest)[1..] == rest;
        assert s == [Sep] + s[1..];
      } else {
        JoinCons([s[0]], rest[0], rest[1..]);
        assert [rest[0]] + rest[1..] == rest;
        assert s == [s[0]] + s[1..];
      }
    }
  }

  lemma {:induction false} JoinAppend(a: seq<string>, b: seq<string>)
    requires |a| >= 1 && |b| >= 1
    ensures Join(a + b) == Join(a) + [Sep] + Join(b)
    decreases |a|
  {
    if |a| == 1 {
      assert (a + b)[1..] == b;
    } else {
      assert (a + b)[1..] == a[1..] + b;
      JoinAppend(a[1..], b);
    }
  }

  /** The path built from proper segments is normal, with those segments. */
  lemma SegmentsOfPath(segs: seq<string>)
    requires |segs| >= 1 && ProperSegments(segs)
    ensures Normal(PathOf(segs)) && Segments(PathOf(segs)) == segs
  {
    SplitJoin(segs);
    assert PathOf(segs)[1..] == Join(segs);
    JoinNonEmpty(segs);
  }

  lemma JoinNonEmpty(segs: seq<string>)
    requires |segs| >= 1 && segs[0] != ""
    ensures |Join(segs)| >= 1
  {
  }

  /** `path.relative(root, p)` of a path below the root is the part below. */
  lemma RelativeBelow(root: seq<string>, rest: seq<string>)
    ensures Relative(root, root + rest) == Join(rest)
  {
    var k := CommonPrefixLength(root, root + rest);
    assert forall i | 0 <= i < |root| :: (root + rest)[i] == root[i];
    assert k == |root|;
    assert (root + rest)[|root|..] == rest;
    assert Ups(0) + rest == rest;
  }

  /** The team name of a relative path built from segments is its first
      segment, or `None` for the root itself. */
  lemma TeamNameOfJoin(rest: seq<string>)
    requires ProperSegments(rest)
    ensures TeamNameOf(Join(rest)) == if rest == [] then None else Some(rest[0])
  {
    if rest != [] {
      SplitJoin(rest);
    }
  }

  lemma PathOfAppend(a: seq<string>, b: seq<string>)
    requires |a| >= 1
    ensures PathOf(a + b) == PathOf(a) + (if b == [] then "" else [Sep] + Join(b))
  {
    if b == [] {
      assert a + b == a;
    } else {
      JoinAppend(a, b);
    }
  }

  /** An event below the teams root is in area `teams`, its file is the path
      below the root, and its team the first directory below the root (a file
      directly in the root yields its own name). */
  lemma ParseUnderTeams(l: Layout, rest: seq<string>)
    requires ValidLayout(l) && ProperSegments(rest)
    ensures Normal(PathOf(l.teamsDir + rest))
    ensures ParseChange(l, PathOf(l.teamsDir + rest)) == Parsed(Teams, Join(rest))
    ensures TeamNameOf(Join(rest)) == if rest == [] then None else Some(rest[0])
  {
    var p := PathOf(l.teamsDir + rest);
    SegmentsOfPath(l.teamsDir + rest);
    PathOfAppend(l.teamsDir, rest);
    assert p[..|PathOf(l.teamsDir)|] == PathOf(l.teamsDir);
    RelativeBelow(l.teamsDir, rest);
    TeamNameOfJoin(rest);
  }

  /** A string neither prefix of the other stays so however the first one
      is extended. */
  lemma NotPrefixExtended(s: string, t: string, suffix: string)
    requires !StartsWith(s, t) && !StartsWith(t, s)
    ensures !StartsWith(s + suffix, t)
  {
    var p := s + suffix;
    assert p[..|s|] == s;
    if |t| <= |s| {
      assert p[..|t|] == s[..|t|];
    } else if |t| <= |p| {
      assert p[..|t|][..|s|] == s;
    }
  }

  /** With roots such as `~/.claude/teams` and `~/.claude/tasks`, neither a
      string prefix of the other, an event below the tasks root is in area
      `tasks`, with the path below that root. */
  lemma ParseUnderTasks(l: Layout, rest: seq<string>)
    requires ValidLayout(l) && ProperSegments(rest)
    requires !StartsWith(PathOf(l.tasksDir), PathOf(l.teamsDir))
    requires !StartsWith(PathOf(l.teamsDir), PathOf(l.tasksDir))
    ensures Normal(PathOf(l.tasksDir + rest))
    ensures ParseChange(l, PathOf(l.tasksDir + rest)) == Parsed(Tasks, Join(rest))
    ensures TeamNameOf(Join(rest)) == if rest == [] then None else Some(rest[0])
  {
    SegmentsOfPath(l.tasksDir + rest);
    PathOfAppend(l.tasksDir, rest);
    NotPrefixExtended(PathOf(l.tasksDir), PathOf(l.teamsDir), if rest == [] then "" else [Sep] + Join(rest));
    RelativeBelow(l.tasksDir, rest);
    TeamNameOfJoin(rest);
  }

  /** The prefix test looks at text, not at whole segments: when the tasks
      root is the teams root with more text on its last segment (`/h/teams`
      and `/h/teams2`, say), every file below the tasks root passes as a
      change in area `teams`, addressed from one level up (`../teams2/...`). */
  lemma PrefixRootsMisclassified(base: seq<string>, x: string, y: string, rest: seq<string>)
    requires ProperSegments(base) && ProperSegment(x) && ProperSegment(x + y) && y != ""
    requires ProperSegments(rest)
    ensures var l := Layout(base + [x], base + [x + y]);
            var p := PathOf(base + [x + y] + rest);
            && ValidLayout(l) && Normal(p)
            && ParseChange(l, p) == Parsed(Teams, Join([".."] + ([x + y] + rest)))
  {
    var l := Layout(base + [x], base + [x + y]);
    var segs := base + [x + y] + rest;
    assert ProperSegments(segs);
    SegmentsOfPath(segs);
    ExtendedRootPrefixed(base, x, y, rest);
    ParsedAsTeams(l, PathOf(segs));
    RelativeFromSibling(base, x, x + y, rest);
  }

  /** A path that passes the prefix test is taken relative to the teams root. */
  lemma ParsedAsTeams(l: Layout, p: string)
    requires ValidLayout(l) && Normal(p) && StartsWith(p, PathOf(l.teamsDir))
    ensures ParseChange(l, p) == Parsed(Teams, Relative(l.teamsDir, Segments(p)))
  {
  }

  /** `path.relative` from a root to a path below a sibling of the root goes
      up once and down into the sibling. */
  lemma RelativeFromSibling(base: seq<string>, a: string, b: string, rest: seq<string>)
    requires a != b
    ensures Relative(base + [a], base + [b] + rest) == Join([".."] + ([b] + rest))
  {
    var segs := base + [b] + rest;
    CommonPrefixOfSiblings(base, a, b, rest);
    assert segs[|base|..] == [b] + rest;
    assert Ups(1) == [".."];
  }

  /** A path below a root whose last segment extends `x` starts with the text
      of the root ending in `x`. */
  lemma ExtendedRootPrefixed(base: seq<string>, x: string, y: string, rest: seq<string>)
    ensures StartsWith(PathOf(base + [x + y] + rest), PathOf(base + [x]))
  {
    PathOfAppend(base + [x + y], rest);
    JoinLastExtended(base, x, y);
    var root := PathOf(base + [x]);
    var tail := y + (if rest == [] then "" else [Sep] + Join(rest));
    assert PathOf(base + [x + y] + rest) == root + tail;
    assert (root + tail)[..|root|] == root;
  }

  /** Two paths that part at the segment after `base` share exactly `base`. */
  lemma CommonPrefixOfSiblings(base: seq<string>, a: string, b: string, rest: seq<string>)
    requires a != b
    ensures CommonPrefixLength(base + [a], base + [b] + rest) == |base|
  {
    var s := base + [a];
    var t := base + [b] + rest;
    var k := CommonPrefixLength(s, t);
    assert s[|base|] == a && t[|base|] == b;
    assert forall i | 0 <= i < |base| :: s[i] == t[i];
  }

  /** Extending the text of the last segment extends the joined text. */
  lemma JoinLastExtended(base: seq<string>, x: string, y: string)
    ensures PathOf(base + [x + y]) == PathOf(base + [x]) + y
  {
    if base == [] {
      assert base + [x + y] == [x + y] && base + [x] == [x];
    } else {
      JoinAppend(base, [x + y]);
      JoinAppend(base, [x]);
    }
  }
}
