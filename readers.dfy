/** The filesystem readers of backend/server.js: `getTeamNames`,
    `getTeamConfig`, `getTeamInboxes` and `getTeamTasks`. Every failure
    degrades to an empty or null result. */
module Readers {
  import opened Js
  import opened FileTree
  import opened Sorting

  // ---- getTeamNames ----

  /** The names of the sub-directories of a listing, in listing order. */
  function DirNames(es: seq<Entry>): (names: seq<string>)
    ensures |names| <= |es|
    ensures forall n | n in names :: exists e | e in es :: e.Dir? && e.name == n
  {
    if es == [] then [] else (if es[0].Dir? then [es[0].name] else []) + DirNames(es[1..])
  }

  lemma {:induction false} DirNamesExact(es: seq<Entry>, n: string)
    ensures n in DirNames(es) <==> exists i | 0 <= i < |es| :: es[i].Dir? && es[i].name == n
  {
    if es != [] {
      DirNamesExact(es[1..], n);
      if n in DirNames(es[1..]) {
        var i :| 1 <= i + 1 < |es| && es[1..][i].Dir? && es[1..][i].name == n;
        assert es[i + 1].Dir? && es[i + 1].name == n;
      }
      if exists i | 0 <= i < |es| :: es[i].Dir? && es[i].name == n {
        var i :| 0 <= i < |es| && es[i].Dir? && es[i].name == n;
        if i > 0 {
          assert es[1..][i - 1] == es[i];
        }
      }
    }
  }

  /** `getTeamNames()` */
  function TeamNames(root: Entry, l: Layout): (names: seq<string>)
    ensures ReadDir(root, l.teamsDir).None? ==> names == []
    ensures ReadDir(root, l.teamsDir).Some? ==>
              forall n | n in names :: exists e | e in ReadDir(root, l.teamsDir).value :: e.Dir? && e.name == n
  {
    match ReadDir(root, l.teamsDir)
    case None => []
    case Some(es) => DirNames(es)
  }

  /** The team names are exactly the directories directly under the teams
      root; a missing root gives none. */
  lemma TeamNamesAreDirectories(root: Entry, l: Layout, n: string)
    ensures ReadDir(root, l.teamsDir).None? ==> TeamNames(root, l) == []
    ensures ReadDir(root, l.teamsDir).Some? ==>
              var es := ReadDir(root, l.teamsDir).value;
              (n in TeamNames(root, l) <==> exists i | 0 <= i < |es| :: es[i].Dir? && es[i].name == n)
  {
    if ReadDir(root, l.teamsDir).Some? {
      DirNamesExact(ReadDir(root, l.teamsDir).value, n);
    }
  }

  // ---- getTeamConfig ----

  /** `getTeamConfig(team)`: the parsed `config.json`, or `null`. */
  function TeamConfig(root: Entry, l: Layout, team: string): (cfg: Json)
    ensures Resolve(root, ConfigPath(l, team)).None? ==> cfg == JNull
    ensures var e := Resolve(root, ConfigPath(l, team));
            e.Some? && e.value.File? ==> cfg == e.value.content.GetOr(JNull)
  {
    ReadJsonSafe(Resolve(root, ConfigPath(l, team)))
  }

  // ---- getTeamInboxes ----

  /** A JavaScript object: its own properties in insertion order. */
  type Props = seq<(string, Json)>

  /** `obj[k]` */
  function Get(obj: Props, k: string): Option<Json> {
    if obj == [] then None
    else if obj[0].0 == k then Some(obj[0].1)
    else Get(obj[1..], k)
  }

  /** The key whose assignment on a plain object goes to the inherited
      `__proto__` setter instead of creating a property. */
  const ProtoKey: string := "__proto__"

  /** `obj[k] = v`: replaces the value of an existing property in place, or
      adds a new property at the end; assigning `__proto__` changes the
      prototype (or nothing) and adds no property of its own. */
  function Assign(obj: Props, k: string, v: Json): (r: Props)
    ensures k != ProtoKey ==> Get(r, k) == Some(v)
    ensures k == ProtoKey ==> r == obj
    ensures forall k' | k' != k :: Get(r, k') == Get(obj, k')
    ensures |r| <= |obj| + 1
    ensures forall p | p in r :: p in obj || p == (k, v)
  {
    if k == ProtoKey then obj
    else if obj == [] then [(k, v)]
    else if obj[0].0 == k then [(k, v)] + obj[1..]
    else [obj[0]] + Assign(obj[1..], k, v)
  }

  /** `Object.values(obj)` */
  function Values(obj: Props): (vs: seq<Json>)
    ensures |vs| == |obj|
    ensures forall i | 0 <= i < |obj| :: vs[i] == obj[i].1
  {
    seq(|obj|, i requires 0 <= i < |obj| => obj[i].1)
  }

  /** An entry `getTeamInboxes` keeps: a `.json` name whose content is
      truthy. */
  predicate IsInbox(e: Entry) {
    IsJsonName(e.name) && Truthy(Some(ReadJsonSafe(Some(e))))
  }

  /** The object `getTeamInboxes` builds from an inbox listing: at most one
      property per file, each a kept inbox under its stem with its content,
      and never `__proto__`. */
  function InboxesOf(es: seq<Entry>): (r: Props)
    ensures |r| <= |es|
    ensures forall p | p in r :: p.0 != ProtoKey
    ensures forall p | p in r :: exists i | 0 <= i < |es| ::
              IsInbox(es[i]) && p == (Stem(es[i].name), ReadJsonSafe(Some(es[i])))
    decreases |es|
  {
    if es == [] then []
    else
      var e := es[|es| - 1];
      var init := es[..|es| - 1];
      var prev := InboxesOf(init);
      assert forall i | 0 <= i < |init| :: init[i] == es[i];
      if IsInbox(e) then Assign(prev, Stem(e.name), ReadJsonSafe(Some(e))) else prev
  }

  function InboxesAt(root: Entry, l: Layout, team: string): Props {
    match ReadDir(root, InboxDir(l, team))
    case None => []
    case Some(es) => InboxesOf(es)
  }

  /** `getTeamInboxes(team)`: fills the object in a loop over the listing. */
  method GetTeamInboxes(root: Entry, l: Layout, team: string) returns (inboxes: Props)
    ensures inboxes == InboxesAt(root, l, team)
  {
    var listing := ReadDir(root, InboxDir(l, team));
    if listing.None? {
      return [];
    }
    var files := listing.value;
    inboxes := [];
    var i := 0;
    while i < |files|
      invariant 0 <= i <= |files|
      invariant inboxes == InboxesOf(files[..i])
    {
      assert files[..i + 1][..i] == files[..i];
      var file := files[i];
      if IsJsonName(file.name) {
        var agentName := Stem(file.name);
        var messages := ReadJsonSafe(Some(file));
        if Truthy(Some(messages)) {
          inboxes := Assign(inboxes, agentName, messages);
        }
      }
      i := i + 1;
    }
    assert files[..|files|] == files;
  }

  /** A name that no kept entry has is not a key. */
  lemma {:induction false} InboxAbsent(es: seq<Entry>, k: string)
    requires forall i | 0 <= i < |es| && IsInbox(es[i]) :: Stem(es[i].name) != k
    ensures Get(InboxesOf(es), k) == None
    decreases |es|
  {
    if es != [] {
      InboxAbsent(es[..|es| - 1], k);
    }
  }

  /** Every kept entry is found under its stem with its own content,
      whatever its siblings hold, unless the stem is `__proto__`: the names
      of a listing are distinct, so no other file overwrites it. */
  lemma {:induction false} InboxPresent(es: seq<Entry>, i: nat)
    requires DistinctNames(es)
    requires i < |es| && IsInbox(es[i]) && Stem(es[i].name) != ProtoKey
    ensures Get(InboxesOf(es), Stem(es[i].name)) == Some(ReadJsonSafe(Some(es[i])))
    decreases |es|
  {
    var last := |es| - 1;
    if i < last {
      var init := es[..last];
      assert forall a | 0 <= a < last :: init[a] == es[a];
      InboxPresent(init, i);
      if IsInbox(es[last]) {
        DistinctStems(es, i, last);
      }
    }
  }

  /** An inbox file named `__proto__.json` never shows up as a property. */
  lemma {:induction false} InboxProtoDropped(es: seq<Entry>)
    ensures Get(InboxesOf(es), ProtoKey) == None
    decreases |es|
  {
    if es != [] {
      InboxProtoDropped(es[..|es| - 1]);
    }
  }

  // ---- getTeamTasks ----

  /** `task && task.id` */
  predicate IsTask(j: Json) {
    Truthy(Some(j)) && Truthy(Prop(Some(j), "id"))
  }

  /** What one listing entry adds to the task list. */
  function TaskFile(e: Entry): seq<Json> {
    if IsJsonName(e.name) && IsTask(ReadJsonSafe(Some(e))) then [ReadJsonSafe(Some(e))] else []
  }

  /** The tasks collected from a listing, in listing order, before sorting. */
  function CollectTasks(es: seq<Entry>): (ts: seq<Json>)
    ensures forall t | t in ts :: IsTask(t)
    decreases |es|
  {
    if es == [] then [] else CollectTasks(es[..|es| - 1]) + TaskFile(es[|es| - 1])
  }

  /** Each file adds its task independently of its siblings: a file that
      fails to parse or has no id drops out without disturbing the rest. */
  lemma {:induction false} CollectTasksAppend(a: seq<Entry>, b: seq<Entry>)
    ensures CollectTasks(a + b) == CollectTasks(a) + CollectTasks(b)
    decreases |b|
  {
    if b == [] {
      assert a + b == a;
    } else {
      var init := b[..|b| - 1];
      var e := b[|b| - 1];
      assert b == init + [e];
      assert a + b == (a + init) + [e];
      CollectTasksSnoc(a + init, e);
      CollectTasksSnoc(init, e);
      CollectTasksAppend(a, init);
    }
  }

  lemma CollectTasksSnoc(es: seq<Entry>, e: Entry)
    ensures CollectTasks(es + [e]) == CollectTasks(es) + TaskFile(e)
  {
    assert (es + [e])[..|es|] == es;
  }

  /** `Number(t.id)`; a missing `id` is `undefined`, which is NaN. */
  function TaskKey(t: Json): Number {
    match Prop(Some(t), "id")
    case Some(v) => NumberOf(v)
    case None => NaN
  }

  /** `(a, b) => Number(a.id) - Number(b.id)` is not positive; a NaN result
      counts as 0. */
  function TaskLe(a: Json, b: Json): (r: bool)
    ensures TaskKey(a).Num? && TaskKey(b).Num? ==> (r <==> TaskKey(a).n <= TaskKey(b).n)
    ensures !TaskKey(a).Num? || !TaskKey(b).Num? ==> r
  {
    match (TaskKey(a), TaskKey(b))
    case (Num(x), Num(y)) => x <= y
    case _ => true
  }

  /** The comparator throws on every call that involves a task whose `id`
      makes `Number` throw, and a sort of two or more tasks calls it on every
      task, so then the sort throws; a list of fewer than two tasks is left
      alone without a call. */
  predicate SortThrows(ts: seq<Json>) {
    |ts| >= 2 && exists t | t in ts :: TaskKey(t).TypeError?
  }

  /** `tasks.sort(...)` inside the `try` of `getTeamTasks`: a sort that
      throws ends in the `catch`, which returns no tasks. */
  function SortTasks(ts: seq<Json>): (r: seq<Json>)
    ensures SortThrows(ts) ==> r == []
    ensures !SortThrows(ts) ==> multiset(r) == multiset(ts)
  {
    if SortThrows(ts) then [] else SortBy(ts, TaskLe)
  }

  /** What `getTeamTasks(team)` returns. */
  function TasksOf(root: Entry, l: Layout, team: string): (ts: seq<Json>)
    ensures ReadDir(root, TaskDir(l, team)).None? ==> ts == []
    ensures ReadDir(root, TaskDir(l, team)).Some? ==>
              var c := CollectTasks(ReadDir(root, TaskDir(l, team)).value);
              && (SortThrows(c) ==> ts == [])
              && (!SortThrows(c) ==> multiset(ts) == multiset(c))
  {
    match ReadDir(root, TaskDir(l, team))
    case None => []
    case Some(es) => SortTasks(CollectTasks(es))
  }

  /** `getTeamTasks(team)`: pushes each task in a loop, then sorts. */
  method GetTeamTasks(root: Entry, l: Layout, team: string) returns (tasks: seq<Json>)
    ensures tasks == TasksOf(root, l, team)
  {
    var listing := ReadDir(root, TaskDir(l, team));
    if listing.None? {
      return [];
    }
    var files := listing.value;
    tasks := [];
    var i := 0;
    while i < |files|
      invariant 0 <= i <= |files|
      invariant tasks == CollectTasks(files[..i])
    {
      assert files[..i + 1][..i] == files[..i];
      var file := files[i];
      if IsJsonName(file.name) {
        var task := ReadJsonSafe(Some(file));
        if IsTask(task) {
          tasks := tasks + [task];
        }
      }
      i := i + 1;
    }
    assert files[..|files|] == files;
    if SortThrows(tasks) {
      return [];
    }
    tasks := SortBy(tasks, TaskLe);
  }

  /** The task list holds exactly the collected tasks, each as often as it
      was collected, unless the sort throws; when every id is a number it
      does not throw and the list is in ascending id order. */
  lemma TasksSortedById(es: seq<Entry>)
    ensures !SortThrows(CollectTasks(es)) ==>
              multiset(SortTasks(CollectTasks(es))) == multiset(CollectTasks(es))
    ensures (forall t | t in CollectTasks(es) :: TaskKey(t).Num?) ==>
              var r := SortTasks(CollectTasks(es));
              && |r| == |CollectTasks(es)|
              && forall i, j | 0 <= i < j < |r| ::
                   TaskKey(r[i]).Num? && TaskKey(r[j]).Num? && TaskKey(r[i]).n <= TaskKey(r[j]).n
  {
    var c := CollectTasks(es);
    if forall t | t in c :: TaskKey(t).Num? {
      assert !SortThrows(c);
      TaskLeOrdersNumbers(c);
      SortBySorted(c, TaskLe);
      var r := SortBy(c, TaskLe);
      assert |r| == |multiset(r)| == |multiset(c)| == |c|;
      forall i | 0 <= i < |r| ensures TaskKey(r[i]).Num? {
        assert r[i] in multiset(r);
      }
    }
  }

  /** On tasks whose ids all convert to numbers the comparator orders by
      number: it is total and transitive. */
  lemma TaskLeOrdersNumbers(ts: seq<Json>)
    requires forall t | t in ts :: TaskKey(t).Num?
    ensures TotalPreorderOn(ts, TaskLe)
  {
  }

  /** One task whose `id` is an object with a `toString` field empties the
      task list once there is a second task to compare it with, whatever
      the second task is. */
  lemma ThrowingIdEmptiesTasks(t: Json, other: Json)
    requires IsTask(t) && IsTask(other)
    requires var id := Prop(Some(t), "id").value; id.JObj? && "toString" in id.fields
    ensures SortTasks([t]) == [t]
    ensures SortTasks([t, other]) == [] && SortTasks([other, t]) == []
  {
    assert t in [t, other] && t in [other, t];
  }
}
