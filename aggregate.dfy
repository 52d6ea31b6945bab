/** The two aggregated views of backend/server.js: the team summary list of
    `GET /api/teams` and the overview of `GET /api/overview`. A view is
    `None` where the handler's expression throws a TypeError (the request
    then fails as a whole). */
module Aggregate {
  import opened Js
  import opened FileTree
  import opened Sorting
  import opened Activity
  import opened Readers

  // ---- the team summary list ----

  /** `{ name, agentType, model, color, joinedAt }` of one member; `None`
      is `undefined`. */
  datatype MemberView = MemberView(name: Option<Json>, agentType: Option<Json>, model: Option<Json>,
                                   color: Json, joinedAt: Json)

  /** `items.map(m => ({ ... }))`; reading a field of a `null` member throws. */
  function ViewMembers(items: seq<Json>): (r: Option<seq<MemberView>>)
    ensures r.Some? <==> JNull !in items
    ensures r.Some? ==> |r.value| == |items|
    ensures r.Some? ==> forall i | 0 <= i < |items| ::
              && r.value[i].name == Prop(Some(items[i]), "name")
              && r.value[i].agentType == Prop(Some(items[i]), "agentType")
              && r.value[i].model == Prop(Some(items[i]), "model")
              && r.value[i].color == Or(Prop(Some(items[i]), "color"), JNull)
              && r.value[i].joinedAt == Or(Prop(Some(items[i]), "joinedAt"), JNull)
  {
    if items == [] then Some([])
    else if items[0] == JNull then None
    else
      var m := Some(items[0]);
      match ViewMembers(items[1..])
      case None => None
      case Some(rest) =>
        Some([MemberView(Prop(m, "name"), Prop(m, "agentType"), Prop(m, "model"),
                         Or(Prop(m, "color"), JNull), Or(Prop(m, "joinedAt"), JNull))] + rest)
  }

  /** `(cfg?.members || []).map(...)`: a truthy `members` that is not an
      array has no `map` and throws. */
  function MembersOf(cfg: Json): (r: Option<seq<MemberView>>)
    ensures !Truthy(Prop(Some(cfg), "members")) ==> r == Some([])
    ensures Truthy(Prop(Some(cfg), "members")) && !Prop(Some(cfg), "members").value.JArr? ==> r.None?
    ensures Truthy(Prop(Some(cfg), "members")) && Prop(Some(cfg), "members").value.JArr? ==>
              (r.Some? <==> JNull !in Prop(Some(cfg), "members").value.items)
    ensures Truthy(Prop(Some(cfg), "members")) && Prop(Some(cfg), "members").value.JArr? ==>
              r == ViewMembers(Prop(Some(cfg), "members").value.items)
  {
    match Or(Prop(Some(cfg), "members"), JArr([]))
    case JArr(items) => ViewMembers(items)
    case _ => None
  }

  /** `cfg?.members?.length || 0` */
  function MemberCount(cfg: Json): (n: Json)
    ensures Prop(Some(cfg), "members").Some? && Prop(Some(cfg), "members").value.JArr? ==>
              n == JNum(|Prop(Some(cfg), "members").value.items|)
    ensures Prop(Some(cfg), "members").None? ==> n == JNum(0)
  {
    Or(LengthProp(Prop(Some(cfg), "members")), JNum(0))
  }

  /** `cfg?.description || ''` */
  function Description(cfg: Json): Json {
    Or(Prop(Some(cfg), "description"), JStr(""))
  }

  datatype Summary = Summary(name: string, description: Json, createdAt: Json, memberCount: Json,
                             members: seq<MemberView>, activity: Snapshot)

  /** The summary object built for one team name. */
  function SummaryOf(root: Entry, l: Layout, team: string, now: int): (r: Option<Summary>)
    ensures r.Some? <==> MembersOf(TeamConfig(root, l, team)).Some?
    ensures r.Some? ==> r.value.name == team && r.value.activity == TeamActivity(root, l, team, now)
    ensures var cfg := TeamConfig(root, l, team);
            r.Some? ==> && r.value.description == Or(Prop(Some(cfg), "description"), JStr(""))
                        && r.value.createdAt == Or(Prop(Some(cfg), "createdAt"), JNull)
                        && r.value.memberCount == MemberCount(cfg)
                        && r.value.members == MembersOf(cfg).value
  {
    var cfg := TeamConfig(root, l, team);
    match MembersOf(cfg)
    case None => None
    case Some(members) =>
      Some(Summary(team, Description(cfg), Or(Prop(Some(cfg), "createdAt"), JNull), MemberCount(cfg),
                   members, TeamActivity(root, l, team, now)))
  }

  /** A team without a readable config still gets a summary, an empty one. */
  lemma SummaryWithoutConfig(root: Entry, l: Layout, team: string, now: int)
    requires TeamConfig(root, l, team) == JNull
    ensures SummaryOf(root, l, team, now)
            == Some(Summary(team, JStr(""), JNull, JNum(0), [], TeamActivity(root, l, team, now)))
  {
  }

  /** `names.map(name => ...)`: one summary per name, in name order, unless
      one of them throws. */
  function SummariesOf(root: Entry, l: Layout, names: seq<string>, now: int): (r: Option<seq<Summary>>)
    ensures r.None? <==> exists i | 0 <= i < |names| :: SummaryOf(root, l, names[i], now).None?
    ensures r.Some? ==> |r.value| == |names|
    ensures r.Some? ==> forall i | 0 <= i < |names| :: Some(r.value[i]) == SummaryOf(root, l, names[i], now)
  {
    var xs := seq(|names|, i requires 0 <= i < |names| => SummaryOf(root, l, names[i], now));
    assert forall i | 0 <= i < |names| :: xs[i] == SummaryOf(root, l, names[i], now);
    AllSome(xs)
  }

  /** The comparator `(order[a.status] - order[b.status]) ||
      (b.lastActivity - a.lastActivity)` is not positive. */
  function SummaryLe(a: Summary, b: Summary): (r: bool)
    ensures Rank(a.activity.status) != Rank(b.activity.status) ==>
              (r <==> Rank(a.activity.status) < Rank(b.activity.status))
    ensures Rank(a.activity.status) == Rank(b.activity.status) ==>
              (r <==> a.activity.lastActivity >= b.activity.lastActivity)
  {
    var ra := Rank(a.activity.status);
    var rb := Rank(b.activity.status);
    ra < rb || (ra == rb && a.activity.lastActivity >= b.activity.lastActivity)
  }

  /** The body of `GET /api/teams`. */
  function TeamSummaries(root: Entry, l: Layout, now: int): (r: Option<seq<Summary>>)
    ensures r.None? <==> exists i | 0 <= i < |TeamNames(root, l)| :: SummaryOf(root, l, TeamNames(root, l)[i], now).None?
    ensures r.Some? ==> |r.value| == |TeamNames(root, l)|
    ensures r.Some? ==> forall s | s in r.value :: exists i | 0 <= i < |TeamNames(root, l)| ::
                          Some(s) == SummaryOf(root, l, TeamNames(root, l)[i], now)
  {
    match SummariesOf(root, l, TeamNames(root, l), now)
    case None => None
    case Some(ss) =>
      var r := SortBy(ss, SummaryLe);
      assert forall s | s in r :: s in multiset(ss);
      Some(r)
  }

  lemma SummaryLeIsPreorder(ss: seq<Summary>)
    ensures TotalPreorderOn(ss, SummaryLe)
  {
  }

  /** The request fails exactly when some team's config has members that
      cannot be mapped. */
  lemma TeamSummariesFail(root: Entry, l: Layout, now: int)
    ensures TeamSummaries(root, l, now).Some? <==>
              forall n | n in TeamNames(root, l) :: MembersOf(TeamConfig(root, l, n)).Some?
  {
    var names := TeamNames(root, l);
    if !(forall n | n in names :: MembersOf(TeamConfig(root, l, n)).Some?) {
      var n :| n in names && MembersOf(TeamConfig(root, l, n)).None?;
      var i :| 0 <= i < |names| && names[i] == n;
      assert SummaryOf(root, l, names[i], now).None?;
    }
  }

  /** The team list is a permutation of one summary per team directory,
      ordered by status rank and, within a rank, most recent first. */
  lemma TeamSummariesOrdered(root: Entry, l: Layout, now: int)
    ensures TeamSummaries(root, l, now).Some? ==>
              var r := TeamSummaries(root, l, now).value;
              && multiset(r) == multiset(SummariesOf(root, l, TeamNames(root, l), now).value)
              && |r| == |TeamNames(root, l)|
              && forall i, j | 0 <= i < j < |r| ::
                   && Rank(r[i].activity.status) <= Rank(r[j].activity.status)
                   && (r[i].activity.status == r[j].activity.status ==>
                         r[i].activity.lastActivity >= r[j].activity.lastActivity)
  {
    var ss := SummariesOf(root, l, TeamNames(root, l), now);
    if ss.Some? {
      assert TeamSummaries(root, l, now).value == SortBy(ss.value, SummaryLe);
      SummariesSorted(ss.value);
    }
  }

  /** Sorting summaries with the comparator orders them by status rank and,
      within a rank, most recent first. */
  lemma SummariesSorted(ss: seq<Summary>)
    ensures var r := SortBy(ss, SummaryLe);
            forall i, j | 0 <= i < j < |r| ::
              && Rank(r[i].activity.status) <= Rank(r[j].activity.status)
              && (r[i].activity.status == r[j].activity.status ==>
                    r[i].activity.lastActivity >= r[j].activity.lastActivity)
  {
    SummaryLeIsPreorder(ss);
    SortBySorted(ss, SummaryLe);
    var r := SortBy(ss, SummaryLe);
    assert SortedBy(r, SummaryLe);
  }

  // ---- the overview ----

  /** `tasks.filter(t => t.status === status).length` */
  function CountStatus(tasks: seq<Json>, status: string): (n: nat)
    ensures n <= |tasks|
    ensures n == 0 <==> forall t | t in tasks :: Prop(Some(t), "status") != Some(JStr(status))
  {
    if tasks == [] then 0
    else (if Prop(Some(tasks[0]), "status") == Some(JStr(status)) then 1 else 0) + CountStatus(tasks[1..], status)
  }

  lemma {:induction false} StatusCountsBounded(tasks: seq<Json>)
    ensures CountStatus(tasks, "completed") + CountStatus(tasks, "in_progress") + CountStatus(tasks, "pending")
            <= |tasks|
  {
    if tasks != [] {
      StatusCountsBounded(tasks[1..]);
    }
  }

  lemma {:induction false} CountStatusAppend(a: seq<Json>, b: seq<Json>, status: string)
    ensures CountStatus(a + b, status) == CountStatus(a, status) + CountStatus(b, status)
  {
    if a != [] {
      assert (a + b)[1..] == a[1..] + b;
      CountStatusAppend(a[1..], b, status);
    } else {
      assert a + b == b;
    }
  }

  /** A status count depends only on which tasks there are, not on their
      order: sorting the task list leaves the overview counters alone. */
  lemma {:induction false} CountStatusPermutation(a: seq<Json>, b: seq<Json>, status: string)
    requires multiset(a) == multiset(b)
    ensures CountStatus(a, status) == CountStatus(b, status)
    decreases |a|
  {
    if a == [] {
      assert |b| == |multiset(b)| == 0;
    } else {
      var x := a[0];
      assert x in multiset(b);
      var k :| 0 <= k < |b| && b[k] == x;
      var b' := b[..k] + b[k + 1..];
      RemoveOne(a, b, k);
      CountStatusPermutation(a[1..], b', status);
      assert b == b[..k] + [x] + b[k + 1..];
      CountStatusAppend(b[..k] + [x], b[k + 1..], status);
      CountStatusAppend(b[..k], [x], status);
      CountStatusAppend(b[..k], b[k + 1..], status);
    }
  }

  /** `!m.read`: a message whose `read` is missing or falsy. */
  predicate IsUnread(m: Json) {
    !Truthy(Prop(Some(m), "read"))
  }

  function CountUnread(msgs: seq<Json>): nat {
    if msgs == [] then 0 else (if IsUnread(msgs[0]) then 1 else 0) + CountUnread(msgs[1..])
  }

  /** Both reductions over `Object.values(inboxes)` complete: every inbox is
      an array (only arrays have `filter`) and no message is `null` (reading
      `null.read` throws). */
  predicate Countable(inboxes: seq<Json>) {
    forall i | 0 <= i < |inboxes| :: inboxes[i].JArr? && JNull !in inboxes[i].items
  }

  /** `reduce((s, msgs) => s + msgs.length, 0)` over countable inboxes. */
  function TotalMessages(inboxes: seq<Json>): (n: nat)
    requires Countable(inboxes)
    ensures n == 0 <==> forall i | 0 <= i < |inboxes| :: inboxes[i].items == []
  {
    if inboxes == [] then 0 else |inboxes[0].items| + TotalMessages(inboxes[1..])
  }

  /** `reduce((s, msgs) => s + msgs.filter(m => !m.read).length, 0)`: never
      more than all the messages. */
  function UnreadMessages(inboxes: seq<Json>): (n: nat)
    requires Countable(inboxes)
    ensures n <= TotalMessages(inboxes)
  {
    if inboxes == [] then 0
    else
      CountUnreadBounded(inboxes[0].items);
      CountUnread(inboxes[0].items) + UnreadMessages(inboxes[1..])
  }

  lemma {:induction false} CountUnreadBounded(msgs: seq<Json>)
    ensures CountUnread(msgs) <= |msgs|
  {
    if msgs != [] {
      CountUnreadBounded(msgs[1..]);
    }
  }

  /** The messages of all inboxes, inbox after inbox. */
  function AllMessages(inboxes: seq<Json>): seq<Json>
    requires Countable(inboxes)
  {
    if inboxes == [] then [] else inboxes[0].items + AllMessages(inboxes[1..])
  }

  lemma {:induction false} CountUnreadAppend(a: seq<Json>, b: seq<Json>)
    ensures CountUnread(a + b) == CountUnread(a) + CountUnread(b)
  {
    if a != [] {
      assert (a + b)[1..] == a[1..] + b;
      CountUnreadAppend(a[1..], b);
    } else {
      assert a + b == b;
    }
  }

  /** The two reductions count the messages of all inboxes together: the
      total is their number, the unread total the number of them whose
      `read` is falsy. */
  lemma {:induction false} MessagesFlat(inboxes: seq<Json>)
    requires Countable(inboxes)
    ensures TotalMessages(inboxes) == |AllMessages(inboxes)|
    ensures UnreadMessages(inboxes) == CountUnread(AllMessages(inboxes))
  {
    if inboxes != [] {
      assert forall i | 0 <= i < |inboxes| - 1 :: inboxes[1..][i] == inboxes[i + 1];
      MessagesFlat(inboxes[1..]);
      CountUnreadAppend(inboxes[0].items, AllMessages(inboxes[1..]));
    }
  }

  datatype OverviewEntry = OverviewEntry(name: string, description: Json, memberCount: Json,
                                         taskCount: nat, completedTasks: nat, inProgressTasks: nat,
                                         pendingTasks: nat, totalMessages: nat, unreadMessages: nat)

  /** The overview object built for one team name. */
  function OverviewOf(root: Entry, l: Layout, team: string): (r: Option<OverviewEntry>)
    ensures r.Some? <==> Countable(Values(InboxesAt(root, l, team)))
  {
    var cfg := TeamConfig(root, l, team);
    var tasks := TasksOf(root, l, team);
    var inboxes := Values(InboxesAt(root, l, team));
    if !Countable(inboxes) then None
    else
      Some(OverviewEntry(team, Description(cfg), MemberCount(cfg), |tasks|,
                         CountStatus(tasks, "completed"), CountStatus(tasks, "in_progress"),
                         CountStatus(tasks, "pending"), TotalMessages(inboxes), UnreadMessages(inboxes)))
  }

  /** The counters of an overview entry are consistent, and a team without a
      readable config shows an empty description and no members. */
  lemma OverviewEntryBounds(root: Entry, l: Layout, team: string)
    ensures OverviewOf(root, l, team).Some? ==>
              var o := OverviewOf(root, l, team).value;
              && o.name == team
              && o.taskCount == |TasksOf(root, l, team)|
              && o.completedTasks + o.inProgressTasks + o.pendingTasks <= o.taskCount
              && o.unreadMessages <= o.totalMessages
              && (TeamConfig(root, l, team) == JNull ==> o.memberCount == JNum(0) && o.description == JStr(""))
  {
    StatusCountsBounded(TasksOf(root, l, team));
  }

  /** Every field of an overview entry holds what the handler computes from
      the team's files: the status counters count the tasks `getTeamTasks`
      returns, and the message counters count the messages of all its
      inboxes. */
  lemma OverviewCounts(root: Entry, l: Layout, team: string)
    ensures OverviewOf(root, l, team).Some? ==>
              var o := OverviewOf(root, l, team).value;
              var cfg := TeamConfig(root, l, team);
              var tasks := TasksOf(root, l, team);
              var msgs := AllMessages(Values(InboxesAt(root, l, team)));
              && o.description == Or(Prop(Some(cfg), "description"), JStr(""))
              && o.memberCount == MemberCount(cfg)
              && o.taskCount == |tasks|
              && o.completedTasks == CountStatus(tasks, "completed")
              && o.inProgressTasks == CountStatus(tasks, "in_progress")
              && o.pendingTasks == CountStatus(tasks, "pending")
              && o.totalMessages == |msgs|
              && o.unreadMessages == CountUnread(msgs)
  {
    if OverviewOf(root, l, team).Some? {
      MessagesFlat(Values(InboxesAt(root, l, team)));
    }
  }

  /** `names.map(name => ...)` for the overview. */
  function OverviewsOf(root: Entry, l: Layout, names: seq<string>): (r: Option<seq<OverviewEntry>>)
    ensures r.None? <==> exists i | 0 <= i < |names| :: OverviewOf(root, l, names[i]).None?
    ensures r.Some? ==> |r.value| == |names|
    ensures r.Some? ==> forall i | 0 <= i < |names| :: Some(r.value[i]) == OverviewOf(root, l, names[i])
  {
    var xs := seq(|names|, i requires 0 <= i < |names| => OverviewOf(root, l, names[i]));
    assert forall i | 0 <= i < |names| :: xs[i] == OverviewOf(root, l, names[i]);
    AllSome(xs)
  }

  /** The body of `GET /api/overview`: one entry per team name, in name
      order. */
  function Overview(root: Entry, l: Layout): (r: Option<seq<OverviewEntry>>)
    ensures r.None? <==> exists i | 0 <= i < |TeamNames(root, l)| ::
                           !Countable(Values(InboxesAt(root, l, TeamNames(root, l)[i])))
    ensures r.Some? ==> |r.value| == |TeamNames(root, l)|
    ensures r.Some? ==> forall i | 0 <= i < |r.value| ::
                          r.value[i].name == TeamNames(root, l)[i]
                          && r.value[i].taskCount == |TasksOf(root, l, TeamNames(root, l)[i])|
  {
    OverviewsOf(root, l, TeamNames(root, l))
  }

  /** A task file `{"id": "3", "status": "completed"}` added to a team's task
      directory raises that team's completed counter by exactly one, as long
      as no other task's `id` makes the sort throw. */
  lemma {:induction false} CompletedTaskCounted(before: seq<Entry>, after: seq<Entry>, name: string, mtime: int)
    requires IsJsonName(name)
    requires forall t | t in CollectTasks(before + after) :: !TaskKey(t).TypeError?
    ensures var task := JObj(map["id" := JStr("3"), "status" := JStr("completed")]);
            var added := before + [File(name, mtime, Some(task))] + after;
            CountStatus(SortTasks(CollectTasks(added)), "completed")
            == CountStatus(SortTasks(CollectTasks(before + after)), "completed") + 1
  {
    var task := JObj(map["id" := JStr("3"), "status" := JStr("completed")]);
    var f := File(name, mtime, Some(task));
    var added := before + [f] + after;
    assert IsTask(task);
    assert TaskFile(f) == [task];
    assert CollectTasks([f]) == CollectTasks([f][..0]) + TaskFile(f);
    CollectTasksAppend(before, [f]);
    CollectTasksAppend(before + [f], after);
    CollectTasksAppend(before, after);
    var c := CollectTasks(before);
    var d := CollectTasks(after);
    assert CollectTasks(added) == c + [task] + d;
    assert TaskKey(task) == Num(3);
    assert !SortThrows(c + [task] + d);
    assert !SortThrows(c + d);
    CountStatusPermutation(SortTasks(c + [task] + d), c + [task] + d, "completed");
    CountStatusPermutation(SortTasks(c + d), c + d, "completed");
    CountStatusAppend(c + [task], d, "completed");
    CountStatusAppend(c, [task], "completed");
    CountStatusAppend(c, d, "completed");
  }
}
