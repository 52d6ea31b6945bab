# Agent teams dashboard backend — a Dafny model

This project models the core of the dashboard server in `backend/server.js`.
The server reads the JSON files that agent teams leave under two roots,
`teamsDir` (one directory per team, with `config.json` and `inboxes/`) and
`tasksDir` (one directory per team, one JSON file per task). It serves
aggregated views of them and pushes a message to every connected browser
when a file under either root changes.

The model covers:

- the filesystem as a tree of entries (`FileTree`): listings keep their
  order, files carry an mtime and their parsed JSON (or `None` when parsing
  fails), and `readJsonSafe` and `getFileMtime` are stated over that tree;
- the JavaScript operators the handlers rely on (`Js`): truthiness, `?.`,
  `||`, `.length`, `Number(...)`, and a `map` whose callback may throw;
- the activity classifier (`Activity`): `getLatestMtime` as the nested
  loop of the source, proved equal to the maximum of the mtimes it looks at,
  and `getTeamActivity` with its one-hour and one-day thresholds;
- the readers (`Readers`): `getTeamNames`, `getTeamConfig`, and
  `getTeamInboxes` and `getTeamTasks` as the loops of the source, each
  proved against a function of the listing (for tasks with a NaN id that
  function fixes one of the orders a sort may produce);
- `Array.prototype.sort` with a comparator, as a stable sort (`Sorting`);
- the two aggregated views (`Aggregate`): the sorted team list of
  `GET /api/teams` and the counters of `GET /api/overview`;
- change classification (`Watcher`): `parseChange` with its string-prefix
  test and `path.relative`, and the `teamName` the handler takes from the
  first path part;
- the broadcast hub (`Broadcast`): the `clients` set, the `connection`,
  `close` and `error` handlers, `broadcast`, and the watcher handler.

A handler expression that throws a TypeError is modelled as `None`: the
request fails as a whole. This happens when a team's `members` is truthy but
not an array, when a member is `null`, when an inbox value is not an array,
and when a message is `null`. A file directly in a root, such as
`teams/notes.json`, yields its own file name as `teamName`, since that name
is the first part of the relative path.

## Model

| member | source | states |
|---|---|---|
| `Js.Prop` | backend/server.js:132-134 | `v?.key` is defined exactly when `v` is an object that has `key`, and then it is that field's value |
| `Js.NumberOf` | backend/server.js:116 | `Number(...)`: throws a `TypeError` exactly when the value's text throws (an object with an own `toString` field, or an array holding one at any depth); a number is itself; an object or an array of two or more elements is never a number; a string that is not all digits is NaN |
| `Js.DecimalRoundTrip` | backend/server.js:116 | reading back the decimal digits of a natural number gives the number |
| `Js.NumberOfText` | backend/server.js:116 | an id written as digits, bare or in a one-element array, converts to its number |
| `Js.AllSome` | backend/server.js:127-144 | a `map` whose callback may throw throws exactly when one element throws; otherwise it yields every element's value, in order |
| `FileTree.ReadJsonSafe` | backend/server.js:17-23 | a missing path, a directory, or a file that fails to read or parse reads as `null`; a parsed file reads as its content |
| `FileTree.StatMtime` | backend/server.js:25-31 | a file or directory gives its mtime; a link whose stat fails gives 0 |
| `FileTree.Stem` | backend/server.js:97 | `path.basename(file, '.json')` of a bare name: the name is the stem followed by `.json`, so the name `.json` has the empty stem |
| `FileTree.DistinctStems` | backend/server.js:95-97 | two `.json` entries of one listing, whose names are distinct, have distinct stems |
| `Activity.MaxFromZero` | backend/server.js:35-55 | a scan that starts from 0 ends with a value at least 0, at least every mtime seen, and equal to 0 or to one of them |
| `Activity.LatestMtimeOf` | backend/server.js:34-56 | the latest mtime of a directory is 0 when it cannot be listed; otherwise it bounds every `.json` mtime the scan looks at and is 0 or one of them |
| `Activity.ScanSubdirectory` | backend/server.js:45-51 | the inner loop over one sub-directory continues the running maximum over its `.json` names |
| `Activity.ScanEntry` | backend/server.js:38-53 | one entry of the outer loop continues the running maximum over the mtimes it contributes |
| `Activity.LatestMtime` | backend/server.js:34-56 | the nested loop returns exactly `LatestMtimeOf` of the listing |
| `Activity.JsonStatsIgnoresDepth` | backend/server.js:46-50 | the scan of a sub-directory does not depend on what lies below its own entries |
| `Activity.ScanIgnoresDepth` | backend/server.js:33-56 | files more than one directory down never change the latest mtime |
| `Activity.StatusOf` | backend/server.js:66-72 | `active` exactly below one hour of age, `recent` exactly from one hour up to one day, `stale` exactly from one day on |
| `Activity.StatusRankMonotone` | backend/server.js:66-72 | with the latest write fixed, a later clock never gives a fresher status |
| `Activity.TeamActivity` | backend/server.js:58-75 | `lastActivity` is the larger of the two directories' latest mtimes; the ISO time is null exactly when it is 0; the status is that of its age |
| `Activity.NoJsonMeansStale` | backend/server.js:58-75 | a team with no `.json` file in reach has `lastActivity` 0, no ISO time, and is stale once the clock is past one day |
| `Readers.TeamNames` | backend/server.js:77-85 | no team names when the teams root cannot be listed; otherwise every name is that of a directory in the listing |
| `Readers.DirNamesExact` | backend/server.js:79-81 | a name is listed exactly when some entry of the listing is a directory with that name |
| `Readers.TeamNamesAreDirectories` | backend/server.js:77-85 | the team names are exactly the directories under the teams root; an unreadable root gives none |
| `Readers.TeamConfig` | backend/server.js:87-89 | a missing `config.json` reads as `null`; an existing one reads as its parsed content, or `null` when parsing fails |
| `Readers.Assign` | backend/server.js:99 | `obj[k] = v` makes `k` map to `v` and leaves every other key alone, adding at most one property and no other pair; assigning `__proto__` adds no property |
| `Readers.InboxesOf` | backend/server.js:94-101 | the object built from a listing has at most one property per file, and each property is a kept inbox's stem with that file's content, never `__proto__`; `InboxAbsent` and `InboxPresent` give the other direction, and `InboxesAt` is this object, or `{}` for a listing that fails |
| `Readers.Values` | backend/server.js:174-176 | `Object.values` lists the property values in property order |
| `Readers.GetTeamInboxes` | backend/server.js:91-105 | the loop builds exactly the object `InboxesAt` describes, and `{}` when the directory cannot be listed |
| `Readers.InboxAbsent` | backend/server.js:94-100 | an agent name that no truthy `.json` inbox has is not a key |
| `Readers.InboxPresent` | backend/server.js:94-100 | in a listing of distinct names, every truthy `.json` inbox is found under its stem with its own content, unless the stem is `__proto__` |
| `Readers.InboxProtoDropped` | backend/server.js:97-99 | an inbox file `__proto__.json` never becomes a property |
| `Readers.CollectTasks` | backend/server.js:112-115 | only values that are truthy and have a truthy `id` are collected |
| `Readers.CollectTasksAppend` | backend/server.js:112-115 | each file contributes its task independently of its siblings |
| `Readers.GetTeamTasks` | backend/server.js:107-121 | the loop and the sort return exactly `TasksOf`: `[]` when the directory cannot be listed or the sort throws, otherwise the collected tasks in sorted order |
| `Readers.TaskLeOrdersNumbers` | backend/server.js:116 | on tasks whose ids all convert to numbers, the id comparator is total and transitive |
| `Readers.TaskLe` | backend/server.js:116 | the comparator result `Number(a.id) - Number(b.id)` is not positive: the ids in numeric order when both are numbers, and always when either is NaN (a NaN result counts as 0) |
| `Readers.TasksOf` | backend/server.js:107-121 | what `getTeamTasks` returns: `[]` when the directory cannot be listed or the sort throws, otherwise a permutation of the collected tasks |
| `Readers.TasksSortedById` | backend/server.js:116 | unless the sort throws, the task list is a permutation of the collected tasks; when every id is a number it does not throw and is in ascending numeric id order |
| `Readers.SortTasks` | backend/server.js:116-119 | two or more tasks with an id whose `Number` throws make the sort throw into the `catch`, which yields no tasks; otherwise the result is a permutation of the tasks |
| `Readers.ThrowingIdEmptiesTasks` | backend/server.js:116-119 | a task whose `id` is an object with a `toString` field is kept when alone, and empties the list when there is a second task, in either order |
| `Sorting.SortBy` | backend/server.js:116 | sorting keeps exactly the same elements, each as often |
| `Sorting.InsertSorted` | backend/server.js:116 | inserting into a sorted list keeps it sorted under a total preorder |
| `Sorting.SortBySorted` | backend/server.js:147 | under a total preorder comparator the result is sorted |
| `Aggregate.ViewMembers` | backend/server.js:135-141 | the member list maps every member to its five fields and throws exactly when a member is `null` |
| `Aggregate.MembersOf` | backend/server.js:135-141 | a falsy `members` maps to no members; a truthy one that is not an array throws; an array maps exactly when it holds no `null`, and then to the five-field view of each member |
| `Aggregate.MemberCount` | backend/server.js:134 | `members?.length` of an array of members, and 0 when there is no `members` |
| `Aggregate.SummaryOf` | backend/server.js:127-144 | a team's summary exists exactly when its members can be mapped; it carries the team's name and activity, the description or `''`, `createdAt` or `null`, the member count and the mapped members |
| `Aggregate.SummaryWithoutConfig` | backend/server.js:130-143 | a team without a readable config gets an empty description, null `createdAt`, no members and a member count of 0 |
| `Aggregate.SummariesOf` | backend/server.js:127-144 | one summary per team name, in name order, unless one throws |
| `Aggregate.TeamSummaries` | backend/server.js:126-148 | the team list fails exactly when some team's summary throws; otherwise it has one entry per team name, each the summary of some team |
| `Aggregate.SummaryLeIsPreorder` | backend/server.js:146-147 | the status-then-recency comparator is a total preorder |
| `Aggregate.SummaryLe` | backend/server.js:146-147 | the comparator result is not positive: a lower status rank first, and within a rank the later `lastActivity` first |
| `Aggregate.TeamSummariesFail` | backend/server.js:126-149 | `GET /api/teams` fails exactly when some team's members cannot be mapped |
| `Aggregate.TeamSummariesOrdered` | backend/server.js:145-147 | the list is a permutation of the summaries, active before recent before stale, and most recent first within a status |
| `Aggregate.SummariesSorted` | backend/server.js:146-147 | sorting with the comparator puts lower status ranks first and, within a rank, higher `lastActivity` first |
| `Aggregate.CountStatus` | backend/server.js:183-185 | a status count never exceeds the task count and is 0 exactly when no task has that status |
| `Aggregate.StatusCountsBounded` | backend/server.js:182-185 | completed, in-progress and pending tasks together never exceed the task count |
| `Aggregate.CountStatusAppend` | backend/server.js:183-185 | a status count over two lists is the sum of the two counts |
| `Aggregate.CountStatusPermutation` | backend/server.js:183-185 | a status count does not depend on the order of the tasks |
| `Aggregate.CountUnreadBounded` | backend/server.js:176 | an inbox never has more unread messages than messages |
| `Aggregate.TotalMessages` | backend/server.js:174 | the message total is 0 exactly when every inbox is empty; `MessagesFlat` shows it is the number of all messages |
| `Aggregate.UnreadMessages` | backend/server.js:175-177 | the unread total never exceeds the message total; `MessagesFlat` shows it is the number of all messages whose `read` is falsy |
| `Aggregate.CountUnreadAppend` | backend/server.js:176 | unread counts add up over joined message lists |
| `Aggregate.MessagesFlat` | backend/server.js:173-177 | the two reductions equal the number of messages of all inboxes taken together and the number of those whose `read` is falsy |
| `Aggregate.OverviewOf` | backend/server.js:170-189 | a team's overview entry exists exactly when every inbox is an array with no `null` message; `OverviewCounts` states its fields |
| `Aggregate.OverviewEntryBounds` | backend/server.js:178-188 | an entry carries the team's name and task count, its status counters fit in the task count, unread fits in total, and a team without config shows an empty description and 0 members |
| `Aggregate.OverviewCounts` | backend/server.js:170-189 | every field of an entry is what the handler computes: description and member count from the config, the task count and the three status counts over the tasks `getTeamTasks` returns, and the total and unread counts over all inbox messages |
| `Aggregate.OverviewsOf` | backend/server.js:169-190 | one overview entry per team name, in name order, unless one throws |
| `Aggregate.Overview` | backend/server.js:169-190 | the overview fails exactly when some team's inboxes cannot be counted; otherwise it has one entry per team name, in order, with that team's name and task count |
| `Aggregate.CompletedTaskCounted` | backend/server.js:107-121 | adding a completed task file to a team's task directory raises the completed count over its tasks by exactly one, when no task's `id` makes the sort throw; by `OverviewCounts` that count is the entry's `completedTasks` |
| `Watcher.Split` | backend/server.js:242 | the first part of `split('/')` holds no separator and is the text before the first separator |
| `Watcher.SplitPrefix` | backend/server.js:242 | text without a separator in front of a string extends the first part only |
| `Watcher.SplitJoin` | backend/server.js:242 | splitting undoes joining parts that hold no separator |
| `Watcher.JoinSplit` | backend/server.js:242 | joining undoes splitting |
| `Watcher.JoinAppend` | backend/server.js:218 | joining two non-empty lists of segments puts one separator between them |
| `Watcher.SegmentsOfPath` | backend/server.js:216-221 | a path built from proper segments is normal and splits back into them |
| `Watcher.RelativeBelow` | backend/server.js:218 | `path.relative` from a root to a path below it is the part below |
| `Watcher.Relative` | backend/server.js:218-220 | resolving the result of `path.relative(from, to)` against `from`, as `path.resolve` does, gives back `to` |
| `Watcher.PathOfAppend` | backend/server.js:217 | the path of a root extended by segments starts with the root's path |
| `Watcher.ParseChange` | backend/server.js:216-221 | the area is `teams` exactly when the path starts with the teams root's text |
| `Watcher.TeamNameOf` | backend/server.js:242-248 | the first part of the relative path, or null, is null exactly for an empty relative path or one starting with a separator; otherwise it is the non-empty text before the first separator |
| `Watcher.TeamNameOfJoin` | backend/server.js:242-248 | the team name of a relative path is its first segment, and null for the root itself |
| `Watcher.NotPrefixExtended` | backend/server.js:217 | a string that is neither prefix of another stays no prefix of it when extended |
| `Watcher.ParseUnderTeams` | backend/server.js:216-219 | a path below the teams root is in area `teams`, with the path below the root as `file` |
| `Watcher.ParseUnderTasks` | backend/server.js:216-221 | with neither root a string prefix of the other, a path below the tasks root is in area `tasks`, with the path below that root as `file` |
| `Watcher.PrefixRootsMisclassified` | backend/server.js:216-221 | when the tasks root is the teams root with more text on its last segment, every path below the tasks root is put in area `teams`, one level up from the teams root |
| `Watcher.RelativeFromSibling` | backend/server.js:218 | `path.relative` from a root to a path below a sibling goes up once and down into the sibling |
| `Broadcast.ChangeMessage` | backend/server.js:240-252 | the message carries the event name and the clock reading, the area follows the prefix test, and the team name is the first part of the relative path, null when that is empty |
| `Broadcast.ChangeInTeam` | backend/server.js:240-252 | a change in a team's directory is announced for that team with the path below the teams root |
| `Broadcast.ChangeInTasks` | backend/server.js:240-252 | when neither root's path text is a prefix of the other's, a change in a team's task directory is announced for that team with the path below the tasks root |
| `Broadcast.Socket.Send` | backend/server.js:210 | `ws.send` appends the message to what the socket was handed and leaves its state alone |
| `Broadcast.Hub.constructor` | backend/server.js:198 | the set of clients starts empty |
| `Broadcast.Hub.Connect` | backend/server.js:200-202 | a connection joins the clients and is handed the `connected` greeting |
| `Broadcast.Hub.Disconnect` | backend/server.js:203-204 | `close` and `error` remove the socket from the clients and change nothing else |
| `Broadcast.Hub.Broadcast` | backend/server.js:207-212 | every client that is open is handed the message exactly once, the others nothing, and the client set and states are unchanged |
| `Broadcast.Hub.HandleChange` | backend/server.js:240-252 | a filesystem event hands its change message to every open client |
| `Broadcast.Hub.ConnectThenBroadcast` | backend/server.js:199-212 | a fresh open connection gets the greeting before any broadcast |
| `Broadcast.Hub.DisconnectThenBroadcast` | backend/server.js:203-212 | after `close` or `error`, broadcasts no longer reach the socket |

## Left out

- HTTP and Express plumbing (routing, CORS, static files, `res.json`, status codes): only the values the handlers compute are modelled; a throwing handler is `None`.
- The routes `GET /api/teams/:name`, `/api/teams/:name/inboxes` and `/api/tasks/:teamName` only pass `getTeamConfig`, `getTeamInboxes` and `getTeamTasks` through, so only those readers are modelled.
- Filesystem calls and `JSON.parse`: the filesystem is a fixed tree given as a parameter, and each file carries its already parsed content.
- Reading through symbolic links and other special entries: such an entry has an optional `stat` mtime and content but is never listed as a file or directory.
- Team names containing a separator, `.`, `..` or the empty name, which `path.join` would normalise: a team name is looked up as one path segment.
- Floating-point numbers: mtimes, clock readings and JSON numbers are integers.
- Js.NumberOf: of the strings `Number(...)` accepts, only digit strings are modelled; a string with a sign, spaces, a decimal point, an exponent, a hexadecimal prefix or `Infinity` counts as NaN. Arrays convert through their text as JavaScript does.
- Js.LengthProp: the `.length` of a string counts characters, where JavaScript counts UTF-16 code units; the two differ for characters outside the Basic Multilingual Plane when `members` is a string.
- `Date.now()`: the clock is a parameter `now`. One reading is used per request, while the server reads the clock once per team.
- `toISOString()` formatting and the rounded `ageHours` field: `lastActivityIso` holds the instant the string denotes.
- The order JavaScript gives to integer-like keys of an object: inbox objects keep insertion order.
- Readers.TasksSortedById: the order of tasks is stated only when every id converts to a number. A NaN comparator result leaves the order to the engine, which does not promise consistency.
- Readers.TasksOf: when some id is NaN the comparator is not consistent and ECMAScript leaves the sort order to the implementation; the model fixes the order its stable insertion sort produces, which need not be the engine's (for ids 3, 1, NaN, 2 the model gives 1, 3, NaN, 2, while V8's sort gives 1, 2, 3, NaN).
- Sorting.SortBy: `Array.prototype.sort` sorts in place; it is modelled as a stable sort on values.
- Watcher.ParseUnderTasks: requires that neither root's text is a prefix of the other's. The source's prefix test misclassifies such layouts, as `Watcher.PrefixRootsMisclassified` shows.
- Watcher.ParseChange: paths are normalised absolute POSIX paths with `/` as separator, as the watcher reports them. Windows separators are not modelled.
- The chokidar watcher options, its start-up checks and the `awaitWriteFinish` debounce: every event reaching the handler is modelled, not when it arrives.
- The WebSocket transport and JSON serialisation: a socket keeps the messages handed to `send` as values, and `readyState` changes made by the transport are not modelled.
- The order in which `broadcast` visits clients: JavaScript visits a `Set` in insertion order, while the model leaves the order open. What each client is handed does not depend on that order.
- `backend/config.js` is not part of this model: the two roots are the `Layout` parameter.
- Console output.
