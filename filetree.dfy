/** The on-disk state the server reads, as a tree of directory entries in
    the order a directory listing returns them, and the helpers of
    backend/server.js that touch it: `readJsonSafe`, `getFileMtime` and the
    path joins onto the teams and tasks roots. */
module FileTree {
  import opened Js

  /** One directory entry. `content` is what `JSON.parse` makes of the file's
      text, `None` when reading or parsing fails. A `Special` entry is one a
      listing reports as neither a regular file nor a directory (a symbolic
      link, say); `stat` is what following it gives, `None` when stat fails. */
  datatype Entry =
    | File(name: string, mtime: int, content: Option<Json>)
    | Dir(name: string, mtime: int, entries: seq<Entry>)
    | Special(name: string, stat: Option<int>, content: Option<Json>)

  /** Where the two roots live, as path segments from the filesystem root. */
  datatype Layout = Layout(teamsDir: seq<string>, tasksDir: seq<string>)

  function TeamDir(l: Layout, team: string): seq<string> {
    l.teamsDir + [team]
  }

  function TaskDir(l: Layout, team: string): seq<string> {
    l.tasksDir + [team]
  }

  function ConfigPath(l: Layout, team: string): seq<string> {
    l.teamsDir + [team, "config.json"]
  }

  function InboxDir(l: Layout, team: string): seq<string> {
    l.teamsDir + [team, "inboxes"]
  }

  /** The entry of a listing with the given name. */
  function Lookup(es: seq<Entry>, name: string): (r: Option<Entry>)
    ensures r.Some? ==> r.value in es && r.value.name == name
    ensures r.None? ==> forall e | e in es :: e.name != name
  {
    if es == [] then None
    else if es[0].name == name then Some(es[0])
    else Lookup(es[1..], name)
  }

  /** The entry a path of segments leads to from `root`. */
  function Resolve(root: Entry, path: seq<string>): Option<Entry>
    decreases |path|
  {
    if path == [] then Some(root)
    else
      match root
      case Dir(_, _, es) =>
        (match Lookup(es, path[0])
         case Some(child) => Resolve(child, path[1..])
         case None => None)
      case _ => None
  }

  /** `fs.readdirSync(path)`: the listing, or `None` where it throws. */
  function ReadDir(root: Entry, path: seq<string>): Option<seq<Entry>> {
    match Resolve(root, path)
    case Some(Dir(_, _, es)) => Some(es)
    case _ => None
  }

  /** `readJsonSafe`: the parsed content, or `null` when the entry is missing,
      is a directory, or does not parse. */
  function ReadJsonSafe(e: Option<Entry>): (j: Json)
    ensures e.None? || e.value.Dir? ==> j == JNull
    ensures e.Some? && !e.value.Dir? && e.value.content.Some? ==> j == e.value.content.value
    ensures e.Some? && !e.value.Dir? && e.value.content.None? ==> j == JNull
  {
    match e
    case Some(File(_, _, Some(j))) => j
    case Some(Special(_, _, Some(j))) => j
    case _ => JNull
  }

  /** `getFileMtime` of an existing entry: stat follows links, and reports 0
      where it fails. */
  function StatMtime(e: Entry): (t: int)
    ensures e.File? || e.Dir? ==> t == e.mtime
    ensures e.Special? ==> t == if e.stat.Some? then e.stat.value else 0
  {
    match e
    case File(_, t, _) => t
    case Dir(_, t, _) => t
    case Special(_, s, _) => s.GetOr(0)
  }

  predicate IsJsonName(name: string) {
    EndsWith(name, ".json")
  }

  /** `path.basename(name, '.json')` of a bare name ending in `.json`: the
      suffix is dropped, and the name `.json` itself has the empty stem. */
  function Stem(name: string): (stem: string)
    requires IsJsonName(name)
    ensures name == stem + ".json"
  {
    name[..|name| - 5]
  }

  /** Names in one listing are distinct, as a directory guarantees. */
  predicate DistinctNames(es: seq<Entry>) {
    forall i, j | 0 <= i < j < |es| :: es[i].name != es[j].name
  }

  /** Two `.json` names with the same stem are the same name, so the entries
      of one listing have distinct stems. */
  lemma DistinctStems(es: seq<Entry>, i: nat, j: nat)
    requires DistinctNames(es) && i < |es| && j < |es| && i != j
    requires IsJsonName(es[i].name) && IsJsonName(es[j].name)
    ensures Stem(es[i].name) != Stem(es[j].name)
  {
  }
}
