/** The broadcast hub of backend/server.js: the `clients` set the WebSocket
    server adds a connection to and removes it from, the `connected`
    greeting, `broadcast`, and the watcher handler that turns a filesystem
    event into a `file_changed` message. Messages are kept as values; their
    JSON text and the transport are not modelled. */
module Broadcast {
  import opened Js
  import opened FileTree
  import opened Watcher

  /** The watcher events the server subscribes to. */
  datatype FsEvent = Change | Add | Unlink

  /** The `event` field a handler puts in its message: an `unlink` is
      reported as `remove`. */
  function EventName(e: FsEvent): string {
    match e
    case Change => "change"
    case Add => "add"
    case Unlink => "remove"
  }

  datatype Message =
    | Connected(timestamp: int)
    | FileChanged(event: string, area: Area, teamName: Option<string>, file: string, timestamp: int)

  /** `WebSocket.OPEN` */
  const Open: int := 1

  /** The message `handler(event)(filePath)` broadcasts at clock reading
      `now`. */
  function ChangeMessage(l: Layout, event: FsEvent, filePath: string, now: int): (m: Message)
    requires ValidLayout(l) && Normal(filePath)
    ensures m.FileChanged? && m.event == EventName(event) && m.timestamp == now
    ensures m.area == Teams <==> StartsWith(filePath, PathOf(l.teamsDir))
    ensures m.teamName.None? <==> m.file == "" || m.file[0] == Sep
    ensures m.teamName.Some? ==> m.teamName.value != "" && Sep !in m.teamName.value
                                 && StartsWith(m.file, m.teamName.value)
                                 && (|m.file| == |m.teamName.value| || m.file[|m.teamName.value|] == Sep)
  {
    var parsed := ParseChange(l, filePath);
    FileChanged(EventName(event), parsed.area, TeamNameOf(parsed.file), parsed.file, now)
  }

  /** A change to a file of a team's directory is announced for that team,
      with the file's path below the teams root. */
  lemma ChangeInTeam(l: Layout, event: FsEvent, team: string, rest: seq<string>, now: int)
    requires ValidLayout(l) && ProperSegment(team) && ProperSegments(rest)
    ensures Normal(PathOf(l.teamsDir + [team] + rest))
    ensures ChangeMessage(l, event, PathOf(l.teamsDir + [team] + rest), now)
              == FileChanged(EventName(event), Teams, Some(team), Join([team] + rest), now)
  {
    var below := [team] + rest;
    ProperCons(team, rest);
    assert l.teamsDir + [team] + rest == l.teamsDir + below;
    ParseUnderTeams(l, below);
    ChangeMessageParts(l, event, PathOf(l.teamsDir + below), now);
  }

  /** A change to a file of a team's task directory is announced for that
      team, with the file's path below the tasks root, provided neither root
      is a string prefix of the other. */
  lemma ChangeInTasks(l: Layout, event: FsEvent, team: string, rest: seq<string>, now: int)
    requires ValidLayout(l) && ProperSegment(team) && ProperSegments(rest)
    requires !StartsWith(PathOf(l.tasksDir), PathOf(l.teamsDir))
    requires !StartsWith(PathOf(l.teamsDir), PathOf(l.tasksDir))
    ensures Normal(PathOf(l.tasksDir + [team] + rest))
    ensures ChangeMessage(l, event, PathOf(l.tasksDir + [team] + rest), now)
              == FileChanged(EventName(event), Tasks, Some(team), Join([team] + rest), now)
  {
    var below := [team] + rest;
    ProperCons(team, rest);
    assert l.tasksDir + [team] + rest == l.tasksDir + below;
    ParseUnderTasks(l, below);
    ChangeMessageParts(l, event, PathOf(l.tasksDir + below), now);
  }

  lemma ProperCons(team: string, rest: seq<string>)
    requires ProperSegment(team) && ProperSegments(rest)
    ensures ProperSegments([team] + rest)
  {
    assert forall i | 1 <= i < |rest| + 1 :: ([team] + rest)[i] == rest[i - 1];
  }

  lemma ChangeMessageParts(l: Layout, event: FsEvent, filePath: string, now: int)
    requires ValidLayout(l) && Normal(filePath)
    ensures var c := ParseChange(l, filePath);
            ChangeMessage(l, event, filePath, now) == FileChanged(EventName(event), c.area, TeamNameOf(c.file), c.file, now)
  {
  }

  /** A connection: its `readyState` and the messages handed to its
      `send`, in order. */
  class Socket {
    var readyState: int
    var outbox: seq<Message>

    constructor(state: int)
      ensures readyState == state && outbox == []
    {
      readyState := state;
      outbox := [];
    }

    /** `ws.send(msg)` */
    method Send(msg: Message)
      modifies this
      ensures outbox == old(outbox) + [msg]
      ensures readyState == old(readyState)
    {
      outbox := outbox + [msg];
    }
  }

  class Hub {
    /** `clients` */
    var clients: set<Socket>

    constructor()
      ensures clients == {}
    {
      clients := {};
    }

    /** The `connection` handler: registers the socket and greets it. */
    method Connect(ws: Socket, now: int)
      modifies this, ws
      ensures clients == old(clients) + {ws}
      ensures ws.outbox == old(ws.outbox) + [Connected(now)]
      ensures ws.readyState == old(ws.readyState)
    {
      clients := clients + {ws};
      ws.Send(Connected(now));
    }

    /** The `close` and `error` handlers of a socket: both forget it. */
    method Disconnect(ws: Socket)
      modifies this
      ensures clients == old(clients) - {ws}
    {
      clients := clients - {ws};
    }

    /** `broadcast(data)`: every registered socket that is open receives
        the message once; the others receive nothing. */
    method Broadcast(msg: Message)
      modifies clients
      ensures forall c | c in clients :: c.readyState == old(c.readyState)
      ensures forall c | c in clients :: c.outbox == old(c.outbox) + (if old(c.readyState) == Open then [msg] else [])
    {
      var pending := clients;
      while pending != {}
        invariant pending <= clients
        invariant forall c | c in clients :: c.readyState == old(c.readyState)
        invariant forall c | c in pending :: c.outbox == old(c.outbox)
        invariant forall c | c in clients && c !in pending ::
                    c.outbox == old(c.outbox) + (if old(c.readyState) == Open then [msg] else [])
        decreases pending
      {
        var ws :| ws in pending;
        if ws.readyState == Open {
          ws.Send(msg);
        }
        pending := pending - {ws};
      }
    }

    /** `handler(event)(filePath)`: broadcasts the change message. */
    method HandleChange(l: Layout, event: FsEvent, filePath: string, now: int)
      requires ValidLayout(l) && Normal(filePath)
      modifies clients
      ensures forall c | c in clients :: c.readyState == old(c.readyState)
      ensures forall c | c in clients ::
                c.outbox == old(c.outbox) + (if old(c.readyState) == Open then [ChangeMessage(l, event, filePath, now)] else [])
    {
      Broadcast(ChangeMessage(l, event, filePath, now));
    }

    /** A socket that connects to a hub and then sees a broadcast while
        open has the greeting first and the broadcast second. */
    method ConnectThenBroadcast(ws: Socket, now: int, msg: Message)
      requires ws.readyState == Open && ws.outbox == []
      modifies this, ws, clients
      ensures ws in clients
      ensures ws.outbox == [Connected(now), msg]
    {
      Connect(ws, now);
      Broadcast(msg);
    }

    /** Once a socket has closed, broadcasts no longer reach it, whatever its
        `readyState`. */
    method DisconnectThenBroadcast(ws: Socket, msg: Message)
      modifies this, clients
      ensures ws !in clients
      ensures ws.outbox == old(ws.outbox) && ws.readyState == old(ws.readyState)
    {
      Disconnect(ws);
      Broadcast(msg);
    }
  }
}
