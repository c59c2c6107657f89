/** What the bot does to the outside world, in the order it does it: player
    commands sent over the socket, processes spawned, and replies to the chat. */
module Events {
  import opened Text
  import opened Channel
  import opened Library

  /** The chat replies; their wording and formatting are not modelled. */
  datatype Reply =
    | Unauthorized                 // reply to a message from a stranger
    | UnauthorizedAlert            // alert answering a stranger's button press
    | Resumed
    | Paused
    | ChannelError(error: string)  // "Error: {msg}" after a failed command
    | VolumeUsage
    | VolumeSet(up: bool, shown: string)
    | FileNotFound
    | Playing(name: string)
    | NotYouTube
    | Downloading
    | DownloadFailed(reason: string)
    | CannotLocate
    | Downloaded(name: string)
    | FetchingUpdate
    | UpdateFailed(reason: string)
    | AlreadyCurrent(version: string)
    | Installed(version: string)
    | Upgraded(previous: string, current: string)
    | SetupFailed(error: string)
    | NoFiles
    | Listing(keyboard: seq<Button>)
    | Acknowledged                 // `query.answer()` on a button press
    | ListOutdated
    | ClickFailed(error: string)

  datatype Event =
    | Command(cmd: seq<Arg>)       // a connection to the socket carrying `cmd`
    | Spawn(argv: seq<string>)     // a process started with this argument list
    | Say(reply: Reply)

  /** The connection `send_mpv_command` opens: only when the socket file exists. */
  function Attempt(socketExists: bool, cmd: seq<Arg>): seq<Event>
  {
    if socketExists then [Command(cmd)] else []
  }

  /** The player commands of a trace, in order. */
  function Commands(trace: seq<Event>): seq<seq<Arg>>
  {
    if trace == [] then []
    else (if trace[0].Command? then [trace[0].cmd] else []) + Commands(trace[1..])
  }

  /** The processes a trace spawns, in order. */
  function Spawns(trace: seq<Event>): seq<seq<string>>
  {
    if trace == [] then []
    else (if trace[0].Spawn? then [trace[0].argv] else []) + Spawns(trace[1..])
  }

  lemma {:induction false} CommandsAppend(a: seq<Event>, b: seq<Event>)
    ensures Commands(a + b) == Commands(a) + Commands(b)
    ensures Spawns(a + b) == Spawns(a) + Spawns(b)
    decreases |a|
  {
    if a == [] {
      assert a + b == b;
    } else {
      CommandsAppend(a[1..], b);
      CommandsCons(a[0], a[1..], b);
      assert a == [a[0]] + a[1..];
    }
  }

  /** One step of the induction above. */
  lemma CommandsCons(e: Event, t: seq<Event>, b: seq<Event>)
    requires Commands(t + b) == Commands(t) + Commands(b)
    requires Spawns(t + b) == Spawns(t) + Spawns(b)
    ensures Commands([e] + t + b) == Commands([e] + t) + Commands(b)
    ensures Spawns([e] + t + b) == Spawns([e] + t) + Spawns(b)
  {
    var ab := [e] + t + b;
    var a := [e] + t;
    assert ab[0] == e && ab[1..] == t + b;
    assert a[0] == e && a[1..] == t;
    var hc := if e.Command? then [e.cmd] else [];
    var hs := if e.Spawn? then [e.argv] else [];
    ConcatAssoc(hc, Commands(t), Commands(b));
    ConcatAssoc(hs, Spawns(t), Spawns(b));
  }

  /** Two commands sent over an existing socket, then one event. */
  lemma TwoAttempts(a: seq<Arg>, b: seq<Arg>, e: Event)
    ensures Attempt(true, a) + Attempt(true, b) + [e] == [Command(a), Command(b), e]
  {
  }

  lemma TwoCommandsThenReply(a: seq<Arg>, b: seq<Arg>, r: Reply)
    ensures Commands([Command(a), Command(b), Say(r)]) == [a, b]
    ensures Spawns([Command(a), Command(b), Say(r)]) == []
  {
    var t2 := [Say(r)];
    assert t2[1..] == [];
    assert Commands(t2) == [] && Spawns(t2) == [];
    var t1 := [Command(b)] + t2;
    assert t1[1..] == t2;
    assert Commands(t1) == [b] && Spawns(t1) == [];
    var t := [Command(a)] + t1;
    assert t == [Command(a), Command(b), Say(r)];
    assert t[1..] == t1;
  }

  /** Appending one event and then another in front of more is appending
      both at once. */
  lemma AppendTwo(a: seq<Event>, x: Event, y: Event, t: seq<Event>)
    ensures a + [x] + ([y] + t) == a + [x, y] + t
  {
    assert [x] + ([y] + t) == [x, y] + t;
    ConcatAssoc(a, [x], [y] + t);
    ConcatAssoc(a, [x, y], t);
  }
}
