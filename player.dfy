/** `play_file`: reuse a listening player through the socket, or start one. */
module Player {
  import opened Text
  import opened Channel
  import opened Disk
  import opened Events

  function LoadCmd(path: string): seq<Arg>
  {
    [Str("loadfile"), Str(path), Str("replace")]
  }

  const LOOP_CMD: seq<Arg> := [Str("set_property"), Str("loop-file"), Str("inf")]
  const UNPAUSE_CMD: seq<Arg> := [Str("set_property"), Str("pause"), Flag(false)]

  /** The argument list of a new player, listening on the control socket. */
  function MpvArgv(path: string): seq<string>
  {
    ["mpv", "--input-ipc-server=" + MPV_SOCKET, "--no-terminal", "--loop=inf", path]
  }

  /** What `play_file` does as evidently intended: `present` says whether the
      file exists, `load` is the socket exchange of the `loadfile` command. The
      exchanges of the two follow-up commands do not matter: their results are
      ignored. */
  function PlayTrace(present: bool, socketExists: bool, path: string, load: Exchange): seq<Event>
  {
    if !present then [Say(FileNotFound)]
    else if Send(socketExists, load).ok then
      Attempt(socketExists, LoadCmd(path)) + Attempt(socketExists, LOOP_CMD)
      + Attempt(socketExists, UNPAUSE_CMD) + [Say(Playing(Basename(path)))]
    else
      Attempt(socketExists, LoadCmd(path)) + [Spawn(MpvArgv(path)), Say(Playing(Basename(path)))]
  }

  /** A missing file: one reply, no command, no process. */
  lemma PlayMissing(socketExists: bool, path: string, load: Exchange)
    ensures var t := PlayTrace(false, socketExists, path, load);
      Commands(t) == [] && Spawns(t) == [] && t == [Say(FileNotFound)]
  {
  }

  /** `loadfile` accepted: exactly `loadfile`, then loop, then unpause, nothing
      spawned, and the file announced last. */
  lemma PlayReuse(socketExists: bool, path: string, load: Exchange)
    requires Send(socketExists, load).ok
    ensures var t := PlayTrace(true, socketExists, path, load);
      && Commands(t) == [LoadCmd(path), LOOP_CMD, UNPAUSE_CMD] && Spawns(t) == []
      && t[|t| - 1] == Say(Playing(Basename(path)))
  {
    var t := PlayTrace(true, socketExists, path, load);
    var said := Say(Playing(Basename(path)));
    assert t == [Command(LoadCmd(path)), Command(LOOP_CMD), Command(UNPAUSE_CMD), said];
    ThreeCommandsThenReply(LoadCmd(path), LOOP_CMD, UNPAUSE_CMD, said.reply);
  }

  lemma ThreeCommandsThenReply(a: seq<Arg>, b: seq<Arg>, c: seq<Arg>, r: Reply)
    ensures Commands([Command(a), Command(b), Command(c), Say(r)]) == [a, b, c]
    ensures Spawns([Command(a), Command(b), Command(c), Say(r)]) == []
  {
    var t := [Command(a), Command(b), Command(c), Say(r)];
    var t3 := [Say(r)];
    assert t3[1..] == [];
    assert Commands(t3) == [] && Spawns(t3) == [];
    var t2 := [Command(c)] + t3;
    assert t2[1..] == t3;
    assert Commands(t2) == [c] && Spawns(t2) == [];
    var t1 := [Command(b)] + t2;
    assert t1[1..] == t2;
    assert Commands(t1) == [b, c] && Spawns(t1) == [];
    assert t == [Command(a)] + t1;
    assert t[1..] == t1;
  }

  /** `loadfile` failed: exactly one new player, with the socket, the
      no-terminal flag, the loop flag and the file in that order; no command
      but the failed `loadfile`; the file announced last. */
  lemma PlaySpawn(socketExists: bool, path: string, load: Exchange)
    requires !Send(socketExists, load).ok
    ensures var t := PlayTrace(true, socketExists, path, load);
      && Spawns(t) == [MpvArgv(path)]
      && Commands(t) == (if socketExists then [LoadCmd(path)] else [])
      && t[|t| - 1] == Say(Playing(Basename(path)))
  {
    var t := PlayTrace(true, socketExists, path, load);
    var rest := [Spawn(MpvArgv(path)), Say(Playing(Basename(path)))];
    assert rest[1..][1..] == [];
    CommandsAppend(Attempt(socketExists, LoadCmd(path)), rest);
  }

  // ---------------------------------------------------------------------------
  // As written

  /** The events of a run, and whether it ended in an uncaught exception. */
  datatype Run = Run(events: seq<Event>, raised: bool)

  /** `play_file` as written: the assignment `subprocess = await ...` makes
      `subprocess` a local name of the whole function, so evaluating
      `subprocess.DEVNULL` for the spawn raises UnboundLocalError before any
      process starts, and the "Playing" reply is never reached on that path. */
  function PlayRunAsWritten(present: bool, socketExists: bool, path: string, load: Exchange): Run
  {
    if !present then Run([Say(FileNotFound)], false)
    else if Send(socketExists, load).ok then
      Run(Attempt(socketExists, LoadCmd(path)) + Attempt(socketExists, LOOP_CMD)
          + Attempt(socketExists, UNPAUSE_CMD) + [Say(Playing(Basename(path)))], false)
    else
      Run(Attempt(socketExists, LoadCmd(path)), true)
  }

  /** As written, `play_file` never starts a player: it raises exactly when the
      file exists and `loadfile` fails, and otherwise agrees with the intended
      behaviour. */
  lemma AsWrittenNeverSpawns(present: bool, socketExists: bool, path: string, load: Exchange)
    ensures var run := PlayRunAsWritten(present, socketExists, path, load);
      && Spawns(run.events) == []
      && (run.raised <==> present && !Send(socketExists, load).ok)
      && (!run.raised ==> run.events == PlayTrace(present, socketExists, path, load))
  {
    var run := PlayRunAsWritten(present, socketExists, path, load);
    if !present {
      PlayMissing(socketExists, path, load);
    } else if Send(socketExists, load).ok {
      assert run.events == PlayTrace(true, socketExists, path, load);
      PlayReuse(socketExists, path, load);
    } else {
      var loadOnly := Attempt(socketExists, LoadCmd(path));
      assert run.events == loadOnly;
      assert loadOnly == [] || loadOnly[1..] == [];
    }
  }

  /** The input that shows it: a downloaded file and no player running. As
      written, nothing is played and an exception escapes; as intended, a new
      player is started on the file and the file is announced. */
  lemma NoPlayerRunningShowsIt(path: string)
    ensures PlayRunAsWritten(true, false, path, Raised("")).raised
    ensures Spawns(PlayRunAsWritten(true, false, path, Raised("")).events) == []
    ensures PlayTrace(true, false, path, Raised(""))
         == [Spawn(MpvArgv(path)), Say(Playing(Basename(path)))]
  {
  }
}
