/** The bot's handlers over its environment: the download directory, whether
    the player's socket and the yt-dlp files exist, and the log of everything
    the handlers did. Results of the outside world (socket exchanges, process
    outcomes, the directory after a download) are parameters. */
module Bot {
  import opened Text
  import opened Channel
  import opened Disk
  import opened Library
  import opened Events
  import opened Player
  import opened Acquire
  import opened Volume
  import opened Access
  import opened Updater

  const PAUSE_CMD: seq<Arg> := [Str("set_property"), Str("pause"), Flag(true)]

  /** The one thing `check_allowed` does besides deciding: a stranger gets an
      alert on a button press and a reply otherwise. */
  function Refusal(v: Verdict, viaButton: bool): seq<Event>
  {
    if v == Denied then [Say(if viaButton then UnauthorizedAlert else Unauthorized)] else []
  }

  /** A refused request leaves at most one reply and nothing else: no command
      and no process. */
  lemma RefusalIsOneReply(v: Verdict, viaButton: bool)
    ensures Commands(Refusal(v, viaButton)) == [] && Spawns(Refusal(v, viaButton)) == []
    ensures |Refusal(v, viaButton)| == (if v == Denied then 1 else 0)
  {
  }

  /** `change_volume` once the sender is allowed; `shown` is the volume read
      back after an accepted change. */
  function VolumeTrace(step: Option<int>, socketExists: bool, add: Exchange, shown: string): seq<Event>
  {
    match step
    case None => [Say(VolumeUsage)]
    case Some(d) =>
      var added := Send(socketExists, add);
      if added.ok then
        Attempt(socketExists, AddCmd(d)) + Attempt(socketExists, GET_VOLUME_CMD)
        + [Say(VolumeSet(d > 0, shown))]
      else Attempt(socketExists, AddCmd(d)) + [Say(ChannelError(added.text))]
  }

  /** An accepted `add` is followed by exactly one volume query, and the new
      volume is reported last. */
  lemma VolumeAccepted(step: int, socketExists: bool, add: Exchange, shown: string)
    requires Send(socketExists, add).ok
    ensures var t := VolumeTrace(Some(step), socketExists, add, shown);
      && Commands(t) == [AddCmd(step), GET_VOLUME_CMD] && Spawns(t) == []
      && t[|t| - 1] == Say(VolumeSet(step > 0, shown))
  {
    var said := VolumeSet(step > 0, shown);
    AcceptedTrace(step, socketExists, add, shown);
    TwoCommandsThenReply(AddCmd(step), GET_VOLUME_CMD, said);
  }

  lemma AcceptedTrace(step: int, socketExists: bool, add: Exchange, shown: string)
    requires Send(socketExists, add).ok
    ensures VolumeTrace(Some(step), socketExists, add, shown)
            == [Command(AddCmd(step)), Command(GET_VOLUME_CMD), Say(VolumeSet(step > 0, shown))]
  {
    AcceptedUnfold(step, socketExists, add, shown);
    TwoAttempts(AddCmd(step), GET_VOLUME_CMD, Say(VolumeSet(step > 0, shown)));
  }

  lemma AcceptedUnfold(step: int, socketExists: bool, add: Exchange, shown: string)
    requires Send(socketExists, add).ok
    ensures VolumeTrace(Some(step), socketExists, add, shown)
            == Attempt(true, AddCmd(step)) + Attempt(true, GET_VOLUME_CMD)
               + [Say(VolumeSet(step > 0, shown))]
  {
  }

  /** A failed `add` is reported with the channel's message and nothing
      follows it. */
  lemma VolumeFailed(step: int, socketExists: bool, add: Exchange, shown: string)
    requires !Send(socketExists, add).ok
    ensures var t := VolumeTrace(Some(step), socketExists, add, shown);
      && Commands(t) == (if socketExists then [AddCmd(step)] else []) && Spawns(t) == []
      && t[|t| - 1] == Say(ChannelError(Send(socketExists, add).text))
  {
    var said := [Say(ChannelError(Send(socketExists, add).text))];
    var a := Attempt(socketExists, AddCmd(step));
    assert said[1..] == [];
    assert a == [] || a[1..] == [];
    CommandsAppend(a, said);
  }

  /** A step `int()` rejects gets the usage reply and reaches no player. */
  lemma VolumeUsageOnly(socketExists: bool, add: Exchange, shown: string)
    ensures VolumeTrace(None, socketExists, add, shown) == [Say(VolumeUsage)]
    ensures Commands([Say(VolumeUsage)]) == [] && Spawns([Say(VolumeUsage)]) == []
  {
  }

  /** `handle_url` after the download has finished. */
  function DownloadTrace(dl: Download, socketExists: bool, load: Exchange): seq<Event>
  {
    if dl.code != 0 then [Say(DownloadFailed(FailureReason(dl.stderr)))]
    else match Locate(dl.after, dl.stdout)
      case NotLocated => [Say(CannotLocate)]
      case Located(path) =>
        [Say(Downloaded(Basename(path)))]
        + PlayTrace(PathExists(dl.after, path), socketExists, path, load)
  }

  /** A failed download reaches no player. A located file always exists, so it
      is announced and then played, never reported missing. */
  lemma DownloadOutcomes(dl: Download, socketExists: bool, load: Exchange)
    ensures var t := DownloadTrace(dl, socketExists, load);
      && (dl.code != 0 ==> Commands(t) == [] && Spawns(t) == []
                           && t == [Say(DownloadFailed(FailureReason(dl.stderr)))])
      && (dl.code == 0 && Locate(dl.after, dl.stdout).Located? ==>
            var path := Locate(dl.after, dl.stdout).path;
            t == [Say(Downloaded(Basename(path)))] + PlayTrace(true, socketExists, path, load))
  {
    if dl.code != 0 {
      FailedDownloadTrace(dl, socketExists, load);
    } else if Locate(dl.after, dl.stdout).Located? {
      LocatedDownloadTrace(dl, socketExists, load);
    }
  }

  lemma FailedDownloadTrace(dl: Download, socketExists: bool, load: Exchange)
    requires dl.code != 0
    ensures var t := DownloadTrace(dl, socketExists, load);
      && t == [Say(DownloadFailed(FailureReason(dl.stderr)))]
      && Commands(t) == [] && Spawns(t) == []
  {
    var t := [Say(DownloadFailed(FailureReason(dl.stderr)))];
    assert t[1..] == [];
  }

  lemma LocatedDownloadTrace(dl: Download, socketExists: bool, load: Exchange)
    requires dl.code == 0 && Locate(dl.after, dl.stdout).Located?
    ensures DownloadTrace(dl, socketExists, load)
            == [Say(Downloaded(Basename(Locate(dl.after, dl.stdout).path)))]
               + PlayTrace(true, socketExists, Locate(dl.after, dl.stdout).path, load)
  {
    LocateOutcomes(dl.after, dl.stdout);
    assert PathExists(dl.after, Locate(dl.after, dl.stdout).path);
  }

  /** `button_click` after the answer. */
  function ClickTrace(click: Click, dir: seq<Entry>, socketExists: bool, load: Exchange): seq<Event>
  {
    match click
    case Ignored => []
    case BadIndex(field) => [Say(ClickFailed(field))]
    case Outdated => [Say(ListOutdated)]
    case PlayPath(path) => PlayTrace(PathExists(dir, path), socketExists, path, load)
  }

  /** Pressing button `idx` of a listing of an unchanged directory plays that
      file, announced under the name the button showed. */
  lemma PressingListedButton(dir: seq<Entry>, idx: nat, socketExists: bool, load: Exchange)
    requires ValidDir(dir) && idx < |Shown(dir)|
    ensures var name := Shown(dir)[idx].name;
      && ClickTrace(Select(dir, CallbackData(idx)), dir, socketExists, load)
         == PlayTrace(true, socketExists, DownloadPath(name), load)
      && Basename(DownloadPath(name)) == name
  {
    var e := Shown(dir)[idx];
    ShownExists(dir, idx);
    SelectShown(dir, idx);
    assert ClickTrace(Select(dir, CallbackData(idx)), dir, socketExists, load)
        == PlayTrace(PathExists(dir, DownloadPath(e.name)), socketExists, DownloadPath(e.name), load);
    BasenameOfDownloadPath(e.name);
  }

  /** Every listed file is still in the directory it was listed from. */
  lemma ShownExists(dir: seq<Entry>, idx: nat)
    requires ValidDir(dir) && idx < |Shown(dir)|
    ensures Shown(dir)[idx] in dir
    ensures PathExists(dir, DownloadPath(Shown(dir)[idx].name))
  {
    SortedMp3s(dir);
    ShownPrefix(dir);
    EntryExists(dir, Shown(dir)[idx]);
  }

  class RainBot {
    /** ALLOWED_USER_IDS, read once at start. */
    const allowList: string
    /** DOWNLOAD_DIR, in listdir order. */
    var dir: seq<Entry>
    /** Whether MPV_SOCKET exists. */
    var socketExists: bool
    /** Whether YTDLP_PATH and YTDLP_PATH + ".tmp" exist. */
    var binaryPresent: bool
    var tmpPresent: bool
    /** Everything the handlers did, in order. */
    ghost var log: seq<Event>

    ghost predicate Valid()
      reads this
    {
      ValidDir(dir)
    }

    constructor (allowList: string, dir: seq<Entry>, socketExists: bool, binaryPresent: bool)
      requires ValidDir(dir)
      ensures Valid()
      ensures this.allowList == allowList && this.dir == dir
      ensures this.socketExists == socketExists && this.binaryPresent == binaryPresent
      ensures !tmpPresent && log == []
    {
      this.allowList := allowList;
      this.dir := dir;
      this.socketExists := socketExists;
      this.binaryPresent := binaryPresent;
      this.tmpPresent := false;
      this.log := [];
    }

    /** `check_allowed`. */
    method Gate(user: int, viaButton: bool) returns (pass: bool)
      modifies this`log
      ensures pass <==> Authorize(allowList, user) == Allowed
      ensures log == old(log) + Refusal(Authorize(allowList, user), viaButton)
    {
      var verdict := Authorize(allowList, user);
      pass := verdict == Allowed;
      if verdict == Denied {
        log := log + [Say(if viaButton then UnauthorizedAlert else Unauthorized)];
      }
    }

    /** `send_mpv_command`: connects only when the socket file exists. */
    method SendCommand(cmd: seq<Arg>, exchange: Exchange) returns (status: Status)
      modifies this`log
      ensures status == Send(socketExists, exchange)
      ensures log == old(log) + Attempt(socketExists, cmd)
    {
      if !socketExists {
        return Status(false, NOT_RUNNING);
      }
      log := log + [Command(cmd)];
      match exchange {
        case Answered(line) => status := Status(true, Strip(line));
        case Raised(error) => status := Status(false, error);
      }
    }

    /** `play_command` (`resume` is true) and `pause_command`. */
    method SetPause(user: int, resume: bool, exchange: Exchange)
      modifies this`log
      ensures var v := Authorize(allowList, user);
        var cmd := if resume then UNPAUSE_CMD else PAUSE_CMD;
        var status := Send(socketExists, exchange);
        && (v != Allowed ==> log == old(log) + Refusal(v, false))
        && (v == Allowed ==>
              log == old(log) + Attempt(socketExists, cmd)
                     + [Say(if !status.ok then ChannelError(status.text)
                            else if resume then Resumed else Paused)])
    {
      var pass := Gate(user, false);
      if !pass {
        return;
      }
      assert log == old(log);
      var status := SendCommand(if resume then UNPAUSE_CMD else PAUSE_CMD, exchange);
      if !status.ok {
        log := log + [Say(ChannelError(status.text))];
      } else {
        log := log + [Say(if resume then Resumed else Paused)];
      }
    }

    /** `change_volume`: `default` is the step of the command invoked, `text`
        the whole message and `args` its words after the command; `decode` is
        how `json.loads` reads the volume query's response. */
    method ChangeVolume(user: int, default: int, text: string, args: seq<string>,
                        add: Exchange, get: Exchange, decode: string -> JsonView)
      modifies this`log
      ensures var v := Authorize(allowList, user);
        && (v != Allowed ==> log == old(log) + Refusal(v, false))
        && (v == Allowed ==>
              log == old(log) + VolumeTrace(Step(default, text, args), socketExists, add,
                                         ShownVolume(decode(Send(socketExists, get).text))))
    {
      var pass := Gate(user, false);
      if !pass {
        return;
      }
      assert log == old(log);
      var step := Step(default, text, args);
      if step.None? {
        log := log + [Say(VolumeUsage)];
        return;
      }
      var amount := step.value;
      ghost var a := Attempt(socketExists, AddCmd(amount));
      var added := SendCommand(AddCmd(amount), add);
      if added.ok {
        ghost var b := Attempt(socketExists, GET_VOLUME_CMD);
        var queried := SendCommand(GET_VOLUME_CMD, get);
        var said := [Say(VolumeSet(amount > 0, ShownVolume(decode(queried.text))))];
        log := log + said;
        ConcatAssoc(old(log), a, b);
        ConcatAssoc(old(log), a + b, said);
      } else {
        var said := [Say(ChannelError(added.text))];
        log := log + said;
        ConcatAssoc(old(log), a, said);
      }
    }

    /** `volup_command`. */
    method VolumeUp(user: int, text: string, args: seq<string>,
                    add: Exchange, get: Exchange, decode: string -> JsonView)
      modifies this`log
      ensures var v := Authorize(allowList, user);
        && (v != Allowed ==> log == old(log) + Refusal(v, false))
        && (v == Allowed ==>
              log == old(log) + VolumeTrace(Step(VOLUP_STEP, text, args), socketExists, add,
                                         ShownVolume(decode(Send(socketExists, get).text))))
    {
      ChangeVolume(user, VOLUP_STEP, text, args, add, get, decode);
    }

    /** `voldown_command`. */
    method VolumeDown(user: int, text: string, args: seq<string>,
                      add: Exchange, get: Exchange, decode: string -> JsonView)
      modifies this`log
      ensures var v := Authorize(allowList, user);
        && (v != Allowed ==> log == old(log) + Refusal(v, false))
        && (v == Allowed ==>
              log == old(log) + VolumeTrace(Step(VOLDOWN_STEP, text, args), socketExists, add,
                                         ShownVolume(decode(Send(socketExists, get).text))))
    {
      ChangeVolume(user, VOLDOWN_STEP, text, args, add, get, decode);
    }

    /** `play_file` as intended: the three socket exchanges are the outcomes of
        `loadfile`, of setting the loop and of unpausing. */
    method PlayFile(path: string, load: Exchange, loop: Exchange, unpause: Exchange)
      modifies this`log
      ensures log == old(log) + PlayTrace(PathExists(dir, path), socketExists, path, load)
    {
      if !PathExists(dir, path) {
        log := log + [Say(FileNotFound)];
        return;
      }
      ghost var a := Attempt(socketExists, LoadCmd(path));
      var loaded := SendCommand(LoadCmd(path), load);
      var said := Say(Playing(Basename(path)));
      if loaded.ok {
        ghost var b := Attempt(socketExists, LOOP_CMD);
        ghost var c := Attempt(socketExists, UNPAUSE_CMD);
        var _ := SendCommand(LOOP_CMD, loop);
        var _ := SendCommand(UNPAUSE_CMD, unpause);
        log := log + [said];
        ConcatAssoc(old(log), a, b);
        ConcatAssoc(old(log), a + b, c);
        ConcatAssoc(old(log), a + b + c, [said]);
      } else {
        log := log + [Spawn(MpvArgv(path)), said];
        ConcatAssoc(old(log), a, [Spawn(MpvArgv(path)), said]);
      }
    }

    /** `handle_url`: `dl` is what the downloader did. */
    method HandleUrl(user: int, text: string, dl: Download,
                     load: Exchange, loop: Exchange, unpause: Exchange)
      requires Valid() && ValidDir(dl.after)
      modifies this`log, this`dir
      ensures Valid()
      ensures var v := Authorize(allowList, user); var url := Strip(text);
        && (v != Allowed ==> log == old(log) + Refusal(v, false) && dir == old(dir))
        && (v == Allowed && !LooksLikeYouTube(url) ==>
              log == old(log) + [Say(NotYouTube)] && dir == old(dir))
        && (v == Allowed && LooksLikeYouTube(url) && !binaryPresent ==>
              log == old(log) + [Say(Downloading)] && dir == old(dir))
        && (v == Allowed && LooksLikeYouTube(url) && binaryPresent ==>
              && dir == dl.after
              && log == old(log) + [Say(Downloading), Spawn(YtDlpArgv(url))]
                 + DownloadTrace(dl, socketExists, load))
    {
      var pass := Gate(user, false);
      if !pass {
        return;
      }
      assert log == old(log);
      ServeUrl(text, dl, load, loop, unpause);
    }

    /** `handle_url` past the access check. */
    method ServeUrl(text: string, dl: Download, load: Exchange, loop: Exchange, unpause: Exchange)
      requires ValidDir(dl.after)
      modifies this`log, this`dir
      ensures var url := Strip(text);
        && (!LooksLikeYouTube(url) ==> log == old(log) + [Say(NotYouTube)] && dir == old(dir))
        && (LooksLikeYouTube(url) && !binaryPresent ==>
              log == old(log) + [Say(Downloading)] && dir == old(dir))
        && (LooksLikeYouTube(url) && binaryPresent ==>
              && dir == dl.after
              && log == old(log) + [Say(Downloading), Spawn(YtDlpArgv(url))]
                 + DownloadTrace(dl, socketExists, load))
    {
      var url := Strip(text);
      if !LooksLikeYouTube(url) {
        log := log + [Say(NotYouTube)];
        return;
      }
      log := log + [Say(Downloading)];
      if !binaryPresent {
        // `create_subprocess_exec` raises and the handler ends here.
        return;
      }
      StartDownload(url, dl, load, loop, unpause);
      AppendTwo(old(log), Say(Downloading), Spawn(YtDlpArgv(url)), DownloadTrace(dl, socketExists, load));
    }

    /** Runs yt-dlp on `url`; `dl` is what it did. */
    method StartDownload(url: string, dl: Download, load: Exchange, loop: Exchange, unpause: Exchange)
      requires ValidDir(dl.after)
      modifies this`log, this`dir
      ensures dir == dl.after
      ensures log == old(log) + ([Spawn(YtDlpArgv(url))] + DownloadTrace(dl, socketExists, load))
    {
      ghost var spawned := [Spawn(YtDlpArgv(url))];
      log := log + spawned;
      dir := dl.after;
      FinishDownload(dl, load, loop, unpause);
      ConcatAssoc(old(log), spawned, DownloadTrace(dl, socketExists, load));
    }

    /** The rest of `handle_url` once the downloader has exited and left the
        download directory as `dl.after`. */
    method FinishDownload(dl: Download, load: Exchange, loop: Exchange, unpause: Exchange)
      requires dir == dl.after && ValidDir(dir)
      modifies this`log
      ensures log == old(log) + DownloadTrace(dl, socketExists, load)
    {
      if dl.code != 0 {
        log := log + [Say(DownloadFailed(FailureReason(dl.stderr)))];
        return;
      }
      match Locate(dir, dl.stdout) {
        case NotLocated =>
          log := log + [Say(CannotLocate)];
        case Located(path) =>
          PlayDownloaded(path, load, loop, unpause);
      }
    }

    /** Announces the located download, then plays it. */
    method PlayDownloaded(path: string, load: Exchange, loop: Exchange, unpause: Exchange)
      modifies this`log
      ensures log == old(log) + ([Say(Downloaded(Basename(path)))]
                                 + PlayTrace(PathExists(dir, path), socketExists, path, load))
    {
      ghost var announced := [Say(Downloaded(Basename(path)))];
      log := log + announced;
      PlayFile(path, load, loop, unpause);
      ConcatAssoc(old(log), announced, PlayTrace(PathExists(dir, path), socketExists, path, load));
    }

    /** `list_command`: returns the keyboard it sent (empty when it sent none). */
    method ListFiles(user: int) returns (keyboard: seq<Button>)
      modifies this`log
      ensures var v := Authorize(allowList, user);
        && (v != Allowed ==> log == old(log) + Refusal(v, false) && keyboard == [])
        && (v == Allowed && Mp3s(dir) == [] ==> log == old(log) + [Say(NoFiles)] && keyboard == [])
        && (v == Allowed && Mp3s(dir) != [] ==> log == old(log) + [Say(Listing(keyboard))])
      ensures |keyboard| == (if Authorize(allowList, user) == Allowed then |Shown(dir)| else 0)
      ensures forall i :: 0 <= i < |keyboard| ==>
        keyboard[i].text == Shown(dir)[i].name && keyboard[i].data == CallbackData(i)
    {
      keyboard := [];
      var pass := Gate(user, false);
      if !pass {
        return;
      }
      assert log == old(log);
      if Mp3s(dir) == [] {
        log := log + [Say(NoFiles)];
        return;
      }
      keyboard := BuildKeyboard(Names(Shown(dir)));
      log := log + [Say(Listing(keyboard))];
    }

    /** `button_click`: `data` is the pressed button's callback data. */
    method ButtonClick(user: int, data: string, load: Exchange, loop: Exchange, unpause: Exchange)
      modifies this`log
      ensures var v := Authorize(allowList, user);
        && (v != Allowed ==> log == old(log) + Refusal(v, true))
        && (v == Allowed ==>
              log == old(log) + [Say(Acknowledged)]
                     + ClickTrace(Select(dir, data), dir, socketExists, load))
    {
      var pass := Gate(user, true);
      if !pass {
        return;
      }
      assert log == old(log);
      log := log + [Say(Acknowledged)];
      match Select(dir, data) {
        case Ignored =>
        case BadIndex(field) =>
          log := log + [Say(ClickFailed(field))];
        case Outdated =>
          log := log + [Say(ListOutdated)];
        case PlayPath(path) =>
          PlayFile(path, load, loop, unpause);
      }
    }

    /** `update_command`: the probes are the `--version` runs of the current
        and of the downloaded binary, `fetch` is curl's run, `chmodError` the
        exception `os.chmod` raised, if any. */
    method Update(user: int, currentProbe: Probe, fetch: Fetch,
                  chmodError: Option<string>, newProbe: Probe)
      modifies this`log, this`binaryPresent, this`tmpPresent
      ensures var v := Authorize(allowList, user);
        var run := UpdateSteps(old(binaryPresent), currentProbe, fetch, chmodError, newProbe);
        && (v != Allowed ==>
              && log == old(log) + Refusal(v, false)
              && binaryPresent == old(binaryPresent) && tmpPresent == old(tmpPresent))
        && (v == Allowed ==>
              && log == old(log) + run.events
              && binaryPresent == (old(binaryPresent) || run.replaced)
              && tmpPresent == (if run.fetched then false else old(tmpPresent)))
    {
      var pass := Gate(user, false);
      if !pass {
        return;
      }
      assert log == old(log);
      Refresh(currentProbe, fetch, chmodError, newProbe);
    }

    /** The body of `update_command` past the access check. */
    method Refresh(currentProbe: Probe, fetch: Fetch, chmodError: Option<string>, newProbe: Probe)
      modifies this`log, this`binaryPresent, this`tmpPresent
      ensures var run := UpdateSteps(old(binaryPresent), currentProbe, fetch, chmodError, newProbe);
        && log == old(log) + run.events
        && binaryPresent == (old(binaryPresent) || run.replaced)
        && tmpPresent == (if run.fetched then false else old(tmpPresent))
    {
      var current := if binaryPresent then VersionFrom(currentProbe) else UNKNOWN;
      ghost var probing := ProbeSpawns(binaryPresent, currentProbe);
      ghost var rest := FetchSteps(current, fetch, chmodError, newProbe);
      UpdateThenFetch(binaryPresent, currentProbe, fetch, chmodError, newProbe);
      ghost var announced := probing + [Say(FetchingUpdate)];
      log := log + announced;
      FetchRelease(current, fetch, chmodError, newProbe);
      ConcatAssoc(old(log), announced, rest.events);
    }

    /** Downloads the new binary with curl, tries it, then keeps or installs it. */
    method FetchRelease(current: string, fetch: Fetch, chmodError: Option<string>, newProbe: Probe)
      modifies this`log, this`binaryPresent, this`tmpPresent
      ensures var run := FetchSteps(current, fetch, chmodError, newProbe);
        && log == old(log) + run.events
        && binaryPresent == (old(binaryPresent) || run.replaced)
        && tmpPresent == (if run.fetched then false else old(tmpPresent))
    {
      if fetch.Unstartable? {
        // `create_subprocess_exec` raises and the handler ends here.
        return;
      }
      if fetch.code != 0 {
        log := log + [Spawn(CurlArgv()), Say(UpdateFailed(FailureReason(fetch.stderr)))];
        return;
      }
      tmpPresent := true;
      if chmodError.Some? {
        tmpPresent := false;
        log := log + [Spawn(CurlArgv()), Say(SetupFailed(chmodError.value))];
        return;
      }
      if newProbe.Failed? {
        // The `.tmp` binary could not be started, so no process ran.
        tmpPresent := false;
        log := log + [Spawn(CurlArgv()), Say(SetupFailed(newProbe.error))];
        return;
      }
      ghost var tried := [Spawn(CurlArgv()), Spawn([TMP_PATH, "--version"])];
      var latest := VersionFrom(newProbe);
      var decision := Decide(current, latest);
      if decision == Keep {
        tmpPresent := false;
        log := log + (tried + [Say(AlreadyCurrent(current))]);
      } else {
        binaryPresent, tmpPresent := true, false;
        if decision == Install {
          log := log + (tried + [Say(Installed(latest))]);
        } else {
          log := log + (tried + [Say(Upgraded(current, latest))]);
        }
      }
    }
  }
}
