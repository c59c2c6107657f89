/** `update_command`: fetch the latest yt-dlp next to the current binary, then
    either drop it (same known version) or move it over the binary. */
module Updater {
  import opened Text
  import opened Acquire
  import opened Events

  const UNKNOWN := "Unknown"
  const TMP_PATH := YTDLP_PATH + ".tmp"
  const RELEASE_URL := "https://github.com/yt-dlp/yt-dlp/releases/latest/download/yt-dlp_linux"

  function CurlArgv(): seq<string>
  {
    ["curl", "-L", RELEASE_URL, "-o", TMP_PATH]
  }

  /** A `--version` run: its exit code and output, or the exception starting it. */
  datatype Probe = Exited(code: int, stdout: string) | Failed(error: string)

  /** The version a probe reports: its stripped output after a clean exit. */
  function VersionFrom(probe: Probe): string
  {
    if probe.Exited? && probe.code == 0 then Strip(probe.stdout) else UNKNOWN
  }

  /** The download step: curl's exit code and error stream, or the exception
      `create_subprocess_exec` raised when curl could not be started. */
  datatype Fetch = Fetch(code: int, stderr: string) | Unstartable(error: string)

  datatype Decision = Keep | Install | Upgrade

  /** Lines 274-282: keep the installed binary only when the new version equals
      a known current one. */
  function Decide(current: string, latest: string): (d: Decision)
    ensures d == Keep <==> latest == current && current != UNKNOWN
    ensures d == Install <==> current == UNKNOWN
  {
    if latest == current && current != UNKNOWN then Keep
    else if current == UNKNOWN then Install
    else Upgrade
  }

  /** The events of one update, whether the binary was replaced, and whether
      the download succeeded (after which the temporary file is always gone). */
  datatype UpdateRun = UpdateRun(events: seq<Event>, replaced: bool, fetched: bool)

  function UpdateSteps(binaryPresent: bool, currentProbe: Probe, fetch: Fetch,
                       chmodError: Option<string>, newProbe: Probe): UpdateRun
  {
    var current := if binaryPresent then VersionFrom(currentProbe) else UNKNOWN;
    var probing := ProbeSpawns(binaryPresent, currentProbe);
    var rest := FetchSteps(current, fetch, chmodError, newProbe);
    UpdateRun(probing + [Say(FetchingUpdate)] + rest.events, rest.replaced, rest.fetched)
  }

  /** The `--version` run of the installed binary: tried only when the file
      exists, and a process only when it could be started. */
  function ProbeSpawns(binaryPresent: bool, currentProbe: Probe): seq<Event>
  {
    if binaryPresent && currentProbe.Exited? then [Spawn([YTDLP_PATH, "--version"])] else []
  }

  /** The steps after the download has been announced, given the version
      found installed. */
  function FetchSteps(current: string, fetch: Fetch, chmodError: Option<string>,
                      newProbe: Probe): UpdateRun
  {
    if fetch.Unstartable? then UpdateRun([], false, false)
    else if fetch.code != 0 then
      UpdateRun([Spawn(CurlArgv()), Say(UpdateFailed(FailureReason(fetch.stderr)))], false, false)
    else if chmodError.Some? then
      UpdateRun([Spawn(CurlArgv()), Say(SetupFailed(chmodError.value))], false, true)
    else
      var tried := [Spawn(CurlArgv()), Spawn([TMP_PATH, "--version"])];
      match newProbe
      case Failed(error) => UpdateRun([Spawn(CurlArgv()), Say(SetupFailed(error))], false, true)
      case Exited(_, _) =>
        var latest := VersionFrom(newProbe);
        match Decide(current, latest)
        case Keep => UpdateRun(tried + [Say(AlreadyCurrent(current))], false, true)
        case Install => UpdateRun(tried + [Say(Installed(latest))], true, true)
        case Upgrade => UpdateRun(tried + [Say(Upgraded(current, latest))], true, true)
  }

  /** An update is the probe of the installed binary, the announcement, and
      the steps of the download. */
  lemma UpdateThenFetch(binaryPresent: bool, currentProbe: Probe, fetch: Fetch,
                        chmodError: Option<string>, newProbe: Probe)
    ensures var current := if binaryPresent then VersionFrom(currentProbe) else UNKNOWN;
      var rest := FetchSteps(current, fetch, chmodError, newProbe);
      UpdateSteps(binaryPresent, currentProbe, fetch, chmodError, newProbe)
      == UpdateRun(ProbeSpawns(binaryPresent, currentProbe) + [Say(FetchingUpdate)] + rest.events, rest.replaced, rest.fetched)
  {
  }

  /** The binary is replaced exactly when the download and the setup succeed
      and the new version is not the known current one; so a failed download
      or setup never touches it, and a known version is never reinstalled over
      itself. Every run in which curl started ends with one reply about the
      outcome; when curl cannot be started the handler stops after announcing
      the download. */
  lemma UpdateOutcomes(binaryPresent: bool, currentProbe: Probe, fetch: Fetch,
                       chmodError: Option<string>, newProbe: Probe)
    ensures var run := UpdateSteps(binaryPresent, currentProbe, fetch, chmodError, newProbe);
      var current := if binaryPresent then VersionFrom(currentProbe) else UNKNOWN;
      && (run.fetched <==> fetch.Fetch? && fetch.code == 0)
      && (run.replaced <==> run.fetched && chmodError.None? && newProbe.Exited?
                            && !(VersionFrom(newProbe) == current && current != UNKNOWN))
      && |run.events| >= 1 && run.events[|run.events| - 1].Say?
      && (fetch.Fetch? && !run.fetched ==>
            run.events[|run.events| - 1] == Say(UpdateFailed(FailureReason(fetch.stderr))))
      && (fetch.Unstartable? ==>
            run.events == ProbeSpawns(binaryPresent, currentProbe) + [Say(FetchingUpdate)])
  {
    var current := if binaryPresent then VersionFrom(currentProbe) else UNKNOWN;
    var rest := FetchSteps(current, fetch, chmodError, newProbe);
    FetchOutcomes(current, fetch, chmodError, newProbe);
    var run := UpdateSteps(binaryPresent, currentProbe, fetch, chmodError, newProbe);
    if rest.events != [] {
      assert run.events[|run.events| - 1] == rest.events[|rest.events| - 1];
    }
  }

  /** The same, for the steps after the announcement. */
  lemma FetchOutcomes(current: string, fetch: Fetch, chmodError: Option<string>, newProbe: Probe)
    ensures var run := FetchSteps(current, fetch, chmodError, newProbe);
      && (run.fetched <==> fetch.Fetch? && fetch.code == 0)
      && (run.replaced <==> run.fetched && chmodError.None? && newProbe.Exited?
                            && !(VersionFrom(newProbe) == current && current != UNKNOWN))
      && (run.events == [] <==> fetch.Unstartable?)
      && (run.events != [] ==> run.events[|run.events| - 1].Say?)
      && (fetch.Fetch? && !run.fetched ==>
            run.events[|run.events| - 1] == Say(UpdateFailed(FailureReason(fetch.stderr))))
      && (Spawn(CurlArgv()) in run.events <==> fetch.Fetch?)
      && (Spawn([TMP_PATH, "--version"]) in run.events <==>
            run.fetched && chmodError.None? && newProbe.Exited?)
  {
  }

  /** The processes an update starts: the installed binary's `--version` run
      only when the file exists and could be started, curl whenever it could be
      started, and the downloaded binary's `--version` run only when it was
      downloaded, made executable and could be started. */
  lemma UpdateSpawns(binaryPresent: bool, currentProbe: Probe, fetch: Fetch,
                     chmodError: Option<string>, newProbe: Probe)
    ensures var run := UpdateSteps(binaryPresent, currentProbe, fetch, chmodError, newProbe);
      && (Spawn([YTDLP_PATH, "--version"]) in run.events <==> binaryPresent && currentProbe.Exited?)
      && (Spawn(CurlArgv()) in run.events <==> fetch.Fetch?)
      && (Spawn([TMP_PATH, "--version"]) in run.events <==>
            fetch.Fetch? && fetch.code == 0 && chmodError.None? && newProbe.Exited?)
  {
    var current := if binaryPresent then VersionFrom(currentProbe) else UNKNOWN;
    var rest := FetchSteps(current, fetch, chmodError, newProbe);
    FetchOutcomes(current, fetch, chmodError, newProbe);
    UpdateThenFetch(binaryPresent, currentProbe, fetch, chmodError, newProbe);
    var head := ProbeSpawns(binaryPresent, currentProbe) + [Say(FetchingUpdate)];
    assert |TMP_PATH| != |YTDLP_PATH|;
    assert Spawn([YTDLP_PATH, "--version"]) !in rest.events;
    assert Spawn(CurlArgv()) !in head && Spawn([TMP_PATH, "--version"]) !in head;
  }
}
