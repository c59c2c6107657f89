# rainbot in Dafny

rainbot is a Telegram bot that plays YouTube audio on the machine it runs on.
Allowed users send it a YouTube link: it downloads the audio as an mp3 with
yt-dlp and plays it in mpv. It can also pause, resume and change the volume
of the player, list the downloaded files as buttons, and update its yt-dlp
binary. The player is driven through mpv's JSON IPC socket. When no player
answers, a new mpv process is started on that socket.

This project models the handlers of `rainbot.py` and proves what they do:

- the access check, the socket command and its JSON line, and the volume
  step;
- how a file is played and how the downloaded file is located;
- the library listing and its buttons;
- the yt-dlp self-update.

The modules follow the program:

- `Text`: the Python string behaviour the bot relies on. This covers
  `strip`, `split`, `in`, `startswith`/`endswith`, `int()` and `str()`.
- `Channel`: `send_mpv_command` and the exact `json.dumps` wire form.
- `Disk`: the download directory, a listing of entries with their modification
  and creation times.
- `Library`: `list_command` and the index lookup of `button_click`.
- `Events`: what the bot does to the world. Events are player commands sent,
  processes spawned and chat replies.
- `Player`: `play_file`, both as evidently intended and as written.
- `Acquire`: the download steps of `handle_url`.
- `Volume`: `change_volume`.
- `Access`: `check_allowed`.
- `Updater`: `update_command`.
- `Bot`: the class `RainBot` holds the state the handlers change. That state
  is the directory, whether the player's socket exists, whether the yt-dlp
  binary and its `.tmp` download exist, and a ghost log of events. Each
  handler is a method whose contract gives the new log and state in terms of
  the functions above.

The outside world enters as parameters. These are:

- the outcome of each socket exchange: a response line or an exception text;
- the exit codes and outputs of yt-dlp, curl and the `--version` probes;
- whether the yt-dlp binary exists when a download starts, and whether curl
  could be started at all;
- the directory listing once a download has finished;
- the `os.chmod` error;
- how `json.loads` reads the volume response.

Two behaviours of the code are modelled as written, although they may look
unintended:

- An `ALLOWED_USER_IDS` that is non-empty but holds no id (`" "`, `","`)
  denies everybody. Only a truly empty value allows all
  (`Access.BlankListDeniesAll`). The access rule "an empty allow-list
  allows everyone" therefore applies to the empty string only. The model
  follows the code.
- The volume sign is decided by searching the whole message text. So
  `/voldown 5 volup` raises the volume (`Volume.VoldownMentioningVolup`).

An allow-list entry that is not an integer makes `int()` raise inside
`check_allowed`. The handler then stops without a reply. This is the verdict
`Misconfigured`.

## Model

| member | source | states |
|---|---|---|
| Text.Strip | rainbot.py:177 | the stripped text has no whitespace (in Python's `isspace` sense) at either end |
| Text.TrimStart | rainbot.py:177 | dropping leading whitespace gives a suffix whose removed prefix is all whitespace and which does not start with whitespace |
| Text.TrimEnd | rainbot.py:177 | dropping trailing whitespace gives a prefix whose removed suffix is all whitespace and which does not end with whitespace |
| Text.StripEmpty | rainbot.py:203-204 | stripping leaves nothing exactly when the text is all whitespace |
| Text.StripKeepsOut | rainbot.py:208-209 | stripping never introduces a character, such as a newline, that was not there |
| Text.StripKeeps | rainbot.py:209 | text with no whitespace at its ends is left unchanged by strip |
| Text.Split | rainbot.py:32 | `split` returns at least one field and no field holds the separator |
| Text.JoinSplit | rainbot.py:32 | joining the fields of `split` with the separator gives the text back |
| Text.SplitJoin | rainbot.py:32 | splitting a join of separator-free fields gives the fields back |
| Text.SplitNoSep | rainbot.py:320 | text without the separator splits into itself alone |
| Text.SplitField | rainbot.py:320 | a field followed by the separator is the first field of the split |
| Text.LastField | rainbot.py:204 | the last field of `split` is the text after the last separator, or the whole text if there is none |
| Text.NatToString | rainbot.py:306 | `str()` of a natural number is a non-empty string of decimal digits |
| Text.DigitsValueOfNat | rainbot.py:306 | the digits `str()` writes for a natural number have that number as their value |
| Text.ParseDigits | rainbot.py:109 | `int()` of a non-empty run of decimal digits is their value |
| Text.ParseMinusDigits | rainbot.py:109 | `int()` of a minus sign followed by decimal digits is minus their value |
| Text.ParseIntToString | rainbot.py:320 | `int(str(n)) == n` for every integer (`ParseInt` is `int()` on text, `None` where it raises) |
| Text.NatStringHasNo | rainbot.py:306 | the decimal digits of an index contain no non-digit, in particular no ':' |
| Text.DigitChar | rainbot.py:306 | each digit value has a decimal digit character that reads back as that value |
| Channel.Send | rainbot.py:67-85 | success exactly when the socket file exists and the exchange answered; a missing socket gives "MPV is not running."; an exception passes its text through; success carries the stripped response line |
| Channel.HexDigit | rainbot.py:74 | a hex digit is a printable ASCII character |
| Channel.Hex4 | rainbot.py:74 | a `\uXXXX` escape has exactly four lower-case hex digits |
| Channel.EscapeChar | rainbot.py:74 | `json.dumps` with `ensure_ascii` writes every character as printable ASCII; a newline and a quote are escaped with a backslash |
| Channel.EscapeString | rainbot.py:74 | an escaped string is printable ASCII, so it holds no raw newline |
| Channel.ArgPrintable | rainbot.py:74 | each encoded command argument (string, number or boolean) is printable ASCII |
| Channel.ItemsPrintable | rainbot.py:74 | the encoded argument list is printable ASCII |
| Channel.PayloadIsOneLine | rainbot.py:74-75 | the payload is one printable-ASCII JSON line ending in its only newline |
| Disk.Mp3s | rainbot.py:292 | the filter keeps exactly the `.mp3` entries of the listing |
| Disk.Mp3sAppend | rainbot.py:292 | the filter keeps listdir order: filtering two consecutive pieces of a listing gives the two filtered pieces in that order |
| Disk.Mp3sSingle | rainbot.py:292 | one entry is kept exactly when its name ends in `.mp3` |
| Disk.Mp3sValid | rainbot.py:292 | the filtered listing still has distinct, well-formed names |
| Disk.BasenameOfDownloadPath | rainbot.py:325 | the basename of a joined download path is the entry name |
| Disk.EntryExists | rainbot.py:213 | every listed entry exists under its joined path |
| Library.ConsNewestFirst | rainbot.py:298 | an entry no older than the head of a newest-first list can go in front of it |
| Library.Insert | rainbot.py:298 | inserting into a newest-first list keeps it newest-first and adds exactly the element |
| Library.SortByMtime | rainbot.py:298 | the sort is a permutation and orders by modification time, newest first |
| Library.InsertWithMtime | rainbot.py:298 | insertion puts the new entry ahead of the entries with its modification time and keeps their order |
| Library.SortStable | rainbot.py:298 | the sort is stable: files with equal modification times keep their listing order |
| Library.Names | rainbot.py:304-306 | the button labels are the file names, position by position |
| Library.SortedMp3s | rainbot.py:292-298 | the sorted files are exactly the `.mp3` entries of the directory, as many as there are |
| Library.ShownPrefix | rainbot.py:298-301 | the listing (`Shown`) is the first min(n, 20) sorted files, newest first |
| Library.UnshownAreOlder | rainbot.py:298-301 | no `.mp3` file left off the listing is newer than a file on it |
| Library.InsertDistinct | rainbot.py:298 | inserting a newly named entry keeps the names distinct |
| Library.SortDistinct | rainbot.py:298 | sorting keeps the names distinct |
| Library.ShownDistinct | rainbot.py:292-301 | in a real directory listing, the files of the listing have distinct names, so distinct buttons name distinct files |
| Library.ShownAreNewestMp3s | rainbot.py:292-301 | the listing shows min(n, 20) `.mp3` files of the directory, newest first, and no unshown file is newer than a shown one |
| Library.BuildKeyboard | rainbot.py:303-306 | button i is labelled with the i-th file name and carries the data `play:i` |
| Library.SelectShown | rainbot.py:317-326 | `Select`, the dispatch on the pressed data, turns button i of a listing of the same directory into playing the i-th listed file |
| Library.PickPlaysListedFile | rainbot.py:321-326 | an index that passes the bounds check of `Pick` names an existing `.mp3` file of the download directory |
| Library.SelectPlaysListedFile | rainbot.py:318-330 | whatever button data is pressed, a played path is an existing `.mp3` of the download directory |
| Player.PlayMissing | rainbot.py:143-145 | a missing file gets one error reply, with no command and no process (`PlayTrace` is the intended `play_file`) |
| Player.PlayReuse | rainbot.py:148-154 | when `loadfile` succeeds, exactly loadfile, loop and unpause are sent, nothing is spawned, and the file is announced last |
| Player.PlaySpawn | rainbot.py:155-172 | when `loadfile` fails, exactly one mpv is spawned with the socket, no-terminal and loop flags and the file, and the file is announced last |
| Player.AsWrittenNeverSpawns | rainbot.py:166-170 | as written (`PlayRunAsWritten`), no player is ever spawned; the call raises exactly when the file exists and `loadfile` fails, and otherwise matches the intended behaviour |
| Player.NoPlayerRunningShowsIt | rainbot.py:166-168 | with a file present and no socket, the code as written raises without playing, while the intended code spawns mpv and announces the file |
| Acquire.FailureReasonIsLastLine | rainbot.py:202-206 | the failure reason is "Unknown error" for all-whitespace stderr, and otherwise the last line of the stripped stderr: a newline-free tail preceded by a newline unless it is the whole text |
| Acquire.ReasonOfStripped | rainbot.py:203-204 | the same, stated on the stripped error text |
| Acquire.CandidateIsLastLine | rainbot.py:208-209 | the candidate path is the stripped last line of the stripped output: a newline-free tail of it, preceded by a newline unless it is the whole output |
| Acquire.CandidateIsOneLine | rainbot.py:208-209 | the candidate path is a single line |
| Acquire.NewestIndex | rainbot.py:217 | `max(key=getctime)` picks an element of greatest creation time, and the first such one |
| Acquire.LocateNothing | rainbot.py:211-216 | nothing is located exactly when the printed path does not exist and the directory has no `.mp3` |
| Acquire.NewestMp3 | rainbot.py:213-217 | the fallback file is an `.mp3` of the directory and none is newer by creation time |
| Acquire.LocateFallback | rainbot.py:211-217 | when the printed path does not exist, the located file exists and is an `.mp3` of the directory with the greatest creation time |
| Acquire.LocateOutcomes | rainbot.py:208-217 | an existing printed path wins; otherwise the newest `.mp3` by creation time is used; nothing is located exactly when neither exists; a located file always exists |
| Volume.Step | rainbot.py:107-118 | no argument gives the command's default; an argument gives the usage reply exactly when `int()` rejects it |
| Volume.VolupStep | rainbot.py:114-115 | a message mentioning "volup" applies the absolute value of the argument |
| Volume.VoldownStep | rainbot.py:110-112 | a "voldown" message applies a positive argument negated and a non-positive one unchanged, so the step is never positive |
| Volume.VoldownMentioningVolup | rainbot.py:111-115 | "/voldown 5 volup" raises the volume by 5 |
| Access.CollectFails | rainbot.py:32 | the comprehension raises exactly when some parsed entry is malformed |
| Access.CollectGrants | rainbot.py:32-34 | when it does not raise, a user is among the ids exactly when some parsed entry is that id |
| Access.IdsFail | rainbot.py:32 | the id list cannot be built exactly when some non-blank entry is not an integer |
| Access.IdsGrant | rainbot.py:32-34 | a user is in the id list exactly when some non-blank entry parses to that user |
| Access.ListVerdictSpec | rainbot.py:31-41 | for a set allow-list, the verdict is Misconfigured exactly when an entry is malformed, and Allowed exactly when none is and one names the user (`Authorize` otherwise) |
| Access.UnsetAllowsAll | rainbot.py:29-30 | an unset (empty) allow-list allows every user |
| Access.BlankListDeniesAll | rainbot.py:29-34 | a non-empty allow-list made only of blanks and commas denies every user |
| Access.BlankEntriesDeny | rainbot.py:32-34 | entries that are all whitespace name nobody and make nothing malformed, so the verdict is Denied |
| Access.BlankField | rainbot.py:32 | every field of a list of blanks and commas is blank |
| Updater.Decide | rainbot.py:274-282 | the download is dropped exactly when it reports the same known version; it counts as a fresh install exactly when the current version is unknown |
| Updater.UpdateOutcomes | rainbot.py:222-287 | for `UpdateSteps`: the download succeeded exactly when curl started and exited 0; the binary is replaced exactly when download, chmod and probe succeed and the version is not the known current one; every run ends with a reply, which on a curl failure is its last stderr line; when curl cannot be started nothing follows the announcement |
| Updater.FetchOutcomes | rainbot.py:240-287 | the same for the steps after the announcement; they are empty exactly when curl cannot be started; curl is logged as started exactly when it could be, and the `.tmp` probe exactly when the download and chmod succeeded and it could be started |
| Updater.UpdateSpawns | rainbot.py:226-268 | the processes an update starts: the installed binary's `--version` run exactly when the file exists and the run could be started (`ProbeSpawns`), curl exactly when it could be started, the `.tmp` probe exactly when the download and chmod succeeded and it could be started |
| Bot.RefusalIsOneReply | rainbot.py:34-40 | a refused request (`Refusal`) leaves at most one reply and no command or process |
| Bot.VolumeAccepted | rainbot.py:120-131 | in `VolumeTrace`, an accepted `add` is followed by exactly one volume query and no process, and the new volume is reported last |
| Bot.AcceptedTrace | rainbot.py:120-131 | an accepted step's trace is the `add`, the volume query and the reply, nothing else |
| Bot.VolumeFailed | rainbot.py:120-133 | a failed `add` sends no query and spawns nothing; the channel's error text is the last reply |
| Bot.VolumeUsageOnly | rainbot.py:116-118 | a step `int()` rejects gets only the usage reply and reaches no player |
| Bot.DownloadOutcomes | rainbot.py:202-220 | in `DownloadTrace`, a failed download sends no command and spawns nothing; a located file is announced and then played, never reported missing |
| Bot.FailedDownloadTrace | rainbot.py:202-206 | a failed download's trace is the one failure reply with the last stderr line, and no command or process |
| Bot.LocatedDownloadTrace | rainbot.py:208-220 | a located download is announced under its basename and then played as a present file |
| Bot.PressingListedButton | rainbot.py:303-326 | in `ClickTrace`, the i-th button of a listing plays the i-th listed file, announced under the name the button showed |
| Bot.ShownExists | rainbot.py:321-326 | every listed file is still in the directory it was listed from |
| Bot.RainBot.constructor | rainbot.py:13-17 | the bot starts with the given allow-list, directory and files and an empty log |
| Bot.RainBot.Gate | rainbot.py:28-41 | passes exactly when the verdict is Allowed; a denied user gets an alert for a button press and a reply otherwise |
| Bot.RainBot.SendCommand | rainbot.py:67-85 | returns `Channel.Send` and logs a connection only when the socket file exists |
| Bot.RainBot.SetPause | rainbot.py:87-101 | an allowed user's resume or pause sends one command and replies with its outcome; a refused one only gets the refusal |
| Bot.RainBot.ChangeVolume | rainbot.py:103-133 | the log grows by the refusal or by the volume steps for the parsed step, with the volume read back as `ShownVolume` of the decoded response |
| Bot.RainBot.VolumeUp | rainbot.py:135-136 | volume change with default step +10 |
| Bot.RainBot.VolumeDown | rainbot.py:138-139 | volume change with default step -10 |
| Bot.RainBot.PlayFile | rainbot.py:141-172 | the log grows by the intended play trace for the file's presence and the socket |
| Bot.RainBot.HandleUrl | rainbot.py:174-220 | a refused user or a text that `LooksLikeYouTube` rejects changes neither log nor directory beyond one reply; with the yt-dlp binary missing, the spawn raises after the "downloading" reply and nothing else changes; otherwise the exact yt-dlp command (`YtDlpArgv`) is spawned, the directory becomes the post-download listing, and the download outcome follows |
| Bot.RainBot.ServeUrl | rainbot.py:177-220 | the same past the access check |
| Bot.RainBot.StartDownload | rainbot.py:184-220 | yt-dlp is spawned with its exact arguments, the directory becomes the listing it left, and the download outcome follows |
| Bot.RainBot.FinishDownload | rainbot.py:202-220 | once yt-dlp has exited, the log grows by exactly the download outcome |
| Bot.RainBot.PlayDownloaded | rainbot.py:219-220 | the located file is announced under its basename, then played |
| Bot.RainBot.ListFiles | rainbot.py:289-309 | no `.mp3` gives "no files"; otherwise one listing whose button i shows the i-th newest file and carries `play:i` |
| Bot.RainBot.ButtonClick | rainbot.py:311-330 | a refused press gets the alert only; an allowed one is answered, then ignored, reported or played per the button data |
| Bot.RainBot.Update | rainbot.py:222-287 | a refused user changes nothing; otherwise log and files change as the update steps say |
| Bot.RainBot.Refresh | rainbot.py:225-287 | the log grows by the update steps; the binary exists afterwards exactly when it did before or was replaced; the `.tmp` file is gone after any successful download |
| Bot.RainBot.FetchRelease | rainbot.py:242-287 | the log and files change as the steps after the announcement say; when curl cannot be started nothing changes |

## Left out

- Telegram itself is not modelled. This covers updates, the message and
  callback objects, reply wording, emoji and markdown. Replies are a
  datatype with the data they carry.
- The `start` and `help` handlers only send fixed text. The `__main__`
  wiring of handlers and the token check are not modelled.
- asyncio scheduling and concurrency between handlers are left out. Each
  handler runs to completion on the state it sees.
- Process execution, the socket connection and the file system calls are
  parameters, not effects. This covers the exit codes and outputs, the
  socket exceptions, and the listing after a download.
- Of the exceptions raised when a process cannot be started, the model
  covers a missing yt-dlp binary in `handle_url` (the handler stops after
  its first reply), a curl that cannot be started in `update_command` (the
  handler stops after announcing the download) and a `--version` probe
  that cannot be started (no process is logged for it).
- Bot.RainBot.HandleUrl and Bot.RainBot.ServeUrl: a yt-dlp binary that
  exists but cannot be executed is not modelled; the bot only tracks
  whether the file exists.
- The `.tmp` file's own `--version` probe raising is modelled as a failed
  probe. It takes the same path as a chmod error: curl's run, then the
  setup-failure reply.
- Byte decoding is left out. Outputs are taken as already-decoded text.
- `json.loads` of the volume response is a parameter. So is the `str()` of
  its "data" member.
- Timestamps are integers. Floating-point times are not modelled.
- Text.ParseInt: accepts an optional sign and ASCII digits around whitespace.
  Python's `int()` also accepts underscores between digits and non-ASCII
  decimal digits. Those are not modelled.
- Disk.PathExists: only paths inside the download directory are known. A
  path printed by yt-dlp that lies elsewhere, or that is spelled
  differently, such as `./downloads/x`, counts as missing. Path
  normalisation is not modelled.
- Bot.RainBot.Refresh has two gaps:
  - When curl fails, the `.tmp` file keeps its previous state. A partial
    download left by curl is not modelled.
  - Exceptions raised by `os.replace` and `os.remove` are not modelled.
- Bot.RainBot.PlayFile: the socket that a newly spawned mpv creates is not
  modelled. The socket flag is an input of the bot and not changed by
  spawning.
- Bot.RainBot.PlayFile follows the evidently intended `play_file` (see
  Findings). The code as written is modelled by `Player.PlayRunAsWritten`.

## Findings

| source | as written | input that shows it | evidently intended | confidence | as-written member | corrected member |
|---|---|---|---|---|---|---|
| rainbot.py:166-168 | `play_file` assigns the new process to the name `subprocess`. That makes `subprocess` local to the whole function, so reading `subprocess.DEVNULL` for the spawn raises UnboundLocalError first. No player starts and "Playing" is never sent. | an existing file while no mpv is running (no socket file) | start mpv on the file with the IPC socket, then announce the file | not executed | Player.NoPlayerRunningShowsIt | Player.PlaySpawn |
