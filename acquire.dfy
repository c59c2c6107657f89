/** `handle_url` up to the hand-over to the player: the URL test, the yt-dlp
    command line, the failure text, and where the downloaded file is looked for. */
module Acquire {
  import opened Text
  import opened Disk

  const YTDLP_PATH := "/home/sids/stacks/rainbot/yt-dlp"
  const UNKNOWN_ERROR := "Unknown error"

  /** The loose host test on the stripped message text. */
  predicate LooksLikeYouTube(url: string)
  {
    Contains(url, "youtube.com") || Contains(url, "youtu.be")
  }

  /** The downloader's argument list: audio only, as mp3, into the download
      directory under "<title> [<id>].<ext>", one video, printing the final path. */
  function YtDlpArgv(url: string): seq<string>
  {
    [YTDLP_PATH, "-x", "--audio-format", "mp3",
     "-o", DOWNLOAD_DIR + "/%(title)s [%(id)s].%(ext)s",
     "--no-playlist", "--print", "after_move:filepath", "--no-simulate", url]
  }

  /** What the finished downloader left behind. `after` is the download
      directory once it has exited. */
  datatype Download = Download(code: int, stdout: string, stderr: string, after: seq<Entry>)

  /** The reason shown for a failed run: the last line of the stripped error
      stream, or a fixed text when that stream holds nothing but whitespace. */
  function FailureReason(stderr: string): string
  {
    var text := Strip(stderr);
    if text != [] then Last(Split(text, '\n')) else UNKNOWN_ERROR
  }

  lemma FailureReasonIsLastLine(stderr: string)
    ensures AllSpace(stderr) ==> FailureReason(stderr) == UNKNOWN_ERROR
    ensures !AllSpace(stderr) ==>
      var r := FailureReason(stderr); var text := Strip(stderr);
      && |r| <= |text| && text[|text| - |r|..] == r && '\n' !in r
      && (|r| < |text| ==> text[|text| - |r| - 1] == '\n')
  {
    StripEmpty(stderr);
    ReasonOfStripped(stderr);
  }

  /** The same, stated on the stripped stream. */
  lemma ReasonOfStripped(stderr: string)
    ensures var r := FailureReason(stderr); var text := Strip(stderr);
      && (text == [] ==> r == UNKNOWN_ERROR)
      && (text != [] ==>
            && |r| <= |text| && text[|text| - |r|..] == r && '\n' !in r
            && (|r| < |text| ==> text[|text| - |r| - 1] == '\n'))
  {
    LastField(Strip(stderr), '\n');
  }

  /** The path yt-dlp printed: the last line of the stripped output, stripped. */
  function CandidatePath(stdout: string): string
  {
    var lines := Split(Strip(stdout), '\n');
    Strip(Last(lines))
  }

  /** The candidate is the last line of the stripped output, itself stripped:
      a newline-free tail of that output, preceded by a newline unless it is
      the whole of it. */
  lemma CandidateIsLastLine(stdout: string)
    ensures var text := Strip(stdout); var l := Last(Split(text, '\n'));
      && |l| <= |text| && text[|text| - |l|..] == l && '\n' !in l
      && (|l| < |text| ==> text[|text| - |l| - 1] == '\n')
      && CandidatePath(stdout) == Strip(l)
  {
    LastField(Strip(stdout), '\n');
  }

  /** The candidate is a single line of the output. */
  lemma CandidateIsOneLine(stdout: string)
    ensures '\n' !in CandidatePath(stdout)
  {
    StripKeepsOut(Last(Split(Strip(stdout), '\n')), '\n');
  }

  /** `max(files, key=os.path.getctime)`: the position of the first entry with
      the greatest creation time. */
  function NewestIndex(es: seq<Entry>): (k: nat)
    requires es != []
    ensures k < |es|
    ensures forall j :: 0 <= j < |es| ==> es[j].ctime <= es[k].ctime
    ensures forall j :: 0 <= j < k ==> es[j].ctime < es[k].ctime
  {
    if |es| == 1 then 0
    else
      var k := NewestIndex(es[..|es| - 1]);
      if es[|es| - 1].ctime > es[k].ctime then |es| - 1 else k
  }

  datatype Located = Located(path: string) | NotLocated

  /** Where the downloaded file is taken from: the printed path when it exists,
      else the newest `.mp3` of the download directory, else nowhere. */
  function Locate(dir: seq<Entry>, stdout: string): Located
  {
    var candidate := CandidatePath(stdout);
    if PathExists(dir, candidate) then Located(candidate)
    else
      var files := Mp3s(dir);
      if files == [] then NotLocated
      else Located(DownloadPath(files[NewestIndex(files)].name))
  }

  /** With no existing printed path, nothing is located exactly when the
      directory holds no `.mp3` file. */
  lemma LocateNothing(dir: seq<Entry>, stdout: string)
    ensures Locate(dir, stdout).NotLocated? <==>
      !PathExists(dir, CandidatePath(stdout)) && forall e :: e in dir ==> !IsMp3(e)
  {
    var files := Mp3s(dir);
    if files != [] {
      assert files[0] in dir && IsMp3(files[0]);
    }
  }

  /** The fallback candidate is an `.mp3` file of the directory created no
      earlier than any other. */
  lemma NewestMp3(dir: seq<Entry>)
    requires Mp3s(dir) != []
    ensures var e := Mp3s(dir)[NewestIndex(Mp3s(dir))];
      && e in dir && IsMp3(e)
      && forall f :: f in dir && IsMp3(f) ==> f.ctime <= e.ctime
  {
    var files := Mp3s(dir);
    var e := files[NewestIndex(files)];
    forall f | f in dir && IsMp3(f) ensures f.ctime <= e.ctime {
      var j :| 0 <= j < |files| && files[j] == f;
    }
  }

  /** The fallback is the `.mp3` file created last; it exists. */
  lemma LocateFallback(dir: seq<Entry>, stdout: string)
    requires !PathExists(dir, CandidatePath(stdout)) && Locate(dir, stdout).Located?
    ensures var p := Locate(dir, stdout).path;
      && PathExists(dir, p)
      && exists e :: e in dir && IsMp3(e) && p == DownloadPath(e.name)
           && forall f :: f in dir && IsMp3(f) ==> f.ctime <= e.ctime
  {
    var files := Mp3s(dir);
    var e := files[NewestIndex(files)];
    assert Locate(dir, stdout).path == DownloadPath(e.name);
    NewestMp3(dir);
    EntryExists(dir, e);
  }

  /** The printed path wins when it exists; otherwise the result is the `.mp3`
      file created last (which of several equally new ones is chosen is stated
      by `NewestIndex`); with no `.mp3` file
      at all nothing is located. Whatever is located exists. */
  lemma LocateOutcomes(dir: seq<Entry>, stdout: string)
    ensures var c := CandidatePath(stdout); var r := Locate(dir, stdout);
      && (PathExists(dir, c) ==> r == Located(c))
      && (r.NotLocated? <==> !PathExists(dir, c) && forall e :: e in dir ==> !IsMp3(e))
      && (r.Located? ==> PathExists(dir, r.path))
      && (!PathExists(dir, c) && r.Located? ==>
            exists e :: e in dir && IsMp3(e) && r.path == DownloadPath(e.name)
              && forall f :: f in dir && IsMp3(f) ==> f.ctime <= e.ctime)
  {
    LocateNothing(dir, stdout);
    if !PathExists(dir, CandidatePath(stdout)) && Locate(dir, stdout).Located? {
      LocateFallback(dir, stdout);
    }
  }
}
