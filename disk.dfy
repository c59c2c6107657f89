/** The download directory as the bot sees it through `os.listdir` and
    `os.path.get{m,c}time`: a listing, in listdir order, of uniquely named
    entries with their two timestamps. */
module Disk {
  import opened Text

  const DOWNLOAD_DIR := "downloads"

  datatype Entry = Entry(name: string, mtime: int, ctime: int)

  /** What a directory listing can be: non-empty names without '/', each once. */
  ghost predicate ValidDir(dir: seq<Entry>)
  {
    && (forall i :: 0 <= i < |dir| ==> dir[i].name != [] && '/' !in dir[i].name)
    && (forall i, j :: 0 <= i < j < |dir| ==> dir[i].name != dir[j].name)
  }

  /** `os.path.join(DOWNLOAD_DIR, name)`. */
  function DownloadPath(name: string): string
  {
    DOWNLOAD_DIR + "/" + name
  }

  /** `os.path.exists(path)` for paths into the download directory. */
  predicate PathExists(dir: seq<Entry>, path: string)
  {
    exists i :: 0 <= i < |dir| && DownloadPath(dir[i].name) == path
  }

  lemma EntryExists(dir: seq<Entry>, e: Entry)
    requires e in dir
    ensures PathExists(dir, DownloadPath(e.name))
  {
    var k :| 0 <= k < |dir| && dir[k] == e;
  }

  /** `os.path.basename(path)`: what follows the last '/'. */
  function Basename(path: string): string
  {
    Last(Split(path, '/'))
  }

  /** The name shown for a file of the download directory is its entry name. */
  lemma BasenameOfDownloadPath(name: string)
    requires '/' !in name
    ensures Basename(DownloadPath(name)) == name
  {
    assert DownloadPath(name) == DOWNLOAD_DIR + ['/'] + name;
    SplitField(DOWNLOAD_DIR, '/', name);
    SplitNoSep(name, '/');
  }

  predicate IsMp3(e: Entry)
  {
    EndsWith(e.name, ".mp3")
  }

  /** `[f for f in os.listdir(DOWNLOAD_DIR) if f.endswith('.mp3')]`, keeping
      listdir order. */
  function Mp3s(dir: seq<Entry>): (r: seq<Entry>)
    ensures |r| <= |dir|
    ensures forall i :: 0 <= i < |r| ==> IsMp3(r[i]) && r[i] in dir
    ensures forall e :: e in dir && IsMp3(e) ==> e in r
  {
    if dir == [] then []
    else if IsMp3(dir[0]) then [dir[0]] + Mp3s(dir[1..])
    else Mp3s(dir[1..])
  }

  /** The filter keeps listdir order: filtering a listing in two pieces gives
      the two filtered pieces one after the other. */
  lemma {:induction false} Mp3sAppend(a: seq<Entry>, b: seq<Entry>)
    ensures Mp3s(a + b) == Mp3s(a) + Mp3s(b)
    decreases |a|
  {
    if a == [] {
      assert a + b == b;
    } else {
      Mp3sAppend(a[1..], b);
      Mp3sCons(a[0], a[1..], b);
      assert a == [a[0]] + a[1..];
    }
  }

  /** One step of the induction above: the head entry goes in front or is
      dropped, on both sides alike. */
  lemma Mp3sCons(e: Entry, t: seq<Entry>, b: seq<Entry>)
    requires Mp3s(t + b) == Mp3s(t) + Mp3s(b)
    ensures Mp3s([e] + t + b) == Mp3s([e] + t) + Mp3s(b)
  {
    var ab := [e] + t + b;
    var a := [e] + t;
    assert ab[0] == e && ab[1..] == t + b;
    assert a[0] == e && a[1..] == t;
    var x, y := Mp3s(t), Mp3s(b);
    if IsMp3(e) {
      assert Mp3s(ab) == [e] + (x + y);
      ConcatAssoc([e], x, y);
    }
  }

  /** A one-entry listing keeps its entry exactly when it is an `.mp3`. */
  lemma Mp3sSingle(e: Entry)
    ensures Mp3s([e]) == if IsMp3(e) then [e] else []
  {
    assert [e][1..] == [];
  }

  lemma Mp3sValid(dir: seq<Entry>)
    requires ValidDir(dir)
    ensures ValidDir(Mp3s(dir))
  {
    if dir != [] {
      Mp3sValid(dir[1..]);
    }
  }
}
