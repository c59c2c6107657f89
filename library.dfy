/** The library listing (`list_command`) and the selection a listing button
    makes (`button_click`). Both recompute the `.mp3` files of the download
    directory ordered newest first by modification time. */
module Library {
  import opened Text
  import opened Disk

  /** `list_command` shows at most this many files. */
  const PAGE := 20

  predicate NewestFirst(es: seq<Entry>)
  {
    forall i, j :: 0 <= i < j < |es| ==> es[i].mtime >= es[j].mtime
  }

  /** The entries with modification time `m`, in their order. */
  function WithMtime(es: seq<Entry>, m: int): seq<Entry>
  {
    if es == [] then []
    else (if es[0].mtime == m then [es[0]] else []) + WithMtime(es[1..], m)
  }

  /** An entry no older than the head of a newest-first list can go in front. */
  lemma ConsNewestFirst(x: Entry, rest: seq<Entry>)
    requires NewestFirst(rest) && (rest == [] || rest[0].mtime <= x.mtime)
    ensures NewestFirst([x] + rest)
  {
    var r := [x] + rest;
    forall i, j | 0 <= i < j < |r| ensures r[i].mtime >= r[j].mtime {
      assert r[j] == rest[j - 1];
      if i > 0 {
        assert r[i] == rest[i - 1];
      } else if j > 1 {
        assert rest[0].mtime >= rest[j - 1].mtime;
      }
    }
  }

  /** Puts `e` into a newest-first list ahead of every entry no newer than it. */
  function Insert(e: Entry, sorted: seq<Entry>): (r: seq<Entry>)
    requires NewestFirst(sorted)
    ensures |r| == |sorted| + 1
    ensures r[0] == if sorted == [] || sorted[0].mtime <= e.mtime then e else sorted[0]
    ensures multiset(r) == multiset(sorted) + multiset{e}
    ensures NewestFirst(r)
  {
    if sorted == [] || sorted[0].mtime <= e.mtime then
      ConsNewestFirst(e, sorted);
      [e] + sorted
    else
      var rest := Insert(e, sorted[1..]);
      assert sorted == [sorted[0]] + sorted[1..];
      ConsNewestFirst(sorted[0], rest);
      [sorted[0]] + rest
  }

  /** `files.sort(key=mtime, reverse=True)`: Python's sort is stable, so entries
      with equal modification times keep their listdir order. */
  function SortByMtime(es: seq<Entry>): (r: seq<Entry>)
    ensures multiset(r) == multiset(es)
    ensures NewestFirst(r)
  {
    if es == [] then []
    else
      assert es == [es[0]] + es[1..];
      Insert(es[0], SortByMtime(es[1..]))
  }


  lemma {:induction false} InsertWithMtime(e: Entry, sorted: seq<Entry>, m: int)
    requires NewestFirst(sorted)
    ensures WithMtime(Insert(e, sorted), m)
         == (if e.mtime == m then [e] else []) + WithMtime(sorted, m)
    decreases |sorted|
  {
    var r := Insert(e, sorted);
    if sorted == [] || sorted[0].mtime <= e.mtime {
      assert r == [e] + sorted;
      assert r[0] == e && r[1..] == sorted;
    } else {
      var rest := Insert(e, sorted[1..]);
      InsertWithMtime(e, sorted[1..], m);
      assert r == [sorted[0]] + rest;
      assert r[0] == sorted[0] && r[1..] == rest;
      var tail := WithMtime(sorted[1..], m);
      assert WithMtime(sorted, m) == (if sorted[0].mtime == m then [sorted[0]] else []) + tail;
      if e.mtime == m {
        assert sorted[0].mtime != m;
        assert WithMtime(r, m) == [e] + tail;
      } else {
        assert WithMtime(rest, m) == tail;
      }
    }
  }

  /** The sort is stable: among the entries of any one modification time the
      order is the original one. */
  lemma {:induction false} SortStable(es: seq<Entry>, m: int)
    ensures WithMtime(SortByMtime(es), m) == WithMtime(es, m)
    decreases |es|
  {
    if es != [] {
      SortStable(es[1..], m);
      InsertWithMtime(es[0], SortByMtime(es[1..]), m);
    }
  }

  /** The files offered by `list_command`: `.mp3` only, newest first, the first
      PAGE of them. */
  function Shown(dir: seq<Entry>): seq<Entry>
  {
    var files := SortByMtime(Mp3s(dir));
    if |files| <= PAGE then files else files[..PAGE]
  }

  function Names(es: seq<Entry>): (r: seq<string>)
    ensures |r| == |es| && forall i :: 0 <= i < |es| ==> r[i] == es[i].name
  {
    seq(|es|, i requires 0 <= i < |es| => es[i].name)
  }

  /** The sorted `.mp3` files are exactly the `.mp3` entries of the directory. */
  lemma SortedMp3s(dir: seq<Entry>)
    ensures var files := SortByMtime(Mp3s(dir));
      && |files| == |Mp3s(dir)|
      && (forall i :: 0 <= i < |files| ==> IsMp3(files[i]) && files[i] in dir)
      && (forall e :: e in dir && IsMp3(e) ==> e in files)
  {
    var files := SortByMtime(Mp3s(dir));
    assert |files| == |Mp3s(dir)| by {
      assert |multiset(files)| == |multiset(Mp3s(dir))|;
    }
    forall i | 0 <= i < |files| ensures IsMp3(files[i]) && files[i] in dir {
      assert files[i] in multiset(Mp3s(dir));
    }
    forall e | e in dir && IsMp3(e) ensures e in files {
      assert e in multiset(Mp3s(dir));
    }
  }

  /** The listing is the first PAGE files of the sorted `.mp3` files. */
  lemma ShownPrefix(dir: seq<Entry>)
    ensures var files := SortByMtime(Mp3s(dir)); var shown := Shown(dir);
      && |shown| == (if |files| <= PAGE then |files| else PAGE)
      && (forall i :: 0 <= i < |shown| ==> shown[i] == files[i])
      && NewestFirst(shown)
  {
  }

  /** No `.mp3` file left off the listing is newer than a file on it. */
  lemma UnshownAreOlder(dir: seq<Entry>, e: Entry)
    requires e in dir && IsMp3(e) && e !in Shown(dir)
    ensures forall i :: 0 <= i < |Shown(dir)| ==> Shown(dir)[i].mtime >= e.mtime
  {
    var files := SortByMtime(Mp3s(dir));
    var shown := Shown(dir);
    SortedMp3s(dir);
    assert forall i :: 0 <= i < |shown| ==> shown[i] == files[i];
    var j :| 0 <= j < |files| && files[j] == e;
    assert j >= |shown|;
  }

  predicate DistinctNames(es: seq<Entry>)
  {
    forall i, j :: 0 <= i < j < |es| ==> es[i].name != es[j].name
  }

  /** An entry whose name is new can go in front of distinctly named ones. */
  lemma ConsDistinct(h: Entry, rest: seq<Entry>)
    requires DistinctNames(rest) && forall e :: e in rest ==> e.name != h.name
    ensures DistinctNames([h] + rest)
  {
    var r := [h] + rest;
    forall i, j | 0 <= i < j < |r| ensures r[i].name != r[j].name {
      assert r[j] == rest[j - 1];
      if i > 0 {
        assert r[i] == rest[i - 1];
      }
    }
  }

  lemma TailDistinct(es: seq<Entry>)
    requires es != [] && DistinctNames(es)
    ensures DistinctNames(es[1..]) && forall e :: e in es[1..] ==> e.name != es[0].name
  {
    var tail := es[1..];
    forall i, j | 0 <= i < j < |tail| ensures tail[i].name != tail[j].name {
      assert tail[i] == es[i + 1] && tail[j] == es[j + 1];
    }
    forall e | e in tail ensures e.name != es[0].name {
      var m :| 0 <= m < |tail| && tail[m] == e;
      assert es[m + 1] == e;
    }
  }

  /** Inserting an entry whose name is new keeps the names distinct. */
  lemma {:induction false} InsertDistinct(x: Entry, sorted: seq<Entry>)
    requires NewestFirst(sorted) && DistinctNames(sorted)
    requires forall e :: e in sorted ==> e.name != x.name
    ensures DistinctNames(Insert(x, sorted))
    decreases |sorted|
  {
    if sorted == [] || sorted[0].mtime <= x.mtime {
      ConsDistinct(x, sorted);
    } else {
      var tail := sorted[1..];
      TailDistinct(sorted);
      InsertDistinct(x, tail);
      var rest := Insert(x, tail);
      forall e | e in rest ensures e.name != sorted[0].name {
        assert e in multiset(rest);
      }
      ConsDistinct(sorted[0], rest);
    }
  }

  /** Sorting keeps the names distinct. */
  lemma {:induction false} SortDistinct(es: seq<Entry>)
    requires DistinctNames(es)
    ensures DistinctNames(SortByMtime(es))
    decreases |es|
  {
    if es != [] {
      var tail := es[1..];
      TailDistinct(es);
      SortDistinct(tail);
      var s := SortByMtime(tail);
      forall e | e in s ensures e.name != es[0].name {
        assert e in multiset(tail);
      }
      InsertDistinct(es[0], s);
    }
  }

  /** Every file of a listing is named once, so button positions pick out
      distinct files. */
  lemma ShownDistinct(dir: seq<Entry>)
    requires ValidDir(dir)
    ensures DistinctNames(Shown(dir))
  {
    Mp3sValid(dir);
    assert DistinctNames(Mp3s(dir));
    SortDistinct(Mp3s(dir));
    var files := SortByMtime(Mp3s(dir));
    ShownPrefix(dir);
  }

  /** The listing holds only `.mp3` files, newest first, at most PAGE of them,
      and no `.mp3` file left off it is newer than any file on it. */
  lemma ShownAreNewestMp3s(dir: seq<Entry>)
    ensures var shown := Shown(dir);
      && |shown| == (if |Mp3s(dir)| <= PAGE then |Mp3s(dir)| else PAGE)
      && NewestFirst(shown)
      && (forall i :: 0 <= i < |shown| ==> IsMp3(shown[i]) && shown[i] in dir)
      && (forall e :: e in dir && IsMp3(e) && e !in shown ==>
            forall i :: 0 <= i < |shown| ==> shown[i].mtime >= e.mtime)
  {
    var shown := Shown(dir);
    SortedMp3s(dir);
    ShownPrefix(dir);
    forall e | e in dir && IsMp3(e) && e !in shown
      ensures forall i :: 0 <= i < |shown| ==> shown[i].mtime >= e.mtime
    {
      UnshownAreOlder(dir, e);
    }
  }

  // ---------------------------------------------------------------------------
  // Buttons

  datatype Button = Button(text: string, data: string)

  /** The callback data of the button at position `idx`: `f"play:{idx}"`. */
  function CallbackData(idx: nat): string
  {
    "play:" + NatToString(idx)
  }

  /** The keyboard loop of `list_command`: one button per file, in order, whose
      data carries its position. */
  method BuildKeyboard(names: seq<string>) returns (keyboard: seq<Button>)
    ensures |keyboard| == |names|
    ensures forall i :: 0 <= i < |names| ==>
      keyboard[i].text == names[i] && keyboard[i].data == CallbackData(i)
  {
    keyboard := [];
    for idx := 0 to |names|
      invariant |keyboard| == idx
      invariant forall i :: 0 <= i < idx ==>
        keyboard[i].text == names[i] && keyboard[i].data == CallbackData(i)
    {
      keyboard := keyboard + [Button(names[idx], CallbackData(idx))];
    }
  }

  /** What a button press asks for. */
  datatype Click =
    | Ignored               // data not starting with "play:"
    | BadIndex(field: string)  // int() raised on the index field
    | Outdated              // index outside the current listing
    | PlayPath(path: string)

  /** The index field of play data: `data.split(":")[1]`, which exists once the
      data starts with "play:". */
  function IndexField(data: string): string
    requires StartsWith(data, "play:")
  {
    SplitField("play", ':', data[5..]);
    assert data == "play" + [':'] + data[5..];
    Split(data, ':')[1]
  }

  /** The bounds check of `button_click` against the full sorted `.mp3` listing
      (not cut to PAGE). */
  function Pick(dir: seq<Entry>, idx: int): Click
  {
    var files := SortByMtime(Mp3s(dir));
    if 0 <= idx < |files| then PlayPath(DownloadPath(files[idx].name)) else Outdated
  }

  /** `button_click` after the answer: data not starting with "play:" does
      nothing, an index field `int()` rejects is an error, and a parsed index
      goes through the bounds check. */
  function Select(dir: seq<Entry>, data: string): Click
  {
    if !StartsWith(data, "play:") then Ignored
    else
      var field := IndexField(data);
      match ParseInt(field)
      case None => BadIndex(field)
      case Some(idx) => Pick(dir, idx)
  }

  /** Pressing button `idx` of a listing, while the directory is as it was when
      listed, plays exactly the file the button was labelled with. */
  lemma SelectShown(dir: seq<Entry>, idx: nat)
    requires idx < |Shown(dir)|
    ensures Select(dir, CallbackData(idx)) == PlayPath(DownloadPath(Shown(dir)[idx].name))
  {
    var digits := NatToString(idx);
    var data := CallbackData(idx);
    assert data[5..] == digits;
    NatStringHasNo(idx, ':');
    SplitField("play", ':', digits);
    SplitNoSep(digits, ':');
    assert data == "play" + [':'] + digits;
    assert IndexField(data) == digits;
    ParseIntToString(idx);
    assert IntToString(idx) == digits;
  }

  lemma PickPlaysListedFile(dir: seq<Entry>, idx: int)
    requires Pick(dir, idx).PlayPath?
    ensures var p := Pick(dir, idx).path;
      PathExists(dir, p) && exists e :: e in dir && IsMp3(e) && p == DownloadPath(e.name)
  {
    var files := SortByMtime(Mp3s(dir));
    var e := files[idx];
    assert e in multiset(Mp3s(dir));
    EntryExists(dir, e);
  }

  /** A press is only ever turned into playback of an existing `.mp3` file of
      the download directory. */
  lemma SelectPlaysListedFile(dir: seq<Entry>, data: string)
    requires Select(dir, data).PlayPath?
    ensures var p := Select(dir, data).path;
      PathExists(dir, p) && exists e :: e in dir && IsMp3(e) && p == DownloadPath(e.name)
  {
    PickPlaysListedFile(dir, ParseInt(IndexField(data)).value);
  }
}
