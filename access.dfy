/** `check_allowed`: the comma-separated allow-list of Telegram user ids. */
module Access {
  import opened Text

  /** `Misconfigured`: a non-blank entry is not an integer, `int()` raises and
      the handler stops without replying. */
  datatype Verdict = Allowed | Denied | Misconfigured

  /** One entry of the list as the comprehension sees it: skipped when it
      strips to nothing, else the id `int()` reads, or a `ValueError`. */
  datatype Parsed = Blank | Id(id: int) | Bad

  function ParseEntry(entry: string): Parsed
  {
    var t := Strip(entry);
    if t == [] then Blank
    else match ParseInt(t)
      case None => Bad
      case Some(id) => Id(id)
  }

  /** An entry grants `user` when, stripped, it is non-blank and reads as `user`. */
  predicate Grants(entry: string, user: int)
  {
    ParseEntry(entry) == Id(user)
  }

  /** A non-blank entry that `int()` rejects. */
  predicate Malformed(entry: string)
  {
    ParseEntry(entry).Bad?
  }

  /** Every entry, parsed in order. */
  function ParseAll(entries: seq<string>): seq<Parsed>
  {
    Map(ParseEntry, entries)
  }

  /** `f` applied to each element, in order. */
  function Map<A, B>(f: A -> B, xs: seq<A>): (ys: seq<B>)
    ensures |ys| == |xs|
    ensures forall i :: 0 <= i < |xs| ==> ys[i] == f(xs[i])
  {
    if xs == [] then [] else [f(xs[0])] + Map(f, xs[1..])
  }

  /** The comprehension over parsed entries: the ids in order, blanks skipped,
      or `None` once some entry raised. */
  function Collect(ps: seq<Parsed>): Option<seq<int>>
  {
    if ps == [] then Some([])
    else
      match Collect(ps[1..])
      case None => None
      case Some(rest) =>
        match ps[0]
        case Blank => Some(rest)
        case Bad => None
        case Id(id) => Some([id] + rest)
  }

  /** `[int(x.strip()) for x in entries if x.strip()]`, or `None` when one of
      the `int()` calls raises. */
  function Ids(entries: seq<string>): Option<seq<int>>
  {
    Collect(ParseAll(entries))
  }

  /** The comprehension raises exactly when some entry is malformed. */
  lemma {:induction false} CollectFails(ps: seq<Parsed>)
    ensures Collect(ps).None? <==> exists i :: 0 <= i < |ps| && ps[i].Bad?
    decreases |ps|
  {
    if ps != [] {
      var tail := ps[1..];
      CollectFails(tail);
      if Collect(tail).None? {
        var i :| 0 <= i < |tail| && tail[i].Bad?;
        assert ps[i + 1] == tail[i];
      } else if !ps[0].Bad? {
        forall i | 0 < i < |ps|
          ensures !ps[i].Bad?
        {
          assert ps[i] == tail[i - 1];
        }
      }
    }
  }

  /** When it does not raise, the comprehension holds exactly the ids of the
      entries. */
  lemma {:induction false} CollectGrants(ps: seq<Parsed>, user: int)
    requires Collect(ps).Some?
    ensures user in Collect(ps).value <==> exists i :: 0 <= i < |ps| && ps[i] == Id(user)
    decreases |ps|
  {
    if ps != [] {
      var tail := ps[1..];
      assert Collect(tail).Some?;
      CollectGrants(tail, user);
      if user in Collect(tail).value {
        var i :| 0 <= i < |tail| && tail[i] == Id(user);
        assert ps[i + 1] == tail[i];
      } else if ps[0] != Id(user) {
        forall i | 0 < i < |ps|
          ensures ps[i] != Id(user)
        {
          assert ps[i] == tail[i - 1];
        }
      }
    }
  }

  /** The list of ids cannot be built exactly when some entry is malformed. */
  lemma IdsFail(entries: seq<string>)
    ensures Ids(entries).None? <==> exists i :: 0 <= i < |entries| && Malformed(entries[i])
  {
    var ps := ParseAll(entries);
    CollectFails(ps);
    if Ids(entries).None? {
      var i :| 0 <= i < |ps| && ps[i].Bad?;
      assert Malformed(entries[i]);
    }
  }

  /** When it can be built, a user is in it exactly when some entry names them. */
  lemma IdsGrant(entries: seq<string>, user: int)
    requires Ids(entries).Some?
    ensures user in Ids(entries).value <==> exists i :: 0 <= i < |entries| && Grants(entries[i], user)
  {
    var ps := ParseAll(entries);
    CollectGrants(ps, user);
    if user in Collect(ps).value {
      var i :| 0 <= i < |ps| && ps[i] == Id(user);
      assert Grants(entries[i], user);
    }
    if exists i :: 0 <= i < |entries| && Grants(entries[i], user) {
      var i :| 0 <= i < |entries| && Grants(entries[i], user);
      assert ps[i] == Id(user);
    }
  }

  /** The verdict of a set allow-list, given its comma-separated entries. */
  function ListVerdict(entries: seq<string>, user: int): Verdict
  {
    match Ids(entries)
    case None => Misconfigured
    case Some(ids) => if user in ids then Allowed else Denied
  }

  /** One malformed entry stops every handler; otherwise a user is let in
      exactly when some entry names them. */
  lemma ListVerdictSpec(entries: seq<string>, user: int)
    ensures ListVerdict(entries, user) == Misconfigured <==>
      exists i :: 0 <= i < |entries| && Malformed(entries[i])
    ensures ListVerdict(entries, user) == Allowed <==>
      (forall i :: 0 <= i < |entries| ==> !Malformed(entries[i]))
      && exists i :: 0 <= i < |entries| && Grants(entries[i], user)
  {
    IdsFail(entries);
    if Ids(entries).None? {
      var i :| 0 <= i < |entries| && Malformed(entries[i]);
    } else {
      IdsGrant(entries, user);
    }
  }

  /** `check_allowed` for the configured text `config`. */
  function Authorize(config: string, user: int): Verdict
  {
    if config == [] then Allowed else ListVerdict(Split(config, ','), user)
  }

  /** An unset allow-list lets everybody in. */
  lemma UnsetAllowsAll(user: int)
    ensures Authorize("", user) == Allowed
  {
  }

  /** A set but blank allow-list (only spaces and commas) lets nobody in. */
  lemma BlankListDeniesAll(config: string, user: int)
    requires config != []
    requires forall i :: 0 <= i < |config| ==> config[i] == ',' || IsSpace(config[i])
    ensures Authorize(config, user) == Denied
  {
    var entries := Split(config, ',');
    forall i | 0 <= i < |entries| ensures AllSpace(entries[i]) {
      BlankField(config, i);
    }
    BlankEntriesDeny(entries, user);
  }

  /** Entries that are all whitespace name nobody and break nothing. */
  lemma BlankEntriesDeny(entries: seq<string>, user: int)
    requires forall i :: 0 <= i < |entries| ==> AllSpace(entries[i])
    ensures ListVerdict(entries, user) == Denied
  {
    forall i | 0 <= i < |entries|
      ensures ParseEntry(entries[i]) == Blank
    {
      StripEmpty(entries[i]);
    }
    ListVerdictSpec(entries, user);
  }

  lemma {:induction false} BlankField(config: string, i: nat)
    requires forall k :: 0 <= k < |config| ==> config[k] == ',' || IsSpace(config[k])
    requires i < |Split(config, ',')|
    ensures AllSpace(Split(config, ',')[i])
    decreases |config|
  {
    if config != [] {
      var rest := Split(config[1..], ',');
      if config[0] == ',' {
        if i > 0 {
          BlankField(config[1..], i - 1);
        }
      } else {
        BlankField(config[1..], if i == 0 then 0 else i);
        if i == 0 {
          assert Split(config, ',')[0] == [config[0]] + rest[0];
        }
      }
    }
  }
}
