/** `change_volume`, `volup_command` and `voldown_command`: the signed step
    applied to the player's volume and the value shown back. */
module Volume {
  import opened Text
  import opened Channel

  /** The defaults of `volup_command` and `voldown_command`. */
  const VOLUP_STEP := 10
  const VOLDOWN_STEP := -10

  function Abs(n: int): nat
  {
    if n < 0 then -n else n
  }

  /** The step `change_volume` applies, or `None` for the usage reply. `text` is
      the whole message, `args` its words after the command. An explicit step
      is negated when the message mentions "voldown" and it is positive, then
      made non-negative when the message mentions "volup". */
  function Step(default: int, text: string, args: seq<string>): (r: Option<int>)
    ensures args == [] ==> r == Some(default)
    ensures args != [] ==> (r.None? <==> ParseInt(args[0]).None?)
  {
    if args == [] then Some(default)
    else
      match ParseInt(args[0])
      case None => None
      case Some(n) =>
        var amount := if Contains(text, "voldown") && n > 0 then -n else n;
        Some(if Contains(text, "volup") then Abs(amount) else amount)
  }

  /** `/volup n` raises the volume by |n|. */
  lemma VolupStep(default: int, text: string, args: seq<string>, n: int)
    requires Contains(text, "volup")
    requires args != [] && ParseInt(args[0]) == Some(n)
    ensures Step(default, text, args) == Some(Abs(n))
  {
  }

  /** `/voldown n` lowers the volume: by n for positive n, and a non-positive n
      is applied as it is; either way the step is never positive. */
  lemma VoldownStep(default: int, text: string, args: seq<string>, n: int)
    requires Contains(text, "voldown") && !Contains(text, "volup")
    requires args != [] && ParseInt(args[0]) == Some(n)
    ensures Step(default, text, args) == Some(if n > 0 then -n else n)
    ensures Step(default, text, args).value <= 0
  {
  }

  /** The test is on the whole message, so a "volup" anywhere in a `/voldown`
      message turns the step positive: "/voldown 5 volup" raises the volume. */
  lemma VoldownMentioningVolup()
    ensures Step(VOLDOWN_STEP, "/voldown 5 volup", ["5", "volup"]) == Some(5)
  {
    var text := "/voldown 5 volup";
    assert FoundAt(text, "voldown", 1);
    assert FoundAt(text, "volup", 11);
    assert ParseInt("5") == Some(5) by {
      ParseIntToString(5);
      assert IntToString(5) == "5";
    }
  }

  function AddCmd(step: int): seq<Arg>
  {
    [Str("add"), Str("volume"), Num(step)]
  }

  const GET_VOLUME_CMD: seq<Arg> := [Str("get_property"), Str("volume")]

  /** How `json.loads` sees the response to the volume query: an object with
      or without a "data" member (rendered as `str()` would), some other JSON
      value, or text that is not JSON. */
  datatype JsonView = Object(data: Option<string>) | OtherValue | NotJson

  /** The volume shown to the user: the "data" member, "unknown" for an object
      without one, "?" when decoding or `.get` fails. */
  function ShownVolume(v: JsonView): string
  {
    match v
    case Object(data) => (match data case Some(d) => d case None => "unknown")
    case OtherValue => "?"
    case NotJson => "?"
  }
}
