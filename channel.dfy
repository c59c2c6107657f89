/** The control channel to the player: one JSON command line per connection over
    the player's Unix socket (`send_mpv_command`). The socket exchange itself is
    an input: it either answered with a line or raised an exception. */
module Channel {
  import opened Text

  const MPV_SOCKET := "/home/sids/rainbot_mpv_socket"
  const NOT_RUNNING := "MPV is not running."

  /** One element of a player command list. */
  datatype Arg = Str(s: string) | Flag(b: bool) | Num(n: int)

  /** What the connection did once the socket file existed. */
  datatype Exchange = Answered(line: string) | Raised(error: string)

  /** The pair `(success, message)` that `send_mpv_command` returns. */
  datatype Status = Status(ok: bool, text: string)

  /** `send_mpv_command`: no socket file means a fixed failure and no connection;
      otherwise the stripped response line, or the exception's text. */
  function Send(socketExists: bool, exchange: Exchange): (r: Status)
    ensures r.ok <==> socketExists && exchange.Answered?
    ensures !socketExists ==> r.text == NOT_RUNNING
    ensures socketExists && exchange.Raised? ==> r.text == exchange.error
    ensures r.ok ==> r.text == Strip(exchange.line)
  {
    if !socketExists then Status(false, NOT_RUNNING)
    else match exchange
      case Answered(line) => Status(true, Strip(line))
      case Raised(error) => Status(false, error)
  }

  // ---------------------------------------------------------------------------
  // The wire form: json.dumps({"command": cmd}) + "\n"

  /** Printable ASCII, the alphabet `json.dumps` emits with `ensure_ascii`. */
  predicate Printable(s: string)
  {
    forall i :: 0 <= i < |s| ==> ' ' <= s[i] <= '~'
  }

  function HexDigit(d: nat): (c: char)
    requires d < 16
    ensures ' ' <= c <= '~'
  {
    "0123456789abcdef"[d]
  }

  /** Four lower-case hex digits, as in `'\\u{0:04x}'.format(n)`. */
  function Hex4(n: nat): (r: string)
    requires n < 0x10000
    ensures |r| == 4 && Printable(r)
    ensures forall i :: 0 <= i < 4 ==> r[i] in "0123456789abcdef"
  {
    [HexDigit(n / 0x1000), HexDigit(n / 0x100 % 16), HexDigit(n / 16 % 16), HexDigit(n % 16)]
  }

  /** The escape `json.dumps` writes for one character of a string. */
  function EscapeChar(c: char): (r: string)
    ensures |r| >= 1 && Printable(r)
    ensures c == '\n' || c == '"' ==> r[0] == '\\'
  {
    var n := c as int;
    if c == '\\' then "\\\\"
    else if c == '"' then "\\\""
    else if n == 8 then "\\b"
    else if n == 12 then "\\f"
    else if c == '\n' then "\\n"
    else if c == '\r' then "\\r"
    else if c == '\t' then "\\t"
    else if ' ' <= c <= '~' then [c]
    else if n < 0x10000 then "\\u" + Hex4(n)
    else
      var v := n - 0x10000;
      "\\u" + Hex4(0xD800 + v / 0x400) + "\\u" + Hex4(0xDC00 + v % 0x400)
  }

  function EscapeString(s: string): (r: string)
    ensures Printable(r)
  {
    if s == [] then "" else EscapeChar(s[0]) + EscapeString(s[1..])
  }

  function EncodeArg(a: Arg): string
  {
    match a
    case Str(s) => "\"" + EscapeString(s) + "\""
    case Flag(b) => if b then "true" else "false"
    case Num(n) => IntToString(n)
  }

  /** The list items separated by `", "`. */
  function EncodeItems(cmd: seq<Arg>): string
  {
    if cmd == [] then ""
    else if |cmd| == 1 then EncodeArg(cmd[0])
    else EncodeArg(cmd[0]) + ", " + EncodeItems(cmd[1..])
  }

  /** The bytes written to the socket for one command. */
  function Payload(cmd: seq<Arg>): string
  {
    "{\"command\": [" + EncodeItems(cmd) + "]}" + "\n"
  }

  lemma {:induction false} ArgPrintable(a: Arg)
    ensures Printable(EncodeArg(a))
  {
    match a
    case Str(s) =>
    case Flag(b) =>
    case Num(n) =>
      var m: nat := if n < 0 then -n else n;
      IntStringPrintable(m);
  }

  lemma {:induction false} IntStringPrintable(n: nat)
    ensures Printable(NatToString(n))
  {
    var s := NatToString(n);
    forall i | 0 <= i < |s| ensures ' ' <= s[i] <= '~' {
      assert IsDigit(s[i]);
    }
  }

  lemma {:induction false} ItemsPrintable(cmd: seq<Arg>)
    ensures Printable(EncodeItems(cmd))
    decreases |cmd|
  {
    if |cmd| == 1 {
      ArgPrintable(cmd[0]);
    } else if |cmd| > 1 {
      ArgPrintable(cmd[0]);
      ItemsPrintable(cmd[1..]);
    }
  }

  /** Every command travels as exactly one line: printable ASCII throughout,
      and a single newline at the very end. */
  lemma PayloadIsOneLine(cmd: seq<Arg>)
    ensures var p := Payload(cmd);
      |p| >= 1 && p[|p| - 1] == '\n' && Printable(p[..|p| - 1])
      && forall i :: 0 <= i < |p| - 1 ==> p[i] != '\n'
  {
    ItemsPrintable(cmd);
    var p := Payload(cmd);
    assert p[..|p| - 1] == "{\"command\": [" + EncodeItems(cmd) + "]}";
  }
}
