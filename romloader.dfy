/** The RomLoader program: its command line `RomLoader [-F] [-E] PORT
    [ADDR] binfile` and the write path it shares with Burner. */
module RomLoader {
  import opened Bytes
  import opened Wrappers
  import opened Channel
  import opened Engine
  import opened Args

  /** What the command line asks for. */
  datatype Options = Options(fram: bool, erase: bool, port: Endpoint, addr: int, file: string)

  /** The usage text, an exception while reading the arguments, or a run. */
  datatype Invocation = Usage | Failed | Start(opts: Options)

  /** RomLoader/Program.cs lines 5-45: the argument count check, `-F`, then
      `-E`, the port, the file (second of two remaining arguments, else
      third), ADDR (0 with two remaining arguments, else decimal or "0x"
      hexadecimal) and the port's baud rate. */
  function Parse(args: seq<string>): (r: Invocation)
  {
    if |args| < 2 || |args| > 4 then Usage
    else
      var fram := IsFlag(args[0], 'f', 'F');
      var a1 := if fram then args[1..] else args;
      var erase := IsFlag(a1[0], 'e', 'E');
      var arr := if erase then a1[1..] else a1;
      if |arr| < 2 then Failed
      else
        var file := arr[if |arr| == 2 then 1 else 2];
        var addr := if |arr| == 2 then Some(0) else ParseNumber(arr[1]);
        var endpoint := ParsePort(arr[0]);
        if addr.None? || endpoint.None? then Failed
        else Start(Options(fram, erase, endpoint.value, addr.value, file))
  }

  /** ADDR is read as hexadecimal after "0x" and as decimal otherwise: for
      `PORT ADDR file`, every 32-bit address written either way comes back,
      and a colon is not accepted (RomLoader takes no size). */
  lemma ParseAddress(port: string, x: int, v: nat, size: string, file: string)
    requires '@' !in port && port != "-f" && port != "-F" && port != "-e" && port != "-E"
    requires INT_MIN <= x <= INT_MAX && v < 0x1_0000_0000
    ensures Parse([port, Decimal(x), file]) == Start(Options(false, false, Endpoint(port, DEFAULT_BAUD), x, file))
    ensures Parse([port, "0x" + Numeral(v, 16), file]) ==
      Start(Options(false, false, Endpoint(port, DEFAULT_BAUD), ToInt32(v), file))
    ensures Parse([port, Decimal(x) + ":" + size, file]) == Failed
  {
    PortRoundTrip(port, 0);
    DecimalRoundTrip(x);
    HexRoundTrip(v);
    ColonRefused(Decimal(x), size);
  }

  /** A number followed by a colon does not parse. */
  lemma ColonRefused(digits: string, rest: string)
    ensures ParseNumber(digits + ":" + rest) == None
  {
    var s := digits + ":" + rest;
    var i := |digits|;
    assert s[i] == ':' && DigitValue(s[i]) < 0;
    if |s| >= 2 && s[..2] == "0x" {
      assert s[2..][i - 2] == ':';
    } else if |s| > 0 && (s[0] == '-' || s[0] == '+') {
      if i > 0 {
        assert s[1..][i - 1] == ':';
      }
    }
  }

  /** The program: parse the command line, then write `data`, the contents
      of the file, through the write path Burner uses (prologue, erase
      gate, block loop, SDP epilogue). */
  method Run(port: Port, args: seq<string>, data: seq<byte>) returns (outcome: Option<WriteOutcome>)
    modifies port
    ensures Parse(args).Start? ==>
      var o := Parse(args).opts;
      var r := WritePath(o.fram, o.erase, o.addr, data, old(port.lines));
      outcome == Some(r.outcome) && port.sent == old(port.sent) + r.sent &&
      port.lines == Drop(old(port.lines), r.read) && port.arrivals == old(port.arrivals)
    ensures !Parse(args).Start? ==>
      outcome == None && port.sent == old(port.sent) &&
      port.lines == old(port.lines) && port.arrivals == old(port.arrivals)
  {
    match Parse(args)
    case Start(o) =>
      var w := Burn(port, o.fram, o.erase, o.addr, data);
      outcome := Some(w);
    case _ =>
      outcome := None;
  }
}
