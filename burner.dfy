/** The Burner program: its command line `Burner [-F] [-E|-D] PORT
    [ADDR[:SIZE]] binfile` and the choice between the write path and the
    dump path of the host engine. */
module Burner {
  import opened Bytes
  import opened Wrappers
  import opened Channel
  import opened Engine
  import opened Args

  /** What the command line asks for. */
  datatype Options = Options(fram: bool, erase: bool, dump: bool, port: Endpoint, addr: int, size: int, file: string)

  /** The usage text, an exception while reading the arguments, or a run. */
  datatype Invocation = Usage | Failed | Start(opts: Options)

  /** Burner/Program.cs lines 5-71: the argument count check, `-F`, then
      `-E` or `-D`, then the remaining arguments. */
  function Parse(args: seq<string>): (r: Invocation)
  {
    if |args| < 2 || |args| > 4 then Usage
    else
      var fram := IsFlag(args[0], 'f', 'F');
      var a1 := if fram then args[1..] else args;
      var erase := IsFlag(a1[0], 'e', 'E');
      var dump := !erase && IsFlag(a1[0], 'd', 'D');
      var arr := if erase || dump then a1[1..] else a1;
      Operands(fram, erase, dump, arr)
  }

  /** Burner/Program.cs lines 45-71, the arguments after the flags: the
      port, the file (second of two, else third), the region (absent with
      two arguments) and the port's baud rate. An index past the arguments
      or a number that does not parse is `Failed`. */
  function Operands(fram: bool, erase: bool, dump: bool, arr: seq<string>): (r: Invocation)
  {
    if |arr| < 2 then Failed
    else
      var file := arr[if |arr| == 2 then 1 else 2];
      var region := if |arr| == 2 then Some(Region(0, DEFAULT_SIZE)) else ParseRegion(arr[1]);
      var endpoint := ParsePort(arr[0]);
      if region.None? || endpoint.None? then Failed
      else Start(Options(fram, erase, dump, endpoint.value, region.value.addr, region.value.size, file))
  }

  /** The usage text is shown exactly for fewer than two or more than four
      arguments; a run never both erases and dumps. */
  lemma ParseShape(args: seq<string>)
    ensures Parse(args) == Usage <==> |args| < 2 || |args| > 4
    ensures Parse(args).Start? ==> !(Parse(args).opts.erase && Parse(args).opts.dump)
  {
  }

  /** The argument count check admits at most four arguments, so the
      command line with both flags and a region is answered with the usage
      text. */
  lemma AllOptionsRefused(mode: string, port: string, region: string, file: string)
    ensures Parse(["-F", mode, port, region, file]) == Usage
  {
  }

  /** A flag is an argument that lower-cases to "-f", "-e" or "-d". */
  predicate FlagLike(arg: string)
  {
    IsFlag(arg, 'f', 'F') || IsFlag(arg, 'e', 'E') || IsFlag(arg, 'd', 'D')
  }

  /** The command line that asks for `o`: the flags it needs, the port as
      NAME@BAUD, the region in decimal (when `region`, else the default
      region), and the file. */
  function CommandLine(o: Options, region: bool): (r: seq<string>)
  {
    (if o.fram then ["-F"] else []) +
    ((if o.erase then ["-E"] else if o.dump then ["-D"] else []) + OperandLine(o, region))
  }

  /** The arguments after the flags: NAME@BAUD, the region when `region`,
      and the file. */
  function OperandLine(o: Options, region: bool): (r: seq<string>)
  {
    [o.port.name + "@" + Decimal(o.port.baud)] +
    (if region then [Decimal(o.addr) + ":" + Decimal(o.size)] else []) +
    [o.file]
  }

  /** Options a command line of at most four arguments can express. */
  predicate Expressible(o: Options, region: bool)
  {
    !(o.erase && o.dump) && '@' !in o.port.name && !FlagLike(o.port.name + "@" + Decimal(o.port.baud)) &&
    INT_MIN <= o.port.baud <= INT_MAX && INT_MIN <= o.addr <= INT_MAX && INT_MIN <= o.size <= INT_MAX &&
    (!region ==> o.addr == 0 && o.size == DEFAULT_SIZE) &&
    (if o.fram then 1 else 0) + (if o.erase || o.dump then 1 else 0) + (if region then 1 else 0) <= 2
  }

  /** Every expressible set of options, written out as a command line,
      parses back to itself. */
  lemma ParseCommandLine(o: Options, region: bool)
    requires Expressible(o, region)
    ensures Parse(CommandLine(o, region)) == Start(o)
  {
    FlagsStripped(o, region);
    PortRoundTrip(o.port.name, o.port.baud);
    if region {
      RegionRoundTrip(o.addr, o.size);
    }
  }

  /** The flags of a command line are read off and leave the operands. */
  lemma FlagsStripped(o: Options, region: bool)
    requires Expressible(o, region)
    ensures Parse(CommandLine(o, region)) == Operands(o.fram, o.erase, o.dump, OperandLine(o, region))
  {
    var modeFlag: seq<string> := if o.erase then ["-E"] else if o.dump then ["-D"] else [];
    var line := CommandLine(o, region);
    var rest := OperandLine(o, region);
    assert rest[0] == o.port.name + "@" + Decimal(o.port.baud);
    var a1 := modeFlag + rest;
    assert 2 <= |rest| <= 3 && 2 <= |line| <= 4;
    if o.fram {
      assert line[0] == "-F" && line[1..] == a1;
    } else {
      assert line == a1;
    }
    if modeFlag != [] {
      assert a1[0] == modeFlag[0] && a1[1..] == rest;
    } else {
      assert a1 == rest && a1[0] == rest[0];
    }
    assert IsFlag(line[0], 'f', 'F') == o.fram;
    assert IsFlag(a1[0], 'e', 'E') == o.erase;
    assert (!o.erase && IsFlag(a1[0], 'd', 'D')) == o.dump;
  }

  /** How a run of Burner ends. */
  datatype Outcome = ShowedUsage | Threw | Wrote(write: WriteOutcome) | Dumped(file: Option<seq<byte>>)

  /** The program: parse the command line, then dump the region (its file
      written only when every block arrived) or write `data`, the contents
      of the file. */
  method Run(port: Port, args: seq<string>, data: seq<byte>) returns (outcome: Outcome)
    modifies port
    ensures match Parse(args)
      case Usage => outcome == ShowedUsage && port.sent == old(port.sent) &&
        port.lines == old(port.lines) && port.arrivals == old(port.arrivals)
      case Failed => outcome == Threw && port.sent == old(port.sent) &&
        port.lines == old(port.lines) && port.arrivals == old(port.arrivals)
      case Start(o) =>
        if o.dump then
          var r := DumpPath(o.fram, o.addr, o.size, old(port.lines), old(port.arrivals));
          outcome == Dumped(r.file) && port.sent == old(port.sent) + r.sent &&
          port.lines == Drop(old(port.lines), r.read) && port.arrivals == Drop(old(port.arrivals), r.taken)
        else
          var r := WritePath(o.fram, o.erase, o.addr, data, old(port.lines));
          outcome == Wrote(r.outcome) && port.sent == old(port.sent) + r.sent &&
          port.lines == Drop(old(port.lines), r.read) && port.arrivals == old(port.arrivals)
  {
    match Parse(args)
    case Usage =>
      outcome := ShowedUsage;
    case Failed =>
      outcome := Threw;
    case Start(o) =>
      if o.dump {
        var file := Dump(port, o.fram, o.addr, o.size);
        outcome := Dumped(file);
      } else {
        var w := Burn(port, o.fram, o.erase, o.addr, data);
        outcome := Wrote(w);
      }
  }
}
