/** Properties of the programmer's interpreter, stated on the byte stream
    it reads: what each of the host's command frames does to it, what a
    received block does to the chip, and what a dump sends back. */
module Protocol {
  import opened Bytes
  import opened Chip
  import opened Firmware
  import opened Engine

  /** The interpreter is waiting for an opcode. */
  predicate Idle(s: State)
  {
    s.recv != s.mode
  }

  /** Running the interpreter over two pieces of input, the first of which
      leaves nothing pending, is running it over the first piece and then
      over the second. */
  lemma {:induction false} ServeAppend(s: State, a: seq<byte>, b: seq<byte>)
    requires Serve(s, a).pending == []
    ensures var first := Serve(s, a); var second := Serve(first.st, b);
      Serve(s, a + b) == second.(out := first.out + second.out)
    decreases |a|
  {
    var first := Serve(s, a);
    if s.recv == s.mode {
      if |a| < 1024 {
        assert a + b == b;
      } else {
        var re := OnBlock(s, a[..1024]);
        assert (a + b)[..1024] == a[..1024] && (a + b)[1024..] == a[1024..] + b;
        ServeAppend(re.st, a[1024..], b);
        AppendAssoc(re.out, Serve(re.st, a[1024..]).out, Serve(first.st, b).out);
      }
    } else if a == [] {
      assert a + b == b;
    } else if !TakesOperand(a[0]) {
      assert (a + b)[1..] == a[1..] + b;
      ServeAppend(s, a[1..], b);
    } else if |a| >= 3 {
      var re := OnCommand(s, a[0], Le16(a[1], a[2]));
      assert (a + b)[3..] == a[3..] + b;
      ServeAppend(re.st, a[3..], b);
      AppendAssoc(re.out, Serve(re.st, a[3..]).out, Serve(first.st, b).out);
    }
  }

  /** A command frame built by the host is decoded by an idle interpreter
      as its opcode and the operand's low 16 bits. */
  lemma ServeCmd(s: State, op: byte, operand: int)
    requires Idle(s) && TakesOperand(op)
    ensures var re := OnCommand(s, op, operand % 0x1_0000);
      Serve(s, Cmd(op, operand)) == Served(re.st, re.out, [])
  {
    var c := Cmd(op, operand);
    var re := OnCommand(s, op, operand % 0x1_0000);
    assert c[3..] == [];
    assert Serve(re.st, []) == Served(re.st, [], []);
  }

  /** Every step keeps the interpreter's invariant: a valid mode, `recv`
      idle or equal to the mode, and the chip's size. */
  lemma {:induction false} ServeKeepsGood(s: State, input: seq<byte>)
    requires Good(s)
    ensures Good(Serve(s, input).st) && |Serve(s, input).st.rom| == |s.rom|
    decreases |input|
  {
    if s.recv == s.mode {
      if |input| >= 1024 {
        ServeKeepsGood(OnBlock(s, input[..1024]).st, input[1024..]);
      }
    } else if input != [] {
      if !TakesOperand(input[0]) {
        ServeKeepsGood(s, input[1..]);
      } else if |input| >= 3 {
        ServeKeepsGood(OnCommand(s, input[0], Le16(input[1], input[2])).st, input[3..]);
      }
    }
  }

  /** A byte that is not a known opcode is skipped without effect. */
  lemma UnknownSkipped(s: State, op: byte, rest: seq<byte>)
    requires Idle(s) && !TakesOperand(op)
    ensures Serve(s, [op] + rest) == Serve(s, rest)
  {
    assert ([op] + rest)[1..] == rest;
  }

  /** Mode selection: SET_FRAM selects FRAM and SET_EEPROM selects EEPROM;
      nothing else changes and nothing is sent. */
  lemma ModeFrames(s: State)
    requires Idle(s)
    ensures Serve(s, SET_FRAM) == Served(s.(mode := RECV_FRAM), [], [])
    ensures Serve(s, SET_EEPROM) == Served(s.(mode := RECV_EEPROM), [], [])
  {
    assert SET_FRAM == Cmd(0x99, 0x6666);
    ServeCmd(s, 0x99, 0x6666);
    assert SET_EEPROM == Cmd(0x99, 0);
    ServeCmd(s, 0x99, 0);
  }

  /** Any operand other than 0x6666 selects EEPROM mode. */
  lemma ModeDefaultsToEeprom(s: State, operand: int)
    requires Idle(s) && operand % 0x1_0000 != 0x6666
    ensures Serve(s, Cmd(0x99, operand)) == Served(s.(mode := RECV_EEPROM), [], [])
  {
    ServeCmd(s, 0x99, operand);
  }

  /** SET_ADDR and SET_CHECKSUM store their operand's low 16 bits and change
      nothing else. */
  lemma RegisterFrames(s: State, operand: int)
    requires Idle(s)
    ensures Serve(s, Cmd(0xA5, operand)) == Served(s.(addr := operand % 0x1_0000), [], [])
    ensures Serve(s, Cmd(0xA9, operand)) == Served(s.(chksum := operand % 0x1_0000), [], [])
  {
    ServeCmd(s, 0xA5, operand);
    ServeCmd(s, 0xA9, operand);
  }

  /** The SDP commands answer "OK!" and are recorded only in EEPROM mode;
      in FRAM mode they are silent and change nothing. */
  lemma SdpFrames(s: State)
    requires Idle(s) && Good(s)
    ensures s.mode == RECV_EEPROM ==>
      Serve(s, SDP_DISABLE) == Served(s.(sdp := Disabled), LineBytes("OK!"), []) &&
      Serve(s, SDP_ENABLE) == Served(s.(sdp := Enabled), LineBytes("OK!"), [])
    ensures s.mode == RECV_FRAM ==>
      Serve(s, SDP_DISABLE) == Served(s, [], []) && Serve(s, SDP_ENABLE) == Served(s, [], [])
  {
    assert SDP_DISABLE == Cmd(0x59, 0x5555) && SDP_ENABLE == Cmd(0x59, 0);
    ServeCmd(s, 0x59, 0x5555);
    ServeCmd(s, 0x59, 0);
  }

  /** ERASE clears every cell and answers "OK!"; afterwards every page
      reads as zeros. */
  lemma EraseFrame(s: State, a: u16)
    requires Idle(s)
    ensures var r := Serve(s, ERASE);
      r == Served(s.(rom := Zeros(|s.rom|)), LineBytes("OK!"), []) &&
      Window(r.st.rom, a, 1024) == Zeros(1024)
  {
    assert ERASE == Cmd(0x55, 0x3232);
    ServeCmd(s, 0x55, 0x3232);
    assert OnCommand(s, 0x55, 0x3232) == Reaction(s.(rom := Zeros(|s.rom|)), LineBytes("OK!"));
    ErasedWindow(|s.rom|, a, 1024);
  }

  /** COMMIT arms the reception of one block in the current mode and
      answers "GO!"; an operand other than 0xAA55 is ignored. */
  lemma CommitFrame(s: State, operand: int)
    requires Idle(s)
    ensures Serve(s, COMMIT) == Served(s.(recv := s.mode), LineBytes("GO!"), [])
    ensures operand % 0x1_0000 != 0xAA55 ==> Serve(s, Cmd(0xAA, operand)) == Served(s, [], [])
  {
    assert COMMIT == Cmd(0xAA, 0xAA55);
    ServeCmd(s, 0xAA, 0xAA55);
    assert OnCommand(s, 0xAA, 0xAA55) == Reaction(s.(recv := s.mode), LineBytes("GO!"));
    ServeCmd(s, 0xAA, operand);
  }

  /** A block whose sum is not `chksum` is answered "ERR" and leaves the
      chip as it was. */
  lemma BadBlockRefused(s: State, block: seq<byte>)
    requires |block| == 1024 && Checksum(block) != s.chksum
    ensures var r := OnBlock(s, block);
      r.st == s.(recv := 0) && r.out == LineBytes("ERR")
  {
  }

  /** A block with the right sum lands on the chip: when its 1024 cells are
      on the chip, reading them back gives the block and the reply is
      "OK!"; the cells outside the block keep their values either way. */
  lemma GoodBlockStored(s: State, block: seq<byte>)
    requires |block| == 1024 && Checksum(block) == s.chksum && |s.rom| < 0x1_0000
    ensures var r := OnBlock(s, block);
      r.st.recv == 0 && |r.st.rom| == |s.rom| &&
      (forall k :: 0 <= k < |s.rom| && (forall i :: 0 <= i < 1024 ==> Cell(s.addr, i) != k) ==>
        r.st.rom[k] == s.rom[k]) &&
      (s.addr + 1024 <= |s.rom| ==> Window(r.st.rom, s.addr, 1024) == block && r.out == LineBytes("OK!"))
  {
    forall k | 0 <= k < |s.rom| && (forall i :: 0 <= i < 1024 ==> Cell(s.addr, i) != k)
      ensures Store(s.rom, s.addr, block)[k] == s.rom[k]
    {
      StoreFrame(s.rom, s.addr, block, k);
    }
    if s.addr + 1024 <= |s.rom| {
      StoreThenWindow(s.rom, s.addr, block);
    }
  }

  /** The page a dump sends is accepted by the host's frame check, carries
      the chip's cells, and is zero wherever the index runs past the chip. */
  lemma PageAccepted(rom: seq<byte>, a: u16)
    ensures var p := Page(rom, a);
      FrameValid(p) && p[..1024] == Window(rom, a, 1024) &&
      forall i :: 0 <= i < 1024 && Cell(a, i) >= |rom| ==> p[i] == 0
  {
    var p := Page(rom, a);
    var page := Window(rom, a, 1024);
    SealedFrameValid(page);
    assert p == page + [Lo(Checksum(page)), Hi(Checksum(page))];
  }

  /** COMMIT_DUMP answers "GO!" and the page at `addr`, and changes
      nothing. */
  lemma DumpFrame(s: State)
    requires Idle(s)
    ensures Serve(s, COMMIT_DUMP) == Served(s, LineBytes("GO!") + Page(s.rom, s.addr), [])
  {
    assert COMMIT_DUMP == Cmd(0xAB, 0x55AA);
    ServeCmd(s, 0xAB, 0x55AA);
    assert OnCommand(s, 0xAB, 0x55AA) == Reaction(s, LineBytes("GO!") + Page(s.rom, s.addr));
  }
}
