/** The two sides together: the bytes the host's loops send, fed to the
    programmer's interpreter, make it answer exactly the replies the host
    expects and leave the file on the chip; a dump of the same region then
    hands the same bytes back. */
module RoundTrip {
  import opened Bytes
  import opened Wrappers
  import opened Channel
  import opened Engine
  import opened Transfer
  import opened Chip
  import opened Firmware
  import opened Protocol

  /** The chip cell where block `blk` of a write from `addr` starts. */
  function Base(addr: int, blk: nat): (a: u16)
  {
    (addr + blk * 1024) % 0x1_0000
  }

  /** The replies of a programmer that accepts `n` blocks in a row. */
  function AckLines(n: nat): (r: seq<string>)
    ensures |r| == 2 * n
  {
    if n == 0 then [] else ["GO!", "OK!"] + AckLines(n - 1)
  }

  /** The bytes of a sequence of reply lines, as the programmer sends them. */
  function Concat(lines: seq<string>): (r: seq<byte>)
  {
    if lines == [] then [] else LineBytes(lines[0]) + Concat(lines[1..])
  }

  lemma {:induction false} ConcatAppend(a: seq<string>, b: seq<string>)
    ensures Concat(a + b) == Concat(a) + Concat(b)
    decreases |a|
  {
    if a == [] {
      assert a + b == b;
    } else {
      assert (a + b)[1..] == a[1..] + b;
      ConcatAppend(a[1..], b);
      AppendAssoc(LineBytes(a[0]), Concat(a[1..]), Concat(b));
    }
  }

  /** The lines of `AckLines` are what the host's write loop calls an
      accepting script. */
  lemma {:induction false} AckLinesAccepting(pre: seq<string>, n: nat, post: seq<string>)
    ensures Accepting(pre + AckLines(n) + post, |pre|, n)
    decreases n
  {
    if n > 0 {
      var lines := pre + AckLines(n) + post;
      assert lines[|pre|] == "GO!" && lines[|pre| + 1] == "OK!";
      assert lines == (pre + ["GO!", "OK!"]) + AckLines(n - 1) + post;
      AckLinesAccepting(pre + ["GO!", "OK!"], n - 1, post);
    }
  }

  /** Reading a window in two parts, where the index does not wrap. */
  lemma WindowSplit(rom: seq<byte>, a: u16, x: nat, y: nat)
    requires a + x + y < 0x1_0000
    ensures Window(rom, a, x + y) == Window(rom, a, x) + Window(rom, a + x, y)
  {
    var l, r := Window(rom, a, x + y), Window(rom, a, x) + Window(rom, a + x, y);
    forall i | 0 <= i < x + y ensures l[i] == r[i] {
      if i >= x {
        assert Cell(a + x, i - x) == Cell(a, i);
      }
    }
  }

  /** Consecutive blocks sit 1024 cells apart while the index does not
      wrap. */
  lemma BaseNext(addr: int, blk: nat)
    requires Base(addr, blk) + 1024 < 0x1_0000
    ensures Base(addr, blk + 1) == Base(addr, blk) + 1024
  {
    var q := (addr + blk * 1024) / 0x1_0000;
    assert addr + blk * 1024 == q * 0x1_0000 + Base(addr, blk);
    assert addr + (blk + 1) * 1024 == q * 0x1_0000 + (Base(addr, blk) + 1024);
  }

  /** The chip after blocks `blk` .. `blk + n - 1` of `data` are stored one
      after the other, each at its own base cell. */
  function Stored(rom: seq<byte>, addr: int, data: seq<byte>, blk: nat, n: nat): (r: seq<byte>)
    requires blk * 1024 + n * 1024 <= |data|
    ensures |r| == |rom|
    decreases n
  {
    if n == 0 then rom
    else Stored(Store(rom, Base(addr, blk), Block(data, blk)), addr, data, blk + 1, n - 1)
  }

  /** Storing the blocks leaves every window outside their range as it was. */
  lemma {:induction false} StoredOutside(rom: seq<byte>, addr: int, data: seq<byte>, blk: nat, n: nat, b: u16, len: nat)
    requires blk * 1024 + n * 1024 <= |data| && |rom| < 0x1_0000
    requires Base(addr, blk) + n * 1024 <= |rom| && b + len <= |rom|
    requires b + len <= Base(addr, blk) || Base(addr, blk) + n * 1024 <= b
    ensures Window(Stored(rom, addr, data, blk, n), b, len) == Window(rom, b, len)
    decreases n
  {
    if n > 0 {
      var a := Base(addr, blk);
      var block := Block(data, blk);
      StoreOutsideWindow(rom, a, block, b, len);
      BaseNext(addr, blk);
      StoredOutside(Store(rom, a, block), addr, data, blk + 1, n - 1, b, len);
    }
  }

  /** Storing the blocks leaves their range holding the file's bytes. */
  lemma {:induction false} StoredWindow(rom: seq<byte>, addr: int, data: seq<byte>, blk: nat, n: nat)
    requires blk * 1024 + n * 1024 <= |data| && |rom| < 0x1_0000
    requires Base(addr, blk) + n * 1024 <= |rom|
    ensures Window(Stored(rom, addr, data, blk, n), Base(addr, blk), n * 1024) ==
      data[blk * 1024..blk * 1024 + n * 1024]
    decreases n
  {
    var a := Base(addr, blk);
    if n > 0 {
      var block := Block(data, blk);
      var rom1 := Store(rom, a, block);
      var last := Stored(rom1, addr, data, blk + 1, n - 1);
      BaseNext(addr, blk);
      StoreThenWindow(rom, a, block);
      StoredOutside(rom1, addr, data, blk + 1, n - 1, a, 1024);
      StoredWindow(rom1, addr, data, blk + 1, n - 1);
      WindowSplit(last, a, 1024, (n - 1) * 1024);
      assert data[blk * 1024..blk * 1024 + n * 1024] ==
        block + data[(blk + 1) * 1024..(blk + 1) * 1024 + (n - 1) * 1024];
    }
  }

  /** The three header commands of a block, fed to an idle programmer: the
      address and checksum registers take their operands' low 16 bits, the
      reception of one block is armed, and the reply is "GO!". */
  lemma HeaderArms(s: State, addr: int, blk: nat, sum: int)
    requires Idle(s)
    ensures Serve(s, AddrCmd(addr, blk) + Cmd(0xA9, sum) + COMMIT) ==
      Served(s.(addr := Base(addr, blk), chksum := sum % 0x1_0000, recv := s.mode), LineBytes("GO!"), [])
  {
    var setAddr, setSum := AddrCmd(addr, blk), Cmd(0xA9, sum);
    assert setAddr == Cmd(0xA5, addr + blk * 1024);
    RegisterFrames(s, addr + blk * 1024);
    var s1 := s.(addr := Base(addr, blk));
    RegisterFrames(s1, sum);
    var s2 := s1.(chksum := sum % 0x1_0000);
    Chain(s, setAddr, setSum, s1, [], s2, []);
    CommitFrame(s2, 0xAA55);
    Chain(s, setAddr + setSum, COMMIT, s2, [], s2.(recv := s2.mode), LineBytes("GO!"));
  }

  /** An armed programmer takes exactly one block and is idle again. */
  lemma BlockTaken(s: State, block: seq<byte>)
    requires Good(s) && s.recv == s.mode && |block| == 1024
    ensures var re := OnBlock(s, block);
      Serve(s, block) == Served(re.st, re.out, [])
  {
    assert block[..1024] == block && block[1024..] == [];
  }

  /** One block of a write session, from the programmer's side: the header
      and data of block `blk` are answered "GO!" and "OK!", and the block
      is stored at its base cell. */
  lemma BlockStored(s: State, addr: int, data: seq<byte>, blk: nat)
    requires Good(s) && Idle(s) && blk * 1024 + 1024 <= |data|
    requires Base(addr, blk) + 1024 <= |s.rom| < 0x1_0000
    ensures var block := Block(data, blk);
      Serve(s, BlockHeader(addr, data, blk) + block) ==
        Served(s.(addr := Base(addr, blk), chksum := Checksum(block), recv := 0,
                  rom := Store(s.rom, Base(addr, blk), block)),
               LineBytes("GO!") + LineBytes("OK!"), [])
  {
    var block := Block(data, blk);
    var sum := Checksum(block);
    HeaderArms(s, addr, blk, sum);
    var s3 := s.(addr := Base(addr, blk), chksum := sum, recv := s.mode);
    BlockTaken(s3, block);
    StoreThenWindow(s.rom, s3.addr, block);
    var re := OnBlock(s3, block);
    assert re == Reaction(s3.(recv := 0, rom := Store(s.rom, s3.addr, block)), LineBytes("OK!"));
    Low16(sum);
    assert BlockHeader(addr, data, blk) == AddrCmd(addr, blk) + Cmd(0xA9, sum) + COMMIT;
    assert Serve(s, BlockHeader(addr, data, blk)) == Served(s3, LineBytes("GO!"), []);
    ServeAppend(s, BlockHeader(addr, data, blk), block);
  }

  /** Two pieces of input served one after the other, each leaving nothing
      pending. */
  lemma Chain(s: State, a: seq<byte>, b: seq<byte>, s1: State, o1: seq<byte>, s2: State, o2: seq<byte>)
    requires Serve(s, a) == Served(s1, o1, []) && Serve(s1, b) == Served(s2, o2, [])
    ensures Serve(s, a + b) == Served(s2, o1 + o2, [])
  {
    ServeAppend(s, a, b);
  }

  /** The bytes the programmer sends while accepting `n` blocks. */
  lemma AckBytes(n: nat)
    ensures n > 0 ==> Concat(AckLines(n)) == LineBytes("GO!") + LineBytes("OK!") + Concat(AckLines(n - 1))
  {
    if n > 0 {
      assert AckLines(n) == ["GO!", "OK!"] + AckLines(n - 1);
      ConcatAppend(["GO!", "OK!"], AckLines(n - 1));
      assert Concat(["OK!"]) == LineBytes("OK!") + Concat([]);
      assert Concat(["GO!", "OK!"]) == LineBytes("GO!") + Concat(["OK!"]);
    }
  }

  /** The programmer's state after accepting blocks `blk` .. `blk + n - 1`:
      each block sets the address and checksum registers, is stored, and
      leaves the reception idle. */
  function Accepted(s: State, addr: int, data: seq<byte>, blk: nat, n: nat): (r: State)
    requires blk * 1024 + n * 1024 <= |data|
    decreases n
  {
    if n == 0 then s
    else
      var block := Block(data, blk);
      var a := Base(addr, blk);
      Accepted(s.(addr := a, chksum := Checksum(block), recv := 0, rom := Store(s.rom, a, block)),
               addr, data, blk + 1, n - 1)
  }

  /** Accepting blocks keeps the mode, the SDP state and the invariant, and
      the chip ends as the blocks stored one after the other. */
  lemma {:induction false} AcceptedState(s: State, addr: int, data: seq<byte>, blk: nat, n: nat)
    requires Good(s) && Idle(s) && blk * 1024 + n * 1024 <= |data|
    ensures var r := Accepted(s, addr, data, blk, n);
      Good(r) && Idle(r) && r.mode == s.mode && r.sdp == s.sdp &&
      r.rom == Stored(s.rom, addr, data, blk, n)
    decreases n
  {
    if n > 0 {
      var block := Block(data, blk);
      var a := Base(addr, blk);
      AcceptedState(s.(addr := a, chksum := Checksum(block), recv := 0, rom := Store(s.rom, a, block)),
                    addr, data, blk + 1, n - 1);
    }
  }

  /** The write loop's blocks `blk` .. `blk + n - 1`, fed to an idle
      programmer whose chip holds their range: every block is answered
      "GO!" and "OK!" and accepted. */
  lemma {:induction false} FramesStored(s: State, addr: int, data: seq<byte>, blk: nat, n: nat)
    requires Good(s) && Idle(s) && blk * 1024 + n * 1024 <= |data|
    requires Base(addr, blk) + n * 1024 <= |s.rom|
    ensures Serve(s, Frames(addr, data, blk, n)) ==
      Served(Accepted(s, addr, data, blk, n), Concat(AckLines(n)), [])
    decreases n
  {
    if n == 0 {
      assert Serve(s, []) == Served(s, [], []);
    } else {
      var head := BlockHeader(addr, data, blk) + Block(data, blk);
      var rest := Frames(addr, data, blk + 1, n - 1);
      BlockStored(s, addr, data, blk);
      var w := Serve(s, head);
      BaseNext(addr, blk);
      FramesStored(w.st, addr, data, blk + 1, n - 1);
      Chain(s, head, rest, w.st, w.out, Accepted(w.st, addr, data, blk + 1, n - 1), Concat(AckLines(n - 1)));
      assert Frames(addr, data, blk, n) == head + rest;
      AckBytes(n);
    }
  }

  // ------------------------------------------------------- write session

  /** The replies of a programmer to a whole write session of `n` blocks:
      the SDP-disable reply (EEPROM), the erase reply, two per block, and
      the SDP-enable reply (EEPROM). */
  function Replies(fram: bool, erase: bool, n: nat): (r: seq<string>)
    ensures |r| == (if fram then 0 else 2) + (if erase then 1 else 0) + 2 * n
  {
    SetupReplies(fram, erase) + AckLines(n) + (if fram then [] else ["OK!"])
  }

  /** The replies before the first block. */
  function SetupReplies(fram: bool, erase: bool): (r: seq<string>)
    ensures |r| == (if fram then 0 else 1) + (if erase then 1 else 0)
  {
    (if fram then [] else ["OK!"]) + (if erase then ["OK!"] else [])
  }

  /** One reply line, as bytes. */
  lemma ConcatOne(line: string)
    ensures Concat([line]) == LineBytes(line)
  {
    assert [line][1..] == [];
  }

  /** Mode selection, SDP-disable and the optional erase, fed to an idle
      programmer: the mode is set, SDP is disabled for EEPROM, the chip is
      cleared when asked, and the replies are the ones the host awaits. */
  lemma SetupServed(s: State, fram: bool, erase: bool)
    requires Good(s) && Idle(s)
    ensures var r := Serve(s, Prologue(fram) + (if erase then ERASE else []));
      r.pending == [] && r.out == Concat(SetupReplies(fram, erase)) &&
      r.st == s.(mode := if fram then RECV_FRAM else RECV_EEPROM,
                 sdp := if fram then s.sdp else Disabled,
                 rom := if erase then Zeros(|s.rom|) else s.rom)
  {
    ModeFrames(s);
    var s1 := s.(mode := if fram then RECV_FRAM else RECV_EEPROM);
    if !fram {
      SdpFrames(s1);
      ServeAppend(s, SET_EEPROM, SDP_DISABLE);
    }
    var s2 := s1.(sdp := if fram then s.sdp else Disabled);
    assert Serve(s, Prologue(fram)) == Served(s2, Concat(SetupReplies(fram, false)), []) by {
      ConcatOne("OK!");
    }
    if erase {
      EraseFrame(s2, 0);
      ServeAppend(s, Prologue(fram), ERASE);
      ConcatOne("OK!");
      ConcatAppend(if fram then [] else ["OK!"], ["OK!"]);
    } else {
      assert Prologue(fram) + [] == Prologue(fram);
    }
  }

  /** The SDP-enable command that closes an EEPROM session. */
  lemma CloseServed(s: State, fram: bool)
    requires Good(s) && Idle(s) && s.mode == (if fram then RECV_FRAM else RECV_EEPROM)
    ensures var r := Serve(s, if fram then [] else SDP_ENABLE);
      r.pending == [] && r.out == Concat(if fram then [] else ["OK!"]) &&
      r.st == s.(sdp := if fram then s.sdp else Enabled)
  {
    SdpFrames(s);
    ConcatOne("OK!");
  }

  /** A whole write session, both sides together: the host's write path,
      run against the replies the programmer gives, transfers the file; the
      bytes it sends make the programmer give exactly those replies; and
      afterwards the chip holds the file's whole blocks from
      `addr mod 65536` on, in the chosen mode with SDP enabled again for
      EEPROM. */
  lemma WriteSession(s: State, fram: bool, erase: bool, addr: int, data: seq<byte>)
    requires Good(s) && Idle(s) && Base(addr, 0) + Blocks(|data|) * 1024 <= |s.rom|
    ensures Blocks(|data|) * 1024 <= |data|
    ensures var n := Blocks(|data|);
      var lines := Replies(fram, erase, n);
      var h := WritePath(fram, erase, addr, data, lines);
      var f := Serve(s, h.sent);
      h.outcome == Transferred(|data|) && f.pending == [] && f.out == Concat(lines) &&
      |f.st.rom| == |s.rom| && Good(f.st) && Idle(f.st) && f.st.mode == (if fram then RECV_FRAM else RECV_EEPROM) &&
      (!fram ==> f.st.sdp == Enabled) &&
      Window(f.st.rom, Base(addr, 0), n * 1024) == data[..n * 1024]
  {
    var n := Blocks(|data|);
    WriteHost(fram, erase, addr, data);
    WriteServedBy(s, fram, erase, addr, data, n);
    assert data[..n * 1024] == data[0..n * 1024];
  }

  /** The host's side of a write session the programmer accepts: the file
      is transferred, and the bytes sent are the setup, the frames of every
      whole block, and the SDP-enable command (EEPROM). */
  lemma WriteHost(fram: bool, erase: bool, addr: int, data: seq<byte>)
    ensures Blocks(|data|) * 1024 <= |data|
    ensures var n := Blocks(|data|);
      var h := WritePath(fram, erase, addr, data, Replies(fram, erase, n));
      h.outcome == Transferred(|data|) &&
      h.sent == Prologue(fram) + (if erase then ERASE else []) + Frames(addr, data, 0, n) +
                (if fram then [] else SDP_ENABLE)
  {
    var n := Blocks(|data|);
    BlocksFit(|data|);
    var pre := SetupReplies(fram, erase);
    var post: seq<string> := if fram then [] else ["OK!"];
    var lines := Replies(fram, erase, n);
    AckLinesAccepting(pre, n, post);
    var r0 := (if fram then 0 else 1) + (if erase then 1 else 0);
    assert erase ==> LineAt(lines, r0 - 1) == "OK!";
    WriteSessionAcked(fram, erase, addr, data, lines);
  }

  /** The programmer's side of a write session of `n` blocks: it gives the
      session's replies, and ends in the chosen mode with SDP enabled again
      (EEPROM) and the blocks stored from `addr mod 65536` on. */
  lemma WriteServedBy(s: State, fram: bool, erase: bool, addr: int, data: seq<byte>, n: nat)
    requires Good(s) && Idle(s) && n * 1024 <= |data| && Base(addr, 0) + n * 1024 <= |s.rom|
    ensures var f := Serve(s, Prologue(fram) + (if erase then ERASE else []) + Frames(addr, data, 0, n) +
                              (if fram then [] else SDP_ENABLE));
      f.pending == [] && f.out == Concat(Replies(fram, erase, n)) &&
      |f.st.rom| == |s.rom| && Good(f.st) && Idle(f.st) && f.st.mode == (if fram then RECV_FRAM else RECV_EEPROM) &&
      (!fram ==> f.st.sdp == Enabled) &&
      Window(f.st.rom, Base(addr, 0), n * 1024) == data[0..n * 1024]
  {
    var pre := SetupReplies(fram, erase);
    var post: seq<string> := if fram then [] else ["OK!"];
    var setup := Prologue(fram) + (if erase then ERASE else []);
    var frames := Frames(addr, data, 0, n);
    var tail := if fram then [] else SDP_ENABLE;
    SetupServed(s, fram, erase);
    var s1 := Serve(s, setup).st;
    FramesStored(s1, addr, data, 0, n);
    AcceptedState(s1, addr, data, 0, n);
    var s2 := Accepted(s1, addr, data, 0, n);
    CloseServed(s2, fram);
    var s3 := s2.(sdp := if fram then s2.sdp else Enabled);
    Chain(s, setup, frames, s1, Concat(pre), s2, Concat(AckLines(n)));
    Chain(s, setup + frames, tail, s2, Concat(pre) + Concat(AckLines(n)), s3, Concat(post));
    ConcatAppend(pre, AckLines(n));
    ConcatAppend(pre + AckLines(n), post);
    StoredWindow(s1.rom, addr, data, 0, n);
  }

  // -------------------------------------------------------- dump session

  /** The pages of blocks `blk` .. `blk + n - 1`, as the chip holds them. */
  function Pages(rom: seq<byte>, addr: int, blk: nat, n: nat): (r: seq<seq<byte>>)
    ensures |r| == n && forall i :: 0 <= i < n ==> |r[i]| == 1024
  {
    var r := seq(n, i requires 0 <= i < n => Window(rom, Base(addr, blk + i), 1024));
    assert forall i :: 0 <= i < n ==> r[i] == Window(rom, Base(addr, blk + i), 1024);
    r
  }

  /** What the programmer sends for a run of dump requests: "GO!" and the
      sealed page, request after request. */
  function Answers(pages: seq<seq<byte>>): (r: seq<byte>)
    requires forall i :: 0 <= i < |pages| ==> |pages[i]| == 1024
  {
    if pages == [] then [] else LineBytes("GO!") + Seal(pages[0]) + Answers(pages[1..])
  }

  /** The line replies of a dump the programmer serves: one "GO!" per block. */
  function GoLines(n: nat): (r: seq<string>)
    ensures |r| == n && forall i :: 0 <= i < n ==> r[i] == "GO!"
  {
    seq(n, i => "GO!")
  }

  /** The timed reads of a dump the programmer serves: one sealed page per
      block, in time. */
  function Arrivals(pages: seq<seq<byte>>): (r: seq<Arrival>)
    requires forall i :: 0 <= i < |pages| ==> |pages[i]| == 1024
    ensures |r| == |pages| && forall i :: 0 <= i < |pages| ==> r[i] == Arrived(Seal(pages[i]))
  {
    seq(|pages|, i requires 0 <= i < |pages| => Arrived(Seal(pages[i])))
  }

  /** Dropping the first page. */
  lemma PagesTail(rom: seq<byte>, addr: int, blk: nat, n: nat)
    requires n > 0
    ensures Pages(rom, addr, blk, n)[1..] == Pages(rom, addr, blk + 1, n - 1)
  {
    var l, r := Pages(rom, addr, blk, n)[1..], Pages(rom, addr, blk + 1, n - 1);
    forall i | 0 <= i < n - 1 ensures l[i] == r[i] {
      assert blk + (i + 1) == blk + 1 + i;
    }
  }

  /** The pages of a region that does not wrap, laid end to end, are the
      region. */
  lemma {:induction false} PagesFlatten(rom: seq<byte>, addr: int, blk: nat, n: nat)
    requires Base(addr, blk) + n * 1024 < 0x1_0000
    ensures Flatten(Pages(rom, addr, blk, n)) == Window(rom, Base(addr, blk), n * 1024)
    decreases n
  {
    if n > 0 {
      var p := Pages(rom, addr, blk, n);
      PagesTail(rom, addr, blk, n);
      BaseNext(addr, blk);
      PagesFlatten(rom, addr, blk + 1, n - 1);
      WindowSplit(rom, Base(addr, blk), 1024, (n - 1) * 1024);
      assert p[0] == Window(rom, Base(addr, blk), 1024);
    }
  }

  /** The dump requests for blocks `blk` .. `blk + n - 1`, fed to an idle
      programmer: each is answered with "GO!" and the sealed page at its
      base cell, and only the address register changes. */
  lemma {:induction false} RequestsServed(s: State, addr: int, blk: nat, n: nat)
    requires Good(s) && Idle(s)
    ensures Serve(s, Requests(addr, blk, n)) ==
      Served(if n == 0 then s else s.(addr := Base(addr, blk + n - 1)), Answers(Pages(s.rom, addr, blk, n)), [])
    decreases n
  {
    if n == 0 {
      assert Serve(s, []) == Served(s, [], []);
    } else {
      var a := Base(addr, blk);
      var s1 := s.(addr := a);
      var answer := LineBytes("GO!") + Page(s.rom, a);
      RequestServed(s, addr, blk);
      RequestsServed(s1, addr, blk + 1, n - 1);
      var last := if n == 1 then s1 else s.(addr := Base(addr, blk + n - 1));
      Chain(s, AddrCmd(addr, blk) + COMMIT_DUMP, Requests(addr, blk + 1, n - 1), s1, answer,
            last, Answers(Pages(s.rom, addr, blk + 1, n - 1)));
      AnswersCons(s.rom, addr, blk, n);
    }
  }

  /** One dump request: the address register takes the block's base cell
      and the reply is "GO!" and the page there. */
  lemma RequestServed(s: State, addr: int, blk: nat)
    requires Idle(s)
    ensures Serve(s, AddrCmd(addr, blk) + COMMIT_DUMP) ==
      Served(s.(addr := Base(addr, blk)), LineBytes("GO!") + Page(s.rom, Base(addr, blk)), [])
  {
    var s1 := s.(addr := Base(addr, blk));
    RegisterFrames(s, addr + blk * 1024);
    DumpFrame(s1);
    Chain(s, AddrCmd(addr, blk), COMMIT_DUMP, s1, [], s1, LineBytes("GO!") + Page(s.rom, Base(addr, blk)));
  }

  /** The answers to a run of requests: the first page's, then the rest. */
  lemma AnswersCons(rom: seq<byte>, addr: int, blk: nat, n: nat)
    requires n > 0
    ensures Answers(Pages(rom, addr, blk, n)) ==
      LineBytes("GO!") + Page(rom, Base(addr, blk)) + Answers(Pages(rom, addr, blk + 1, n - 1))
  {
    var p := Pages(rom, addr, blk, n);
    PagesTail(rom, addr, blk, n);
    assert p[0] == Window(rom, Base(addr, blk), 1024);
    SealPage(rom, Base(addr, blk));
  }

  /** The programmer's page is the host's sealed frame of the window. */
  lemma SealPage(rom: seq<byte>, a: u16)
    ensures Seal(Window(rom, a, 1024)) == Page(rom, a)
  {
  }

  /** A whole dump session, both sides together: the host's dump path, run
      against the replies the programmer gives, reads every block and
      writes the file; the requests it sends make the programmer give
      exactly those replies without changing the chip; and the file is the
      region of `size / 1024` blocks from `addr mod 65536` on. */
  lemma DumpSession(s: State, fram: bool, addr: int, size: int)
    requires Good(s) && Idle(s) && 0 <= size && Base(addr, 0) + Blocks(size) * 1024 <= |s.rom|
    ensures var n := Blocks(size);
      var pages := Pages(s.rom, addr, 0, n);
      var d := DumpPath(fram, addr, size, GoLines(n), Arrivals(pages));
      var f := Serve(s, d.sent);
      f.pending == [] && f.out == Answers(pages) && f.st.rom == s.rom &&
      d.file == Some(Window(s.rom, Base(addr, 0), n * 1024))
  {
    var n := Blocks(size);
    DumpHost(s.rom, fram, addr, size);
    DumpServedBy(s, fram, addr, n);
  }

  /** The host's side of a dump the programmer serves: it sends the mode
      selection (FRAM) and one request per block, and writes the pages. */
  lemma DumpHost(rom: seq<byte>, fram: bool, addr: int, size: int)
    requires 0 <= size && Base(addr, 0) + Blocks(size) * 1024 < 0x1_0000
    ensures var n := Blocks(size);
      var pages := Pages(rom, addr, 0, n);
      DumpPath(fram, addr, size, GoLines(n), Arrivals(pages)) ==
        DumpResult((if fram then SET_FRAM else []) + Requests(addr, 0, n), n, n,
                   Some(Window(rom, Base(addr, 0), n * 1024)))
  {
    var n := Blocks(size);
    BlocksFit(size);
    var pages := Pages(rom, addr, 0, n);
    var lines, arrivals := GoLines(n), Arrivals(pages);
    assert Serves(lines, arrivals, pages, 0, 0) by {
      forall i | 0 <= i < |pages|
        ensures |pages[i]| == 1024 && LineAt(lines, 0 + i) == "GO!" && ArrivalAt(arrivals, 0 + i) == Arrived(Seal(pages[i]))
      {
        ScriptsServe(pages, i);
      }
    }
    DumpServed(addr, size, lines, arrivals, pages, 0, 0, 0);
    PagesFlatten(rom, addr, 0, n);
  }

  /** The scripts of a served dump give the `i`-th read "GO!" and the
      `i`-th sealed page. */
  lemma ScriptsServe(pages: seq<seq<byte>>, i: nat)
    requires forall j :: 0 <= j < |pages| ==> |pages[j]| == 1024
    requires i < |pages|
    ensures LineAt(GoLines(|pages|), i) == "GO!" && ArrivalAt(Arrivals(pages), i) == Arrived(Seal(pages[i]))
  {
  }

  /** The programmer's side of a dump: the requests leave the chip as it
      was and are answered page by page. */
  lemma DumpServedBy(s: State, fram: bool, addr: int, n: nat)
    requires Good(s) && Idle(s)
    ensures var f := Serve(s, (if fram then SET_FRAM else []) + Requests(addr, 0, n));
      f.pending == [] && f.out == Answers(Pages(s.rom, addr, 0, n)) && f.st.rom == s.rom
  {
    if fram {
      ModeFrames(s);
      var s1 := s.(mode := RECV_FRAM);
      RequestsServed(s1, addr, 0, n);
      ServeAppend(s, SET_FRAM, Requests(addr, 0, n));
    } else {
      RequestsServed(s, addr, 0, n);
      assert [] + Requests(addr, 0, n) == Requests(addr, 0, n);
    }
  }

  /** Write then dump: a file written by a whole write session reads back,
      by a dump of the same address and size, as its whole blocks; for a
      file whose length is a multiple of 1024, as the file itself. */
  lemma WriteThenDump(s: State, fram: bool, erase: bool, addr: int, data: seq<byte>)
    requires Good(s) && Idle(s) && Base(addr, 0) + Blocks(|data|) * 1024 <= |s.rom|
    ensures Blocks(|data|) * 1024 <= |data|
    ensures var n := Blocks(|data|);
      var h := WritePath(fram, erase, addr, data, Replies(fram, erase, n));
      var f := Serve(s, h.sent).st;
      var d := DumpPath(fram, addr, |data|, GoLines(n), Arrivals(Pages(f.rom, addr, 0, n)));
      h.outcome == Transferred(|data|) &&
      d.file == Some(data[..n * 1024]) && (|data| % 1024 == 0 ==> d.file == Some(data))
  {
    var n := Blocks(|data|);
    WriteSession(s, fram, erase, addr, data);
    var h := WritePath(fram, erase, addr, data, Replies(fram, erase, n));
    var f := Serve(s, h.sent).st;
    DumpSession(f, fram, addr, |data|);
    if |data| % 1024 == 0 {
      assert n * 1024 == |data| by {
        QuotTruncates(|data|, 1024);
      }
      assert data[..n * 1024] == data;
    }
  }
}
