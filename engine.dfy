/** The host side of the block-transfer protocol (Burner/Program.cs, whose
    write path RomLoader/Program.cs repeats): command framing, the per-block
    checksum, and the write and dump loops driven by the far end's replies.

    Each path is given twice: as a specification function of the reply
    script (what goes on the wire, how many replies are consumed, what the
    outcome is) and as the imperative loop of the source, proved to produce
    exactly that. */
module Engine {
  import opened Bytes
  import opened Wrappers
  import opened Channel

  /** C#'s `/` on `int`, which truncates toward zero (Dafny's rounds down). */
  function Quot(a: int, b: int): int
    requires b > 0
  {
    if a >= 0 then a / b else -((-a) / b)
  }

  /** `Quot` is truncating division: the remainder takes the sign of the
      dividend and is smaller than the divisor in magnitude. */
  lemma QuotTruncates(a: int, b: int)
    requires b > 0
    ensures a >= 0 ==> 0 <= a - Quot(a, b) * b < b
    ensures a < 0 ==> -b < a - Quot(a, b) * b <= 0
  {
    if a < 0 {
      var d := (-a) / b;
      assert -a == d * b + (-a) % b;
      assert a - Quot(a, b) * b == -((-a) % b);
    }
  }

  /** The number of blocks the loops run for a length `n`: `n / 1024`,
      rounded toward zero, not up. */
  function Blocks(n: int): int
  {
    Quot(n, 1024)
  }

  /** Inside either loop (`blk < n / 1024`) a whole block is available, so
      `len = n - blk * 1024` is never below `1024`. */
  lemma BlockInRange(n: int, blk: int)
    requires 0 <= blk < Blocks(n)
    ensures blk * 1024 + 1024 <= n
  {
  }

  // ---------------------------------------------------------------- framing

  const SET_FRAM: seq<byte> := [0x99, 0x66, 0x66]
  const SET_EEPROM: seq<byte> := [0x99, 0x00, 0x00]
  const SDP_DISABLE: seq<byte> := [0x59, 0x55, 0x55]
  const SDP_ENABLE: seq<byte> := [0x59, 0x00, 0x00]
  const ERASE: seq<byte> := [0x55, 0x32, 0x32]
  const COMMIT: seq<byte> := [0xAA, 0x55, 0xAA]
  const COMMIT_DUMP: seq<byte> := [0xAB, 0xAA, 0x55]

  /** SET_ADDR for block `blk`: `0xA5` and the two low bytes of
      `(uint)(addr + blk * 1024)`. */
  function AddrCmd(addr: int, blk: int): (r: seq<byte>)
    ensures |r| == 3 && r[0] == 0xA5
    ensures Le16(r[1], r[2]) == (addr + blk * 1024) % 0x1_0000
  {
    Cmd(0xA5, addr + blk * 1024)
  }

  /** Only the low 16 bits of a block address are transmitted: base
      addresses that differ by a multiple of 65536 produce the same command. */
  lemma AddressAliases(addr: int, blk: int, k: int)
    ensures AddrCmd(addr + k * 0x1_0000, blk) == AddrCmd(addr, blk)
  {
    var x := addr + blk * 1024;
    var y := addr + k * 0x1_0000 + blk * 1024;
    assert y == x + (k * 256) * 256;
    assert y % 256 == x % 256;
    assert y / 256 == x / 256 + k * 256;
    assert (y / 256) % 256 == (x / 256) % 256;
  }

  /** The `blk`-th 1024-byte block of the file. */
  function Block(data: seq<byte>, blk: nat): (r: seq<byte>)
    requires blk * 1024 + 1024 <= |data|
    ensures |r| == 1024
  {
    data[blk * 1024..blk * 1024 + 1024]
  }

  /** The three commands that announce block `blk` of a write: SET_ADDR,
      SET_CHECKSUM with the block's 16-bit sum, and COMMIT. */
  function BlockHeader(addr: int, data: seq<byte>, blk: nat): seq<byte>
    requires blk * 1024 + 1024 <= |data|
  {
    AddrCmd(addr, blk) + Cmd(0xA9, Checksum(Block(data, blk))) + COMMIT
  }

  /** The header's nine bytes: SET_ADDR with the 16-bit block address,
      `0xA9` with the block checksum low byte first, then COMMIT. */
  lemma BlockHeaderLayout(addr: int, data: seq<byte>, blk: nat)
    requires blk * 1024 + 1024 <= |data|
    ensures var h := BlockHeader(addr, data, blk);
      |h| == 9 && h[0] == 0xA5 && Le16(h[1], h[2]) == (addr + blk * 1024) % 0x1_0000 &&
      h[3] == 0xA9 && Le16(h[4], h[5]) == Checksum(data[blk * 1024..blk * 1024 + 1024]) &&
      h[6..] == COMMIT
  {
    var a := AddrCmd(addr, blk);
    var c := Cmd(0xA9, Checksum(Block(data, blk)));
    var h := a + c + COMMIT;
    assert h[0] == a[0] && h[1] == a[1] && h[2] == a[2];
    assert h[3] == c[0] && h[4] == c[1] && h[5] == c[2];
    assert h[6..] == COMMIT;
    Low16(Checksum(Block(data, blk)));
  }

  // -------------------------------------------------------------- checksum

  /** The accumulator loop `chksum = 0; for (j ...) chksum += data[start + j];`
      on a `ushort`: it yields the 16-bit checksum of the range. */
  method BlockChecksum(data: seq<byte>, start: nat, count: nat) returns (chksum: u16)
    requires start + count <= |data|
    ensures chksum == Checksum(data[start..start + count])
  {
    chksum := 0;
    var j := 0;
    while j < count
      invariant 0 <= j <= count
      invariant chksum == Checksum(data[start..start + j])
    {
      assert data[start..start + j + 1] == data[start..start + j] + [data[start + j]];
      ChecksumSnoc(data[start..start + j], data[start + j]);
      chksum := AddWrap(chksum, data[start + j]);
      j := j + 1;
    }
  }

  /** A dump frame (1024 payload bytes and two checksum bytes) is accepted
      when the payload's 16-bit sum equals the trailing pair, low byte first. */
  predicate FrameValid(buff: seq<byte>)
    requires |buff| == 1024 + 2
  {
    var sum := Checksum(buff[..1024]);
    Lo(sum) == buff[1024] && Hi(sum) == buff[1024 + 1]
  }

  /** The acceptance test is exactly "trailing pair, read as a little-endian
      16-bit value, equals the payload checksum". */
  lemma FrameValidIff(buff: seq<byte>)
    requires |buff| == 1024 + 2
    ensures FrameValid(buff) <==> Le16(buff[1024], buff[1024 + 1]) == Checksum(buff[..1024])
  {
    var sum := Checksum(buff[..1024]);
    var lo, hi := buff[1024], buff[1024 + 1];
    if Lo(sum) == lo && Hi(sum) == hi {
      SplitJoin(sum);
      Low16(sum);
      assert Le16(lo, hi) == sum;
    }
    if Le16(lo, hi) == sum {
      JoinSplit(lo, hi);
      assert Lo(sum) == lo && Hi(sum) == hi;
    }
  }

  /** A payload followed by its own checksum, low byte first, is accepted. */
  lemma SealedFrameValid(payload: seq<byte>)
    requires |payload| == 1024
    ensures var frame := payload + [Lo(Checksum(payload)), Hi(Checksum(payload))];
      |frame| == 1024 + 2 && FrameValid(frame) && frame[..1024] == payload
  {
    var frame := payload + [Lo(Checksum(payload)), Hi(Checksum(payload))];
    assert frame[..1024] == payload;
  }

  /** The check of Burner/Program.cs on a received buffer: recompute the sum
      with a `ushort` accumulator and compare both trailing bytes. */
  method CheckFrame(buff: seq<byte>) returns (ok: bool)
    requires |buff| == 1024 + 2
    ensures ok == FrameValid(buff)
  {
    var chksum := BlockChecksum(buff, 0, 1024);
    assert buff[0..1024] == buff[..1024];
    ok := Lo(chksum) == buff[1024] && Hi(chksum) == buff[1024 + 1];
  }

  // ------------------------------------------------------------ write path

  /** What one block of the write loop does: bytes sent, the reply count
      after it, and whether it ends the loop. */
  datatype Step = Step(sent: seq<byte>, read: nat, stop: bool)

  /** One pass of the write loop for block `blk`, with `read` line replies
      already consumed: the header; on a "GO!" COMMIT reply the 1024 data
      bytes and one more reply, of which "ERR" stops the loop; any other
      COMMIT reply skips the block and sends no data. */
  function WriteStep(addr: int, data: seq<byte>, lines: seq<string>, blk: nat, read: nat): (st: Step)
    requires blk * 1024 + 1024 <= |data|
  {
    var head := BlockHeader(addr, data, blk);
    if LineAt(lines, read) != "GO!" then Step(head, read + 1, false)
    else Step(head + Block(data, blk), read + 2, LineAt(lines, read + 1) == "ERR")
  }

  /** Where a loop stands: bytes sent, line replies consumed, and the value
      of `blk` when it ended. */
  datatype Progress = Progress(sent: seq<byte>, read: nat, blk: nat)

  /** The write loop from block `blk` on. Only `|data| / 1024` blocks (rounded
      down) are ever visited. */
  function WriteBlocks(addr: int, data: seq<byte>, lines: seq<string>, blk: nat, read: nat): (r: Progress)
    decreases Blocks(|data|) - blk
  {
    if blk >= Blocks(|data|) then Progress([], read, blk)
    else
      BlockInRange(|data|, blk);
      var st := WriteStep(addr, data, lines, blk, read);
      if st.stop then Progress(st.sent, st.read, blk)
      else
        var rest := WriteBlocks(addr, data, lines, blk + 1, st.read);
        rest.(sent := st.sent + rest.sent)
  }

  /** How a write session ends: the erase was not acknowledged (nothing
      written), the loop stopped at block `blk` on "ERR" (no byte count
      reported), or every block was visited and `bytes` are reported. */
  datatype WriteOutcome = EraseRefused | Stopped(blk: nat) | Transferred(bytes: nat)

  datatype WriteResult = WriteResult(sent: seq<byte>, read: nat, outcome: WriteOutcome)

  /** Mode selection, and for EEPROM the SDP-disable command (one reply). */
  function Prologue(fram: bool): (r: seq<byte>)
  {
    if fram then SET_FRAM else SET_EEPROM + SDP_DISABLE
  }

  /** The write path of Burner/Program.cs (and RomLoader/Program.cs) against
      the reply script `lines`. */
  function WritePath(fram: bool, erase: bool, addr: int, data: seq<byte>, lines: seq<string>): (r: WriteResult)
  {
    var r0 := if fram then 0 else 1;
    var head := Prologue(fram) + (if erase then ERASE else []);
    if erase && LineAt(lines, r0) != "OK!" then
      WriteResult(head, r0 + 1, EraseRefused)
    else
      var loop := WriteBlocks(addr, data, lines, 0, if erase then r0 + 1 else r0);
      var tail := if fram then [] else SDP_ENABLE;
      WriteResult(head + loop.sent + tail, if fram then loop.read else loop.read + 1,
                  if loop.blk == Blocks(|data|) then Transferred(|data|) else Stopped(loop.blk))
  }

  /** `for (j ...) write(data[start + j]);`: one byte per `write` call. */
  method SendBytes(port: Port, data: seq<byte>, start: nat, count: nat)
    requires start + count <= |data|
    modifies port
    ensures port.sent == old(port.sent) + data[start..start + count]
    ensures port.lines == old(port.lines) && port.arrivals == old(port.arrivals)
  {
    var j := 0;
    while j < count
      invariant 0 <= j <= count
      invariant port.sent == old(port.sent) + data[start..start + j]
      invariant port.lines == old(port.lines) && port.arrivals == old(port.arrivals)
    {
      assert data[start..start + j + 1] == data[start..start + j] + [data[start + j]];
      port.Write([data[start + j]]);
      j := j + 1;
    }
  }

  /** A `ReadLine` on a port whose script is `script` minus `read` replies. */
  method ReadReply(port: Port, ghost script: seq<string>, ghost read: nat) returns (line: string)
    requires port.lines == Drop(script, read)
    modifies port
    ensures line == LineAt(script, read) && port.lines == Drop(script, read + 1)
    ensures port.sent == old(port.sent) && port.arrivals == old(port.arrivals)
  {
    line := port.ReadLine();
    LineAtDrop(script, read, 0);
    DropDrop(script, read, 1);
  }

  /** The body of the write loop of Burner/Program.cs for one block
      (lines 206-256). */
  method BurnBlock(port: Port, addr: int, data: seq<byte>, blk: nat, ghost script: seq<string>, ghost read: nat)
    returns (stop: bool)
    requires blk < |data| / 1024
    requires port.lines == Drop(script, read)
    modifies port
    ensures blk * 1024 + 1024 <= |data|
    ensures var st := WriteStep(addr, data, script, blk, read);
      port.sent == old(port.sent) + st.sent && port.lines == Drop(script, st.read) &&
      port.arrivals == old(port.arrivals) && stop == st.stop
  {
    var a := addr + blk * 1024;
    port.Write([0xA5, Lo(a), Hi(a)]);
    BlockInRange(|data|, blk);
    var len := |data| - blk * 1024;
    if len < 1024 {
      // The short-block branch (checksum over `len` bytes, zero padding) is
      // never reached.
      assert false;
    }
    var chksum := BlockChecksum(data, blk * 1024, 1024);
    port.Write([0xA9, Lo(chksum), Hi(chksum)]);
    port.Write([0xAA, 0x55, 0xAA]);
    stop := false;
    var reply := ReadReply(port, script, read);
    if reply == "GO!" {
      SendBytes(port, data, blk * 1024, 1024);
      reply := ReadReply(port, script, read + 1);
      stop := reply == "ERR";
    }
  }

  /** The loop invariant of the write loop: `done` has been sent, and the
      loop run from block `blk` with `k` replies consumed sends the rest of
      `all` and ends where `all` ends. */
  ghost predicate WriteRest(addr: int, data: seq<byte>, script: seq<string>, blk: nat, k: nat,
                            all: Progress, done: seq<byte>)
  {
    var rest := WriteBlocks(addr, data, script, blk, k);
    all.sent == done + rest.sent && all.read == rest.read && all.blk == rest.blk
  }

  /** The ghost bookkeeping of one pass of the write loop: if `done` was sent
      and `WriteBlocks` from `blk` gives the rest of `all`, then after block
      `blk` either the loop ends with `all`, or the same holds from `blk + 1`. */
  lemma WriteLoopStep(addr: int, data: seq<byte>, script: seq<string>, blk: nat, k: nat,
                      all: Progress, done: seq<byte>)
    requires blk < Blocks(|data|)
    requires WriteRest(addr, data, script, blk, k, all, done)
    ensures blk * 1024 + 1024 <= |data|
    ensures var st := WriteStep(addr, data, script, blk, k);
      (st.stop ==> all == Progress(done + st.sent, st.read, blk)) &&
      (!st.stop ==> WriteRest(addr, data, script, blk + 1, st.read, all, done + st.sent))
  {
    BlockInRange(|data|, blk);
  }

  /** One pass of the write loop, together with its ghost bookkeeping. */
  method BurnNext(port: Port, addr: int, data: seq<byte>, blk: nat, ghost script: seq<string>,
                  ghost k: nat, ghost all: Progress, ghost base: seq<byte>, ghost done: seq<byte>)
    returns (stop: bool, ghost done': seq<byte>, ghost k': nat)
    requires blk < |data| / 1024
    requires port.lines == Drop(script, k) && port.sent == base + done
    requires WriteRest(addr, data, script, blk, k, all, done)
    modifies port
    ensures port.sent == base + done'
    ensures port.lines == Drop(script, k') && port.arrivals == old(port.arrivals)
    ensures stop ==> all == Progress(done', k', blk)
    ensures !stop ==> WriteRest(addr, data, script, blk + 1, k', all, done')
  {
    WriteLoopStep(addr, data, script, blk, k, all, done);
    ghost var st := WriteStep(addr, data, script, blk, k);
    stop := BurnBlock(port, addr, data, blk, script, k);
    done', k' := done + st.sent, st.read;
    AppendAssoc(base, done, st.sent);
  }

  /** The write loop of Burner/Program.cs (lines 203-257), started with
      `read` replies of `script` already consumed. */
  method BurnBlocks(port: Port, addr: int, data: seq<byte>, ghost script: seq<string>, ghost read: nat)
    returns (blk: nat)
    requires port.lines == Drop(script, read)
    modifies port
    ensures var r := WriteBlocks(addr, data, script, 0, read);
      port.sent == old(port.sent) + r.sent && port.lines == Drop(script, r.read) &&
      port.arrivals == old(port.arrivals) && blk == r.blk
  {
    ghost var all := WriteBlocks(addr, data, script, 0, read);
    ghost var done: seq<byte> := [];
    ghost var k := read;
    blk := 0;
    while blk < |data| / 1024
      invariant port.lines == Drop(script, k) && port.arrivals == old(port.arrivals)
      invariant port.sent == old(port.sent) + done
      invariant WriteRest(addr, data, script, blk, k, all, done)
      decreases |data| / 1024 - blk
    {
      var stop;
      stop, done, k := BurnNext(port, addr, data, blk, script, k, all, old(port.sent), done);
      if stop {
        assert all == Progress(done, k, blk);
        return;
      }
      blk := blk + 1;
    }
    assert WriteBlocks(addr, data, script, blk, k) == Progress([], k, blk);
    assert done + [] == done;
  }

  /** The write path of Burner/Program.cs (lines 174-271): prologue, erase
      gate, block loop, SDP epilogue and the completion test. */
  method Burn(port: Port, fram: bool, erase: bool, addr: int, data: seq<byte>) returns (outcome: WriteOutcome)
    modifies port
    ensures var r := WritePath(fram, erase, addr, data, old(port.lines));
      port.sent == old(port.sent) + r.sent && port.lines == Drop(old(port.lines), r.read) &&
      port.arrivals == old(port.arrivals) && outcome == r.outcome
  {
    ghost var script := port.lines;
    ghost var base := port.sent;
    ghost var read: nat := 0;
    DropDrop(script, 0, 0);
    if fram {
      port.Write(SET_FRAM);
    } else {
      port.Write(SET_EEPROM);
      port.Write(SDP_DISABLE);
      AppendAssoc(base, SET_EEPROM, SDP_DISABLE);
      var sdpReply := ReadReply(port, script, 0);
      read := 1;
    }
    assert port.sent == base + Prologue(fram);
    ghost var head := Prologue(fram) + (if erase then ERASE else []);
    if erase {
      port.Write(ERASE);
      AppendAssoc(base, Prologue(fram), ERASE);
    } else {
      assert head == Prologue(fram);
    }
    assert port.sent == base + head;
    var gate := true;
    if erase {
      var eraseReply := ReadReply(port, script, read);
      read := read + 1;
      gate := eraseReply == "OK!";
    }
    if !gate {
      outcome := EraseRefused;
      return;
    }
    ghost var loop := WriteBlocks(addr, data, script, 0, read);
    var blk := BurnBlocks(port, addr, data, script, read);
    AppendAssoc(base, head, loop.sent);
    if !fram {
      port.Write(SDP_ENABLE);
      AppendAssoc(base, head + loop.sent, SDP_ENABLE);
      var sdpReply := ReadReply(port, script, loop.read);
    } else {
      assert head + loop.sent + [] == head + loop.sent;
    }
    outcome := if blk == |data| / 1024 then Transferred(|data|) else Stopped(blk);
  }

  // ------------------------------------------------------------- dump path

  /** What one block of the dump loop does: bytes sent, replies and
      arrivals consumed, whether it ends the loop, and the payload it adds
      to the file buffer. */
  datatype Fetch = Fetch(sent: seq<byte>, read: nat, taken: nat, stop: bool, payload: seq<byte>)

  /** One pass of the dump loop for block `blk`: SET_ADDR and COMMIT_DUMP;
      a reply other than "GO!" skips the block; after "GO!" one timed read
      of 1026 bytes, whose payload is kept when the frame checks out, while
      a short read, a timeout or a bad checksum ends the loop. */
  function DumpStep(addr: int, lines: seq<string>, arrivals: seq<Arrival>, blk: nat, read: nat, taken: nat)
    : (st: Fetch)
  {
    var head := AddrCmd(addr, blk) + COMMIT_DUMP;
    if LineAt(lines, read) != "GO!" then Fetch(head, read + 1, taken, false, [])
    else
      var got := Receive(ArrivalAt(arrivals, taken), 1024 + 2);
      if got.Some? && FrameValid(got.value) then Fetch(head, read + 1, taken + 1, false, got.value[..1024])
      else Fetch(head, read + 1, taken + 1, true, [])
  }

  /** Where the dump loop stands: bytes sent, replies and arrivals consumed,
      the value of `blk` when it ended, and the buffered file contents. */
  datatype DumpProgress = DumpProgress(sent: seq<byte>, read: nat, taken: nat, blk: nat, file: seq<byte>)

  /** The dump loop from block `blk` on; it visits `size / 1024` blocks,
      rounded toward zero, so none when `size` is below 1024. */
  function DumpBlocks(addr: int, size: int, lines: seq<string>, arrivals: seq<Arrival>,
                      blk: nat, read: nat, taken: nat): (r: DumpProgress)
    decreases Blocks(size) - blk
  {
    if blk >= Blocks(size) then DumpProgress([], read, taken, blk, [])
    else
      var st := DumpStep(addr, lines, arrivals, blk, read, taken);
      if st.stop then DumpProgress(st.sent, st.read, st.taken, blk, [])
      else
        var rest := DumpBlocks(addr, size, lines, arrivals, blk + 1, st.read, st.taken);
        rest.(sent := st.sent + rest.sent, file := st.payload + rest.file)
  }

  datatype DumpResult = DumpResult(sent: seq<byte>, read: nat, taken: nat, file: Option<seq<byte>>)

  /** The dump path of Burner/Program.cs: SET_FRAM in FRAM mode (no reply
      awaited), the block loop, and the file written only when the loop
      ran to `size / 1024`. */
  function DumpPath(fram: bool, addr: int, size: int, lines: seq<string>, arrivals: seq<Arrival>)
    : (r: DumpResult)
  {
    var loop := DumpBlocks(addr, size, lines, arrivals, 0, 0, 0);
    DumpResult((if fram then SET_FRAM else []) + loop.sent, loop.read, loop.taken,
               if loop.blk == Blocks(size) then Some(loop.file) else None)
  }

  /** A timed block read on a port whose arrival script is `script` minus
      `taken` arrivals. */
  method ReadFrame(port: Port, ghost script: seq<Arrival>, ghost taken: nat) returns (buff: Option<seq<byte>>)
    requires port.arrivals == Drop(script, taken)
    modifies port
    ensures buff == Receive(ArrivalAt(script, taken), 1024 + 2) && port.arrivals == Drop(script, taken + 1)
    ensures port.sent == old(port.sent) && port.lines == old(port.lines)
  {
    buff := port.ReadExact(1024 + 2);
    if taken < |script| {
      DropIndex(script, taken, 0);
    }
    DropDrop(script, taken, 1);
  }

  /** The body of the dump loop of Burner/Program.cs for one block
      (lines 115-163). */
  method FetchBlock(port: Port, addr: int, size: int, blk: nat, ghost lines: seq<string>, ghost read: nat,
                    ghost arrivals: seq<Arrival>, ghost taken: nat)
    returns (stop: bool, payload: seq<byte>)
    requires blk < Blocks(size)
    requires port.lines == Drop(lines, read) && port.arrivals == Drop(arrivals, taken)
    modifies port
    ensures var st := DumpStep(addr, lines, arrivals, blk, read, taken);
      port.sent == old(port.sent) + st.sent && port.lines == Drop(lines, st.read) &&
      port.arrivals == Drop(arrivals, st.taken) && stop == st.stop && payload == st.payload
  {
    var a := addr + blk * 1024;
    port.Write([0xA5, Lo(a), Hi(a)]);
    BlockInRange(size, blk);
    var len := size - blk * 1024;
    if len < 1024 {
      // As in the write loop, the short-block branch is never reached.
      assert false;
    }
    port.Write(COMMIT_DUMP);
    stop, payload := false, [];
    var reply := ReadReply(port, lines, read);
    if reply == "GO!" {
      var buff := ReadFrame(port, arrivals, taken);
      var ok := false;
      if buff.Some? {
        ok := CheckFrame(buff.value);
      }
      if ok {
        payload := buff.value[..1024];
      } else {
        stop := true;
      }
    }
  }

  /** The loop invariant of the dump loop: `done` has been sent and `buf`
      buffered, and the loop run from `blk` sends and buffers the rest. */
  ghost predicate DumpRest(addr: int, size: int, lines: seq<string>, arrivals: seq<Arrival>,
                           blk: nat, k: nat, t: nat, all: DumpProgress, done: seq<byte>, buf: seq<byte>)
  {
    var rest := DumpBlocks(addr, size, lines, arrivals, blk, k, t);
    all.sent == done + rest.sent && all.read == rest.read && all.taken == rest.taken &&
    all.blk == rest.blk && all.file == buf + rest.file
  }

  /** The ghost bookkeeping of one pass of the dump loop. */
  lemma DumpLoopStep(addr: int, size: int, lines: seq<string>, arrivals: seq<Arrival>,
                     blk: nat, k: nat, t: nat, all: DumpProgress, done: seq<byte>, buf: seq<byte>)
    requires blk < Blocks(size)
    requires DumpRest(addr, size, lines, arrivals, blk, k, t, all, done, buf)
    ensures var st := DumpStep(addr, lines, arrivals, blk, k, t);
      (st.stop ==> all.sent == done + st.sent && all.read == st.read && all.taken == st.taken &&
                   all.blk == blk) &&
      (!st.stop ==> DumpRest(addr, size, lines, arrivals, blk + 1, st.read, st.taken, all,
                             done + st.sent, buf + st.payload))
  {
    var st := DumpStep(addr, lines, arrivals, blk, k, t);
    if !st.stop {
      var rest := DumpBlocks(addr, size, lines, arrivals, blk + 1, st.read, st.taken);
      AppendAssoc(done, st.sent, rest.sent);
      AppendAssoc(buf, st.payload, rest.file);
    }
  }

  /** One pass of the dump loop, together with its ghost bookkeeping. */
  method FetchNext(port: Port, addr: int, size: int, blk: nat, buf: seq<byte>,
                   ghost lines: seq<string>, ghost k: nat, ghost arrivals: seq<Arrival>, ghost t: nat,
                   ghost all: DumpProgress, ghost base: seq<byte>, ghost done: seq<byte>)
    returns (stop: bool, buf': seq<byte>, ghost done': seq<byte>, ghost k': nat, ghost t': nat)
    requires blk < Blocks(size)
    requires port.lines == Drop(lines, k) && port.arrivals == Drop(arrivals, t) && port.sent == base + done
    requires DumpRest(addr, size, lines, arrivals, blk, k, t, all, done, buf)
    modifies port
    ensures port.lines == Drop(lines, k') && port.arrivals == Drop(arrivals, t') && port.sent == base + done'
    ensures stop ==> all.sent == done' && all.read == k' && all.taken == t' && all.blk == blk
    ensures !stop ==> DumpRest(addr, size, lines, arrivals, blk + 1, k', t', all, done', buf')
  {
    DumpLoopStep(addr, size, lines, arrivals, blk, k, t, all, done, buf);
    ghost var st := DumpStep(addr, lines, arrivals, blk, k, t);
    var payload;
    stop, payload := FetchBlock(port, addr, size, blk, lines, k, arrivals, t);
    buf', done', k', t' := buf + payload, done + st.sent, st.read, st.taken;
    AppendAssoc(base, done, st.sent);
  }

  /** The dump loop of Burner/Program.cs (lines 109-164): returns the final
      `blk` and the buffered bytes. */
  method FetchBlocks(port: Port, addr: int, size: int, ghost lines: seq<string>, ghost arrivals: seq<Arrival>)
    returns (blk: nat, byteBuff: seq<byte>)
    requires port.lines == Drop(lines, 0) && port.arrivals == Drop(arrivals, 0)
    modifies port
    ensures var r := DumpBlocks(addr, size, lines, arrivals, 0, 0, 0);
      port.sent == old(port.sent) + r.sent && port.lines == Drop(lines, r.read) &&
      port.arrivals == Drop(arrivals, r.taken) && blk == r.blk &&
      (blk == Blocks(size) ==> byteBuff == r.file)
  {
    ghost var all := DumpBlocks(addr, size, lines, arrivals, 0, 0, 0);
    ghost var done: seq<byte> := [];
    ghost var k, t := 0, 0;
    blk, byteBuff := 0, [];
    while blk < Blocks(size)
      invariant port.lines == Drop(lines, k) && port.arrivals == Drop(arrivals, t)
      invariant port.sent == old(port.sent) + done
      invariant DumpRest(addr, size, lines, arrivals, blk, k, t, all, done, byteBuff)
      decreases Blocks(size) - blk
    {
      var stop;
      stop, byteBuff, done, k, t := FetchNext(port, addr, size, blk, byteBuff, lines, k, arrivals, t,
                                              all, old(port.sent), done);
      if stop {
        BlockInRange(size, blk);
        return;
      }
      blk := blk + 1;
    }
    assert byteBuff + [] == byteBuff;
  }

  /** The dump path of Burner/Program.cs (lines 99-171): the file is the
      buffered bytes when the loop completed, and nothing otherwise. */
  method Dump(port: Port, fram: bool, addr: int, size: int) returns (file: Option<seq<byte>>)
    modifies port
    ensures var r := DumpPath(fram, addr, size, old(port.lines), old(port.arrivals));
      port.sent == old(port.sent) + r.sent && port.lines == Drop(old(port.lines), r.read) &&
      port.arrivals == Drop(old(port.arrivals), r.taken) && file == r.file
  {
    ghost var base := port.sent;
    DropDrop(port.lines, 0, 0);
    DropDrop(port.arrivals, 0, 0);
    if fram {
      port.Write(SET_FRAM);
    } else {
      assert base + [] == base;
    }
    ghost var head := if fram then SET_FRAM else [];
    ghost var loop := DumpBlocks(addr, size, old(port.lines), old(port.arrivals), 0, 0, 0);
    var blk, byteBuff := FetchBlocks(port, addr, size, old(port.lines), old(port.arrivals));
    AppendAssoc(base, head, loop.sent);
    file := if blk == Blocks(size) then Some(byteBuff) else None;
  }
}
