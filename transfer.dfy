/** Properties of the host's write and dump loops, stated against the reply
    scripts a programmer can give: what an all-accepting programmer makes the
    host send and store, why a loop can stop early, and which bytes of a file
    ever leave the host. */
module Transfer {
  import opened Bytes
  import opened Wrappers
  import opened Channel
  import opened Engine

  // ------------------------------------------------------------- write loop

  /** From reply `read` on, the script is that of a programmer accepting
      `n` blocks: "GO!" to each COMMIT and "OK!" after each data block. */
  ghost predicate Accepting(lines: seq<string>, read: nat, n: nat)
    decreases n
  {
    n == 0 || (LineAt(lines, read) == "GO!" && LineAt(lines, read + 1) == "OK!" && Accepting(lines, read + 2, n - 1))
  }

  /** What the write loop sends for blocks `blk` .. `blk + n - 1` when every
      one is accepted: its nine header bytes, then its 1024 data bytes. */
  function Frames(addr: int, data: seq<byte>, blk: nat, n: nat): (r: seq<byte>)
    requires blk * 1024 + n * 1024 <= |data|
    decreases n
  {
    if n == 0 then []
    else BlockHeader(addr, data, blk) + Block(data, blk) + Frames(addr, data, blk + 1, n - 1)
  }

  /** Whole blocks fit in the file: `(|data| / 1024) * 1024 <= |data|`. */
  lemma BlocksFit(n: nat)
    ensures 0 <= Blocks(n) && Blocks(n) * 1024 <= n < Blocks(n) * 1024 + 1024
  {
    QuotTruncates(n, 1024);
  }

  /** Against an all-accepting programmer the write loop visits every whole
      block, consumes two replies per block and sends exactly `Frames`. */
  lemma {:induction false} WriteAcked(addr: int, data: seq<byte>, lines: seq<string>, blk: nat, read: nat)
    requires blk <= Blocks(|data|)
    requires Accepting(lines, read, Blocks(|data|) - blk)
    ensures blk * 1024 + (Blocks(|data|) - blk) * 1024 <= |data|
    ensures var n := Blocks(|data|) - blk;
      WriteBlocks(addr, data, lines, blk, read) == Progress(Frames(addr, data, blk, n), read + 2 * n, Blocks(|data|))
    decreases Blocks(|data|) - blk
  {
    BlocksFit(|data|);
    var n := Blocks(|data|) - blk;
    if n > 0 {
      WriteAcked(addr, data, lines, blk + 1, read + 2);
      var rest := WriteBlocks(addr, data, lines, blk + 1, read + 2);
      assert WriteBlocks(addr, data, lines, blk, read) ==
        rest.(sent := BlockHeader(addr, data, blk) + Block(data, blk) + rest.sent);
    }
  }

  /** The write loop only ever stops early on an "ERR" that answers a data
      block, that is the reply just after a "GO!". */
  lemma {:induction false} WriteStopCause(addr: int, data: seq<byte>, lines: seq<string>, blk: nat, read: nat)
    ensures var r := WriteBlocks(addr, data, lines, blk, read);
      r.read >= read &&
      (r.blk < Blocks(|data|) ==>
        r.read >= read + 2 && LineAt(lines, r.read - 2) == "GO!" && LineAt(lines, r.read - 1) == "ERR")
    decreases Blocks(|data|) - blk
  {
    var r := WriteBlocks(addr, data, lines, blk, read);
    if blk < Blocks(|data|) {
      BlockInRange(|data|, blk);
      var st := WriteStep(addr, data, lines, blk, read);
      WriteStepReplies(addr, data, lines, blk, read);
      if !st.stop {
        WriteStopCause(addr, data, lines, blk + 1, st.read);
        var rest := WriteBlocks(addr, data, lines, blk + 1, st.read);
        assert r == rest.(sent := st.sent + rest.sent);
      } else {
        assert r == Progress(st.sent, st.read, blk);
      }
    } else {
      assert r == Progress([], read, blk);
    }
  }

  /** One pass of the write loop consumes one reply, or two after "GO!",
      and stops only when those two are "GO!" and "ERR". */
  lemma WriteStepReplies(addr: int, data: seq<byte>, lines: seq<string>, blk: nat, read: nat)
    requires blk * 1024 + 1024 <= |data|
    ensures var st := WriteStep(addr, data, lines, blk, read);
      st.read == read + (if LineAt(lines, read) == "GO!" then 2 else 1) &&
      (st.stop <==> LineAt(lines, read) == "GO!" && LineAt(lines, read + 1) == "ERR")
  {
  }

  /** Conversely, when no reply is "ERR" the loop runs to `|data| / 1024`. */
  lemma {:induction false} WriteWithoutErr(addr: int, data: seq<byte>, lines: seq<string>, blk: nat, read: nat)
    requires forall i :: read <= i < |lines| ==> lines[i] != "ERR"
    requires blk <= Blocks(|data|)
    ensures WriteBlocks(addr, data, lines, blk, read).blk == Blocks(|data|)
    decreases Blocks(|data|) - blk
  {
    if blk < Blocks(|data|) {
      BlockInRange(|data|, blk);
      var st := WriteStep(addr, data, lines, blk, read);
      assert LineAt(lines, read + 1) != "ERR";
      WriteWithoutErr(addr, data, lines, blk + 1, st.read);
    }
  }

  /** Bytes past the last whole block never leave the host: the loop over
      the file behaves exactly as the loop over its whole blocks. */
  lemma {:induction false} WriteIgnoresTail(addr: int, data: seq<byte>, lines: seq<string>, blk: nat, read: nat)
    ensures Blocks(|data|) * 1024 <= |data|
    ensures var whole := data[..Blocks(|data|) * 1024];
      Blocks(|whole|) == Blocks(|data|) &&
      WriteBlocks(addr, data, lines, blk, read) == WriteBlocks(addr, whole, lines, blk, read)
    decreases Blocks(|data|) - blk
  {
    BlocksFit(|data|);
    var whole := data[..Blocks(|data|) * 1024];
    assert Blocks(|whole|) == Blocks(|data|);
    if blk < Blocks(|data|) {
      BlockInRange(|data|, blk);
      assert Block(data, blk) == Block(whole, blk);
      var st := WriteStep(addr, data, lines, blk, read);
      assert st == WriteStep(addr, whole, lines, blk, read);
      WriteIgnoresTail(addr, data, lines, blk + 1, st.read);
    }
  }

  /** The erase gate: with `-E` the session goes on only when the erase is
      acknowledged with "OK!"; otherwise only the prologue and the ERASE
      command are sent and no block is touched. */
  lemma EraseGate(fram: bool, addr: int, data: seq<byte>, lines: seq<string>)
    ensures var r := WritePath(fram, true, addr, data, lines);
      var ack := LineAt(lines, if fram then 0 else 1);
      (r.outcome == EraseRefused <==> ack != "OK!") &&
      (ack != "OK!" ==> r.sent == Prologue(fram) + ERASE)
  {
  }

  /** Without `-E` the erase gate is always open and reads no reply: the
      block loop starts at the reply right after the prologue's (none for
      FRAM, the SDP-disable "OK!" for EEPROM), and the session is the
      prologue, the loop and the epilogue. */
  lemma NoEraseNoGate(fram: bool, addr: int, data: seq<byte>, lines: seq<string>)
    ensures var r := WritePath(fram, false, addr, data, lines);
      var loop := WriteBlocks(addr, data, lines, 0, if fram then 0 else 1);
      r.outcome != EraseRefused &&
      r.sent == Prologue(fram) + loop.sent + (if fram then [] else SDP_ENABLE) &&
      (r.outcome == Transferred(|data|) <==> loop.blk == Blocks(|data|))
  {
    assert Prologue(fram) + [] == Prologue(fram);
  }

  /** A write session against an all-accepting programmer: every whole block
      is sent in order, framed by the prologue, the optional ERASE and, for
      EEPROM, the SDP re-enable, and the whole file length is reported. */
  lemma WriteSessionAcked(fram: bool, erase: bool, addr: int, data: seq<byte>, lines: seq<string>)
    requires var r0 := (if fram then 0 else 1) + (if erase then 1 else 0);
      (erase ==> LineAt(lines, r0 - 1) == "OK!") && Accepting(lines, r0, Blocks(|data|))
    ensures Blocks(|data|) * 1024 <= |data|
    ensures var r := WritePath(fram, erase, addr, data, lines);
      r.outcome == Transferred(|data|) &&
      r.sent == Prologue(fram) + (if erase then ERASE else []) + Frames(addr, data, 0, Blocks(|data|)) +
                (if fram then [] else SDP_ENABLE)
  {
    var r0 := (if fram then 0 else 1) + (if erase then 1 else 0);
    BlocksFit(|data|);
    WriteAcked(addr, data, lines, 0, r0);
  }

  // -------------------------------------------------------------- dump loop

  /** A page as the programmer sends it on a dump: its bytes followed by
      their 16-bit checksum, low byte first; the host accepts it. */
  function Seal(page: seq<byte>): (r: seq<byte>)
    requires |page| == 1024
    ensures |r| == 1024 + 2 && FrameValid(r) && r[..1024] == page
  {
    SealedFrameValid(page);
    page + [Lo(Checksum(page)), Hi(Checksum(page))]
  }

  /** The requests of the dump loop for blocks `blk` .. `blk + n - 1`. */
  function Requests(addr: int, blk: nat, n: nat): (r: seq<byte>)
    ensures |r| == 6 * n
    decreases n
  {
    if n == 0 then [] else AddrCmd(addr, blk) + COMMIT_DUMP + Requests(addr, blk + 1, n - 1)
  }

  /** The pages laid end to end. */
  function Flatten(pages: seq<seq<byte>>): (r: seq<byte>)
    ensures (forall i :: 0 <= i < |pages| ==> |pages[i]| == 1024) ==> |r| == 1024 * |pages|
  {
    if pages == [] then [] else pages[0] + Flatten(pages[1..])
  }

  /** From reply `read` and arrival `taken` on, the programmer answers the
      `i`-th request with "GO!" and the `i`-th page, sealed. */
  ghost predicate Serves(lines: seq<string>, arrivals: seq<Arrival>, pages: seq<seq<byte>>, read: nat, taken: nat)
  {
    forall i :: 0 <= i < |pages| ==>
      |pages[i]| == 1024 && LineAt(lines, read + i) == "GO!" && ArrivalAt(arrivals, taken + i) == Arrived(Seal(pages[i]))
  }

  /** A served request buffers its page and goes on. */
  lemma ServedStep(addr: int, lines: seq<string>, arrivals: seq<Arrival>, blk: nat, read: nat, taken: nat,
                   page: seq<byte>)
    requires |page| == 1024 && LineAt(lines, read) == "GO!" && ArrivalAt(arrivals, taken) == Arrived(Seal(page))
    ensures DumpStep(addr, lines, arrivals, blk, read, taken) ==
      Fetch(AddrCmd(addr, blk) + COMMIT_DUMP, read + 1, taken + 1, false, page)
  {
  }

  /** Serving a run of pages is serving the first and then the rest. */
  lemma ServesTail(lines: seq<string>, arrivals: seq<Arrival>, pages: seq<seq<byte>>, read: nat, taken: nat)
    requires pages != [] && Serves(lines, arrivals, pages, read, taken)
    ensures |pages[0]| == 1024 && LineAt(lines, read) == "GO!" && ArrivalAt(arrivals, taken) == Arrived(Seal(pages[0]))
    ensures Serves(lines, arrivals, pages[1..], read + 1, taken + 1)
  {
    assert |pages[0]| == 1024 && LineAt(lines, read + 0) == "GO!";
    forall i | 0 <= i < |pages[1..]|
      ensures |pages[1..][i]| == 1024 && LineAt(lines, read + 1 + i) == "GO!" &&
              ArrivalAt(arrivals, taken + 1 + i) == Arrived(Seal(pages[1..][i]))
    {
      assert pages[1..][i] == pages[i + 1];
      assert |pages[i + 1]| == 1024 && LineAt(lines, read + (i + 1)) == "GO!" &&
             ArrivalAt(arrivals, taken + (i + 1)) == Arrived(Seal(pages[i + 1]));
    }
  }

  /** Against a programmer that answers every request with "GO!" and a
      sealed page, the dump loop visits every block and buffers the pages in
      order. */
  lemma {:induction false} DumpServed(addr: int, size: int, lines: seq<string>, arrivals: seq<Arrival>,
                                      pages: seq<seq<byte>>, blk: nat, read: nat, taken: nat)
    requires blk + |pages| == Blocks(size)
    requires Serves(lines, arrivals, pages, read, taken)
    ensures DumpBlocks(addr, size, lines, arrivals, blk, read, taken) ==
      DumpProgress(Requests(addr, blk, |pages|), read + |pages|, taken + |pages|, Blocks(size), Flatten(pages))
    decreases |pages|
  {
    if pages != [] {
      ServesTail(lines, arrivals, pages, read, taken);
      ServedStep(addr, lines, arrivals, blk, read, taken, pages[0]);
      var st := DumpStep(addr, lines, arrivals, blk, read, taken);
      DumpServed(addr, size, lines, arrivals, pages[1..], blk + 1, read + 1, taken + 1);
      var rest := DumpBlocks(addr, size, lines, arrivals, blk + 1, read + 1, taken + 1);
      assert DumpBlocks(addr, size, lines, arrivals, blk, read, taken) ==
        rest.(sent := st.sent + rest.sent, file := pages[0] + rest.file);
      assert Requests(addr, blk, |pages|) == st.sent + Requests(addr, blk + 1, |pages| - 1);
      assert Flatten(pages) == pages[0] + Flatten(pages[1..]);
    }
  }

  /** The dump loop ends before `size / 1024` only after a "GO!" whose timed
      read came back short, late or with a wrong checksum. */
  lemma {:induction false} DumpStopCause(addr: int, size: int, lines: seq<string>, arrivals: seq<Arrival>,
                                         blk: nat, read: nat, taken: nat)
    ensures var r := DumpBlocks(addr, size, lines, arrivals, blk, read, taken);
      r.read >= read && r.taken >= taken &&
      (r.blk < Blocks(size) ==>
        r.read > read && r.taken > taken && LineAt(lines, r.read - 1) == "GO!" &&
        var got := Receive(ArrivalAt(arrivals, r.taken - 1), 1024 + 2);
        !(got.Some? && FrameValid(got.value)))
    decreases Blocks(size) - blk
  {
    if blk < Blocks(size) {
      var st := DumpStep(addr, lines, arrivals, blk, read, taken);
      if !st.stop {
        DumpStopCause(addr, size, lines, arrivals, blk + 1, st.read, st.taken);
      }
    }
  }

  /** How many of the replies `from` .. `to - 1` are "GO!". */
  function GoCount(lines: seq<string>, from: nat, to: nat): (n: nat)
    ensures n <= (if from <= to then to - from else 0)
    decreases if from <= to then to - from else 0
  {
    if to <= from then 0
    else (if LineAt(lines, from) == "GO!" then 1 else 0) + GoCount(lines, from + 1, to)
  }

  /** The buffered file is made of whole pages, at most one per visited
      block: a block refused with a reply other than "GO!" adds nothing. One
      frame is read per "GO!", and every frame read adds its page except
      the one that stops the loop, so a loop that runs to `size / 1024`
      buffers exactly one page per "GO!" it was answered with. */
  lemma {:induction false} DumpFileShape(addr: int, size: int, lines: seq<string>, arrivals: seq<Arrival>,
                                         blk: nat, read: nat, taken: nat)
    ensures var r := DumpBlocks(addr, size, lines, arrivals, blk, read, taken);
      r.blk >= blk && |r.file| % 1024 == 0 && |r.file| <= 1024 * (r.blk - blk) &&
      r.read >= read && r.taken == taken + GoCount(lines, read, r.read) &&
      |r.file| + (if r.blk < Blocks(size) then 1024 else 0) == 1024 * (r.taken - taken)
    decreases Blocks(size) - blk
  {
    var r := DumpBlocks(addr, size, lines, arrivals, blk, read, taken);
    if blk < Blocks(size) {
      var st := DumpStep(addr, lines, arrivals, blk, read, taken);
      PagePayload(addr, lines, arrivals, blk, read, taken);
      if !st.stop {
        DumpFileShape(addr, size, lines, arrivals, blk + 1, st.read, st.taken);
        var rest := DumpBlocks(addr, size, lines, arrivals, blk + 1, st.read, st.taken);
        assert r == rest.(sent := st.sent + rest.sent, file := st.payload + rest.file);
        PagesAdd(|st.payload|, |rest.file|, rest.blk - blk - 1);
        assert GoCount(lines, read, r.read) == st.taken - taken + GoCount(lines, st.read, r.read);
      } else {
        assert r == DumpProgress(st.sent, read + 1, taken + 1, blk, []);
        assert GoCount(lines, read, read + 1) == 1 + GoCount(lines, read + 1, read + 1);
      }
    } else {
      assert r == DumpProgress([], read, taken, blk, []);
      assert GoCount(lines, read, read) == 0;
    }
  }

  /** The dump file, when there is one, holds exactly one page per "GO!" the
      loop was answered with, and one frame was read for each. */
  lemma DumpFileLength(fram: bool, addr: int, size: int, lines: seq<string>, arrivals: seq<Arrival>)
    ensures var r := DumpPath(fram, addr, size, lines, arrivals);
      r.taken == GoCount(lines, 0, r.read) &&
      (r.file.Some? <==> DumpBlocks(addr, size, lines, arrivals, 0, 0, 0).blk == Blocks(size)) &&
      (r.file.Some? ==> |r.file.value| == 1024 * GoCount(lines, 0, r.read))
  {
    DumpFileShape(addr, size, lines, arrivals, 0, 0, 0);
  }

  /** A page or nothing, followed by at most `k` pages, is at most `k + 1`
      pages. */
  lemma PagesAdd(p: nat, n: nat, k: int)
    requires (p == 0 || p == 1024) && n % 1024 == 0 && n <= 1024 * k
    ensures (p + n) % 1024 == 0 && p + n <= 1024 * (k + 1)
  {
  }

  /** One pass of the dump loop consumes one reply, reads one frame exactly
      when that reply is "GO!", and buffers a whole page for that frame
      unless it stops the loop; otherwise it buffers nothing. */
  lemma PagePayload(addr: int, lines: seq<string>, arrivals: seq<Arrival>, blk: nat, read: nat, taken: nat)
    ensures var st := DumpStep(addr, lines, arrivals, blk, read, taken);
      st.read == read + 1 && st.taken == taken + (if LineAt(lines, read) == "GO!" then 1 else 0) &&
      (|st.payload| == 0 || |st.payload| == 1024) &&
      (st.stop ==> st.taken == taken + 1 && st.payload == []) &&
      (!st.stop ==> |st.payload| == 1024 * (st.taken - taken))
  {
  }

  /** A programmer that never says "GO!" still gets a file written, and an
      empty one: every block is skipped and the loop runs to the end. Only a
      negative `size` of at least 1024 in magnitude writes no file. */
  lemma DumpNeverGo(fram: bool, addr: int, size: int, lines: seq<string>, arrivals: seq<Arrival>)
    requires forall i :: 0 <= i < |lines| ==> lines[i] != "GO!"
    ensures DumpPath(fram, addr, size, lines, arrivals).file == if Blocks(size) >= 0 then Some([]) else None
  {
    NeverGoLoop(addr, size, lines, arrivals, 0, 0);
  }

  lemma {:induction false} NeverGoLoop(addr: int, size: int, lines: seq<string>, arrivals: seq<Arrival>,
                                       blk: nat, read: nat)
    requires forall i :: 0 <= i < |lines| ==> lines[i] != "GO!"
    ensures var r := DumpBlocks(addr, size, lines, arrivals, blk, read, 0);
      r.file == [] && r.blk == if blk >= Blocks(size) then blk else Blocks(size)
    decreases Blocks(size) - blk
  {
    if blk < Blocks(size) {
      assert LineAt(lines, read) != "GO!";
      NeverGoLoop(addr, size, lines, arrivals, blk + 1, read + 1);
    }
  }

  /** A dump session against a programmer that serves every page: the file
      is the pages in order and nothing else. */
  lemma DumpSessionServed(fram: bool, addr: int, size: int, lines: seq<string>, arrivals: seq<Arrival>,
                          pages: seq<seq<byte>>)
    requires |pages| == Blocks(size)
    requires forall i :: 0 <= i < |pages| ==>
      |pages[i]| == 1024 && LineAt(lines, i) == "GO!" && ArrivalAt(arrivals, i) == Arrived(Seal(pages[i]))
    ensures var r := DumpPath(fram, addr, size, lines, arrivals);
      r.file == Some(Flatten(pages)) && r.sent == (if fram then SET_FRAM else []) + Requests(addr, 0, |pages|)
  {
    assert Serves(lines, arrivals, pages, 0, 0) by {
      forall i | 0 <= i < |pages|
        ensures |pages[i]| == 1024 && LineAt(lines, 0 + i) == "GO!" && ArrivalAt(arrivals, 0 + i) == Arrived(Seal(pages[i]))
      {
      }
    }
    DumpServed(addr, size, lines, arrivals, pages, 0, 0, 0);
  }
}
