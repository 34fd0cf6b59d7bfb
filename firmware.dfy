/** The programmer firmware of main.c: a command interpreter over the
    globals `mode`, `addr`, `chksum` and `recv`, the 1024-byte `rom_buf`
    and the chip `ROM_CHIP`.

    The interpreter is given as a specification over values (`OnCommand`,
    `OnBlock`, and `Serve` for the main loop over a byte stream) and as the
    class `Programmer`, whose fields and arrays the methods update in place
    as the C code does, proved to follow the specification. */
module Firmware {
  import opened Bytes
  import opened Chip

  const RECV_EEPROM: byte := 1
  const RECV_FRAM: byte := 2

  /** The last software-data-protection sequence sent to an EEPROM. */
  datatype Sdp = Untouched | Disabled | Enabled

  /** The interpreter's globals; `rom` is the chip's contents. */
  datatype State = State(mode: byte, addr: u16, chksum: u16, recv: byte, rom: seq<byte>, sdp: Sdp)

  /** The state after an event and the bytes sent in reply. */
  datatype Reaction = Reaction(st: State, out: seq<byte>)

  /** What a programmer with chip contents `rom` is after power-on. */
  function Boot(rom: seq<byte>): (s: State)
  {
    State(RECV_EEPROM, 0, 0, 0, rom, Untouched)
  }

  /** The states the interpreter can be in: one of the two modes, `recv`
      either idle or equal to the mode, and a chip below 65536 cells. */
  ghost predicate Good(s: State)
  {
    (s.mode == RECV_EEPROM || s.mode == RECV_FRAM) && (s.recv == 0 || s.recv == s.mode) &&
    |s.rom| < 0x1_0000
  }

  /** The opcodes the `switch` knows; each is followed by a 2-byte operand. */
  predicate TakesOperand(op: byte)
  {
    op == 0x55 || op == 0x59 || op == 0x99 || op == 0xA5 || op == 0xA9 || op == 0xAA || op == 0xAB
  }

  /** A page and its 16-bit sum, low byte first, as the dump command sends
      them after "GO!". */
  function Page(rom: seq<byte>, a: u16): (r: seq<byte>)
    ensures |r| == 1024 + 2
  {
    var page := Window(rom, a, 1024);
    page + [Lo(Checksum(page)), Hi(Checksum(page))]
  }

  /** One command of the `switch` in main.c (lines 88-165) with its operand
      read as a little-endian 16-bit value. */
  function OnCommand(s: State, op: byte, operand: u16): (r: Reaction)
    requires TakesOperand(op)
  {
    if op == 0x55 then
      if operand == 0x3232 then Reaction(s.(rom := Zeros(|s.rom|)), LineBytes("OK!")) else Reaction(s, [])
    else if op == 0x59 then
      if s.mode == RECV_EEPROM then
        Reaction(s.(sdp := if operand == 0x5555 then Disabled else Enabled), LineBytes("OK!"))
      else Reaction(s, [])
    else if op == 0x99 then
      Reaction(s.(mode := if operand == 0x6666 then RECV_FRAM else RECV_EEPROM), [])
    else if op == 0xA5 then
      Reaction(s.(addr := operand), [])
    else if op == 0xA9 then
      Reaction(s.(chksum := operand), [])
    else if op == 0xAA then
      if operand == 0xAA55 then Reaction(s.(recv := s.mode), LineBytes("GO!")) else Reaction(s, [])
    else
      if operand == 0x55AA then Reaction(s, LineBytes("GO!") + Page(s.rom, s.addr)) else Reaction(s, [])
  }

  /** A complete 1024-byte block received while `recv == mode` (main.c
      lines 68-87): a block whose sum is not `chksum` is refused with
      "ERR"; otherwise it is written at `addr` and the reply is "OK!" when
      reading it back gives `chksum` again. */
  function OnBlock(s: State, block: seq<byte>): (r: Reaction)
    requires |block| == 1024
  {
    if Checksum(block) != s.chksum then Reaction(s.(recv := 0), LineBytes("ERR"))
    else
      var rom := Store(s.rom, s.addr, block);
      var ok := Checksum(Window(rom, s.addr, 1024)) == s.chksum;
      Reaction(s.(recv := 0, rom := rom), LineBytes(if ok then "OK!" else "ERR"))
  }

  /** Where the main loop stands once the input is used up: its state, the
      bytes it sent, and the bytes of an incomplete command or block it is
      still waiting on. */
  datatype Served = Served(st: State, out: seq<byte>, pending: seq<byte>)

  /** The main loop of main.c (lines 66-170) over the bytes `input`: while
      `recv == mode` it takes 1024-byte blocks, otherwise an opcode, and
      for a known opcode its two operand bytes; an unknown byte is skipped. */
  function Serve(s: State, input: seq<byte>): (r: Served)
    decreases |input|
  {
    if s.recv == s.mode then
      if |input| < 1024 then Served(s, [], input)
      else
        var re := OnBlock(s, input[..1024]);
        var rest := Serve(re.st, input[1024..]);
        rest.(out := re.out + rest.out)
    else if input == [] then Served(s, [], [])
    else if !TakesOperand(input[0]) then Serve(s, input[1..])
    else if |input| < 3 then Served(s, [], input)
    else
      var re := OnCommand(s, input[0], Le16(input[1], input[2]));
      var rest := Serve(re.st, input[3..]);
      rest.(out := re.out + rest.out)
  }

  /** The programmer: the C globals as fields, `rom_buf` and `ROM_CHIP` as
      arrays updated in place. `param` is scratch in the source and lives
      in locals here. */
  class Programmer {
    var mode: byte
    var addr: u16
    var chksum: u16
    var recv: byte
    var sdp: Sdp
    const romChip: array<byte>
    const romBuf: array<byte>

    ghost predicate Valid()
      reads this
    {
      romChip != romBuf && romBuf.Length == 1024 && romChip.Length < 0x1_0000 &&
      (mode == RECV_EEPROM || mode == RECV_FRAM) && (recv == 0 || recv == mode)
    }

    /** The globals and the chip as a value. */
    ghost function Model(): State
      reads this, romChip
    {
      State(mode, addr, chksum, recv, romChip[..], sdp)
    }

    /** Power-on with a chip holding `contents`: EEPROM mode, zeroed
      globals, `recv` idle and `rom_buf` cleared (main.c lines 11-17, 64-66). */
    constructor (contents: seq<byte>)
      requires |contents| < 0x1_0000
      ensures Valid() && Model() == Boot(contents)
      ensures fresh(romChip) && fresh(romBuf)
    {
      mode, addr, chksum, recv, sdp := RECV_EEPROM, 0, 0, 0, Untouched;
      romChip := new byte[|contents|](i requires 0 <= i < |contents| => contents[i]);
      romBuf := new byte[1024](_ => 0);
      new;
      assert romChip[..] == contents;
    }

    /** `romWrite(a, rom_buf, len)` (main.c lines 19-27): copies the first
      `len` bytes of `rom_buf` to the cells from `a` on. */
    method RomWrite(a: u16, len: nat)
      requires Valid() && len <= 1024
      modifies romChip
      ensures romChip[..] == Store(old(romChip[..]), a, romBuf[..len])
    {
      var i := 0;
      while i < len
        invariant 0 <= i <= len
        invariant romChip[..] == Store(old(romChip[..]), a, romBuf[..i])
      {
        StoreSnoc(old(romChip[..]), a, romBuf[..i], romBuf[i]);
        assert romBuf[..i + 1] == romBuf[..i] + [romBuf[i]];
        var c := (a + i) % 0x1_0000;
        if c < romChip.Length {
          romChip[c] := romBuf[i];
        }
        i := i + 1;
      }
    }

    /** `romCheck(a, len)` (main.c lines 29-35): the 16-bit sum of the
      cells from `a` on. */
    method RomCheck(a: u16, len: nat) returns (sum: u16)
      requires Valid()
      ensures sum == Checksum(Window(romChip[..], a, len))
    {
      sum := 0;
      var i := 0;
      while i < len
        invariant 0 <= i <= len
        invariant sum == Checksum(Window(romChip[..], a, i))
      {
        var c := (a + i) % 0x1_0000;
        var b := if c < romChip.Length then romChip[c] else 0;
        WindowSnoc(romChip[..], a, i);
        ChecksumSnoc(Window(romChip[..], a, i), b);
        sum := AddWrap(sum, b);
        i := i + 1;
      }
    }

    /** `romErase()` (main.c lines 37-45): every cell of the chip becomes 0. */
    method RomErase()
      requires Valid()
      modifies romChip
      ensures romChip[..] == Zeros(romChip.Length)
    {
      var i := 0;
      while i < romChip.Length
        invariant 0 <= i <= romChip.Length
        invariant forall k :: 0 <= k < i ==> romChip[k] == 0
      {
        romChip[i] := 0;
        i := i + 1;
      }
    }

    /** The dump command's reply (main.c lines 150-162): "GO!", the 1024
      cells from `addr` with zero past the chip, then their sum. */
    method SendPage() returns (out: seq<byte>)
      requires Valid()
      ensures out == LineBytes("GO!") + Page(romChip[..], addr)
    {
      out := LineBytes("GO!");
      var param: u16 := 0;
      var i := 0;
      while i < 1024
        invariant 0 <= i <= 1024
        invariant out == LineBytes("GO!") + Window(romChip[..], addr, i)
        invariant param == Checksum(Window(romChip[..], addr, i))
      {
        var c := (addr + i) % 0x1_0000;
        var b := if c < romChip.Length then romChip[c] else 0;
        WindowSnoc(romChip[..], addr, i);
        ChecksumSnoc(Window(romChip[..], addr, i), b);
        out := out + [b];
        param := AddWrap(param, b);
        i := i + 1;
      }
      out := out + [Lo(param), Hi(param)];
    }

    /** One command of the `switch` (main.c lines 88-165). */
    method Command(op: byte, operand: u16) returns (out: seq<byte>)
      requires Valid() && recv != mode && TakesOperand(op)
      modifies this, romChip
      ensures Valid()
      ensures var r := OnCommand(old(Model()), op, operand); Model() == r.st && out == r.out
    {
      out := [];
      if op == 0x55 {
        if operand == 0x3232 {
          RomErase();
          out := LineBytes("OK!");
        }
      } else if op == 0x59 {
        if mode == RECV_EEPROM {
          sdp := if operand == 0x5555 then Disabled else Enabled;
          out := LineBytes("OK!");
        }
      } else if op == 0x99 {
        mode := if operand == 0x6666 then RECV_FRAM else RECV_EEPROM;
      } else if op == 0xA5 {
        addr := operand;
      } else if op == 0xA9 {
        chksum := operand;
      } else if op == 0xAA {
        if operand == 0xAA55 {
          recv := mode;
          out := LineBytes("GO!");
        }
      } else {
        if operand == 0x55AA {
          out := SendPage();
        }
      }
    }

    /** The block branch of the main loop (main.c lines 68-87): `block`
      lands in `rom_buf`, its sum is checked, and it is written and read
      back. */
    method ReceiveBlock(block: seq<byte>) returns (out: seq<byte>)
      requires Valid() && recv == mode && |block| == 1024
      modifies this, romChip, romBuf
      ensures Valid()
      ensures var r := OnBlock(old(Model()), block); Model() == r.st && out == r.out
    {
      ghost var chip := romChip[..];
      forall i | 0 <= i < 1024 {
        romBuf[i] := block[i];
      }
      assert romBuf[..] == block && romChip[..] == chip;
      var param: u16 := 0;
      var i := 0;
      while i < 1024
        invariant 0 <= i <= 1024 && Valid() && romBuf[..] == block && romChip[..] == chip
        invariant Model() == old(Model())
        invariant param == Checksum(romBuf[..i])
      {
        assert romBuf[..i + 1] == romBuf[..i] + [romBuf[i]];
        ChecksumSnoc(romBuf[..i], romBuf[i]);
        param := AddWrap(param, romBuf[i]);
        i := i + 1;
      }
      assert romBuf[..1024] == block;
      if param == chksum {
        RomWrite(addr, 1024);
        assert romChip[..] == Store(chip, addr, block);
        param := RomCheck(addr, 1024);
        out := if param == chksum then LineBytes("OK!") else LineBytes("ERR");
      } else {
        out := LineBytes("ERR");
      }
      recv := 0;
    }

    /** The main loop of main.c (lines 66-170) run over `input` until it
      waits for bytes that have not come. */
    method Run(input: seq<byte>) returns (out: seq<byte>, pending: seq<byte>)
      requires Valid()
      modifies this, romChip, romBuf
      ensures Valid()
      ensures var r := Serve(old(Model()), input); Model() == r.st && out == r.out && pending == r.pending
    {
      ghost var all := Serve(Model(), input);
      var pos := 0;
      out := [];
      while true
        invariant 0 <= pos <= |input| && Valid()
        invariant var rest := Serve(Model(), input[pos..]);
          all.st == rest.st && all.out == out + rest.out && all.pending == rest.pending
        decreases |input| - pos
      {
        ghost var rest := input[pos..];
        if recv == mode {
          if |input| - pos < 1024 {
            pending := input[pos..];
            return;
          }
          assert rest[..1024] == input[pos..pos + 1024] && rest[1024..] == input[pos + 1024..];
          var o := ReceiveBlock(input[pos..pos + 1024]);
          AppendAssoc(out, o, Serve(Model(), input[pos + 1024..]).out);
          out, pos := out + o, pos + 1024;
        } else if pos == |input| {
          pending := [];
          return;
        } else if !TakesOperand(input[pos]) {
          // `default: delay(10);`
          assert rest[1..] == input[pos + 1..];
          pos := pos + 1;
        } else if |input| - pos < 3 {
          pending := input[pos..];
          return;
        } else {
          assert rest[3..] == input[pos + 3..];
          var o := Command(input[pos], Le16(input[pos + 1], input[pos + 2]));
          AppendAssoc(out, o, Serve(Model(), input[pos + 3..]).out);
          out, pos := out + o, pos + 3;
        }
      }
    }
  }
}
