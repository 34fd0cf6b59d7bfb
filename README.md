# NSBUN block-transfer protocol, modelled in Dafny

NSBUN programs a parallel EEPROM or FRAM chip through a small 8051-class
board. Two host programs talk to the board's firmware over a serial line:

- **Burner** writes a file to the chip, or dumps a region of the chip to a
  file.
- **RomLoader** is a write-only copy of Burner's write path.

Both sides speak one protocol:

- Every command is three bytes: an opcode, then a 16-bit operand, low byte
  first.
- Data moves in 1024-byte blocks, each guarded by a 16-bit wrapping sum.
- The firmware replies with the ASCII lines "GO!", "OK!" or "ERR".

This project models both ends of the protocol and proves properties of each
end alone and of the two run against each other.

Host side:

- `Bytes` holds bytes, the 16-bit checksum, the low/high split of 16-bit
  values, command frames and reply lines.
- `Channel` is the serial port as a class `Port`. Its fields are:
  - a log of every byte written;
  - the script of reply lines still to be read;
  - the script of 1026-byte arrivals still to come, each of which may fail.
- `Engine` holds the host's write and dump paths in two forms:
  - specification functions of the reply scripts: `WritePath`, `DumpPath`
    and their per-block steps;
  - the imperative loops of Burner/Program.cs as methods on a `Port`.

  The methods `Burn`, `Dump`, `BurnBlocks`, `FetchBlocks`, `BlockChecksum`
  and `CheckFrame` are proved to send exactly, consume exactly and return
  exactly what the functions say.
- `Transfer` proves properties of those functions:
  - what an accepting programmer makes the host send;
  - why a loop stops early;
  - the erase gate;
  - that bytes past the last whole block never leave the host;
  - the all-or-nothing dump file.
- `Args` parses decimal and "0x" hexadecimal numbers the way `int.Parse`
  does, and reads `ADDR[:SIZE]` and `PORT@BAUD`. Every value it prints, it
  reads back.
- `Burner` and `RomLoader` hold each program's command line and top-level
  run.

Firmware side (main.c):

- `Chip` models the chip. Its size is a parameter (`XDATA_XCS1_SIZE`) below
  65536, and it is reached through a wrapping 16-bit index.
- `Firmware` models the interpreter in two forms:
  - a specification over values: `OnCommand` and `OnBlock`, plus `Serve`,
    the main loop over a byte stream;
  - the class `Programmer`, whose fields are the C globals and whose arrays
    `romChip` and `romBuf` are updated in place by `RomWrite`, `RomCheck`,
    `RomErase`, `SendPage`, `Command`, `ReceiveBlock` and `Run`. Each method
    is proved to follow the specification.
- `Protocol` states what each command frame and each received block does.

Both sides together:

- `RoundTrip` feeds the bytes of a host session to the interpreter.
- A write session is answered with exactly the replies that make the host
  report success, and it leaves the file's whole blocks on the chip.
- A dump session then reads those bytes back as the dump file.

Both loops run `length / 1024` blocks, with C#'s truncating division. The
branches for a final short block are therefore never reached. The model
proves this (`assert false` in the block method) and does not model those
branches. A trailing partial block is never sent and never dumped.

Burner's usage line advertises `[-F] [-E|-D] PORT [ADDR[:SIZE]] binfile`,
which can be five arguments. The argument count check refuses more than
four, so the full form is answered with the usage text
(`Burner.AllOptionsRefused`). `Burner.Expressible` states which option sets
fit in four arguments.

## Model

| member | source | states |
|---|---|---|
| Bytes.ChecksumSnoc | Burner/Program.cs:236-238 | adding one more byte to the `ushort` accumulator gives the checksum of the longer sequence |
| Bytes.ChecksumAppend | main.c:72-73 | the checksum of two pieces is the wrapped sum of their checksums |
| Bytes.JoinSplit | main.c:161-162 | two bytes read little-endian and split again give the same two bytes |
| Bytes.Cmd | Burner/Program.cs:206-207 | a command frame is three bytes: the opcode, then the operand's low 16 bits, low byte first |
| Channel.Port.Write | Burner/Program.cs:76-79 | `write` appends its bytes to the log and leaves both reply scripts alone |
| Channel.Port.ReadLine | Burner/Program.cs:187 | `ReadLine` returns the next scripted line and consumes it |
| Channel.Port.ReadExact | Burner/Program.cs:148 | the timed read of 1026 bytes succeeds exactly when the next arrival is a 1026-byte frame, and consumes that arrival |
| Engine.QuotTruncates | Burner/Program.cs:204 | C#'s `/` truncates toward zero: the remainder has the dividend's sign |
| Engine.BlockInRange | Burner/Program.cs:204-209 | inside the loop `len = data.Length - blk * 1024` is at least 1024, so the short-block branch is unreachable |
| Engine.AddrCmd | Burner/Program.cs:206-207 | SET_ADDR is `0xA5` followed by the low 16 bits of `addr + blk * 1024`, low byte first |
| Engine.AddressAliases | Burner/Program.cs:206-207 | base addresses 65536 apart give the same SET_ADDR: only 16 bits are ever sent |
| Engine.BlockHeaderLayout | Burner/Program.cs:236-241 | a block's header is SET_ADDR, then `0xA9` with the 16-bit sum of its 1024 bytes low byte first, then COMMIT `AA 55 AA` |
| Engine.BlockChecksum | Burner/Program.cs:236-238 | the `ushort` accumulator loop yields the checksum of the range |
| Engine.FrameValidIff | Burner/Program.cs:150-153 | a dump frame is accepted iff its trailing pair, read low byte first, equals the sum of its first 1024 bytes |
| Engine.SealedFrameValid | main.c:150-162 | a page followed by its own sum, low byte first, is accepted and its payload is the page |
| Engine.CheckFrame | Burner/Program.cs:150-153 | the host's check loop decides exactly `FrameValid` |
| Engine.SendBytes | Burner/Program.cs:245-246 | the per-byte `write` loop appends exactly the block's bytes to the log |
| Engine.ReadReply | Burner/Program.cs:242 | one `ReadLine` returns the reply at the current script position and advances it by one |
| Engine.BurnBlock | Burner/Program.cs:206-256 | one block sends the header, on "GO!" its 1024 bytes and reads one more reply, and stops exactly on "ERR", as `WriteStep` says |
| Engine.BurnBlocks | Burner/Program.cs:203-257 | the write loop sends, reads and ends at the block `WriteBlocks` gives for the reply script |
| Engine.Burn | Burner/Program.cs:174-271 | the whole write path sends exactly `WritePath(...).sent`, consumes its replies, and returns its outcome: erase refused, stopped at a block, or transferred |
| Engine.ReadFrame | Burner/Program.cs:147-148 | one timed 1026-byte read returns what the next arrival delivers |
| Engine.FetchBlock | Burner/Program.cs:115-162 | one dump block sends SET_ADDR and COMMIT_DUMP and buffers the 1024 payload bytes exactly when "GO!" and a valid frame came; a failed read stops, as `DumpStep` says |
| Engine.FetchBlocks | Burner/Program.cs:109-164 | the dump loop sends, consumes and buffers what `DumpBlocks` gives |
| Engine.Dump | Burner/Program.cs:99-170 | the whole dump path sends exactly `DumpPath(...).sent` and returns a file only when the loop reached `size / 1024` |
| Transfer.BlocksFit | Burner/Program.cs:204 | `data.Length / 1024` whole blocks fit in the file and cover it up to less than one block |
| Transfer.WriteAcked | Burner/Program.cs:241-256 | against "GO!"/"OK!" replies the loop visits every block, reads two replies per block and sends header plus data for each, in order |
| Transfer.WriteStepReplies | Burner/Program.cs:241-254 | one write pass consumes one reply, or two after "GO!", and stops exactly on "GO!" then "ERR" |
| Transfer.WriteStopCause | Burner/Program.cs:250-254 | the loop stops before the last block only on an "ERR" that directly follows a "GO!" |
| Transfer.WriteWithoutErr | Burner/Program.cs:242-256 | with no "ERR" in the replies the loop reaches `data.Length / 1024`, even when some COMMIT is not answered "GO!" |
| Transfer.WriteIgnoresTail | Burner/Program.cs:204-209 | the loop over a file behaves exactly as the loop over its whole blocks: trailing bytes are never sent |
| Transfer.EraseGate | Burner/Program.cs:192-197 | with `-E`, the session continues iff the erase reply is "OK!"; otherwise only the prologue and ERASE are sent, so neither blocks nor the SDP-enable epilogue go out |
| Transfer.NoEraseNoGate | Burner/Program.cs:176-204 | without `-E` the gate is always open and reads no reply: the block loop starts at the first reply after the prologue's, and the session is the prologue, the loop and the epilogue |
| Transfer.WriteSessionAcked | Burner/Program.cs:174-271 | against an accepting programmer the session sends prologue, optional ERASE, every block and (EEPROM) SDP-enable, and reports the whole file length |
| Transfer.Seal | main.c:150-162 | a sealed page is 1026 bytes, accepted by the host, and carries the page |
| Transfer.DumpServed | Burner/Program.cs:113-164 | when every request is answered "GO!" and a sealed page, the loop visits every block and buffers the pages in order |
| Transfer.DumpStopCause | Burner/Program.cs:144-161 | the dump loop ends early only after a "GO!" whose timed read was short, late or failed the checksum |
| Transfer.DumpFileShape | Burner/Program.cs:113-164 | the dump buffer is whole pages, at most one per visited block; one frame is read per "GO!", and every frame read adds its page except one that stops the loop |
| Transfer.PagePayload | Burner/Program.cs:144-161 | one dump pass consumes one reply, reads a frame exactly after "GO!", and buffers a page for it unless the frame stops the loop |
| Transfer.DumpFileLength | Burner/Program.cs:143-168 | the file is written exactly when the loop reached `size / 1024`, and then its length is 1024 times the number of "GO!" replies, one frame read for each |
| Transfer.DumpNeverGo | Burner/Program.cs:144 | a programmer that never says "GO!" still gets a file written, and it is empty; only a size below -1023 writes none |
| Transfer.DumpSessionServed | Burner/Program.cs:99-170 | a fully served dump writes exactly the pages, in order, after sending the FRAM switch and one request per block |
| Chip.StoreSnoc | main.c:20-21 | writing one more byte puts it in its wrapped cell if that cell is on the chip, and changes nothing else |
| Chip.StoreFrame | main.c:19-27 | `romWrite` changes only the cells `addr .. addr+len-1` (mod 65536) |
| Chip.StoreThenWindow | main.c:29-35 | reading back a range written on the chip gives the written bytes |
| Chip.StoreOutsideWindow | main.c:19-27 | a write leaves every window it does not overlap untouched |
| Chip.ErasedWindow | main.c:37-45 | every window of an erased chip reads as zeros |
| Chip.WindowSnoc | main.c:152-160 | reading one more cell extends the window by that cell, zero past the chip |
| Firmware.Page | main.c:150-162 | the dump reply is 1026 bytes: the window and its sum |
| Firmware.Programmer.constructor | main.c:11-17 | power-on: EEPROM mode, zeroed registers, `recv` idle, the chip holding the given contents |
| Firmware.Programmer.RomWrite | main.c:19-27 | the array `romChip` afterwards equals `Store` of its old contents with the first `len` bytes of `rom_buf` |
| Firmware.Programmer.RomCheck | main.c:29-35 | returns the 16-bit sum of the `len` cells from `addr`, wrapping, zero past the chip |
| Firmware.Programmer.RomErase | main.c:37-45 | every cell of `romChip` becomes 0 |
| Firmware.Programmer.SendPage | main.c:147-163 | sends "GO!", the 1024 cells from `addr` (zero past the chip), then their sum low byte first |
| Firmware.Programmer.Command | main.c:88-169 | one opcode with its operand changes the globals and the chip exactly as `OnCommand` says |
| Firmware.Programmer.ReceiveBlock | main.c:68-87 | a received block is summed, written and read back; the state and the reply are those of `OnBlock` |
| Firmware.Programmer.Run | main.c:66-170 | the main loop over an input stream ends in the state, output and pending bytes of `Serve` |
| Protocol.ServeAppend | main.c:66-170 | running the loop over two pieces of input is running it over one, then the other |
| Protocol.ServeCmd | main.c:88-90 | an idle interpreter decodes a host command frame as its opcode and the operand's low 16 bits |
| Protocol.ServeKeepsGood | main.c:66-170 | every step keeps a valid mode, `recv` idle or equal to the mode, and the chip size |
| Protocol.UnknownSkipped | main.c:166-168 | an unknown opcode byte is skipped without effect |
| Protocol.ModeFrames | main.c:119-127 | `99 66 66` selects FRAM and `99 00 00` selects EEPROM, silently, with nothing else changed |
| Protocol.ModeDefaultsToEeprom | main.c:121-125 | every operand other than 0x6666 selects EEPROM |
| Protocol.RegisterFrames | main.c:128-137 | 0xA5 and 0xA9 store their operand in `addr` and `chksum` and change nothing else |
| Protocol.SdpFrames | main.c:97-118 | 0x59 answers "OK!" and records disable (0x5555) or enable in EEPROM mode; in FRAM mode it is silent and changes nothing |
| Protocol.EraseFrame | main.c:89-96 | `55 32 32` zeroes every cell and answers "OK!" |
| Protocol.CommitFrame | main.c:138-146 | `AA 55 AA` arms reception in the current mode and answers "GO!"; any other operand does nothing |
| Protocol.BadBlockRefused | main.c:75-85 | a block whose sum is not `chksum` is answered "ERR", the chip is unchanged, and `recv` returns to 0 |
| Protocol.GoodBlockStored | main.c:75-85 | a block with the right sum is written at `addr`; cells outside it keep their values; on the chip it reads back and is answered "OK!" |
| Protocol.PageAccepted | main.c:150-162 | the page the dump command sends passes the host's frame check, carries the chip's cells, and is zero past the chip |
| Protocol.DumpFrame | main.c:147-163 | `AB AA 55` answers "GO!" and the page at `addr`, and changes nothing |
| RoundTrip.AckLinesAccepting | Burner/Program.cs:241-255 | the reply lines of `n` accepted blocks are an accepting script, wherever they sit |
| RoundTrip.StoredWindow | main.c:19-35 | after blocks `blk..blk+n-1` are stored one after another, their whole range reads back as the file's bytes |
| RoundTrip.StoredOutside | main.c:19-27 | storing blocks leaves windows outside their range untouched |
| RoundTrip.HeaderArms | main.c:128-146 | SET_ADDR, SET_CHECKSUM and COMMIT set the registers, arm reception and answer "GO!" |
| RoundTrip.BlockStored | main.c:68-87 | one block as the host frames it is answered "GO!" then "OK!" and lands at its base cell |
| RoundTrip.FramesStored | main.c:66-170 | the write loop's frames for `n` blocks are answered by `n` "GO!"/"OK!" pairs and leave the programmer in the `Accepted` state |
| RoundTrip.AcceptedState | main.c:66-87 | after accepted blocks the programmer is idle, in the same mode, with the blocks stored |
| RoundTrip.SetupServed | main.c:89-127 | the session prologue and optional ERASE select the mode, disable SDP for EEPROM, erase when asked, and are answered as the host expects |
| RoundTrip.CloseServed | main.c:97-118 | the SDP-enable epilogue is answered "OK!" in EEPROM mode and records SDP enabled |
| RoundTrip.WriteHost | Burner/Program.cs:174-271 | given the replies a working programmer gives, the host reports the whole file length and sends prologue, blocks and epilogue |
| RoundTrip.WriteServedBy | main.c:66-170 | those bytes, fed to an idle programmer, produce exactly those replies and leave the blocks on the chip, SDP enabled for EEPROM |
| RoundTrip.WriteSession | Burner/Program.cs:174-271 | host and programmer agree on a whole write session: the replies the host reads are those the programmer sends, the host reports success, and the chip holds the file's whole blocks at ADDR |
| RoundTrip.PagesFlatten | main.c:147-162 | the pages of consecutive requests laid end to end are the chip's window over the region |
| RoundTrip.RequestsServed | main.c:147-165 | the dump loop's requests are answered "GO!" and each block's page, and only `addr` changes |
| RoundTrip.RequestServed | main.c:128-163 | one SET_ADDR and COMMIT_DUMP pair is answered "GO!" and the page at the block's base |
| RoundTrip.DumpHost | Burner/Program.cs:99-170 | given "GO!" and the sealed pages, the host sends one request per block and writes the region's window as the file |
| RoundTrip.DumpServedBy | main.c:66-170 | those requests, fed to an idle programmer, produce those answers and leave the chip unchanged |
| RoundTrip.DumpSession | Burner/Program.cs:99-170 | host and programmer agree on a whole dump session: the file is the chip's window over the region |
| RoundTrip.WriteThenDump | Burner/Program.cs:99-271 | after a write session, a dump of the same address and the file's length returns the file's whole blocks, and the whole file when its length is a multiple of 1024 |
| Args.ParseDecimal | Burner/Program.cs:58 | `int.Parse` succeeds only on values in the 32-bit range |
| Args.ToInt32 | Burner/Program.cs:58 | a 32-bit pattern read as `int` is in range and congruent to the pattern mod 2^32 |
| Args.NumeralValue | Burner/Program.cs:58-63 | a numeral printed in base 10 or 16 reads back as its number |
| Args.DecimalRoundTrip | Burner/Program.cs:58-63 | every 32-bit `int` printed in decimal parses back to itself, with or without the "0x" test in front |
| Args.HexRoundTrip | Burner/Program.cs:58-63 | every 32-bit pattern after "0x" parses back as the `int` with those bits, so "0xFFFFFFFF" is -1 |
| Args.UpperPrefixRejected | Burner/Program.cs:63 | after "0X" nothing parses: the prefix test is case-sensitive |
| Args.HexOverflow | Burner/Program.cs:63 | hexadecimal wider than 32 bits fails |
| Args.Split | Burner/Program.cs:57 | `Split` gives at least one piece, and two or more exactly when the separator occurs |
| Args.SplitFirst | Burner/Program.cs:57 | a separator-free piece, the separator and a rest split into the piece followed by the rest's pieces |
| Args.RegionRoundTrip | Burner/Program.cs:55-65 | `ADDR:SIZE` and `ADDR` printed in decimal parse back to their region, with size 0x8000 when absent |
| Args.DecimalColonFree | Burner/Program.cs:55 | a decimal numeral contains neither ':' nor '@' |
| Args.PortRoundTrip | Burner/Program.cs:69-72 | `NAME@BAUD` parses back to its name and rate, and a bare name gets 500000 |
| Burner.ParseShape | Burner/Program.cs:5-43 | the usage text is shown exactly for fewer than two or more than four arguments, and a run never both erases and dumps |
| Burner.AllOptionsRefused | Burner/Program.cs:5-8 | the five-argument form the usage line advertises is refused with the usage text |
| Burner.FlagsStripped | Burner/Program.cs:24-43 | the flags of a command line are read off in order, leaving the operands |
| Burner.ParseCommandLine | Burner/Program.cs:24-72 | every option set that fits in four arguments, written out as a command line, parses back to itself |
| Burner.Run | Burner/Program.cs:5-275 | the program shows usage, fails to parse, dumps, or writes; it sends exactly what the chosen path sends and consumes exactly its replies and frames, and touches neither on a bad command line |
| RomLoader.ParseAddress | RomLoader/Program.cs:38-46 | ADDR in decimal or after "0x" in hexadecimal parses back, the port gets 500000 baud, and `ADDR:SIZE` is not accepted |
| RomLoader.ColonRefused | RomLoader/Program.cs:40 | a number followed by a colon does not parse |
| RomLoader.Run | RomLoader/Program.cs:60-156 | RomLoader sends and consumes exactly what Burner's write path does for the same options, and touches nothing on a bad command line |

## Left out

- Serial I/O is replaced by the `Port` class. It holds a byte log and
  scripted replies. Port opening, closing, buffer sizes and the
  `SerialPort` constructor's own argument checks are not modelled.
- `ReadLine` on an exhausted script returns "". A real port would block or
  time out.
- The `BytesToWrite` drain loop with `delay_us` is time-based polling with no
  effect on the bytes, so it is not modelled.
- `wait_data`'s one-second deadline is timing. An arrival in the script
  that is `TimedOut`, or of the wrong length, stands for it.
- Console output, the progress percentages (floating point) and the
  `CancelKeyPress` handler are not modelled.
- `File.ReadAllBytes` and `File.WriteAllBytes` become an input sequence and
  an `Option` result.
- `int.Parse` is modelled for ASCII input only:
  - leading and trailing white space is not accepted;
  - culture-specific signs and digits are not modelled;
  - `ToLower` and `StartsWith` are compared on ASCII characters only.
- Firmware hardware setup is not modelled: clock, XBUS and pin registers,
  the LED, `delay`, and the interrupt declarations.
- The SDP unlock write sequences are recorded as `Disabled` or `Enabled`.
  The individual chip writes they make are not modelled.
- The UART primitives in `sys.h` are not part of this model. A command
  whose operand bytes have not all arrived is left pending. A block is
  taken only when all 1024 bytes have arrived.
- Chip size: `XDATA_XCS1_SIZE` is the length of the chip array and is below
  65536. main.c indexes `ROM_CHIP[addr + i]` without a bound check. An index
  past the chip is therefore an access outside the chip on the XDATA bus,
  whose effect the source leaves undefined. The model fixes a value for it:
  such writes are dropped and such reads give 0.
- Engine.FetchBlocks: states the buffered bytes only when the loop ran to
  `size / 1024`, the only case in which the buffer becomes a file.
