/** The programmer's view of the memory chip `ROM_CHIP`: `size` cells (the
    board's `XDATA_XCS1_SIZE`, below 65536) reached through a 16-bit index
    that wraps around. Cells at or past `size` are not part of the chip.
    main.c reaches them without a bound check, an access outside the chip
    whose effect the source leaves undefined; the model fixes one: writes
    to them are dropped and they read as zero. */
module Chip {
  import opened Bytes

  /** The cell `addr + i` reaches with 16-bit unsigned arithmetic. */
  function Cell(a: u16, i: int): (c: u16)
  {
    (a + i) % 0x1_0000
  }

  /** The byte the programmer sees at cell `c`: zero past the chip. */
  function At(rom: seq<byte>, c: int): (b: byte)
  {
    if 0 <= c < |rom| then rom[c] else 0
  }

  /** The `len` cells from `a` on, as read back by `romCheck` and sent by
      the dump command. */
  function Window(rom: seq<byte>, a: u16, len: nat): (r: seq<byte>)
    ensures |r| == len
  {
    seq(len, i requires 0 <= i < len => At(rom, Cell(a, i)))
  }

  /** The chip after `romWrite(a, data, |data|)`: a cell takes the byte of
      `data` whose offset reaches it, and keeps its value otherwise. */
  function Store(rom: seq<byte>, a: u16, data: seq<byte>): (r: seq<byte>)
    requires |data| <= 0x1_0000
    ensures |r| == |rom|
  {
    seq(|rom|, k requires 0 <= k < |rom| =>
      var i := (k - a) % 0x1_0000;
      if i < |data| then data[i] else rom[k])
  }

  /** The chip after `romErase`. */
  function Zeros(n: nat): (r: seq<byte>)
    ensures |r| == n && forall k :: 0 <= k < n ==> r[k] == 0
  {
    seq(n, k => 0)
  }

  /** Offset `i` reaches cell `k` exactly when it is `(k - a) mod 65536`:
      below 65536, the offset that reaches a cell is unique. */
  lemma CellOffset(a: u16, i: int, k: int)
    requires 0 <= i < 0x1_0000 && 0 <= k < 0x1_0000
    ensures Cell(a, i) == k <==> i == (k - a) % 0x1_0000
  {
  }

  /** Writing one more byte: the byte goes to its cell, if that cell is on
      the chip, and nothing else changes. */
  lemma StoreSnoc(rom: seq<byte>, a: u16, data: seq<byte>, b: byte)
    requires |data| < 0x1_0000 && |rom| <= 0x1_0000
    ensures var c := Cell(a, |data|);
      Store(rom, a, data + [b]) ==
        if c < |rom| then Store(rom, a, data)[c := b] else Store(rom, a, data)
  {
    var c := Cell(a, |data|);
    var s0 := Store(rom, a, data);
    var l := Store(rom, a, data + [b]);
    var r := if c < |rom| then s0[c := b] else s0;
    forall k | 0 <= k < |rom| ensures l[k] == r[k] {
      var i := (k - a) % 0x1_0000;
      CellOffset(a, |data|, k);
      if i < |data| {
        assert l[k] == data[i] == s0[k];
      } else if i == |data| {
        assert l[k] == b;
      } else {
        assert l[k] == rom[k] == s0[k];
      }
    }
  }

  /** An empty write leaves the chip as it was. */
  lemma StoreNothing(rom: seq<byte>, a: u16)
    ensures Store(rom, a, []) == rom
  {
  }

  /** `romWrite` changes only the cells `a .. a + |data| - 1` (mod 65536). */
  lemma StoreFrame(rom: seq<byte>, a: u16, data: seq<byte>, k: nat)
    requires |data| <= 0x1_0000 && k < |rom| <= 0x1_0000
    requires forall i :: 0 <= i < |data| ==> Cell(a, i) != k
    ensures Store(rom, a, data)[k] == rom[k]
  {
    var i := (k - a) % 0x1_0000;
    if i < |data| {
      CellOffset(a, i, k);
    }
  }

  /** Reading back what was written: when the range lies on the chip, the
      window at `a` is the data. */
  lemma StoreThenWindow(rom: seq<byte>, a: u16, data: seq<byte>)
    requires a + |data| <= |rom| <= 0x1_0000
    ensures Window(Store(rom, a, data), a, |data|) == data
  {
    var w := Window(Store(rom, a, data), a, |data|);
    forall i | 0 <= i < |data| ensures w[i] == data[i] {
      CellOffset(a, i, a + i);
    }
  }

  /** A write elsewhere on the chip leaves a window untouched. */
  lemma StoreOutsideWindow(rom: seq<byte>, a: u16, data: seq<byte>, b: u16, len: nat)
    requires a + |data| <= |rom| <= 0x1_0000 && b + len <= |rom|
    requires a + |data| <= b || b + len <= a
    ensures Window(Store(rom, a, data), b, len) == Window(rom, b, len)
  {
    var l, r := Window(Store(rom, a, data), b, len), Window(rom, b, len);
    forall i | 0 <= i < len ensures l[i] == r[i] {
      assert Cell(b, i) == b + i;
      StoreFrame(rom, a, data, b + i);
    }
  }

  /** The window of an erased chip reads as zeros. */
  lemma ErasedWindow(n: nat, a: u16, len: nat)
    ensures Window(Zeros(n), a, len) == Zeros(len)
  {
  }

  /** Reading one more cell extends the window by that cell. */
  lemma WindowSnoc(rom: seq<byte>, a: u16, len: nat)
    ensures Window(rom, a, len + 1) == Window(rom, a, len) + [At(rom, Cell(a, len))]
  {
  }

  /** Writing a block at `a` and then another after it: the first block's
      window survives when the two ranges do not overlap. */
  lemma StoreKeepsEarlier(rom: seq<byte>, a: u16, d: seq<byte>, b: u16, e: seq<byte>)
    requires a + |d| <= b && b + |e| <= |rom| <= 0x1_0000
    ensures Window(Store(Store(rom, a, d), b, e), a, |d|) == d
  {
    StoreThenWindow(rom, a, d);
    StoreOutsideWindow(Store(rom, a, d), b, e, a, |d|);
  }
}
